/** What the companion rules amount to, and why the loop search never changes the verdict. */
module LayoutCompanions {
  import opened Prelude
  import opened CompanionGraph
  import opened Layout

  /** Each companion edge is a clean pair: declared, accessible, same section, unchained, unshared. */
  ghost predicate SoundEdge(index: Index, k: Key)
    requires k in index.at
  {
    index.at[k].seat.companionOfKey.Some? ==>
      var target := index.at[k].seat.companionOfKey.value;
      && target != k
      && target in index.at
      && index.at[target].section.key == index.at[k].section.key
      && index.at[target].seat.accessible
      && index.at[target].seat.companionOfKey.None?
      && forall other :: other in index.at && other != k ==> index.at[other].seat.companionOfKey != Some(target)
  }

  ghost predicate SoundCompanions(index: Index) {
    forall k :: k in index.at ==> SoundEdge(index, k)
  }

  ghost predicate CompanionPassSilent(index: Index) {
    && (forall c :: IsSeatCompanionRule(c) ==> !AnyBreaks(index, {}, {}, {}, index.order, c))
    && !TwoClaimOne(index, index.at.Keys)
  }

  lemma SilentSeat(index: Index, k: Key, c: Code)
    requires WellIndexed(index) && CompanionPassSilent(index) && k in index.at && IsSeatCompanionRule(c)
    ensures !SeatBreaks(index, {}, {}, {}, k, c)
  {
    assert !AnyBreaks(index, {}, {}, {}, index.order, c);
  }

  lemma SilentMeansSound(index: Index)
    requires WellIndexed(index) && CompanionPassSilent(index)
    ensures SoundCompanions(index)
  {
    forall k | k in index.at ensures SoundEdge(index, k) {
      SilentEdge(index, k);
    }
  }

  lemma SilentEdge(index: Index, k: Key)
    requires WellIndexed(index) && CompanionPassSilent(index) && k in index.at
    ensures SoundEdge(index, k)
  {
    hide CompanionPassSilent;
    SilentSeat(index, k, CompanionSelf);
    SilentSeat(index, k, UnknownCompanion);
    SilentSeat(index, k, CompanionCrossSection);
    SilentSeat(index, k, CompanionNotAccessible);
    SilentSeat(index, k, CompanionChain);
    if ClaimsPartner(index, k) {
      SilentUnshared(index, k);
    }
  }

  /** The target has no companion of its own, so a second claimant would be another seat. */
  lemma SilentUnshared(index: Index, k: Key)
    requires WellIndexed(index) && CompanionPassSilent(index) && ClaimsPartner(index, k)
    ensures forall other :: other in index.at && other != k ==>
      index.at[other].seat.companionOfKey != index.at[k].seat.companionOfKey
  {
    SilentSeat(index, k, CompanionChain);
    forall other | other in index.at && other != k
      ensures index.at[other].seat.companionOfKey != index.at[k].seat.companionOfKey
    {
      assert ClaimsPartner(index, other) && index.at[other].seat.companionOfKey == index.at[k].seat.companionOfKey
        ==> TwoClaimOne(index, index.at.Keys);
    }
  }

  lemma SoundMeansSilent(index: Index)
    requires WellIndexed(index) && SoundCompanions(index)
    ensures CompanionPassSilent(index)
  {
    forall k, c | k in index.at && IsSeatCompanionRule(c)
      ensures !SeatBreaks(index, {}, {}, {}, k, c)
    {
      assert SoundEdge(index, k);
    }
    assert forall a :: a in index.at ==> SoundEdge(index, a);
  }

  /** The companion pass reports nothing exactly when every companion edge is a clean pair. */
  lemma CompanionVerdictExact(index: Index)
    requires WellIndexed(index)
    ensures CompanionPassSilent(index) <==> SoundCompanions(index)
  {
    if CompanionPassSilent(index) {
      SilentMeansSound(index);
    } else if SoundCompanions(index) {
      SoundMeansSilent(index);
    }
  }

  /** Any loop already makes a seat its own companion, or a companion with a companion. */
  lemma LoopsBreakAnotherRule(index: Index)
    requires WellIndexed(index) && !Acyclic(CompanionsOf(index))
    ensures AnyBreaks(index, {}, {}, {}, index.order, CompanionSelf)
         || AnyBreaks(index, {}, {}, {}, index.order, CompanionChain)
  {
    var g := CompanionsOf(index);
    var k :| OnLoop(g, k);
    var c :| IsLoop(g, c) && k in c;
    assert Next(g, c[0]) == Some(c[After(0, |c|)]);
    if |c| == 1 {
      assert SeatBreaks(index, {}, {}, {}, c[0], CompanionSelf);
    } else {
      assert c[0] != c[1];
      assert Next(g, c[1]) == Some(c[After(1, |c|)]);
      assert SeatBreaks(index, {}, {}, {}, c[0], CompanionChain);
    }
  }

  /** The companion rules read no table but the index. */
  lemma SameForTables(index: Index, zoneKeys: set<Key>, rowKeys: set<Key>, sectionKeys: set<Key>)
    ensures forall c :: IsSeatCompanionRule(c) ==>
      (AnyBreaks(index, {}, {}, {}, index.order, c)
       <==> AnyBreaks(index, zoneKeys, rowKeys, sectionKeys, index.order, c))
  {
    assert forall k, c :: k in index.at && IsSeatCompanionRule(c) ==>
      (SeatBreaks(index, {}, {}, {}, k, c) <==> SeatBreaks(index, zoneKeys, rowKeys, sectionKeys, k, c));
  }

  ghost predicate Accepted(layout: LayoutDraft) { forall c :: !Broken(layout, c) }

  /** The loop search adds issues but never decides: without it the verdict is the same. */
  lemma CycleSearchNeverDecides(layout: LayoutDraft)
    ensures Accepted(layout) <==> forall c :: c != CompanionCycle ==> !Broken(layout, c)
  {
    hide Broken;
    if Broken(layout, CompanionCycle) {
      CycleBreaksPairs(layout);
    }
  }

  lemma CycleBreaksPairs(layout: LayoutDraft)
    requires Broken(layout, CompanionCycle)
    ensures Broken(layout, CompanionSelf) || Broken(layout, CompanionChain)
  {
    hide AnyBreaks, Acyclic, Distinct, TwoClaimOne, Elements, Map, AllRows, KindFaults, CompanionsOf;
    var index := IndexOf(AllPlaced(layout.sections));
    LoopsBreakAnotherRule(index);
    SameForTables(index, Elements(Map(ZoneKeyOf, layout.zones)),
                      Elements(Map(RowKeyOf, AllRows(layout.sections))),
                      Elements(Map(SectionKeyOf, layout.sections)));
  }

  /** What acceptance says of every seat of the layout, not only of the indexed ones. */
  lemma AcceptedSeatsPair(layout: LayoutDraft)
    requires Accepted(layout)
    ensures var placed := AllPlaced(layout.sections); var index := IndexOf(placed);
            && Distinct(Map(SeatKeyOf, placed))
            && (forall p :: p in placed ==> p.seat.key in index.at && index.at[p.seat.key] == p)
            && SoundCompanions(index)
  {
    hide Broken, Accepted, Distinct, CompanionPassSilent, SoundCompanions, AllPlaced, IndexOf, Map;
    var placed := AllPlaced(layout.sections);
    AcceptedIsSilent(layout);
    AcceptedIsDistinct(layout);
    UniqueKeysIndexEverySeat(placed);
    SilentMeansSound(IndexOf(placed));
  }

  lemma AcceptedIsDistinct(layout: LayoutDraft)
    requires Accepted(layout)
    ensures Distinct(Map(SeatKeyOf, AllPlaced(layout.sections)))
  {
    hide Distinct, Map, AllPlaced, IndexOf;
    assert !Broken(layout, DuplicateSeatKey);
  }

  lemma AcceptedIsSilent(layout: LayoutDraft)
    requires Accepted(layout)
    ensures CompanionPassSilent(IndexOf(AllPlaced(layout.sections)))
  {
    hide AnyBreaks, Distinct, TwoClaimOne, Elements, Map, AllRows, KindFaults, CompanionsOf, Acyclic;
    var index := IndexOf(AllPlaced(layout.sections));
    SameForTables(index, Elements(Map(ZoneKeyOf, layout.zones)),
                      Elements(Map(RowKeyOf, AllRows(layout.sections))),
                      Elements(Map(SectionKeyOf, layout.sections)));
    assert !Broken(layout, CompanionShared);
    forall c | IsSeatCompanionRule(c) ensures !AnyBreaks(index, {}, {}, {}, index.order, c) {
      assert !Broken(layout, c);
    }
  }
}
