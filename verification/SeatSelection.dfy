/** Selections on layouts the validator accepted, and the selection check itself. */
module SeatPairs {
  import opened Prelude
  import opened CompanionGraph
  import L = Layout
  import opened LayoutCompanions
  import opened Seating

  /** Seat rows whose companion edges are clean pairs. */
  ghost predicate Paired(seats: seq<MapSeat>) {
    && (forall i, j :: 0 <= i < j < |seats| ==> seats[i].id != seats[j].id)
    && (forall s :: s in seats && s.companionOfSeatId.Some? ==> PairedSeat(seats, s))
  }

  ghost predicate PairedSeat(seats: seq<MapSeat>, s: MapSeat)
    requires s.companionOfSeatId.Some?
  {
    var target := s.companionOfSeatId.value;
    && target != s.id && target != ""
    && ById(seats, target).Some? && ById(seats, target).value.companionOfSeatId.None?
    && forall other :: other in seats && other.companionOfSeatId == Some(target) ==> other == s
  }

  /** Every seat key has its own, non-empty, row id. */
  ghost predicate Mints(placed: seq<L.Placed>, mint: map<Key, Id>) {
    && (forall p :: p in placed ==> p.seat.key in mint && mint[p.seat.key] != "")
    && (forall a, b :: a in mint && b in mint && mint[a] == mint[b] ==> a == b)
  }

  function WrittenSeat(p: L.Placed, mint: map<Key, Id>): MapSeat
    requires p.seat.key in mint
  {
    var target := p.seat.companionOfKey;
    MapSeat(mint[p.seat.key],
            if Truthy(target) && target.value in mint then Some(mint[target.value]) else None)
  }

  /** The seat rows an accepted draft is written as: keys become ids, in order. */
  function WrittenSeats(placed: seq<L.Placed>, mint: map<Key, Id>): (r: seq<MapSeat>)
    requires forall p :: p in placed ==> p.seat.key in mint
    ensures |r| == |placed| && forall i :: 0 <= i < |placed| ==> r[i] == WrittenSeat(placed[i], mint)
  {
    seq(|placed|, i requires 0 <= i < |placed| => WrittenSeat(placed[i], mint))
  }

  /** Each row has its own seat's id, and claims another's exactly when its seat claims the other. */
  lemma WrittenClaimsIff(placed: seq<L.Placed>, mint: map<Key, Id>, p: L.Placed, q: L.Placed)
    requires Mints(placed, mint) && p in placed && q in placed && q.seat.key != ""
    ensures var (a, b) := (WrittenSeat(p, mint), WrittenSeat(q, mint));
            a.companionOfSeatId == Some(b.id) <==> p.seat.companionOfKey == Some(q.seat.key)
    ensures WrittenSeat(p, mint).id == mint[p.seat.key]
  {
  }

  lemma UniqueIdsFind(seats: seq<MapSeat>, s: MapSeat)
    requires s in seats && forall i, j :: 0 <= i < j < |seats| ==> seats[i].id != seats[j].id
    ensures ById(seats, s.id) == Some(s)
  {
    var found := ById(seats, s.id);
    var i :| 0 <= i < |seats| && seats[i] == s;
    var j :| 0 <= j < |seats| && seats[j] == found.value;
  }

  /** What the validator accepts is what makes the companion search complete and bounded. */
  lemma AcceptedLayoutPairs(layout: L.LayoutDraft, mint: map<Key, Id>)
    requires Accepted(layout) && Mints(L.AllPlaced(layout.sections), mint)
    ensures Paired(WrittenSeats(L.AllPlaced(layout.sections), mint))
  {
    var placed := L.AllPlaced(layout.sections);
    var index := L.IndexOf(placed);
    AcceptedSeatsPair(layout);
    hide Accepted, L.AllPlaced, L.IndexOf;
    WrittenPairs(placed, index, mint);
  }

  lemma WrittenPairs(placed: seq<L.Placed>, index: L.Index, mint: map<Key, Id>)
    requires Mints(placed, mint) && Distinct(Map(L.SeatKeyOf, placed)) && SoundCompanions(index)
    requires forall p :: p in placed ==> p.seat.key in index.at && index.at[p.seat.key] == p
    requires forall k :: k in index.at ==> index.at[k] in placed && index.at[k].seat.key == k
    ensures Paired(WrittenSeats(placed, mint))
  {
    var seats := WrittenSeats(placed, mint);
    forall i, j | 0 <= i < j < |seats| ensures seats[i].id != seats[j].id {
      assert Map(L.SeatKeyOf, placed)[i] != Map(L.SeatKeyOf, placed)[j];
    }
    forall s | s in seats && s.companionOfSeatId.Some? ensures PairedSeat(seats, s) {
      var i :| 0 <= i < |seats| && seats[i] == s;
      WrittenEdgePairs(placed, index, mint, placed[i]);
    }
  }

  lemma WrittenEdgePairs(placed: seq<L.Placed>, index: L.Index, mint: map<Key, Id>, p: L.Placed)
    requires Mints(placed, mint) && SoundCompanions(index) && p in placed
    requires forall p :: p in placed ==> p.seat.key in index.at && index.at[p.seat.key] == p
    requires forall k :: k in index.at ==> index.at[k] in placed && index.at[k].seat.key == k
    requires forall i, j :: 0 <= i < j < |placed| ==>
      WrittenSeats(placed, mint)[i].id != WrittenSeats(placed, mint)[j].id
    requires WrittenSeat(p, mint).companionOfSeatId.Some?
    ensures PairedSeat(WrittenSeats(placed, mint), WrittenSeat(p, mint))
  {
    var seats, s := WrittenSeats(placed, mint), WrittenSeat(p, mint);
    assert SoundEdge(index, p.seat.key);
    var partner := index.at[p.seat.companionOfKey.value];
    var at :| 0 <= at < |placed| && placed[at] == partner;
    assert seats[at] == WrittenSeat(partner, mint);
    UniqueIdsFind(seats, seats[at]);
    forall other | other in seats && other.companionOfSeatId == s.companionOfSeatId ensures other == s {
      var i :| 0 <= i < |seats| && seats[i] == other;
      assert placed[i].seat.companionOfKey == p.seat.companionOfKey;
      assert placed[i].seat.key == p.seat.key;
    }
  }

  // ---- Pairs ------------------------------------------------------------------

  lemma ClaimantIsUnique(seats: seq<MapSeat>, s: MapSeat)
    requires Paired(seats) && s in seats && s.companionOfSeatId.Some?
    ensures FirstClaimant(seats, s.companionOfSeatId.value) == Some(s)
    ensures FirstClaimant(seats, s.id).None?
  {
    assert PairedSeat(seats, s);
    // A seat with a companion of its own cannot be anybody's target.
    UniqueIdsFind(seats, s);
    assert forall other :: other in seats && other.companionOfSeatId == Some(s.id) ==> !PairedSeat(seats, other);
  }

  /** On clean pairs, binding goes both ways. */
  lemma BindsSymmetric(seats: seq<MapSeat>, x: Id, y: Id)
    requires Paired(seats) && Binds(seats, x, y)
    ensures Binds(seats, y, x)
  {
    var seat := ById(seats, x).value;
    if seat.companionOfSeatId.Some? {
      assert PairedSeat(seats, seat);
      ClaimantIsUnique(seats, seat);
    } else {
      var claimant := FirstClaimant(seats, x).value;
      assert PairedSeat(seats, claimant);
      UniqueIdsFind(seats, claimant);
    }
  }

  /** A closed selection holds every seat its members serve and every seat that serves them. */
  lemma ClosedBothWays(seats: seq<MapSeat>, s: set<Id>, seat: MapSeat)
    requires Paired(seats) && Closed(seats, s) && seat in seats && seat.companionOfSeatId.Some?
    ensures seat.id in s <==> seat.companionOfSeatId.value in s
  {
    assert PairedSeat(seats, seat);
    UniqueIdsFind(seats, seat);
    assert Binds(seats, seat.id, seat.companionOfSeatId.value);
    BindsSymmetric(seats, seat.id, seat.companionOfSeatId.value);
  }

  /** One choice brings at most one other seat. */
  lemma AddAtMostTwo(seats: seq<MapSeat>, id: Id, chosen: seq<Id>)
    requires Paired(seats)
    ensures |Add(seats, id, chosen)| <= |chosen| + 2
  {
    if id !in chosen && ById(seats, id).Some? {
      var seat := ById(seats, id).value;
      var chosen1 := chosen + [id];
      if seat.companionOfSeatId.Some? {
        assert PairedSeat(seats, seat);
        ClaimantIsUnique(seats, seat);
        EndsHere(seats, seat.companionOfSeatId.value, chosen1);
      } else if FirstClaimant(seats, id).Some? {
        var claimant := FirstClaimant(seats, id).value;
        ClaimantIsUnique(seats, claimant);
        UniqueIdsFind(seats, claimant);
        EndsHere(seats, claimant.id, chosen1);
      }
    }
  }

  /** A seat whose only bound seat is already chosen adds itself at most. */
  lemma EndsHere(seats: seq<MapSeat>, id: Id, chosen: seq<Id>)
    requires forall y :: Binds(seats, id, y) ==> y in chosen
    ensures |Add(seats, id, chosen)| <= |chosen| + 1
  {
    if id !in chosen && ById(seats, id).Some? {
      var target := ById(seats, id).value.companionOfSeatId;
      if Truthy(target) { assert Binds(seats, id, target.value); }
      assert AddIf(seats, target, chosen + [id]) == chosen + [id];
      if FirstClaimant(seats, id).Some? { assert Binds(seats, id, FirstClaimant(seats, id).value.id); }
    }
  }

  lemma {:induction false} ChooseAtMostTwice(seats: seq<MapSeat>, ids: seq<Id>, chosen: seq<Id>)
    requires Paired(seats)
    ensures |Choose(seats, ids, chosen)| <= |chosen| + 2 * |ids|
  {
    if ids != [] {
      AddAtMostTwo(seats, ids[0], chosen);
      ChooseAtMostTwice(seats, ids[1..], Add(seats, ids[0], chosen));
    }
  }

  /** On an accepted layout a selection at most doubles, and is closed both ways. */
  lemma SelectionOnAcceptedLayout(layout: L.LayoutDraft, mint: map<Key, Id>, seatIds: seq<Id>, seat: MapSeat)
    requires Accepted(layout) && Mints(L.AllPlaced(layout.sections), mint)
    requires seat in WrittenSeats(L.AllPlaced(layout.sections), mint) && seat.companionOfSeatId.Some?
    ensures var r := WithCompanions(WrittenSeats(L.AllPlaced(layout.sections), mint), seatIds);
            && |r| <= 2 * |seatIds|
            && (seat.id in r <==> seat.companionOfSeatId.value in r)
  {
    AcceptedLayoutPairs(layout, mint);
    var seats := WrittenSeats(L.AllPlaced(layout.sections), mint);
    hide Accepted, L.AllPlaced, Mints;
    ChooseAtMostTwice(seats, seatIds, []);
    SelectionClosure(seats, seatIds);
    ClosedBothWays(seats, Elements(WithCompanions(seats, seatIds)), seat);
  }
}

module SeatSelection {
  import opened Prelude
  import opened CompanionGraph
  import opened Seating
  import opened SeatPairs

  const MAX_SEATS_PER_ORDER: int := 10

  datatype SelectionError = InvalidQuantity | NotFound | SeatUnavailable

  datatype Selection = Selection(seatIds: seq<Id>, eventSeatIds: seq<Id>)

  /** `new Map(eventSeats.map((e) => [e.seatId, e])).get(id)`: the last one wins. */
  function StateOf(eventSeats: seq<EventSeat>, seatId: Id): (r: Option<EventSeat>)
    ensures r.Some? ==> r.value in eventSeats && r.value.seatId == seatId
    ensures r.None? ==> forall e :: e in eventSeats ==> e.seatId != seatId
  {
    if eventSeats == [] then None
    else if eventSeats[|eventSeats| - 1].seatId == seatId then Some(eventSeats[|eventSeats| - 1])
    else StateOf(eventSeats[..|eventSeats| - 1], seatId)
  }

  /** Of several event seats for one seat the last counts. */
  lemma {:induction false} StateIsLast(eventSeats: seq<EventSeat>, j: nat, seatId: Id)
    requires j < |eventSeats| && eventSeats[j].seatId == seatId
    requires forall m :: j < m < |eventSeats| ==> eventSeats[m].seatId != seatId
    ensures StateOf(eventSeats, seatId) == Some(eventSeats[j])
  {
    if j < |eventSeats| - 1 {
      assert eventSeats[|eventSeats| - 1].seatId != seatId;
      StateIsLast(eventSeats[..|eventSeats| - 1], j, seatId);
    }
  }

  function LimitOf(maxPerOrder: Option<int>): int {
    if maxPerOrder.Some? && maxPerOrder.value < MAX_SEATS_PER_ORDER then maxPerOrder.value else MAX_SEATS_PER_ORDER
  }

  /** Why a seat cannot be taken, if it cannot. */
  function Refusal(seats: seq<MapSeat>, eventSeats: seq<EventSeat>, id: Id): Option<SelectionError> {
    if ById(seats, id).None? || StateOf(eventSeats, id).None? then Some(NotFound)
    else if StateOf(eventSeats, id).value.status != Available then Some(SeatUnavailable)
    else None
  }

  predicate CountOk(seatIds: seq<Id>, seats: seq<MapSeat>, maxPerOrder: Option<int>) {
    seatIds != [] && Distinct(seatIds) && |WithCompanions(seats, seatIds)| <= LimitOf(maxPerOrder)
  }

  /** A seat is not found when the map or the session has no such seat, and else the last event seat counts. */
  lemma RefusedIff(seats: seq<MapSeat>, eventSeats: seq<EventSeat>, id: Id)
    ensures var r := Refusal(seats, eventSeats, id);
            && (r == Some(NotFound)
                <==> (forall s :: s in seats ==> s.id != id) || forall e :: e in eventSeats ==> e.seatId != id)
            && (r == Some(SeatUnavailable) ==>
                  exists j :: IsLastFor(eventSeats, j, id) && eventSeats[j].status != Available)
            && (r == None ==> exists j :: IsLastFor(eventSeats, j, id) && eventSeats[j].status == Available)
            && r != Some(InvalidQuantity)
  {
    if e :| e in eventSeats && e.seatId == id {
      var j := LastFor(eventSeats, id);
      StateIsLast(eventSeats, j, id);
    }
  }

  predicate IsLastFor(eventSeats: seq<EventSeat>, j: int, id: Id) {
    && 0 <= j < |eventSeats| && eventSeats[j].seatId == id
    && forall m :: j < m < |eventSeats| ==> eventSeats[m].seatId != id
  }

  lemma {:induction false} LastFor(eventSeats: seq<EventSeat>, id: Id) returns (j: nat)
    requires exists e :: e in eventSeats && e.seatId == id
    ensures IsLastFor(eventSeats, j, id)
  {
    j := |eventSeats| - 1;
    if eventSeats[j].seatId != id { j := LastFor(eventSeats[..j], id); }
  }

  /** Ten seats at most, and no more than the ticket type allows: companions count, and so does every repeat. */
  lemma CountOkIff(seatIds: seq<Id>, seats: seq<MapSeat>, maxPerOrder: Option<int>)
    ensures CountOk(seatIds, seats, maxPerOrder) <==>
      var n := |WithCompanions(seats, seatIds)|;
      seatIds != [] && Distinct(seatIds) && n <= 10 && (maxPerOrder.Some? ==> n <= maxPerOrder.value)
  {
  }

  lemma DistinctIffNoneMerged(s: seq<Id>)
    ensures |Elements(s)| == |s| <==> Distinct(s)
    ensures |Elements(s)| <= |s|
  {
    if s != [] {
      var rest, last := s[..|s| - 1], s[|s| - 1];
      DistinctIffNoneMerged(rest);
      assert s == rest + [last];
      assert Elements(s) == Elements(rest) + {last};
      if last in rest {
        var i :| 0 <= i < |rest| && rest[i] == last;
        assert s[i] == s[|s| - 1];
      }
    }
  }

  /** The event seat of this id is for this seat, and available. */
  predicate IsTakeable(eventSeats: seq<EventSeat>, eventSeatId: Id, seatId: Id) {
    exists e :: e in eventSeats && e.id == eventSeatId && e.seatId == seatId && e.status == Available
  }

  lemma Takeable(seats: seq<MapSeat>, eventSeats: seq<EventSeat>, id: Id)
    requires Refusal(seats, eventSeats, id).None?
    ensures IsTakeable(eventSeats, StateOf(eventSeats, id).value.id, id)
  {
  }

  /**
   * The check before a hold. It succeeds exactly when the count rules hold and
   * every implied seat can be taken; then it returns the closure of the choice,
   * matched position by position to available event seats. Otherwise the error
   * is the first reason met.
   */
  method ValidateSeatSelection(
    seatIds: seq<Id>, seats: seq<MapSeat>, eventSeats: seq<EventSeat>, maxPerOrder: Option<int>)
    returns (r: Result<Selection, SelectionError>)
    ensures r.Ok? <==>
      && CountOk(seatIds, seats, maxPerOrder)
      && forall id :: id in WithCompanions(seats, seatIds) ==> Refusal(seats, eventSeats, id).None?
    ensures r.Ok? ==>
      && r.value.seatIds == WithCompanions(seats, seatIds)
      && Distinct(r.value.seatIds)
      && |r.value.eventSeatIds| == |r.value.seatIds| <= LimitOf(maxPerOrder)
      && forall i :: 0 <= i < |r.value.seatIds| ==> IsTakeable(eventSeats, r.value.eventSeatIds[i], r.value.seatIds[i])
    ensures r == Err(InvalidQuantity) <==> !CountOk(seatIds, seats, maxPerOrder)
    ensures r.Err? && CountOk(seatIds, seats, maxPerOrder) ==>
      var resolved := WithCompanions(seats, seatIds);
      exists i :: 0 <= i < |resolved|
        && Refusal(seats, eventSeats, resolved[i]) == Some(r.error)
        && forall j :: 0 <= j < i ==> Refusal(seats, eventSeats, resolved[j]).None?
  {
    hide ById, WithCompanions, Elements, IsTakeable;
    if |seatIds| == 0 {
      return Err(InvalidQuantity);
    }
    DistinctIffNoneMerged(seatIds);
    if |Elements(seatIds)| != |seatIds| {
      return Err(InvalidQuantity);
    }
    var resolved := SeatsWithCompanions(seatIds, seats);
    if |resolved| > LimitOf(maxPerOrder) {
      return Err(InvalidQuantity);
    }
    var eventSeatIds: seq<Id> := [];
    for i := 0 to |resolved|
      invariant |eventSeatIds| == i
      invariant forall j :: 0 <= j < i ==> Refusal(seats, eventSeats, resolved[j]).None?
      invariant forall j :: 0 <= j < i ==> IsTakeable(eventSeats, eventSeatIds[j], resolved[j])
    {
      var refusal := Refusal(seats, eventSeats, resolved[i]);
      if refusal.Some? {
        return Err(refusal.value);
      }
      Takeable(seats, eventSeats, resolved[i]);
      eventSeatIds := eventSeatIds + [StateOf(eventSeats, resolved[i]).value.id];
    }
    SelectionClosure(seats, seatIds);
    r := Ok(Selection(resolved, eventSeatIds));
  }

  // ---- Releasing part of a selection -------------------------------------------

  /** Some kept seat is bound to a released one. */
  ghost predicate Strands(releasing: seq<Id>, keeping: seq<Id>, seats: seq<MapSeat>) {
    exists x, y :: x in keeping && y in releasing && Binds(seats, x, y)
  }

  method WouldStrandCompanion(releasing: seq<Id>, keeping: seq<Id>, seats: seq<MapSeat>) returns (strands: bool)
    ensures strands <==> Strands(releasing, keeping, seats)
  {
    for i := 0 to |keeping|
      invariant !Strands(releasing, keeping[..i], seats)
    {
      var id := keeping[i];
      assert keeping[..i + 1] == keeping[..i] + [id];
      var seat := ById(seats, id);
      if seat.None? { continue; }
      var target := seat.value.companionOfSeatId;
      if Truthy(target) && target.value in releasing {
        assert Binds(seats, id, target.value);
        return true;
      }
      var companion := FirstClaimant(seats, id);
      if companion.Some? && companion.value.id in releasing {
        assert Binds(seats, id, companion.value.id);
        return true;
      }
    }
    assert keeping[..|keeping|] == keeping;
    return false;
  }

  /** A closed selection, kept whole, is never stranded by releasing other seats. */
  lemma ClosedSelectionNeverStrands(seats: seq<MapSeat>, seatIds: seq<Id>, releasing: seq<Id>)
    requires forall id :: id in releasing ==> id !in WithCompanions(seats, seatIds)
    ensures !Strands(releasing, WithCompanions(seats, seatIds), seats)
  {
    SelectionClosure(seats, seatIds);
  }

  /** On clean pairs, stranding does not depend on which side is kept. */
  lemma StrandingSymmetric(seats: seq<MapSeat>, a: seq<Id>, b: seq<Id>)
    requires Paired(seats)
    ensures Strands(a, b, seats) <==> Strands(b, a, seats)
  {
    forall x, y | Binds(seats, x, y) ensures Binds(seats, y, x) { BindsSymmetric(seats, x, y); }
  }
}
