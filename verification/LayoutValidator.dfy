/** The whole-layout validator as it runs: every issue, under the key it is reported with. */
module LayoutValidator {
  import opened Prelude
  import opened CompanionGraph
  import opened Layout
  import opened LayoutPayload

  /** `if (broken) fail(code, …)`. */
  function FailIf(issues: seq<Issue>, broken: bool, code: Code, key: Option<Key>): (r: seq<Issue>)
    ensures forall x :: x in r <==> x in issues || (broken && x == Issue(code, key))
  {
    if broken then issues + [Issue(code, key)] else issues
  }

  /** Reporting every repeat as it is met, under the key of what repeats. */
  lemma RepeatNext<A, B>(f: A -> B, keyOf: A -> Key, s: seq<A>, x: A)
    ensures Elements(Map(f, s + [x])) == Elements(Map(f, s)) + {f(x)}
    ensures forall k :: RepeatAt(f, keyOf, s + [x], k)
              <==> RepeatAt(f, keyOf, s, k) || (k == keyOf(x) && f(x) in Elements(Map(f, s)))
  {
    var t := s + [x];
    MapSnoc(f, s, x);
    assert t[..|s|] == s;
    forall i | 0 <= i < |s| ensures t[..i] == s[..i] && t[i] == s[i] {}
    forall k
      ensures RepeatAt(f, keyOf, t, k) <==> RepeatAt(f, keyOf, s, k) || (k == keyOf(x) && f(x) in Elements(Map(f, s)))
    {
      RepeatNextAt(f, keyOf, s, x, k);
    }
  }

  lemma RepeatNextAt<A, B>(f: A -> B, keyOf: A -> Key, s: seq<A>, x: A, k: Key)
    ensures RepeatAt(f, keyOf, s + [x], k)
            <==> RepeatAt(f, keyOf, s, k) || (k == keyOf(x) && f(x) in Elements(Map(f, s)))
  {
    var t, n := s + [x], |s|;
    assert t[..n] == s && t[n] == x;
    if RepeatAt(f, keyOf, t, k) {
      var i :| 0 <= i < |t| && keyOf(t[i]) == k && f(t[i]) in Map(f, t[..i]);
      if i < n { assert t[..i] == s[..i] && t[i] == s[i]; }
    }
    if RepeatAt(f, keyOf, s, k) {
      var i :| 0 <= i < |s| && keyOf(s[i]) == k && f(s[i]) in Map(f, s[..i]);
      assert t[..i] == s[..i] && t[i] == s[i];
    }
    if k == keyOf(x) && f(x) in Elements(Map(f, s)) {
      assert keyOf(t[n]) == k && f(t[n]) in Map(f, t[..n]);
    }
  }

  // ---- Zones --------------------------------------------------------------------

  method CheckZones(zones: seq<Zone>, before: seq<Issue>) returns (issues: seq<Issue>, zoneKeys: set<Key>)
    ensures zoneKeys == Elements(Map(ZoneKeyOf, zones))
    ensures forall x :: x in issues <==> x in before || ZonesReport(zones, x)
  {
    hide Map, Elements, RepeatAt;
    issues, zoneKeys := before, {};
    var zoneNames: set<string> := {};
    NoZones();
    for i := 0 to |zones|
      invariant zoneKeys == Elements(Map(ZoneKeyOf, zones[..i]))
      invariant zoneNames == Elements(Map(ZoneNameOf, zones[..i]))
      invariant forall x :: x in issues <==> x in before || ZonesReport(zones[..i], x)
    {
      var zone := zones[i];
      assert zones[..i + 1] == zones[..i] + [zone];
      RepeatNext(ZoneKeyOf, ZoneKeyOf, zones[..i], zone);
      RepeatNext(ZoneNameOf, ZoneKeyOf, zones[..i], zone);
      issues := FailIf(issues, zone.key in zoneKeys, DuplicateZoneKey, Some(zone.key));
      issues := FailIf(issues, Normalise(zone.name) in zoneNames, DuplicateZoneName, Some(zone.key));
      zoneKeys, zoneNames := zoneKeys + {zone.key}, zoneNames + {Normalise(zone.name)};
    }
    assert zones[..|zones|] == zones;
  }

  lemma NoZones()
    ensures Elements(Map(ZoneKeyOf, [])) == {} && Elements(Map(ZoneNameOf, [])) == {}
    ensures forall x :: !ZonesReport([], x)
  {
  }

  // ---- Walking the sections -------------------------------------------------------

  /** The validator's tables part-way through the walk. */
  datatype Walk = Walk(
    issues: seq<Issue>, sectionKeys: set<Key>, sectionNames: set<string>, rowKeys: set<Key>,
    seats: Index, seatLabels: set<string>, seatCount: nat)

  ghost predicate Tracks(w: Walk, h: Walked, before: seq<Issue>) {
    && w.sectionKeys == Elements(Map(SectionKeyOf, h.sections))
    && w.sectionNames == Elements(Map(SectionNameOf, h.sections))
    && w.rowKeys == Elements(Map(RowKeyOf, h.rows))
    && w.seats == IndexOf(h.placed)
    && w.seatLabels == Elements(Map(SeatLabelOf, h.placed))
    && w.seatCount == |h.placed|
    && (forall x :: x in w.issues <==> x in before || WalkReports(h, x))
  }

  /** The three faults a seat can have where it stands. */
  ghost predicate SeatFault(h: Walked, p: Placed, x: Issue) {
    x.key == Some(p.seat.key) && (
      || (x.code == DuplicateSeatKey && p.seat.key in Elements(Map(SeatKeyOf, h.placed)))
      || (x.code == DuplicateSeatLabel && SeatLabelOf(p) in Elements(Map(SeatLabelOf, h.placed)))
      || (x.code == RestrictionNeedsNote && !SaysWhy(p)))
  }

  lemma SeatAddsFaults(h: Walked, p: Placed)
    ensures forall x :: WalkReports(h.(placed := h.placed + [p]), x) <==> WalkReports(h, x) || SeatFault(h, p, x)
  {
    hide Elements, Map, RepeatAt, SaysWhy;
    var h' := h.(placed := h.placed + [p]);
    RepeatNext(SeatKeyOf, SeatKeyOf, h.placed, p);
    RepeatNext(SeatLabelOf, SeatKeyOf, h.placed, p);
    forall x ensures WalkReports(h', x) <==> WalkReports(h, x) || SeatFault(h, p, x) {
      if x.key.Some? && x.code == RestrictionNeedsNote {
        assert (exists q :: q in h'.placed && q.seat.key == x.key.value && !SaysWhy(q))
          <==> (exists q :: q in h.placed && q.seat.key == x.key.value && !SaysWhy(q))
               || (p.seat.key == x.key.value && !SaysWhy(p));
      }
    }
  }

  lemma KeyIndexed(placed: seq<Placed>, key: Key)
    ensures key in IndexOf(placed).at <==> key in Elements(Map(SeatKeyOf, placed))
  {
    assert forall i :: 0 <= i < |placed| ==> Map(SeatKeyOf, placed)[i] == placed[i].seat.key;
  }

  /** The faults of one seat, reported one after the other. */
  function SeatIssues(w: Walk, p: Placed): seq<Issue> {
    var key := Some(p.seat.key);
    FailIf(FailIf(FailIf(w.issues, p.seat.key in w.seats.at, DuplicateSeatKey, key),
                  Normalise(p.seat.labelText) in w.seatLabels, DuplicateSeatLabel, key),
           p.seat.restricted && NormaliseOptional(p.seat.restrictionNote) == "", RestrictionNeedsNote, key)
  }

  lemma SeatIssuesTracked(w: Walk, p: Placed, h: Walked, before: seq<Issue>)
    requires Tracks(w, h, before)
    ensures forall x :: x in SeatIssues(w, p) <==> x in before || WalkReports(h.(placed := h.placed + [p]), x)
  {
    hide WalkReports, Elements, Map, Normalise, NormaliseOptional;
    KeyIndexed(h.placed, p.seat.key);
    SeatAddsFaults(h, p);
    forall x ensures x in SeatIssues(w, p) <==> x in w.issues || SeatFault(h, p, x) {}
  }

  method RecordSeat(w: Walk, p: Placed, ghost h: Walked, ghost before: seq<Issue>) returns (w': Walk)
    requires Tracks(w, h, before)
    ensures Tracks(w', h.(placed := h.placed + [p]), before)
  {
    hide WalkReports, Elements, Map, Indexes, FailIf;
    var key, labelText := p.seat.key, Normalise(p.seat.labelText);
    RepeatNext(SeatLabelOf, SeatKeyOf, h.placed, p);
    SeatIssuesTracked(w, p, h, before);
    var issues := FailIf(w.issues, key in w.seats.at, DuplicateSeatKey, Some(key));
    issues := FailIf(issues, labelText in w.seatLabels, DuplicateSeatLabel, Some(key));
    issues := FailIf(issues, p.seat.restricted && NormaliseOptional(p.seat.restrictionNote) == "",
                     RestrictionNeedsNote, Some(key));
    assert issues == SeatIssues(w, p);
    hide SeatIssues;
    assert (h.placed + [p])[..|h.placed|] == h.placed;
    w' := w.(issues := issues, seats := Set(w.seats, p), seatLabels := w.seatLabels + {labelText},
             seatCount := w.seatCount + 1);
  }

  method RecordSeats(w: Walk, placed: seq<Placed>, ghost h: Walked, ghost before: seq<Issue>) returns (w': Walk)
    requires Tracks(w, h, before)
    ensures Tracks(w', h.(placed := h.placed + placed), before)
  {
    hide Tracks;
    w' := w;
    assert h.(placed := h.placed + placed[..0]) == h;
    for i := 0 to |placed|
      invariant Tracks(w', h.(placed := h.placed + placed[..i]), before)
    {
      assert h.placed + placed[..i] + [placed[i]] == h.placed + placed[..i + 1];
      w' := RecordSeat(w', placed[i], h.(placed := h.placed + placed[..i]), before);
    }
    assert placed[..|placed|] == placed;
  }

  ghost function RowHead(h: Walked, row: Row, clash: bool): Walked {
    h.(rows := h.rows + [row], clashes := h.clashes + if clash then {row.key} else {})
  }

  lemma RowAddsFaults(h: Walked, row: Row, clash: bool)
    ensures forall x :: WalkReports(RowHead(h, row, clash), x) <==>
      || WalkReports(h, x)
      || (x == Issue(DuplicateRowKey, Some(row.key)) && row.key in Elements(Map(RowKeyOf, h.rows)))
      || (x == Issue(DuplicateRowLabel, Some(row.key)) && clash)
  {
    hide Elements, Map, RepeatAt, SaysWhy;
    RepeatNext(RowKeyOf, RowKeyOf, h.rows, row);
    var h' := RowHead(h, row, clash);
    forall x
      ensures WalkReports(h', x) <==>
        || WalkReports(h, x)
        || (x == Issue(DuplicateRowKey, Some(row.key)) && row.key in Elements(Map(RowKeyOf, h.rows)))
        || (x == Issue(DuplicateRowLabel, Some(row.key)) && clash)
    {
      if x.code == RestrictionNeedsNote { assert h'.placed == h.placed; }
    }
  }

  /** The history after a row: its key, whether its label repeats one before it, its seats. */
  ghost function WithRow(h: Walked, section: Section, row: Row, clash: bool): Walked {
    RowHead(h, row, clash).(placed := h.placed + PlacedInRow(section, row))
  }

  method CheckRow(
    w: Walk, section: Section, row: Row, rowLabels: set<string>, ghost h: Walked, ghost before: seq<Issue>)
    returns (w': Walk)
    requires Tracks(w, h, before)
    ensures Tracks(w', WithRow(h, section, row, RowLabelOf(row) in rowLabels), before)
  {
    hide WalkReports, Elements, Map, Indexes, IndexOf, PlacedInRow;
    var clash := Normalise(row.labelText) in rowLabels;
    RowAddsFaults(h, row, clash);
    RepeatNext(RowKeyOf, RowKeyOf, h.rows, row);
    var issues := FailIf(w.issues, row.key in w.rowKeys, DuplicateRowKey, Some(row.key));
    issues := FailIf(issues, clash, DuplicateRowLabel, Some(row.key));
    var w1 := w.(issues := issues, rowKeys := w.rowKeys + {row.key});
    assert Tracks(w1, RowHead(h, row, clash), before);
    w' := RecordSeats(w1, PlacedInRow(section, row), RowHead(h, row, clash), before);
  }

  /** The shape rules of a section's kind. */
  method CheckKind(before: seq<Issue>, section: Section) returns (issues: seq<Issue>)
    ensures forall x :: x in issues <==> x in before || x in KindReports(section)
  {
    OwnSeatsCounts(section, section.rows);
    hide PlacedInRows;
    var ownSeats := OwnSeats(section.rows) + |section.seats|;
    var key := Some(section.key);
    issues := before;
    if section.kind == Standing {
      issues := FailIf(issues, ownSeats > 0, StandingHasSeats, key);
      issues := FailIf(issues, !(section.standingCapacity.Some? && section.standingCapacity.value > 0),
                       StandingNeedsCapacity, key);
    }
    if section.kind == Seated || section.kind == Table {
      issues := FailIf(issues, ownSeats == 0, SeatedNeedsSeats, key);
      issues := FailIf(issues, section.standingCapacity.Some?, SeatedHasCapacity, key);
    }
    forall x ensures x in KindReports(section) <==> x.code in KindFaults(section) && x.key == key {
      KindReported(section, x);
    }
  }

  lemma SectionAddsFaults(h: Walked, section: Section)
    ensures forall x :: WalkReports(h.(sections := h.sections + [section]), x) <==>
      || WalkReports(h, x)
      || (x == Issue(DuplicateSectionKey, Some(section.key)) && section.key in Elements(Map(SectionKeyOf, h.sections)))
      || (x == Issue(DuplicateSectionName, Some(section.key))
          && SectionNameOf(section) in Elements(Map(SectionNameOf, h.sections)))
  {
    hide Elements, Map, RepeatAt, SaysWhy;
    RepeatNext(SectionKeyOf, SectionKeyOf, h.sections, section);
    RepeatNext(SectionNameOf, SectionKeyOf, h.sections, section);
  }

  ghost function WithRows(h: Walked, section: Section, n: nat): Walked
    requires n <= |section.rows|
  {
    var rows := section.rows[..n];
    Walked(h.sections + [section], h.rows + rows, h.placed + PlacedInRows(section, rows),
           h.clashes + ClashesIn(rows), h.kinds)
  }

  lemma ClashesNext(rows: seq<Row>, row: Row)
    ensures ClashesIn(rows + [row])
            == ClashesIn(rows) + if RowLabelOf(row) in Elements(Map(RowLabelOf, rows)) then {row.key} else {}
  {
    var all := rows + [row];
    forall i | 0 <= i < |rows| ensures all[..i] == rows[..i] && all[i] == rows[i] {}
    assert all[..|rows|] == rows && all[|rows|] == row;
  }

  lemma WithRowsSnoc(h: Walked, section: Section, n: nat)
    requires n < |section.rows|
    ensures var labels := Map(RowLabelOf, section.rows[..n]); var row := section.rows[n];
            && WithRows(h, section, n + 1)
                == WithRow(WithRows(h, section, n), section, row, RowLabelOf(row) in Elements(labels))
            && Elements(Map(RowLabelOf, section.rows[..n + 1])) == Elements(labels) + {RowLabelOf(row)}
  {
    hide Elements, PlacedInRow, ClashesIn;
    var rows, row := section.rows[..n], section.rows[n];
    assert section.rows[..n + 1] == rows + [row];
    assert (rows + [row])[..n] == rows;
    RepeatNext(RowLabelOf, RowKeyOf, rows, row);
    ClashesNext(rows, row);
    var a, b := WithRows(h, section, n), WithRows(h, section, n + 1);
    assert b.rows == a.rows + [row];
    assert b.placed == a.placed + PlacedInRow(section, row);
  }

  ghost function WithSection(h: Walked, section: Section): Walked {
    Walked(h.sections + [section], h.rows + section.rows, h.placed + PlacedIn(section),
           h.clashes + ClashesIn(section.rows), h.kinds + KindReports(section))
  }

  method CheckSectionHead(w: Walk, section: Section, ghost h: Walked, ghost before: seq<Issue>) returns (w': Walk)
    requires Tracks(w, h, before)
    ensures Tracks(w', h.(sections := h.sections + [section]), before)
  {
    hide WalkReports, Elements, Map, Indexes, IndexOf;
    var key, name := section.key, Normalise(section.name);
    SectionAddsFaults(h, section);
    RepeatNext(SectionKeyOf, SectionKeyOf, h.sections, section);
    RepeatNext(SectionNameOf, SectionKeyOf, h.sections, section);
    var issues := FailIf(w.issues, key in w.sectionKeys, DuplicateSectionKey, Some(key));
    issues := FailIf(issues, name in w.sectionNames, DuplicateSectionName, Some(key));
    w' := w.(issues := issues, sectionKeys := w.sectionKeys + {key}, sectionNames := w.sectionNames + {name});
  }

  lemma NoRows(section: Section)
    ensures Elements(Map(RowLabelOf, section.rows[..0])) == {} && ClashesIn(section.rows[..0]) == {}
  {
  }

  method CheckSection(w: Walk, section: Section, ghost h: Walked, ghost before: seq<Issue>) returns (w': Walk)
    requires Tracks(w, h, before)
    ensures Tracks(w', WithSection(h, section), before)
  {
    hide Tracks, WalkReports, Elements, Map, LooseIn, ClashesIn, KindReports, PlacedInRow, Normalise;
    NoRows(section);
    w' := CheckSectionHead(w, section, h, before);
    var rowLabels: set<string> := {};
    assert WithRows(h, section, 0) == h.(sections := h.sections + [section]);
    for i := 0 to |section.rows|
      invariant rowLabels == Elements(Map(RowLabelOf, section.rows[..i]))
      invariant Tracks(w', WithRows(h, section, i), before)
    {
      WithRowsSnoc(h, section, i);
      w' := CheckRow(w', section, section.rows[i], rowLabels, WithRows(h, section, i), before);
      rowLabels := rowLabels + {Normalise(section.rows[i].labelText)};
    }
    assert section.rows[..|section.rows|] == section.rows;
    ghost var walked := WithRows(h, section, |section.rows|);
    var loose := LooseIn(section);
    w' := RecordSeats(w', loose, walked, before);
    walked := walked.(placed := walked.placed + loose);
    assert walked.placed == h.placed + PlacedIn(section);
    var issues := CheckKind(w'.issues, section);
    KindsTracked(w', issues, section, walked, before);
    w' := w'.(issues := issues);
  }

  lemma KindsTracked(w: Walk, issues: seq<Issue>, section: Section, h: Walked, before: seq<Issue>)
    requires Tracks(w, h, before)
    requires forall x :: x in issues <==> x in w.issues || x in KindReports(section)
    ensures Tracks(w.(issues := issues), h.(kinds := h.kinds + KindReports(section)), before)
  {
    KindsAdd(h, section);
    hide WalkReports, IndexOf, KindReports;
  }

  lemma KindsAdd(h: Walked, section: Section)
    ensures forall x :: WalkReports(h.(kinds := h.kinds + KindReports(section)), x)
                   <==> WalkReports(h, x) || x in KindReports(section)
  {
    hide SaysWhy, KindFaults, KindReports, RepeatAt;
    var h' := h.(kinds := h.kinds + KindReports(section));
    forall x ensures WalkReports(h', x) <==> WalkReports(h, x) || x in KindReports(section) {
      KindReported(section, x);
      if x.code == RestrictionNeedsNote { assert h'.placed == h.placed; }
    }
  }

  lemma ThroughSnoc(sections: seq<Section>, section: Section)
    ensures Through(sections + [section]) == WithSection(Through(sections), section)
  {
    hide ClashesIn, KindReports, PlacedIn;
    var all := sections + [section];
    assert all[..|sections|] == sections;
    assert forall s :: s in all <==> s in sections || s == section;
    assert Through(all).kinds == Through(sections).kinds + KindReports(section);
    assert Through(all).clashes == Through(sections).clashes + ClashesIn(section.rows);
  }

  /** Every section, row and seat, in order. */
  method WalkSections(sections: seq<Section>, before: seq<Issue>) returns (w: Walk)
    ensures Tracks(w, Through(sections), before)
  {
    hide *;
    w := Walk(before, {}, {}, {}, Index([], map[]), {}, 0);
    NothingWalked(before);
    assert sections[..0] == [];
    for i := 0 to |sections|
      invariant Tracks(w, Through(sections[..i]), before)
    {
      assert sections[..i + 1] == sections[..i] + [sections[i]];
      ThroughSnoc(sections[..i], sections[i]);
      w := CheckSection(w, sections[i], Through(sections[..i]), before);
    }
    assert sections[..|sections|] == sections;
  }

  lemma NothingWalked(before: seq<Issue>)
    ensures Tracks(Walk(before, {}, {}, {}, Index([], map[]), {}, 0), Through([]), before)
  {
    assert Through([]) == Walked([], [], [], {}, {});
  }

  // ---- Cross-references and companions -----------------------------------------

  method CheckReferences(
    index: Index, zoneKeys: set<Key>, rowKeys: set<Key>, sectionKeys: set<Key>, k: Key, before: seq<Issue>)
    returns (issues: seq<Issue>)
    requires k in index.at
    ensures forall x :: x in issues <==>
      || x in before
      || (IsCrossReference(x.code) && x.key == Some(k) && SeatBreaks(index, zoneKeys, rowKeys, sectionKeys, k, x.code))
  {
    var p := index.at[k];
    issues := before;
    issues := FailIf(issues, p.seat.zoneKey.Some? && p.seat.zoneKey.value !in zoneKeys, UnknownZone, Some(k));
    if p.seat.rowKey.Some? {
      if p.seat.rowKey.value !in rowKeys {
        issues := FailIf(issues, true, UnknownRow, Some(k));
      } else {
        issues := FailIf(issues, p.row.Some? && p.seat.rowKey.value != p.row.value.key, RowSectionMismatch, Some(k));
      }
    }
    if p.seat.sectionKey.Some? && p.seat.sectionKey.value != p.section.key {
      issues := FailIf(issues, true,
        if p.seat.sectionKey.value !in sectionKeys then UnknownSection else RowSectionMismatch, Some(k));
    }
  }

  method CheckCrossReferences(
    index: Index, zoneKeys: set<Key>, rowKeys: set<Key>, sectionKeys: set<Key>, before: seq<Issue>)
    returns (issues: seq<Issue>)
    requires WellIndexed(index)
    ensures forall x :: x in issues <==>
      || x in before
      || (IsCrossReference(x.code) && SeatReports(index, zoneKeys, rowKeys, sectionKeys, index.order, x))
  {
    hide SeatBreaks;
    issues := before;
    for i := 0 to |index.order|
      invariant forall x :: x in issues <==>
        || x in before
        || (IsCrossReference(x.code) && SeatReports(index, zoneKeys, rowKeys, sectionKeys, index.order[..i], x))
    {
      assert index.order[..i + 1] == index.order[..i] + [index.order[i]];
      issues := CheckReferences(index, zoneKeys, rowKeys, sectionKeys, index.order[i], issues);
    }
    assert index.order[..|index.order|] == index.order;
  }

  /** The companion rules of one seat, given the targets claimed before it. */
  method CheckCompanion(index: Index, claimed: map<Key, Key>, k: Key, before: seq<Issue>)
    returns (issues: seq<Issue>, claimed': map<Key, Key>)
    requires k in index.at
    ensures claimed' == if ClaimsPartner(index, k) then claimed[index.at[k].seat.companionOfKey.value := k] else claimed
    ensures forall x :: x in issues <==>
      || x in before
      || (IsSeatCompanionRule(x.code) && x.key == Some(k) && SeatBreaks(index, {}, {}, {}, k, x.code))
      || (x == Issue(CompanionShared, Some(k)) && ClaimsPartner(index, k)
          && index.at[k].seat.companionOfKey.value in claimed)
  {
    var p := index.at[k];
    issues, claimed' := before, claimed;
    if p.seat.companionOfKey.None? {
      return;
    }
    var target := p.seat.companionOfKey.value;
    if target == k {
      issues := FailIf(issues, true, CompanionSelf, Some(k));
      return;
    }
    if target !in index.at {
      issues := FailIf(issues, true, UnknownCompanion, Some(k));
      return;
    }
    var partner := index.at[target];
    issues := FailIf(issues, partner.section.key != p.section.key, CompanionCrossSection, Some(k));
    issues := FailIf(issues, !partner.seat.accessible, CompanionNotAccessible, Some(k));
    issues := FailIf(issues, partner.seat.companionOfKey.Some?, CompanionChain, Some(k));
    issues := FailIf(issues, target in claimed, CompanionShared, Some(k));
    claimed' := claimed[target := k];
  }

  /** The targets claimed by the first seats walked. */
  ghost predicate ClaimsOf(index: Index, n: nat, claimed: map<Key, Key>)
    requires n <= |index.order|
  {
    forall t :: t in claimed <==>
      exists j :: 0 <= j < n && ClaimsPartner(index, index.order[j])
          && index.at[index.order[j]].seat.companionOfKey == Some(t)
  }

  lemma ClaimsNext(index: Index, i: nat, claimed: map<Key, Key>)
    requires i < |index.order| && ClaimsOf(index, i, claimed)
    ensures var k := index.order[i];
            && ClaimsOf(index, i + 1,
                        if ClaimsPartner(index, k) then claimed[index.at[k].seat.companionOfKey.value := k]
                        else claimed)
            && (IsSecondClaim(index, i)
                <==> ClaimsPartner(index, k) && index.at[k].seat.companionOfKey.value in claimed)
  {
  }

  method CheckCompanions(index: Index, before: seq<Issue>) returns (issues: seq<Issue>)
    requires WellIndexed(index)
    ensures forall x :: x in issues <==>
      || x in before
      || (IsSeatCompanionRule(x.code) && SeatReports(index, {}, {}, {}, index.order, x))
      || SharedReports(index, |index.order|, x)
  {
    hide SeatBreaks, ClaimsOf, IsSecondClaim, ClaimsPartner;
    issues := before;
    var claimed: map<Key, Key> := map[];
    NobodyClaims(index);
    for i := 0 to |index.order|
      invariant ClaimsOf(index, i, claimed)
      invariant forall x :: x in issues <==>
        || x in before
        || (IsSeatCompanionRule(x.code) && SeatReports(index, {}, {}, {}, index.order[..i], x))
        || SharedReports(index, i, x)
    {
      assert index.order[..i + 1] == index.order[..i] + [index.order[i]];
      ClaimsNext(index, i, claimed);
      SharedNext(index, i);
      issues, claimed := CheckCompanion(index, claimed, index.order[i], issues);
    }
    assert index.order[..|index.order|] == index.order;
  }

  lemma SharedNext(index: Index, i: nat)
    requires i < |index.order|
    ensures forall x :: SharedReports(index, i + 1, x) <==>
      || SharedReports(index, i, x)
      || (x == Issue(CompanionShared, Some(index.order[i])) && IsSecondClaim(index, i))
  {
    hide IsSecondClaim;
    var next := i + 1;
    forall x
      ensures SharedReports(index, next, x) <==>
        || SharedReports(index, i, x)
        || (x == Issue(CompanionShared, Some(index.order[i])) && IsSecondClaim(index, i))
    {
      if x == Issue(CompanionShared, Some(index.order[i])) && IsSecondClaim(index, i) {
        assert SharedReports(index, next, x);
      }
    }
  }

  lemma NobodyClaims(index: Index)
    ensures ClaimsOf(index, 0, map[])
  {
  }

  /** The issue of a loop, under its first key. */
  function LoopIssue(cycle: seq<Key>): Issue
    requires cycle != []
  {
    Issue(CompanionCycle, Some(cycle[0]))
  }

  /** One issue per loop of the companion graph. */
  method CheckCycles(index: Index, before: seq<Issue>) returns (issues: seq<Issue>, ghost cycles: seq<seq<Key>>)
    requires WellIndexed(index)
    ensures AreLoops(CompanionsOf(index), cycles) && Disjoint(cycles)
    ensures forall k :: OnLoop(CompanionsOf(index), k) <==> CompanionGraph.Reported(cycles, k)
    ensures |issues| == |before| + |cycles| && issues[..|before|] == before
    ensures forall i :: 0 <= i < |cycles| ==> issues[|before| + i] == LoopIssue(cycles[i])
  {
    var found := CompanionCycles(index.order, CompanionsOf(index));
    cycles := found;
    issues := before;
    for i := 0 to |found|
      invariant |issues| == |before| + i && issues[..|before|] == before
      invariant forall j :: 0 <= j < i ==> issues[|before| + j] == LoopIssue(found[j])
    {
      issues := FailIf(issues, true, CompanionCycle, Some(found[i][0]));
    }
  }

  /** Of each loop just one key is reported, once, and no key on no loop. */
  ghost predicate OnePerLoop(issues: seq<Issue>, g: Graph) {
    && (forall i :: 0 <= i < |issues| && issues[i].code == CompanionCycle ==>
          issues[i].key.Some? && OnLoop(g, issues[i].key.value))
    && (forall c :: IsLoop(g, c) ==> exists i :: 0 <= i < |issues| && ReportsLoop(issues[i], c))
    && (forall c, i, j :: IsLoop(g, c) && 0 <= i < j < |issues| ==>
          !(ReportsLoop(issues[i], c) && ReportsLoop(issues[j], c)))
  }

  predicate ReportsLoop(x: Issue, c: seq<Key>) { x.code == CompanionCycle && x.key.Some? && x.key.value in c }

  lemma LoopsReportedOnce(issues: seq<Issue>, before: seq<Issue>, cycles: seq<seq<Key>>, g: Graph)
    requires AreLoops(g, cycles) && Disjoint(cycles)
    requires forall k :: OnLoop(g, k) <==> CompanionGraph.Reported(cycles, k)
    requires |issues| == |before| + |cycles| && issues[..|before|] == before
    requires forall i :: 0 <= i < |cycles| ==> issues[|before| + i] == LoopIssue(cycles[i])
    requires forall x :: x in before ==> x.code != CompanionCycle
    ensures OnePerLoop(issues, g)
  {
    var n := |before|;
    forall i | 0 <= i < n ensures issues[i].code != CompanionCycle { assert issues[i] == before[i]; }
    KeysOnLoops(issues, n, cycles, g);
    hide AreLoops, Disjoint, OnLoop, IsLoop, CompanionGraph.Reported, ReportsLoop;
    forall c | IsLoop(g, c)
      ensures exists i :: 0 <= i < |issues| && ReportsLoop(issues[i], c)
      ensures forall i, j :: 0 <= i < j < |issues| ==> !(ReportsLoop(issues[i], c) && ReportsLoop(issues[j], c))
    {
      LoopReportedOnce(issues, n, cycles, g, c);
    }
  }

  lemma KeysOnLoops(issues: seq<Issue>, n: nat, cycles: seq<seq<Key>>, g: Graph)
    requires AreLoops(g, cycles) && forall k :: OnLoop(g, k) <==> CompanionGraph.Reported(cycles, k)
    requires |issues| == n + |cycles|
    requires forall i :: 0 <= i < |cycles| ==> issues[n + i] == LoopIssue(cycles[i])
    requires forall i :: 0 <= i < n ==> issues[i].code != CompanionCycle
    ensures forall i :: 0 <= i < |issues| && issues[i].code == CompanionCycle ==>
              issues[i].key.Some? && OnLoop(g, issues[i].key.value)
  {
    hide OnLoop, IsLoop;
    forall i | n <= i < |issues| ensures issues[i].key.Some? && OnLoop(g, issues[i].key.value) {
      assert issues[n + (i - n)] == LoopIssue(cycles[i - n]);
      assert CompanionGraph.Reported(cycles, cycles[i - n][0]);
    }
  }

  lemma LoopReportedOnce(issues: seq<Issue>, n: nat, cycles: seq<seq<Key>>, g: Graph, c: seq<Key>)
    requires AreLoops(g, cycles) && Disjoint(cycles) && IsLoop(g, c)
    requires forall k :: OnLoop(g, k) <==> CompanionGraph.Reported(cycles, k)
    requires |issues| == n + |cycles|
    requires forall i :: 0 <= i < |cycles| ==> issues[n + i] == LoopIssue(cycles[i])
    requires forall i :: 0 <= i < n ==> issues[i].code != CompanionCycle
    ensures exists i :: 0 <= i < |issues| && ReportsLoop(issues[i], c)
    ensures forall i, j :: 0 <= i < j < |issues| ==> !(ReportsLoop(issues[i], c) && ReportsLoop(issues[j], c))
  {
    var at := EachLoopOnce(g, cycles, c);
    assert cycles[at][0] in Elements(c) by { FirstOnLoop(g, cycles, c, at); }
    assert ReportsLoop(issues[n + at], c);
    forall i | 0 <= i < |issues| && ReportsLoop(issues[i], c) ensures i == n + at {
      assert issues[n + (i - n)] == LoopIssue(cycles[i - n]);
      assert cycles[i - n][0] in Elements(cycles[i - n]) && cycles[i - n][0] in Elements(c);
    }
  }

  lemma FirstOnLoop(g: Graph, cycles: seq<seq<Key>>, c: seq<Key>, at: nat)
    requires AreLoops(g, cycles) && at < |cycles| && IsRotation(cycles[at][..|cycles[at]| - 1], c)
    ensures cycles[at][0] in c
  {
    var d := cycles[at][..|cycles[at]| - 1];
    var r: nat :| r < |c| && d == c[r..] + c[..r];
    assert d[0] == c[r];
  }

  // ---- The whole validator -------------------------------------------------------

  /**
   * Every issue, with the key it is reported under, is reported just when the layout gives rise to it, and one
   * per loop; a code is reported just when the rule it stands for is broken; the verdict is that none is.
   */
  method ValidateLayout(layout: LayoutDraft) returns (valid: bool, issues: seq<Issue>, seatCount: nat)
    ensures forall x: Issue :: x.code != CompanionCycle ==> (x in issues <==> Layout.Reported(layout, x))
    ensures OnePerLoop(issues, CompanionsOf(IndexOf(AllPlaced(layout.sections))))
    ensures forall c: Code, k: Key :: c != EmptyLayout && c != CompanionCycle ==>
              (Issue(c, Some(k)) in issues <==> PayloadBreaks(layout, c, k))
    ensures forall c :: c in Codes(issues) <==> Broken(layout, c)
    ensures valid <==> forall c :: !Broken(layout, c)
    ensures valid <==> issues == []
    ensures seatCount == |AllPlaced(layout.sections)|
  {
    hide Broken, Acyclic, Tracks, ZonesReport, WalkReports, AllRows, AllPlaced, Elements, Map, Indexes, IndexOf;
    hide Codes, CompanionsOf, SeatReports, SharedReports, OnePerLoop, Layout.Reported, AreLoops, Disjoint, OnLoop;
    hide PayloadBreaks;
    issues := FailIf([], layout.sections == [], EmptyLayout, None);
    var zoneKeys;
    issues, zoneKeys := CheckZones(layout.zones, issues);
    ghost var zoned := issues;
    var walk := WalkSections(layout.sections, issues);
    Counted(walk, Through(layout.sections), zoned);
    var index := walk.seats;
    issues := CheckCrossReferences(index, zoneKeys, walk.rowKeys, walk.sectionKeys, walk.issues);
    issues := CheckCompanions(index, issues);
    ghost var paired := issues;
    EveryIssueAccounted(layout, walk, zoned, paired, zoneKeys);
    ghost var cycles;
    issues, cycles := CheckCycles(index, issues);
    LoopsReportedOnce(issues, paired, cycles, CompanionsOf(index));
    SameButLoops(issues, paired, cycles);
    CodesReported(layout, issues);
    PayloadInIssues(layout, issues);
    SilentIffEmpty(issues);
    valid, seatCount := issues == [], walk.seatCount;
  }

  lemma Counted(walk: Walk, h: Walked, before: seq<Issue>)
    requires Tracks(walk, h, before)
    ensures walk.seatCount == |h.placed|
    ensures walk.seats == IndexOf(h.placed) && WellIndexed(walk.seats)
  {
  }

  lemma SilentIffEmpty(issues: seq<Issue>)
    ensures issues == [] <==> forall c :: c !in Codes(issues)
  {
    assert issues != [] ==> issues[0].code in Codes(issues);
  }

  lemma PayloadInIssues(layout: LayoutDraft, issues: seq<Issue>)
    requires forall x: Issue :: x.code != CompanionCycle ==> (x in issues <==> Layout.Reported(layout, x))
    ensures forall c: Code, k: Key :: c != EmptyLayout && c != CompanionCycle ==>
              (Issue(c, Some(k)) in issues <==> PayloadBreaks(layout, c, k))
  {
    hide PayloadBreaks, Layout.Reported;
    forall c: Code, k: Key | c != EmptyLayout && c != CompanionCycle
      ensures Issue(c, Some(k)) in issues <==> PayloadBreaks(layout, c, k)
    {
      ReportedIff(layout, c, k);
    }
  }

  /** The loops' issues change nothing about the others. */
  lemma SameButLoops(issues: seq<Issue>, before: seq<Issue>, cycles: seq<seq<Key>>)
    requires |issues| == |before| + |cycles| && issues[..|before|] == before
    requires forall i :: 0 <= i < |cycles| ==> cycles[i] != [] && issues[|before| + i] == LoopIssue(cycles[i])
    ensures forall x: Issue :: x.code != CompanionCycle ==> (x in issues <==> x in before)
  {
    var n := |before|;
    forall i | n <= i < |issues| ensures issues[i].code == CompanionCycle {
      assert issues[n + (i - n)] == LoopIssue(cycles[i - n]);
    }
    forall x | x in before ensures x in issues {
      var i :| 0 <= i < n && before[i] == x;
      assert issues[i] == x;
    }
    forall x | x in issues && x.code != CompanionCycle ensures x in before {
      var i :| 0 <= i < |issues| && issues[i] == x;
      assert before[i] == x;
    }
  }

  /** What the phases up to the loops report is what the layout gives rise to. */
  lemma EveryIssueAccounted(layout: LayoutDraft, walk: Walk, zoned: seq<Issue>, issues: seq<Issue>, zoneKeys: set<Key>)
    requires Tracks(walk, Through(layout.sections), zoned)
    requires zoneKeys == Elements(Map(ZoneKeyOf, layout.zones))
    requires forall x :: x in zoned <==>
      || (x == Issue(EmptyLayout, None) && layout.sections == [])
      || ZonesReport(layout.zones, x)
    requires forall x :: x in issues <==>
      || x in walk.issues
      || (IsCrossReference(x.code)
          && SeatReports(walk.seats, zoneKeys, walk.rowKeys, walk.sectionKeys, walk.seats.order, x))
      || (IsSeatCompanionRule(x.code) && SeatReports(walk.seats, {}, {}, {}, walk.seats.order, x))
      || SharedReports(walk.seats, |walk.seats.order|, x)
    ensures forall x :: x in issues <==> Layout.Reported(layout, x)
    ensures forall x :: x in issues ==> x.code != CompanionCycle
  {
    hide ZonesReport, WalkReports, IndexOf, Indexes, Map, Elements, AllPlaced, AllRows, SeatBreaks, SharedReports,
        Layout.Reported;
    forall x ensures x in issues <==> Layout.Reported(layout, x) {
      ReportedInPhase(layout, x);
      if x.key.Some? && x.key.value in walk.seats.at {
        SameForEveryTable(walk.seats, zoneKeys, walk.rowKeys, walk.sectionKeys, x.key.value);
      }
    }
    forall x | x in issues ensures x.code != CompanionCycle { NoLoopReported(layout, x); }
  }

  lemma NoLoopReported(layout: LayoutDraft, x: Issue)
    requires Layout.Reported(layout, x)
    ensures x.code != CompanionCycle
  {
    hide ZonesReport, WalkReports, IndexOf, Indexes, Map, Elements, AllPlaced, AllRows, SeatBreaks, SharedReports;
  }

  /** The companion rules read no table but the index. */
  lemma SameForEveryTable(index: Index, zoneKeys: set<Key>, rowKeys: set<Key>, sectionKeys: set<Key>, k: Key)
    requires k in index.at
    ensures forall c :: IsSeatCompanionRule(c) ==>
      (SeatBreaks(index, {}, {}, {}, k, c) <==> SeatBreaks(index, zoneKeys, rowKeys, sectionKeys, k, c))
  {
  }

  /** A code is among those reported just when its rule is broken. */
  lemma CodesReported(layout: LayoutDraft, issues: seq<Issue>)
    requires forall x: Issue :: x.code != CompanionCycle ==> (x in issues <==> Layout.Reported(layout, x))
    requires OnePerLoop(issues, CompanionsOf(IndexOf(AllPlaced(layout.sections))))
    ensures forall c :: c in Codes(issues) <==> Broken(layout, c)
  {
    hide Broken, Layout.Reported, OnePerLoop;
    forall c ensures c in Codes(issues) <==> Broken(layout, c) {
      if c == CompanionCycle {
        LoopCode(layout, issues);
      } else {
        BrokenIffReported(layout, c);
        if k :| Layout.Reported(layout, Issue(c, k)) { assert Issue(c, k) in issues; }
        if c in Codes(issues) {
          var x :| x in issues && x.code == c;
          assert x == Issue(c, x.key);
        }
      }
    }
  }

  lemma LoopCode(layout: LayoutDraft, issues: seq<Issue>)
    requires OnePerLoop(issues, CompanionsOf(IndexOf(AllPlaced(layout.sections))))
    ensures CompanionCycle in Codes(issues) <==> Broken(layout, CompanionCycle)
  {
    hide Broken, AllPlaced, IndexOf, Indexes, CompanionsOf, IsLoop, OnLoop;
    var g := CompanionsOf(IndexOf(AllPlaced(layout.sections)));
    LoopRule(layout);
    if CompanionCycle in Codes(issues) {
      var i :| 0 <= i < |issues| && issues[i].code == CompanionCycle;
      assert OnLoop(g, issues[i].key.value);
    }
    if !Acyclic(g) {
      var c := SomeLoop(g);
      var i :| 0 <= i < |issues| && ReportsLoop(issues[i], c);
    }
  }

  lemma LoopRule(layout: LayoutDraft)
    ensures Broken(layout, CompanionCycle) <==> !Acyclic(CompanionsOf(IndexOf(AllPlaced(layout.sections))))
  {
    hide AllPlaced, IndexOf, Indexes, CompanionsOf, Acyclic;
  }

  lemma SomeLoop(g: Graph) returns (c: seq<Key>)
    requires !Acyclic(g)
    ensures IsLoop(g, c)
  {
    var k :| OnLoop(g, k);
    c :| IsLoop(g, c) && k in c;
  }
}
