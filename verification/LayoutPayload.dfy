/** What the validator takes names, labels, notes and seats to be, told from the payload. */
module LayoutPayload {
  import opened Prelude
  import opened CompanionGraph
  import opened Layout

  // ---- When two names are the same -------------------------------------------

  predicate IsBlankText(s: string) { forall c :: c in s ==> IsSpace(c) }

  /** The same character, or the same ASCII letter in the other case. */
  predicate SameLetter(c: char, d: char) {
    || c == d
    || ('A' <= c <= 'Z' && d as int == c as int + 32)
    || ('A' <= d <= 'Z' && c as int == d as int + 32)
  }

  predicate SameLetters(s: string, t: string) {
    |s| == |t| && forall i :: 0 <= i < |s| ==> SameLetter(s[i], t[i])
  }

  /** `core` with white space at its ends. */
  ghost predicate Surrounds(whole: string, core: string) {
    exists before, after :: IsBlankText(before) && IsBlankText(after) && whole == before + core + after
  }

  /** One name is the other, but for white space at the ends and the case of ASCII letters. */
  ghost predicate SameName(a: string, b: string) {
    exists s, t :: Surrounds(a, s) && Surrounds(b, t) && SameLetters(s, t)
  }

  lemma {:induction false} StartTrimmed(s: string) returns (before: string)
    ensures IsBlankText(before) && s == before + TrimStart(s)
    ensures TrimStart(s) == "" || !IsSpace(TrimStart(s)[0])
  {
    hide IsSpace;
    before := "";
    if s != "" && IsSpace(s[0]) {
      before := StartTrimmed(s[1..]);
      before := [s[0]] + before;
      assert s == [s[0]] + s[1..];
    }
  }

  lemma {:induction false} EndTrimmed(s: string) returns (after: string)
    ensures IsBlankText(after) && s == TrimEnd(s) + after
    ensures TrimEnd(s) == "" || !IsSpace(TrimEnd(s)[|TrimEnd(s)| - 1])
  {
    hide IsSpace;
    after := "";
    if s != "" && IsSpace(s[|s| - 1]) {
      var n := |s| - 1;
      after := EndTrimmed(s[..n]);
      after := after + [s[n]];
      assert s == s[..n] + [s[n]];
    }
  }

  lemma {:induction false} StartIgnored(before: string, s: string)
    requires IsBlankText(before)
    ensures TrimStart(before + s) == TrimStart(s)
  {
    hide IsSpace;
    if before == "" {
      assert before + s == s;
    } else {
      assert before[0] in before && (before + s)[1..] == before[1..] + s;
      StartIgnored(before[1..], s);
    }
  }

  lemma {:induction false} EndIgnored(s: string, after: string)
    requires IsBlankText(after)
    ensures TrimEnd(s + after) == TrimEnd(s)
  {
    hide IsSpace;
    if after == "" {
      assert s + after == s;
    } else {
      var n := |after| - 1;
      assert after[n] in after && (s + after)[..|s| + n] == s + after[..n];
      EndIgnored(s, after[..n]);
    }
  }

  /** What follows a text that is not all white space is not reached by trimming its start. */
  lemma {:induction false} StartOnly(s: string, after: string)
    requires !IsBlankText(s)
    ensures TrimStart(s + after) == TrimStart(s) + after
  {
    hide IsSpace;
    if IsSpace(s[0]) {
      assert s == [s[0]] + s[1..] && (s + after)[1..] == s[1..] + after;
      StartOnly(s[1..], after);
    }
  }

  function Trimmed(s: string): string { TrimEnd(TrimStart(s)) }

  lemma SurroundedTrims(whole: string, core: string)
    requires Surrounds(whole, core)
    ensures Trimmed(whole) == Trimmed(core)
  {
    hide IsSpace, TrimStart, TrimEnd;
    var before, after :| IsBlankText(before) && IsBlankText(after) && whole == before + core + after;
    assert whole == before + (core + after);
    StartIgnored(before, core + after);
    if IsBlankText(core) {
      BlankTrims(core);
      BlankTrims(core + after);
    } else {
      StartOnly(core, after);
      EndIgnored(TrimStart(core), after);
    }
  }

  lemma BlankTrims(s: string)
    requires IsBlankText(s)
    ensures Trimmed(s) == ""
  {
    StartIgnored(s, "");
    assert s + "" == s;
  }

  lemma TrimSurrounds(s: string)
    ensures Surrounds(s, Trimmed(s))
  {
    hide IsSpace, IsBlankText, TrimStart, TrimEnd;
    var before := StartTrimmed(s);
    var after := EndTrimmed(TrimStart(s));
    assert s == before + Trimmed(s) + after;
  }

  lemma LettersFold(c: char, d: char)
    ensures SameLetter(c, d) <==> Lower(c) == Lower(d)
    ensures SameLetter(c, d) ==> (IsSpace(c) <==> IsSpace(d))
  {
  }

  lemma {:induction false} AlikeTrimStart(s: string, t: string)
    requires SameLetters(s, t)
    ensures SameLetters(TrimStart(s), TrimStart(t))
  {
    hide IsSpace, SameLetter;
    if s != "" {
      LettersFold(s[0], t[0]);
      if IsSpace(s[0]) { AlikeTrimStart(s[1..], t[1..]); }
    }
  }

  lemma {:induction false} AlikeTrimEnd(s: string, t: string)
    requires SameLetters(s, t)
    ensures SameLetters(TrimEnd(s), TrimEnd(t))
  {
    hide IsSpace, SameLetter;
    if s != "" {
      LettersFold(s[|s| - 1], t[|t| - 1]);
      if IsSpace(s[|s| - 1]) { AlikeTrimEnd(s[..|s| - 1], t[..|t| - 1]); }
    }
  }

  lemma AlikeFold(s: string, t: string)
    ensures SameLetters(s, t) <==> Map(Lower, s) == Map(Lower, t)
  {
    hide SameLetter, Lower;
    forall c, d ensures SameLetter(c, d) <==> Lower(c) == Lower(d) { LettersFold(c, d); }
    if Map(Lower, s) == Map(Lower, t) {
      assert |s| == |Map(Lower, s)| == |t|;
      forall i | 0 <= i < |s| ensures Lower(s[i]) == Lower(t[i]) { assert Map(Lower, s)[i] == Map(Lower, t)[i]; }
    }
  }

  /** Two names are normalised alike exactly when they are the same name. */
  lemma NormalisedAlikeIff(a: string, b: string)
    ensures Normalise(a) == Normalise(b) <==> SameName(a, b)
  {
    hide TrimStart, TrimEnd, Surrounds, SameLetters, Lower, Map;
    AlikeFold(Trimmed(a), Trimmed(b));
    if Normalise(a) == Normalise(b) {
      TrimSurrounds(a);
      TrimSurrounds(b);
    }
    if SameName(a, b) {
      var s, t :| Surrounds(a, s) && Surrounds(b, t) && SameLetters(s, t);
      SurroundedTrims(a, s);
      SurroundedTrims(b, t);
      AlikeTrimStart(s, t);
      AlikeTrimEnd(TrimStart(s), TrimStart(t));
    }
  }

  lemma NormalisedEmptyIff(s: string)
    ensures Normalise(s) == "" <==> IsBlankText(s)
  {
    hide TrimStart, TrimEnd, IsSpace;
    if IsBlankText(s) { BlankTrims(s); }
    if Normalise(s) == "" {
      assert |Trimmed(s)| == |Normalise(s)| == 0;
      TrimSurrounds(s);
      var before, after :| IsBlankText(before) && IsBlankText(after) && s == before + Trimmed(s) + after;
    }
  }

  // ---- Names as they are reported --------------------------------------------

  /** The entity of this key has the name of one before it. */
  ghost predicate RepeatsName<A(!new)>(name: A -> string, keyOf: A -> Key, s: seq<A>, k: Key) {
    exists i, j :: 0 <= i < j < |s| && keyOf(s[j]) == k && SameName(name(s[i]), name(s[j]))
  }

  lemma RepeatsNameIff<A(!new)>(f: A -> string, name: A -> string, keyOf: A -> Key, s: seq<A>, k: Key)
    requires forall x :: f(x) == Normalise(name(x))
    ensures RepeatAt(f, keyOf, s, k) <==> RepeatsName(name, keyOf, s, k)
  {
    hide Normalise, SameName;
    if RepeatAt(f, keyOf, s, k) {
      var j :| 0 <= j < |s| && keyOf(s[j]) == k && f(s[j]) in Map(f, s[..j]);
      var i :| 0 <= i < j && Map(f, s[..j])[i] == f(s[j]);
      NormalisedAlikeIff(name(s[i]), name(s[j]));
    }
    if RepeatsName(name, keyOf, s, k) {
      var i, j :| 0 <= i < j < |s| && keyOf(s[j]) == k && SameName(name(s[i]), name(s[j]));
      NormalisedAlikeIff(name(s[i]), name(s[j]));
      assert Map(f, s[..j])[i] == f(s[j]);
    }
  }

  predicate IsNameRule(c: Code) {
    || c == DuplicateZoneName || c == DuplicateSectionName || c == DuplicateRowLabel || c == DuplicateSeatLabel
    || c == RestrictionNeedsNote
  }

  /** The rules about names, labels and notes, for what has this key in the payload. */
  ghost predicate NameBreaks(layout: LayoutDraft, c: Code, k: Key) {
    match c
    case DuplicateZoneName => RepeatsName((z: Zone) => z.name, ZoneKeyOf, layout.zones, k)
    case DuplicateSectionName => RepeatsName((s: Section) => s.name, SectionKeyOf, layout.sections, k)
    case DuplicateRowLabel =>
      exists s :: s in layout.sections && RepeatsName((r: Row) => r.labelText, RowKeyOf, s.rows, k)
    case DuplicateSeatLabel => RepeatsName((p: Placed) => p.seat.labelText, SeatKeyOf, AllPlaced(layout.sections), k)
    case _ => exists p :: p in AllPlaced(layout.sections) && p.seat.key == k && SaysNothing(p.seat)
  }

  predicate SaysNothing(seat: Seat) {
    seat.restricted && (seat.restrictionNote.Some? ==> IsBlankText(seat.restrictionNote.value))
  }

  lemma NothingSaid(p: Placed)
    ensures SaysNothing(p.seat) <==> !SaysWhy(p)
  {
    hide Normalise, IsBlankText;
    if p.seat.restrictionNote.Some? { NormalisedEmptyIff(p.seat.restrictionNote.value); }
  }

  lemma NamesReported(layout: LayoutDraft, c: Code, k: Key)
    requires IsNameRule(c)
    ensures Layout.Reported(layout, Issue(c, Some(k))) <==> NameBreaks(layout, c, k)
  {
    hide RepeatAt, RepeatsName, IndexOf, Indexes, Normalise, AllPlaced, AllRows, ClashesIn, SaysWhy, SaysNothing;
    forall p: Placed ensures SaysNothing(p.seat) <==> !SaysWhy(p) { NothingSaid(p); }
    if c == DuplicateZoneName {
      RepeatsNameIff(ZoneNameOf, (z: Zone) => z.name, ZoneKeyOf, layout.zones, k);
    } else {
      WalkReported(layout, c, k);
      hide Layout.Reported;
      RepeatsNameIff(SectionNameOf, (s: Section) => s.name, SectionKeyOf, layout.sections, k);
      RepeatsNameIff(SeatLabelOf, (p: Placed) => p.seat.labelText, SeatKeyOf, AllPlaced(layout.sections), k);
      forall s | s in layout.sections
        ensures k in ClashesIn(s.rows) <==> RepeatsName((r: Row) => r.labelText, RowKeyOf, s.rows, k)
      {
        RepeatsNameIff(RowLabelOf, (r: Row) => r.labelText, RowKeyOf, s.rows, k);
        ClashesAre(s.rows, k);
      }
    }
  }

  lemma ClashesAre(rows: seq<Row>, k: Key)
    ensures k in ClashesIn(rows) <==> RepeatAt(RowLabelOf, RowKeyOf, rows, k)
  {
  }

  // ---- Seats in the order of the walk -----------------------------------------

  function OwnSeats(rows: seq<Row>): nat {
    if rows == [] then 0 else OwnSeats(rows[..|rows| - 1]) + |rows[|rows| - 1].seats|
  }

  lemma {:induction false} OwnSeatsCounts(section: Section, rows: seq<Row>)
    ensures OwnSeats(rows) == |PlacedInRows(section, rows)|
  {
    if rows != [] { OwnSeatsCounts(section, rows[..|rows| - 1]); }
  }

  function SeatsIn(sections: seq<Section>): nat {
    if sections == [] then 0
    else
      var last := sections[|sections| - 1];
      SeatsIn(sections[..|sections| - 1]) + OwnSeats(last.rows) + |last.seats|
  }

  lemma {:induction false} PlacedInRowAt(section: Section, rows: seq<Row>, r: nat, n: nat)
    requires r < |rows| && n < |rows[r].seats|
    ensures OwnSeats(rows[..r]) + n < |PlacedInRows(section, rows)|
    ensures PlacedInRows(section, rows)[OwnSeats(rows[..r]) + n] == Placed(rows[r].seats[n], section, Some(rows[r]))
  {
    var last := |rows| - 1;
    OwnSeatsCounts(section, rows[..last]);
    if r < last {
      PlacedInRowAt(section, rows[..last], r, n);
      assert rows[..last][..r] == rows[..r];
    }
  }

  /** Every seat in a row has its place in the walk: after the sections and the rows before it. */
  lemma {:induction false} SeatInRowAt(sections: seq<Section>, i: nat, r: nat, n: nat)
    requires i < |sections| && r < |sections[i].rows| && n < |sections[i].rows[r].seats|
    ensures var (at, s) := (SeatsIn(sections[..i]) + OwnSeats(sections[i].rows[..r]) + n, sections[i]);
            && at < |AllPlaced(sections)| == SeatsIn(sections)
            && AllPlaced(sections)[at] == Placed(s.rows[r].seats[n], s, Some(s.rows[r]))
  {
    hide PlacedInRows, OwnSeats;
    var last := |sections| - 1;
    PlacedCounts(sections);
    PlacedCounts(sections[..last]);
    PlacedInRowAt(sections[last], sections[i].rows, r, n);
    if i < last {
      SeatInRowAt(sections[..last], i, r, n);
      assert sections[..last][..i] == sections[..i];
    }
  }

  /** And every other seat of a section, after those in its rows. */
  lemma {:induction false} LooseSeatAt(sections: seq<Section>, i: nat, n: nat)
    requires i < |sections| && n < |sections[i].seats|
    ensures var (at, s) := (SeatsIn(sections[..i]) + OwnSeats(sections[i].rows) + n, sections[i]);
            && at < |AllPlaced(sections)| == SeatsIn(sections)
            && AllPlaced(sections)[at] == Placed(s.seats[n], s, None)
  {
    hide PlacedInRows, OwnSeats;
    var last := |sections| - 1;
    PlacedCounts(sections);
    PlacedCounts(sections[..last]);
    OwnSeatsCounts(sections[last], sections[last].rows);
    if i < last {
      LooseSeatAt(sections[..last], i, n);
      assert sections[..last][..i] == sections[..i];
    }
  }

  lemma {:induction false} PlacedCounts(sections: seq<Section>)
    ensures |AllPlaced(sections)| == SeatsIn(sections)
  {
    if sections != [] {
      var last := |sections| - 1;
      OwnSeatsCounts(sections[last], sections[last].rows);
      PlacedCounts(sections[..last]);
    }
  }

  // ---- The index of seats ------------------------------------------------------

  /** This is the place of the last seat with the key. */
  predicate IsLastOf(placed: seq<Placed>, j: int, k: Key) {
    0 <= j < |placed| && placed[j].seat.key == k && forall m :: j < m < |placed| ==> placed[m].seat.key != k
  }

  predicate IsFirstOf(placed: seq<Placed>, j: int, k: Key) {
    0 <= j < |placed| && placed[j].seat.key == k && forall m :: 0 <= m < j ==> placed[m].seat.key != k
  }

  /** Of seats that share a key the last is the one that is checked, and the one whose companion counts. */
  lemma {:induction false} IndexKeepsLast(placed: seq<Placed>, j: nat, k: Key)
    requires IsLastOf(placed, j, k)
    ensures k in IndexOf(placed).at && IndexOf(placed).at[k] == placed[j]
    ensures Next(CompanionsOf(IndexOf(placed)), k) == placed[j].seat.companionOfKey
  {
    if j < |placed| - 1 {
      assert placed[|placed| - 1].seat.key != k;
      IndexKeepsLast(placed[..|placed| - 1], j, k);
    }
  }

  /** They are checked in the order in which their keys came first. */
  lemma {:induction false} IndexKeepsOrder(placed: seq<Placed>, i: int, j: int, x: nat, y: nat)
    requires x < y < |IndexOf(placed).order|
    requires IsFirstOf(placed, i, IndexOf(placed).order[x]) && IsFirstOf(placed, j, IndexOf(placed).order[y])
    ensures i < j
  {
    var n := |placed| - 1;
    var before, order := IndexOf(placed[..n]).order, IndexOf(placed).order;
    OrderNext(placed);
    FirstIsBefore(placed, i, order[x]);
    if y < |before| {
      FirstIsBefore(placed, j, order[y]);
      hide IndexOf, IsFirstOf;
      IndexKeepsOrder(placed[..n], i, j, x, y);
    } else {
      FirstIsLast(placed, j);
    }
  }

  /** A seat's key is put at the end of the order when it is new. */
  lemma OrderNext(placed: seq<Placed>)
    requires placed != []
    ensures var n := |placed| - 1;
            var before, key := IndexOf(placed[..n]), placed[n].seat.key;
            && (forall k :: k in before.order ==> k in before.at)
            && IndexOf(placed).order == if key in before.at then before.order else before.order + [key]
  {
  }

  lemma FirstIsLast(placed: seq<Placed>, j: int)
    requires placed != [] && placed[|placed| - 1].seat.key !in IndexOf(placed[..|placed| - 1]).at
    requires IsFirstOf(placed, j, placed[|placed| - 1].seat.key)
    ensures j == |placed| - 1
  {
    if j < |placed| - 1 { EarlierIsIndexed(placed, j); }
  }

  lemma EarlierIsIndexed(placed: seq<Placed>, j: int)
    requires 0 <= j < |placed| - 1
    ensures placed[j].seat.key in IndexOf(placed[..|placed| - 1]).at
  {
    assert placed[..|placed| - 1][j] == placed[j];
  }

  lemma FirstIsBefore(placed: seq<Placed>, i: int, k: Key)
    requires IsFirstOf(placed, i, k) && k in IndexOf(placed[..|placed| - 1]).at
    ensures i < |placed| - 1 && IsFirstOf(placed[..|placed| - 1], i, k)
  {
    var rest := placed[..|placed| - 1];
    var p := IndexOf(rest).at[k];
    var m :| 0 <= m < |rest| && rest[m] == p;
    assert placed[m] == p;
  }

  // ---- The other rules, as they are reported ------------------------------------

  /** The rules of a section's kind, for a section of this key. */
  ghost predicate KindBreaks(layout: LayoutDraft, c: Code, k: Key) {
    exists s :: s in layout.sections && s.key == k && match c
      case StandingHasSeats => s.kind == Standing && !HasNoSeats(s)
      case StandingNeedsCapacity => s.kind == Standing && (s.standingCapacity.Some? ==> s.standingCapacity.value <= 0)
      case SeatedNeedsSeats => s.kind != Standing && HasNoSeats(s)
      case _ => s.kind != Standing && s.standingCapacity.Some?
  }

  predicate HasNoSeats(s: Section) { s.seats == [] && forall r :: r in s.rows ==> r.seats == [] }

  lemma {:induction false} NoneOwnIff(rows: seq<Row>)
    ensures OwnSeats(rows) == 0 <==> forall r :: r in rows ==> r.seats == []
  {
    if rows != [] {
      assert rows == rows[..|rows| - 1] + [rows[|rows| - 1]];
      NoneOwnIff(rows[..|rows| - 1]);
    }
  }

  lemma NoSeatsIff(s: Section)
    ensures HasNoSeats(s) <==> |PlacedIn(s)| == 0
  {
    NoneOwnIff(s.rows);
    OwnSeatsCounts(s, s.rows);
  }

  lemma KindsReported(layout: LayoutDraft, c: Code, k: Key)
    requires IsKindRule(c)
    ensures Layout.Reported(layout, Issue(c, Some(k))) <==> KindBreaks(layout, c, k)
  {
    KindKeys(layout, c);
    hide Layout.Reported, PlacedIn, HasNoSeats;
    forall s: Section ensures HasNoSeats(s) <==> |PlacedIn(s)| == 0 { NoSeatsIff(s); }
  }

  /** The seat that is checked under a key is the last one of it. */
  ghost predicate IsChecked(layout: LayoutDraft, k: Key, p: Placed) {
    exists j :: IsLastOf(AllPlaced(layout.sections), j, k) && AllPlaced(layout.sections)[j] == p
  }

  lemma {:induction false} LastOf(placed: seq<Placed>, k: Key) returns (j: nat)
    requires exists p :: p in placed && p.seat.key == k
    ensures IsLastOf(placed, j, k)
  {
    j := |placed| - 1;
    if placed[j].seat.key != k { j := LastOf(placed[..j], k); }
  }

  lemma CheckedIff(layout: LayoutDraft, k: Key, p: Placed)
    ensures var at := IndexOf(AllPlaced(layout.sections)).at;
            IsChecked(layout, k, p) <==> k in at && at[k] == p
  {
    hide AllPlaced, IndexOf;
    var placed := AllPlaced(layout.sections);
    var at := IndexOf(placed).at;
    if k in at {
      assert at[k] in placed && at[k].seat.key == k;
      var j := LastOf(placed, k);
      IndexKeepsLast(placed, j, k);
      assert IsChecked(layout, k, placed[j]);
    }
    forall j | IsLastOf(placed, j, k) ensures k in at && at[k] == placed[j] { IndexKeepsLast(placed, j, k); }
  }

  /** The references and the companion of the seat checked under this key. */
  ghost predicate SeatRuleBreaks(layout: LayoutDraft, c: Code, k: Key) {
    exists p :: IsChecked(layout, k, p) && if IsCrossReference(c) then ReferenceBreaks(layout, c, p)
                                           else CompanionBreaks(layout, c, k, p)
  }

  ghost predicate ReferenceBreaks(layout: LayoutDraft, c: Code, p: Placed) {
    match c
    case UnknownZone => p.seat.zoneKey.Some? && forall z :: z in layout.zones ==> z.key != p.seat.zoneKey.value
    case UnknownRow => p.seat.rowKey.Some? && !HasRow(layout, p.seat.rowKey.value)
    case UnknownSection => NamesOther(p) && !HasSection(layout, p.seat.sectionKey.value)
    case _ =>
      || (p.seat.rowKey.Some? && p.row.Some? && p.seat.rowKey.value != p.row.value.key
          && HasRow(layout, p.seat.rowKey.value))
      || (NamesOther(p) && HasSection(layout, p.seat.sectionKey.value))
  }

  ghost predicate CompanionBreaks(layout: LayoutDraft, c: Code, k: Key, p: Placed) {
    match c
    case CompanionSelf => p.seat.companionOfKey == Some(k)
    case UnknownCompanion =>
      && p.seat.companionOfKey.Some? && p.seat.companionOfKey.value != k
      && forall q :: !IsChecked(layout, p.seat.companionOfKey.value, q)
    case CompanionCrossSection => exists q :: IsPartner(layout, k, p, q) && q.section.key != p.section.key
    case CompanionNotAccessible => exists q :: IsPartner(layout, k, p, q) && !q.seat.accessible
    case _ => exists q :: IsPartner(layout, k, p, q) && q.seat.companionOfKey.Some?
  }

  predicate NamesOther(p: Placed) { p.seat.sectionKey.Some? && p.seat.sectionKey.value != p.section.key }

  ghost predicate HasRow(layout: LayoutDraft, k: Key) {
    exists s, r :: s in layout.sections && r in s.rows && r.key == k
  }

  ghost predicate HasSection(layout: LayoutDraft, k: Key) { exists s :: s in layout.sections && s.key == k }

  /** `q` is the seat checked under the key that `p`, checked under another key, names as its companion's. */
  ghost predicate IsPartner(layout: LayoutDraft, k: Key, p: Placed, q: Placed) {
    p.seat.companionOfKey.Some? && p.seat.companionOfKey.value != k && IsChecked(layout, p.seat.companionOfKey.value, q)
  }

  lemma {:induction false} RowsAre(sections: seq<Section>, r: Row)
    ensures r in AllRows(sections) <==> exists s :: s in sections && r in s.rows
  {
    if sections != [] {
      assert sections == sections[..|sections| - 1] + [sections[|sections| - 1]];
      RowsAre(sections[..|sections| - 1], r);
    }
  }

  lemma KeysKnown(layout: LayoutDraft, k: Key)
    ensures k in Elements(Map(ZoneKeyOf, layout.zones)) <==> exists z :: z in layout.zones && z.key == k
    ensures k in Elements(Map(RowKeyOf, AllRows(layout.sections))) <==> HasRow(layout, k)
    ensures k in Elements(Map(SectionKeyOf, layout.sections)) <==> HasSection(layout, k)
  {
    hide AllRows;
    KeyKnown(ZoneKeyOf, layout.zones, k);
    KeyKnown(RowKeyOf, AllRows(layout.sections), k);
    KeyKnown(SectionKeyOf, layout.sections, k);
    if r :| r in AllRows(layout.sections) && RowKeyOf(r) == k { RowsAre(layout.sections, r); }
    if s, r :| s in layout.sections && r in s.rows && r.key == k { RowsAre(layout.sections, r); }
  }

  lemma KeyKnown<A(!new)>(keyOf: A -> Key, s: seq<A>, k: Key)
    ensures k in Elements(Map(keyOf, s)) <==> exists x :: x in s && keyOf(x) == k
  {
    if k in Elements(Map(keyOf, s)) {
      var i :| 0 <= i < |s| && Map(keyOf, s)[i] == k;
      assert s[i] in s;
    }
    if x :| x in s && keyOf(x) == k {
      var i :| 0 <= i < |s| && s[i] == x;
      assert Map(keyOf, s)[i] == k;
    }
  }

  lemma ReferenceIff(layout: LayoutDraft, c: Code, k: Key)
    requires IsCrossReference(c) && k in IndexOf(AllPlaced(layout.sections)).at
    ensures ReferenceBreaks(layout, c, IndexOf(AllPlaced(layout.sections)).at[k]) <==>
      SeatBreaks(IndexOf(AllPlaced(layout.sections)), Elements(Map(ZoneKeyOf, layout.zones)),
                 Elements(Map(RowKeyOf, AllRows(layout.sections))), Elements(Map(SectionKeyOf, layout.sections)), k, c)
  {
    hide AllPlaced, AllRows, HasRow, HasSection, Map, Elements, Distinct, IndexOf, Indexes;
    var p := IndexOf(AllPlaced(layout.sections)).at[k];
    if p.seat.zoneKey.Some? { KeysKnown(layout, p.seat.zoneKey.value); }
    if p.seat.rowKey.Some? { KeysKnown(layout, p.seat.rowKey.value); }
    if p.seat.sectionKey.Some? { KeysKnown(layout, p.seat.sectionKey.value); }
  }

  lemma CompanionIff(layout: LayoutDraft, c: Code, k: Key, zones: set<Key>, rows: set<Key>, sections: set<Key>)
    requires IsSeatCompanionRule(c) && k in IndexOf(AllPlaced(layout.sections)).at
    ensures CompanionBreaks(layout, c, k, IndexOf(AllPlaced(layout.sections)).at[k])
            <==> SeatBreaks(IndexOf(AllPlaced(layout.sections)), zones, rows, sections, k, c)
  {
    hide AllPlaced, IsChecked, IndexOf, Indexes;
    var index := IndexOf(AllPlaced(layout.sections));
    var p := index.at[k];
    if p.seat.companionOfKey.Some? {
      var t := p.seat.companionOfKey.value;
      forall q ensures IsChecked(layout, t, q) <==> t in index.at && index.at[t] == q { CheckedIff(layout, t, q); }
      assert t in index.at ==> IsChecked(layout, t, index.at[t]);
      assert ClaimsPartner(index, k) ==> IsPartner(layout, k, p, Partner(index, k));
    }
  }

  lemma SeatRulesReported(layout: LayoutDraft, c: Code, k: Key)
    requires IsCrossReference(c) || IsSeatCompanionRule(c)
    ensures Layout.Reported(layout, Issue(c, Some(k))) <==> SeatRuleBreaks(layout, c, k)
  {
    hide Layout.Reported, ReferenceBreaks, CompanionBreaks, IsChecked, SeatBreaks, AllPlaced, AllRows, IndexOf;
    hide Map, Elements, Distinct;
    SeatReported(layout, c);
    var index := IndexOf(AllPlaced(layout.sections));
    forall p ensures IsChecked(layout, k, p) <==> k in index.at && index.at[k] == p { CheckedIff(layout, k, p); }
    if k in index.at {
      assert IsChecked(layout, k, index.at[k]);
      if IsCrossReference(c) {
        ReferenceIff(layout, c, k);
      } else {
        CompanionIff(layout, c, k, Elements(Map(ZoneKeyOf, layout.zones)),
                     Elements(Map(RowKeyOf, AllRows(layout.sections))), Elements(Map(SectionKeyOf, layout.sections)));
      }
    }
  }

  // ---- Keys, and seats claimed twice ---------------------------------------------

  predicate IsKeyRule(c: Code) {
    c == DuplicateZoneKey || c == DuplicateSectionKey || c == DuplicateRowKey || c == DuplicateSeatKey
  }

  ghost predicate HasTwice<A(!new)>(keyOf: A -> Key, s: seq<A>, k: Key) {
    exists i, j :: 0 <= i < j < |s| && keyOf(s[i]) == k && keyOf(s[j]) == k
  }

  ghost predicate KeyBreaks(layout: LayoutDraft, c: Code, k: Key) {
    match c
    case DuplicateZoneKey => HasTwice((z: Zone) => z.key, layout.zones, k)
    case DuplicateSectionKey => HasTwice((s: Section) => s.key, layout.sections, k)
    case DuplicateRowKey => HasTwice((r: Row) => r.key, AllRows(layout.sections), k)
    case _ => HasTwice((p: Placed) => p.seat.key, AllPlaced(layout.sections), k)
  }

  lemma HasTwiceIff<A(!new)>(f: A -> Key, keyOf: A -> Key, s: seq<A>, k: Key)
    requires forall x :: f(x) == keyOf(x)
    ensures RepeatAt(f, f, s, k) <==> HasTwice(keyOf, s, k)
  {
    if RepeatAt(f, f, s, k) {
      var j :| 0 <= j < |s| && f(s[j]) == k && f(s[j]) in Map(f, s[..j]);
      var i :| 0 <= i < j && Map(f, s[..j])[i] == f(s[j]);
      assert s[..j][i] == s[i];
    }
    if i, j :| 0 <= i < j < |s| && keyOf(s[i]) == k && keyOf(s[j]) == k { assert Map(f, s[..j])[i] == f(s[j]); }
  }

  lemma KeysReported(layout: LayoutDraft, c: Code, k: Key)
    requires IsKeyRule(c)
    ensures Layout.Reported(layout, Issue(c, Some(k))) <==> KeyBreaks(layout, c, k)
  {
    hide RepeatAt, HasTwice, IndexOf, Indexes, AllPlaced, AllRows, ClashesIn, SaysWhy, Distinct;
    if c == DuplicateZoneKey {
      HasTwiceIff(ZoneKeyOf, (z: Zone) => z.key, layout.zones, k);
    } else {
      WalkReported(layout, c, k);
      hide Layout.Reported;
      HasTwiceIff(SectionKeyOf, (s: Section) => s.key, layout.sections, k);
      HasTwiceIff(RowKeyOf, (r: Row) => r.key, AllRows(layout.sections), k);
      HasTwiceIff(SeatKeyOf, (p: Placed) => p.seat.key, AllPlaced(layout.sections), k);
    }
  }

  /** The seat checked under `k` claims the declared seat `t`, which is another. */
  ghost predicate Claims(layout: LayoutDraft, k: Key, t: Key) {
    exists p, q :: IsChecked(layout, k, p) && p.seat.companionOfKey == Some(t) && IsPartner(layout, k, p, q)
  }

  lemma ClaimsIff(layout: LayoutDraft, k: Key, t: Key)
    ensures var index := IndexOf(AllPlaced(layout.sections));
            Claims(layout, k, t) <==> ClaimsPartner(index, k) && index.at[k].seat.companionOfKey == Some(t)
  {
    hide AllPlaced, IsChecked, IndexOf, Indexes;
    var index := IndexOf(AllPlaced(layout.sections));
    forall q ensures IsChecked(layout, k, q) <==> k in index.at && index.at[k] == q { CheckedIff(layout, k, q); }
    forall q ensures IsChecked(layout, t, q) <==> t in index.at && index.at[t] == q { CheckedIff(layout, t, q); }
    if ClaimsPartner(index, k) && index.at[k].seat.companionOfKey == Some(t) {
      assert IsPartner(layout, k, index.at[k], index.at[t]);
    }
  }

  /** A seat whose key came first later than that of another claims what the other claims. */
  ghost predicate SharedBreaks(layout: LayoutDraft, k: Key) {
    exists other, t :: Claims(layout, other, t) && Claims(layout, k, t) && ComesBefore(layout, other, k)
  }

  ghost predicate ComesBefore(layout: LayoutDraft, a: Key, b: Key) {
    var placed := AllPlaced(layout.sections);
    exists i, j :: IsFirstOf(placed, i, a) && IsFirstOf(placed, j, b) && i < j
  }

  lemma {:induction false} FirstOf(placed: seq<Placed>, k: Key) returns (j: nat)
    requires exists p :: p in placed && p.seat.key == k
    ensures IsFirstOf(placed, j, k)
  {
    var n := |placed| - 1;
    if p :| p in placed[..n] && p.seat.key == k {
      j := FirstOf(placed[..n], k);
    } else {
      j := n;
      assert forall m :: 0 <= m < n ==> placed[m] in placed[..n];
      assert placed == placed[..n] + [placed[n]];
    }
  }

  lemma OrderIff(layout: LayoutDraft, x: nat, y: nat)
    requires var order := IndexOf(AllPlaced(layout.sections)).order; x < |order| && y < |order|
    ensures var order := IndexOf(AllPlaced(layout.sections)).order;
            ComesBefore(layout, order[x], order[y]) <==> x < y
  {
    hide AllPlaced, IndexOf, IsFirstOf;
    var placed := AllPlaced(layout.sections);
    var index := IndexOf(placed);
    var (a, b) := (index.order[x], index.order[y]);
    assert index.at[a] in placed && index.at[b] in placed;
    var i := FirstOf(placed, a);
    var j := FirstOf(placed, b);
    if x < y { IndexKeepsOrder(placed, i, j, x, y); }
    if ComesBefore(layout, a, b) {
      var i', j' :| IsFirstOf(placed, i', a) && IsFirstOf(placed, j', b) && i' < j';
      if y < x { IndexKeepsOrder(placed, j', i', y, x); }
      if x == y { FirstOnce(placed, i', j', a); }
    }
  }

  lemma FirstOnce(placed: seq<Placed>, i: int, j: int, k: Key)
    requires IsFirstOf(placed, i, k) && IsFirstOf(placed, j, k)
    ensures i == j
  {
  }

  lemma SharedReported(layout: LayoutDraft, k: Key)
    ensures Layout.Reported(layout, Issue(CompanionShared, Some(k))) <==> SharedBreaks(layout, k)
  {
    hide AllPlaced, AllRows, IndexOf, Distinct, Claims, ComesBefore;
    var index := IndexOf(AllPlaced(layout.sections));
    forall a, t
      ensures Claims(layout, a, t) <==> ClaimsPartner(index, a) && index.at[a].seat.companionOfKey == Some(t)
    {
      ClaimsIff(layout, a, t);
    }
    forall x: nat, y: nat | x < |index.order| && y < |index.order|
      ensures ComesBefore(layout, index.order[x], index.order[y]) <==> x < y
    {
      OrderIff(layout, x, y);
    }
    SecondIff(layout, index, k);
  }

  lemma ClaimantsIndexed(index: Index, k: Key)
    requires ClaimsPartner(index, k)
    ensures k in index.at && index.at[k].seat.companionOfKey.Some?
  {
  }

  lemma SecondIff(layout: LayoutDraft, index: Index, k: Key)
    requires forall key :: key in index.order <==> key in index.at
    requires forall a, t ::
      Claims(layout, a, t) <==> ClaimsPartner(index, a) && index.at[a].seat.companionOfKey == Some(t)
    requires forall x: nat, y: nat :: x < |index.order| && y < |index.order| ==>
               (ComesBefore(layout, index.order[x], index.order[y]) <==> x < y)
    ensures SharedBreaks(layout, k) <==> SharedReports(index, |index.order|, Issue(CompanionShared, Some(k)))
  {
    hide Claims, ComesBefore, ClaimsPartner;
    if SharedBreaks(layout, k) {
      var other, t :| Claims(layout, other, t) && Claims(layout, k, t) && ComesBefore(layout, other, k);
      ClaimantsIndexed(index, other);
      ClaimantsIndexed(index, k);
      var x :| 0 <= x < |index.order| && index.order[x] == other;
      var y :| 0 <= y < |index.order| && index.order[y] == k;
      assert IsSecondClaim(index, y);
    }
    if i: nat :| i < |index.order| && index.order[i] == k && IsSecondClaim(index, i) {
      var j :| && 0 <= j < i && ClaimsPartner(index, index.order[j])
               && index.at[index.order[j]].seat.companionOfKey == index.at[k].seat.companionOfKey;
      ClaimantsIndexed(index, k);
      assert Claims(layout, index.order[j], index.at[k].seat.companionOfKey.value);
      assert ComesBefore(layout, index.order[j], index.order[i]);
    }
  }

  // ---- All of them -----------------------------------------------------------------

  /** What each code stands for, under a key; the empty layout and loops apart, which have no one key. */
  ghost predicate PayloadBreaks(layout: LayoutDraft, c: Code, k: Key) {
    if IsNameRule(c) then NameBreaks(layout, c, k)
    else if IsKeyRule(c) then KeyBreaks(layout, c, k)
    else if IsKindRule(c) then KindBreaks(layout, c, k)
    else if c == CompanionShared then SharedBreaks(layout, k)
    else SeatRuleBreaks(layout, c, k)
  }

  /** Every issue, under its key, told from the payload alone. */
  lemma ReportedIff(layout: LayoutDraft, c: Code, k: Key)
    requires c != EmptyLayout && c != CompanionCycle
    ensures Layout.Reported(layout, Issue(c, Some(k))) <==> PayloadBreaks(layout, c, k)
  {
    hide Layout.Reported, NameBreaks, KeyBreaks, KindBreaks, SharedBreaks, SeatRuleBreaks;
    if IsNameRule(c) {
      NamesReported(layout, c, k);
    } else if IsKeyRule(c) {
      KeysReported(layout, c, k);
    } else if IsKindRule(c) {
      KindsReported(layout, c, k);
    } else if c == CompanionShared {
      SharedReported(layout, k);
    } else {
      SeatRulesReported(layout, c, k);
    }
  }
}
