/** The rules of a whole seating layout: what each code stands for, and whose key is reported with it. */
module Layout {
  import opened Prelude
  import opened CompanionGraph

  // ---- The payload --------------------------------------------------------

  datatype Seat = Seat(
    key: Key, labelText: string, accessible: bool, restricted: bool, restrictionNote: Option<string>,
    zoneKey: Option<Key>, rowKey: Option<Key>, sectionKey: Option<Key>, companionOfKey: Option<Key>)

  datatype Row = Row(key: Key, labelText: string, seats: seq<Seat>)

  datatype SectionKind = Seated | Standing | Table

  datatype Section = Section(
    key: Key, name: string, kind: SectionKind, rows: seq<Row>, seats: seq<Seat>, standingCapacity: Option<int>)

  datatype Zone = Zone(key: Key, name: string)

  datatype LayoutDraft = LayoutDraft(zones: seq<Zone>, sections: seq<Section>)

  datatype Code =
    | EmptyLayout
    | DuplicateZoneKey | DuplicateZoneName
    | DuplicateSectionKey | DuplicateSectionName | DuplicateRowKey | DuplicateRowLabel
    | DuplicateSeatKey | DuplicateSeatLabel | RestrictionNeedsNote
    | StandingHasSeats | StandingNeedsCapacity | SeatedNeedsSeats | SeatedHasCapacity
    | UnknownZone | UnknownRow | UnknownSection | RowSectionMismatch
    | CompanionSelf | UnknownCompanion | CompanionCrossSection | CompanionNotAccessible
    | CompanionChain | CompanionShared | CompanionCycle

  datatype Issue = Issue(code: Code, key: Option<Key>)

  // ---- Labels -------------------------------------------------------------

  function TrimStart(s: string): string { if s != "" && IsSpace(s[0]) then TrimStart(s[1..]) else s }

  function TrimEnd(s: string): string {
    if s != "" && IsSpace(s[|s| - 1]) then TrimEnd(s[..|s| - 1]) else s
  }

  function Lower(c: char): char { if 'A' <= c <= 'Z' then c - 'A' + 'a' else c }

  /** Trimmed and case-folded, as labels are compared. */
  function Normalise(value: string): string { Map(Lower, TrimEnd(TrimStart(value))) }

  function NormaliseOptional(value: Option<string>): string {
    if value.Some? then Normalise(value.value) else ""
  }

  // ---- The layout, flattened in the order it is walked ----------------------

  /** A seat with the section and row it is nested in. */
  datatype Placed = Placed(seat: Seat, section: Section, row: Option<Row>)

  function PlacedInRow(section: Section, row: Row): seq<Placed> {
    Map(seat => Placed(seat, section, Some(row)), row.seats)
  }

  function PlacedInRows(section: Section, rows: seq<Row>): seq<Placed> {
    if rows == [] then []
    else PlacedInRows(section, rows[..|rows| - 1]) + PlacedInRow(section, rows[|rows| - 1])
  }

  function LooseIn(section: Section): seq<Placed> { Map(seat => Placed(seat, section, None), section.seats) }

  function PlacedIn(section: Section): seq<Placed> { PlacedInRows(section, section.rows) + LooseIn(section) }

  function AllPlaced(sections: seq<Section>): seq<Placed> {
    if sections == [] then []
    else AllPlaced(sections[..|sections| - 1]) + PlacedIn(sections[|sections| - 1])
  }

  function AllRows(sections: seq<Section>): seq<Row> {
    if sections == [] then [] else AllRows(sections[..|sections| - 1]) + sections[|sections| - 1].rows
  }

  function ZoneKeyOf(z: Zone): Key { z.key }
  function ZoneNameOf(z: Zone): string { Normalise(z.name) }
  function SectionKeyOf(s: Section): Key { s.key }
  function SectionNameOf(s: Section): string { Normalise(s.name) }
  function RowKeyOf(r: Row): Key { r.key }
  function RowLabelOf(r: Row): string { Normalise(r.labelText) }
  function SeatKeyOf(p: Placed): Key { p.seat.key }
  function SeatLabelOf(p: Placed): string { Normalise(p.seat.labelText) }

  predicate SaysWhy(p: Placed) { p.seat.restricted ==> NormaliseOptional(p.seat.restrictionNote) != "" }

  // ---- The index of seats by key -------------------------------------------

  /** A JavaScript `Map`: setting a key again keeps its place and replaces its value. */
  datatype Index = Index(order: seq<Key>, at: map<Key, Placed>)

  function Set(index: Index, p: Placed): Index {
    Index(if p.seat.key in index.at then index.order else index.order + [p.seat.key],
          index.at[p.seat.key := p])
  }

  /** What an index of placed seats is: each of their keys once, at a seat of that key. */
  ghost predicate Indexes(index: Index, placed: seq<Placed>) {
    && (forall k :: k in index.order <==> k in index.at)
    && (forall k :: k in index.at ==> index.at[k] in placed && index.at[k].seat.key == k)
    && (forall p :: p in placed ==> p.seat.key in index.at)
    && Distinct(index.order)
  }

  function IndexOf(placed: seq<Placed>): (index: Index)
    ensures Indexes(index, placed)
  {
    if placed == [] then Index([], map[])
    else
      var rest, last := placed[..|placed| - 1], placed[|placed| - 1];
      SetIndexes(IndexOf(rest), rest, last);
      assert placed == rest + [last];
      Set(IndexOf(rest), last)
  }

  lemma SetIndexes(index: Index, placed: seq<Placed>, p: Placed)
    requires Indexes(index, placed)
    ensures Indexes(Set(index, p), placed + [p])
  {
  }

  /** Keys once each, at seats of their own. */
  ghost predicate WellIndexed(index: Index) {
    && (forall k :: k in index.order <==> k in index.at)
    && (forall k :: k in index.at ==> index.at[k].seat.key == k)
    && Distinct(index.order)
  }

  /** With unique keys the index is the whole layout: nothing was overwritten. */
  lemma {:induction false} UniqueKeysIndexEverySeat(placed: seq<Placed>)
    requires Distinct(Map(SeatKeyOf, placed))
    ensures IndexOf(placed).order == Map(SeatKeyOf, placed)
    ensures forall p :: p in placed ==> IndexOf(placed).at[p.seat.key] == p
  {
    if placed != [] {
      var rest, last := placed[..|placed| - 1], placed[|placed| - 1];
      assert placed == rest + [last];
      MapSnoc(SeatKeyOf, rest, last);
      DistinctSnoc(Map(SeatKeyOf, rest), last.seat.key);
      UniqueKeysIndexEverySeat(rest);
      forall p | p in rest ensures p.seat.key != last.seat.key {
        var i :| 0 <= i < |rest| && rest[i] == p;
        assert Map(SeatKeyOf, rest)[i] == p.seat.key;
      }
    }
  }

  function CompanionsOf(index: Index): Graph {
    map k | k in index.at :: index.at[k].seat.companionOfKey
  }

  // ---- The rules ------------------------------------------------------------

  /** A section's own shape: the rules of its kind. */
  function KindFaults(s: Section): set<Code> {
    var own := |PlacedIn(s)|;
    match s.kind
    case Standing =>
      When(own > 0, StandingHasSeats)
      + When(!(s.standingCapacity.Some? && s.standingCapacity.value > 0), StandingNeedsCapacity)
    case _ =>
      When(own == 0, SeatedNeedsSeats) + When(s.standingCapacity.Some?, SeatedHasCapacity)
  }

  function When(broken: bool, code: Code): set<Code> { if broken then {code} else {} }

  /** A seat that claims a declared seat other than itself. */
  predicate ClaimsPartner(index: Index, k: Key) {
    && k in index.at && index.at[k].seat.companionOfKey.Some?
    && index.at[k].seat.companionOfKey.value != k
    && index.at[k].seat.companionOfKey.value in index.at
  }

  function Partner(index: Index, k: Key): Placed
    requires ClaimsPartner(index, k)
  {
    index.at[index.at[k].seat.companionOfKey.value]
  }

  /** The cross-reference and companion rules one indexed seat breaks on its own. */
  predicate SeatBreaks(
    index: Index, zoneKeys: set<Key>, rowKeys: set<Key>, sectionKeys: set<Key>, k: Key, code: Code)
    requires k in index.at
  {
    var p := index.at[k];
    match code
    case UnknownZone => p.seat.zoneKey.Some? && p.seat.zoneKey.value !in zoneKeys
    case UnknownRow => p.seat.rowKey.Some? && p.seat.rowKey.value !in rowKeys
    case UnknownSection =>
      p.seat.sectionKey.Some? && p.seat.sectionKey.value != p.section.key && p.seat.sectionKey.value !in sectionKeys
    case RowSectionMismatch =>
      || (p.seat.rowKey.Some? && p.seat.rowKey.value in rowKeys && p.row.Some?
          && p.seat.rowKey.value != p.row.value.key)
      || (p.seat.sectionKey.Some? && p.seat.sectionKey.value != p.section.key && p.seat.sectionKey.value in sectionKeys)
    case CompanionSelf => p.seat.companionOfKey == Some(k)
    case UnknownCompanion =>
      p.seat.companionOfKey.Some? && p.seat.companionOfKey.value != k && p.seat.companionOfKey.value !in index.at
    case CompanionCrossSection => ClaimsPartner(index, k) && Partner(index, k).section.key != p.section.key
    case CompanionNotAccessible => ClaimsPartner(index, k) && !Partner(index, k).seat.accessible
    case CompanionChain => ClaimsPartner(index, k) && Partner(index, k).seat.companionOfKey.Some?
    case _ => false
  }

  predicate IsCrossReference(code: Code) {
    code == UnknownZone || code == UnknownRow || code == UnknownSection || code == RowSectionMismatch
  }

  predicate IsSeatCompanionRule(code: Code) {
    || code == CompanionSelf || code == UnknownCompanion || code == CompanionCrossSection
    || code == CompanionNotAccessible || code == CompanionChain
  }

  /** Some seat among these breaks the rule. */
  ghost predicate AnyBreaks(
    index: Index, zoneKeys: set<Key>, rowKeys: set<Key>, sectionKeys: set<Key>, keys: seq<Key>, c: Code)
  {
    exists k :: k in keys && k in index.at && SeatBreaks(index, zoneKeys, rowKeys, sectionKeys, k, c)
  }

  ghost predicate TwoClaimOne(index: Index, keys: set<Key>) {
    exists a, b :: a in keys && b in keys && a != b && ClaimsPartner(index, a) && ClaimsPartner(index, b)
      && index.at[a].seat.companionOfKey == index.at[b].seat.companionOfKey
  }

  /** The rule each code stands for, said of the whole layout. */
  ghost predicate Broken(layout: LayoutDraft, code: Code) {
    var placed := AllPlaced(layout.sections);
    var index := IndexOf(placed);
    match code
    case EmptyLayout => layout.sections == []
    case DuplicateZoneKey => !Distinct(Map(ZoneKeyOf, layout.zones))
    case DuplicateZoneName => !Distinct(Map(ZoneNameOf, layout.zones))
    case DuplicateSectionKey => !Distinct(Map(SectionKeyOf, layout.sections))
    case DuplicateSectionName => !Distinct(Map(SectionNameOf, layout.sections))
    case DuplicateRowKey => !Distinct(Map(RowKeyOf, AllRows(layout.sections)))
    case DuplicateRowLabel => exists s :: s in layout.sections && !Distinct(Map(RowLabelOf, s.rows))
    case DuplicateSeatKey => !Distinct(Map(SeatKeyOf, placed))
    case DuplicateSeatLabel => !Distinct(Map(SeatLabelOf, placed))
    case RestrictionNeedsNote => exists p :: p in placed && !SaysWhy(p)
    case CompanionShared => TwoClaimOne(index, index.at.Keys)
    case CompanionCycle => !Acyclic(CompanionsOf(index))
    case _ =>
      if IsCrossReference(code) || IsSeatCompanionRule(code) then SomeSeatBreaks(layout, code)
      else exists s :: s in layout.sections && code in KindFaults(s)
  }

  /** Some indexed seat breaks the rule, against the keys of the whole layout. */
  ghost predicate SomeSeatBreaks(layout: LayoutDraft, c: Code) {
    var index := IndexOf(AllPlaced(layout.sections));
    AnyBreaks(index, Elements(Map(ZoneKeyOf, layout.zones)), Elements(Map(RowKeyOf, AllRows(layout.sections))),
              Elements(Map(SectionKeyOf, layout.sections)), index.order, c)
  }

  function Codes(issues: seq<Issue>): set<Code> { set i | i in issues :: i.code }

  // ---- Which issues are reported -----------------------------------------------

  /** The entity of this key repeats what one before it has. */
  ghost predicate RepeatAt<A, B>(f: A -> B, keyOf: A -> Key, s: seq<A>, k: Key) {
    exists i :: 0 <= i < |s| && keyOf(s[i]) == k && f(s[i]) in Map(f, s[..i])
  }

  ghost predicate ZonesReport(zones: seq<Zone>, x: Issue) {
    x.key.Some? && (
      || (x.code == DuplicateZoneKey && RepeatAt(ZoneKeyOf, ZoneKeyOf, zones, x.key.value))
      || (x.code == DuplicateZoneName && RepeatAt(ZoneNameOf, ZoneKeyOf, zones, x.key.value)))
  }

  /** The keys of rows whose label repeats one before it in the same section. */
  function ClashesIn(rows: seq<Row>): set<Key> {
    set i | 0 <= i < |rows| && RowLabelOf(rows[i]) in Map(RowLabelOf, rows[..i]) :: rows[i].key
  }

  /** A section's own faults, under its key. */
  function KindReports(s: Section): set<Issue> { set c | c in KindFaults(s) :: Issue(c, Some(s.key)) }

  /** What has been walked so far. */
  datatype Walked = Walked(
    sections: seq<Section>, rows: seq<Row>, placed: seq<Placed>, clashes: set<Key>, kinds: set<Issue>)

  ghost function Through(sections: seq<Section>): Walked {
    Walked(sections, AllRows(sections), AllPlaced(sections),
           set s, k | s in sections && k in ClashesIn(s.rows) :: k,
           set s, x | s in sections && x in KindReports(s) :: x)
  }

  ghost predicate WalkReports(h: Walked, x: Issue) {
    x.key.Some? &&
    match x.code
    case DuplicateSectionKey => RepeatAt(SectionKeyOf, SectionKeyOf, h.sections, x.key.value)
    case DuplicateSectionName => RepeatAt(SectionNameOf, SectionKeyOf, h.sections, x.key.value)
    case DuplicateRowKey => RepeatAt(RowKeyOf, RowKeyOf, h.rows, x.key.value)
    case DuplicateRowLabel => x.key.value in h.clashes
    case DuplicateSeatKey => RepeatAt(SeatKeyOf, SeatKeyOf, h.placed, x.key.value)
    case DuplicateSeatLabel => RepeatAt(SeatLabelOf, SeatKeyOf, h.placed, x.key.value)
    case RestrictionNeedsNote => exists p :: p in h.placed && p.seat.key == x.key.value && !SaysWhy(p)
    case _ => x in h.kinds
  }

  /** The rule is one a seat breaks on its own, and the seat of this key breaks it. */
  ghost predicate SeatReports(
    index: Index, zoneKeys: set<Key>, rowKeys: set<Key>, sectionKeys: set<Key>, keys: seq<Key>, x: Issue)
  {
    && (IsCrossReference(x.code) || IsSeatCompanionRule(x.code))
    && x.key.Some? && x.key.value in keys && x.key.value in index.at
    && SeatBreaks(index, zoneKeys, rowKeys, sectionKeys, x.key.value, x.code)
  }

  /** The seat at this place claims what a seat before it has claimed. */
  ghost predicate IsSecondClaim(index: Index, i: nat)
    requires i < |index.order|
  {
    && ClaimsPartner(index, index.order[i])
    && exists j :: 0 <= j < i && ClaimsPartner(index, index.order[j])
         && index.at[index.order[j]].seat.companionOfKey == index.at[index.order[i]].seat.companionOfKey
  }

  ghost predicate SharedReports(index: Index, n: nat, x: Issue)
    requires n <= |index.order|
  {
    x.code == CompanionShared && exists i: nat :: i < n && x.key == Some(index.order[i]) && IsSecondClaim(index, i)
  }

  predicate IsZoneRule(c: Code) { c == DuplicateZoneKey || c == DuplicateZoneName }

  predicate IsKindRule(c: Code) {
    c == StandingHasSeats || c == StandingNeedsCapacity || c == SeatedNeedsSeats || c == SeatedHasCapacity
  }

  /** A rule checked while sections, rows and seats are walked. */
  predicate IsWalkRule(c: Code) {
    || c == DuplicateSectionKey || c == DuplicateSectionName || c == DuplicateRowKey || c == DuplicateRowLabel
    || c == DuplicateSeatKey || c == DuplicateSeatLabel || c == RestrictionNeedsNote || IsKindRule(c)
  }

  /** The issue, with its key, is one the layout gives rise to; loops apart, whose key depends on the search. */
  ghost predicate Reported(layout: LayoutDraft, x: Issue) {
    var index := IndexOf(AllPlaced(layout.sections));
    if x.code == EmptyLayout then x.key == None && layout.sections == []
    else if IsZoneRule(x.code) then ZonesReport(layout.zones, x)
    else if IsWalkRule(x.code) then WalkReports(Through(layout.sections), x)
    else if x.code == CompanionShared then SharedReports(index, |index.order|, x)
    else SeatReports(index, Elements(Map(ZoneKeyOf, layout.zones)), Elements(Map(RowKeyOf, AllRows(layout.sections))),
                     Elements(Map(SectionKeyOf, layout.sections)), index.order, x)
  }

  /** What the phases of the validation report between them. */
  ghost predicate PhasesReport(layout: LayoutDraft, x: Issue) {
    var index := IndexOf(AllPlaced(layout.sections));
    || (x == Issue(EmptyLayout, None) && layout.sections == [])
    || ZonesReport(layout.zones, x)
    || WalkReports(Through(layout.sections), x)
    || SeatReports(index, Elements(Map(ZoneKeyOf, layout.zones)), Elements(Map(RowKeyOf, AllRows(layout.sections))),
                   Elements(Map(SectionKeyOf, layout.sections)), index.order, x)
    || SharedReports(index, |index.order|, x)
  }

  // ---- A rule is broken just when an issue with its code is reported ------------

  lemma DistinctSnoc<T>(s: seq<T>, x: T)
    ensures Distinct(s + [x]) <==> Distinct(s) && x !in s
    ensures Elements(s + [x]) == Elements(s) + {x}
  {
    var t := s + [x];
    assert forall i :: 0 <= i < |s| ==> t[i] == s[i];
    if x in s {
      var i :| 0 <= i < |s| && s[i] == x;
      assert t[i] == t[|s|];
    }
  }

  lemma MapSnoc<A, B>(f: A -> B, s: seq<A>, x: A)
    ensures Map(f, s + [x]) == Map(f, s) + [f(x)]
  {
  }

  /** A list has a repeat just when something in it repeats what came before. */
  lemma RepeatsIff<A, B>(f: A -> B, keyOf: A -> Key, s: seq<A>)
    ensures !Distinct(Map(f, s)) <==> exists k :: RepeatAt(f, keyOf, s, k)
  {
    var t := Map(f, s);
    if i, j :| 0 <= i < j < |t| && t[i] == t[j] {
      assert Map(f, s[..j])[i] == f(s[i]);
      assert RepeatAt(f, keyOf, s, keyOf(s[j]));
    }
    if k :| RepeatAt(f, keyOf, s, k) {
      var j :| 0 <= j < |s| && keyOf(s[j]) == k && f(s[j]) in Map(f, s[..j]);
      var i :| 0 <= i < j && Map(f, s[..j])[i] == f(s[j]);
      assert t[i] == t[j];
    }
  }

  lemma KindReported(s: Section, x: Issue)
    ensures x in KindReports(s) <==> x.code in KindFaults(s) && x.key == Some(s.key)
    ensures x.code in KindFaults(s) ==> IsKindRule(x.code)
  {
    hide PlacedIn;
    if x.code in KindFaults(s) && x.key == Some(s.key) { assert x == Issue(x.code, Some(s.key)); }
  }

  lemma KindCodes(sections: seq<Section>, x: Issue)
    ensures x in Through(sections).kinds <==>
      IsKindRule(x.code) && exists s :: s in sections && x.code in KindFaults(s) && x.key == Some(s.key)
  {
    hide KindFaults, KindReports, AllPlaced, AllRows, ClashesIn, IsKindRule;
    forall s | s in sections
      ensures x in KindReports(s) <==> x.code in KindFaults(s) && x.key == Some(s.key)
      ensures x.code in KindFaults(s) ==> IsKindRule(x.code)
    {
      KindReported(s, x);
    }
  }

  lemma WalkCodes(layout: LayoutDraft, x: Issue)
    ensures WalkReports(Through(layout.sections), x) ==> IsWalkRule(x.code)
  {
    hide RepeatAt, AllPlaced, AllRows, KindFaults, SaysWhy, Through;
    KindCodes(layout.sections, x);
  }

  /** Each code is reported in one phase of the validation. */
  lemma ReportedInPhase(layout: LayoutDraft, x: Issue)
    ensures PhasesReport(layout, x) <==> Reported(layout, x)
  {
    hide WalkReports, RepeatAt, AllPlaced, AllRows, Through, SeatBreaks, IndexOf, Indexes, IsSecondClaim, Map, Elements;
    WalkCodes(layout, x);
  }

  /** The rule behind a code is broken just when some issue with the code is reported. */
  lemma BrokenIffReported(layout: LayoutDraft, c: Code)
    requires c != CompanionCycle
    ensures Broken(layout, c) <==> exists k :: Reported(layout, Issue(c, k))
  {
    hide *;
    SomeKey(layout, c);
    if c == EmptyLayout {
      EmptyRule(layout);
    } else if IsZoneRule(c) {
      ZoneRules(layout, c);
    } else if IsKindRule(c) {
      KindRules(layout, c);
    } else if IsWalkRule(c) {
      WalkRules(layout, c);
    } else if c == CompanionShared {
      SharedRule(layout);
    } else {
      OtherRules(c);
      SeatRules(layout, c);
    }
  }

  lemma OtherRules(c: Code)
    requires c != EmptyLayout && !IsZoneRule(c) && !IsWalkRule(c) && c != CompanionShared && c != CompanionCycle
    ensures IsCrossReference(c) || IsSeatCompanionRule(c)
  {
  }

  /** Some issue with this code and some key. */
  ghost predicate SomeReported(layout: LayoutDraft, c: Code) { exists k: Key :: Reported(layout, Issue(c, Some(k))) }

  lemma SomeKey(layout: LayoutDraft, c: Code)
    ensures (exists k :: Reported(layout, Issue(c, k))) <==> Reported(layout, Issue(c, None)) || SomeReported(layout, c)
  {
    hide Reported;
    if k :| Reported(layout, Issue(c, k)) { assert k == None || k == Some(k.value); }
  }

  lemma EmptyRule(layout: LayoutDraft)
    ensures Broken(layout, EmptyLayout)
            <==> Reported(layout, Issue(EmptyLayout, None)) || SomeReported(layout, EmptyLayout)
  {
    hide AllPlaced, IndexOf, Indexes;
  }

  lemma ZoneRules(layout: LayoutDraft, c: Code)
    requires IsZoneRule(c)
    ensures Broken(layout, c) <==> Reported(layout, Issue(c, None)) || SomeReported(layout, c)
  {
    hide AllPlaced, IndexOf, Indexes, Distinct, Map, RepeatAt;
    RepeatsIff(ZoneKeyOf, ZoneKeyOf, layout.zones);
    RepeatsIff(ZoneNameOf, ZoneKeyOf, layout.zones);
    forall k: Key ensures Reported(layout, Issue(c, Some(k))) <==>
      (if c == DuplicateZoneKey then RepeatAt(ZoneKeyOf, ZoneKeyOf, layout.zones, k)
       else RepeatAt(ZoneNameOf, ZoneKeyOf, layout.zones, k))
    {
    }
  }

  /** Some section of this key has the fault. */
  ghost predicate KindReportsKey(layout: LayoutDraft, c: Code, k: Key) {
    exists s :: s in layout.sections && c in KindFaults(s) && k == s.key
  }

  lemma KindKeys(layout: LayoutDraft, c: Code)
    requires IsKindRule(c)
    ensures !Reported(layout, Issue(c, None))
    ensures forall k: Key :: Reported(layout, Issue(c, Some(k))) <==> KindReportsKey(layout, c, k)
  {
    hide AllPlaced, AllRows, IndexOf, Indexes, KindFaults, Through;
    forall k: Key ensures Reported(layout, Issue(c, Some(k))) <==> KindReportsKey(layout, c, k) {
      KindCodes(layout.sections, Issue(c, Some(k)));
    }
  }

  lemma KindRules(layout: LayoutDraft, c: Code)
    requires IsKindRule(c)
    ensures Broken(layout, c) <==> Reported(layout, Issue(c, None)) || SomeReported(layout, c)
  {
    hide Broken, Reported, KindReportsKey;
    KindKeys(layout, c);
    KindBroken(layout, c);
  }

  lemma KindBroken(layout: LayoutDraft, c: Code)
    requires IsKindRule(c)
    ensures Broken(layout, c) <==> exists k :: KindReportsKey(layout, c, k)
  {
    hide AllPlaced, AllRows, IndexOf, Indexes, KindFaults, SomeSeatBreaks, TwoClaimOne, Acyclic, CompanionsOf,
        Distinct, Map;
    hide SaysWhy, Elements;
    if s :| s in layout.sections && c in KindFaults(s) {
      assert KindReportsKey(layout, c, s.key);
    }
  }

  /** What the walk reports under a key, rule by rule. */
  ghost predicate WalkReportsKey(layout: LayoutDraft, c: Code, k: Key) {
    match c
    case DuplicateSectionKey => RepeatAt(SectionKeyOf, SectionKeyOf, layout.sections, k)
    case DuplicateSectionName => RepeatAt(SectionNameOf, SectionKeyOf, layout.sections, k)
    case DuplicateRowKey => RepeatAt(RowKeyOf, RowKeyOf, AllRows(layout.sections), k)
    case DuplicateRowLabel => exists s :: s in layout.sections && k in ClashesIn(s.rows)
    case DuplicateSeatKey => RepeatAt(SeatKeyOf, SeatKeyOf, AllPlaced(layout.sections), k)
    case DuplicateSeatLabel => RepeatAt(SeatLabelOf, SeatKeyOf, AllPlaced(layout.sections), k)
    case _ => exists p :: p in AllPlaced(layout.sections) && p.seat.key == k && !SaysWhy(p)
  }

  lemma WalkReported(layout: LayoutDraft, c: Code, k: Key)
    requires IsWalkRule(c) && !IsKindRule(c)
    ensures Reported(layout, Issue(c, Some(k))) <==> WalkReportsKey(layout, c, k)
  {
    hide AllPlaced, AllRows, IndexOf, Indexes, RepeatAt, ClashesIn, KindReports, SaysWhy;
  }

  lemma WalkRules(layout: LayoutDraft, c: Code)
    requires IsWalkRule(c) && !IsKindRule(c)
    ensures Broken(layout, c) <==> Reported(layout, Issue(c, None)) || SomeReported(layout, c)
  {
    hide Reported, WalkReportsKey, Broken;
    forall k: Key ensures Reported(layout, Issue(c, Some(k))) <==> WalkReportsKey(layout, c, k) {
      WalkReported(layout, c, k);
    }
    WalkBroken(layout, c);
    KeylessWalk(layout, c);
  }

  lemma KeylessWalk(layout: LayoutDraft, c: Code)
    requires IsWalkRule(c)
    ensures !Reported(layout, Issue(c, None))
  {
    hide AllPlaced, AllRows, IndexOf, Indexes, Through;
  }

  lemma WalkBroken(layout: LayoutDraft, c: Code)
    requires IsWalkRule(c) && !IsKindRule(c)
    ensures Broken(layout, c) <==> exists k :: WalkReportsKey(layout, c, k)
  {
    hide AllPlaced, AllRows, IndexOf, Indexes, RepeatAt, ClashesIn, SaysWhy, Distinct, Map;
    var placed, rows := AllPlaced(layout.sections), AllRows(layout.sections);
    match c
    case DuplicateSectionKey =>
      RepeatsIff(SectionKeyOf, SectionKeyOf, layout.sections);
      if k :| RepeatAt(SectionKeyOf, SectionKeyOf, layout.sections, k) { assert WalkReportsKey(layout, c, k); }
    case DuplicateSectionName =>
      RepeatsIff(SectionNameOf, SectionKeyOf, layout.sections);
      if k :| RepeatAt(SectionNameOf, SectionKeyOf, layout.sections, k) { assert WalkReportsKey(layout, c, k); }
    case DuplicateRowKey =>
      RepeatsIff(RowKeyOf, RowKeyOf, rows);
      if k :| RepeatAt(RowKeyOf, RowKeyOf, rows, k) { assert WalkReportsKey(layout, c, k); }
    case DuplicateSeatKey =>
      RepeatsIff(SeatKeyOf, SeatKeyOf, placed);
      if k :| RepeatAt(SeatKeyOf, SeatKeyOf, placed, k) { assert WalkReportsKey(layout, c, k); }
    case DuplicateSeatLabel =>
      RepeatsIff(SeatLabelOf, SeatKeyOf, placed);
      if k :| RepeatAt(SeatLabelOf, SeatKeyOf, placed, k) { assert WalkReportsKey(layout, c, k); }
    case DuplicateRowLabel =>
      forall s | s in layout.sections
        ensures !Distinct(Map(RowLabelOf, s.rows)) <==> exists k :: k in ClashesIn(s.rows)
      {
        ClashesIff(s.rows);
      }
      if s :| s in layout.sections && !Distinct(Map(RowLabelOf, s.rows)) {
        var k :| k in ClashesIn(s.rows);
        assert WalkReportsKey(layout, c, k);
      }
    case RestrictionNeedsNote =>
      if p :| p in placed && !SaysWhy(p) { assert WalkReportsKey(layout, c, p.seat.key); }
  }

  lemma ClashesIff(rows: seq<Row>)
    ensures !Distinct(Map(RowLabelOf, rows)) <==> exists k :: k in ClashesIn(rows)
  {
    RepeatsIff(RowLabelOf, RowKeyOf, rows);
    forall k ensures k in ClashesIn(rows) <==> RepeatAt(RowLabelOf, RowKeyOf, rows, k) {}
  }

  lemma SharedRule(layout: LayoutDraft)
    ensures Broken(layout, CompanionShared)
            <==> Reported(layout, Issue(CompanionShared, None)) || SomeReported(layout, CompanionShared)
  {
    hide AllPlaced, AllRows, IndexOf, IsSecondClaim, TwoClaimOne, Distinct;
    var index := IndexOf(AllPlaced(layout.sections));
    SecondClaimIff(index);
    if i: nat :| i < |index.order| && IsSecondClaim(index, i) {
      assert Reported(layout, Issue(CompanionShared, Some(index.order[i])));
    }
  }

  /** Two seats claim one just when, in order, one of them is the second to. */
  lemma SecondClaimIff(index: Index)
    requires Distinct(index.order) && forall k :: k in index.order <==> k in index.at
    ensures TwoClaimOne(index, index.at.Keys) <==> exists i: nat :: i < |index.order| && IsSecondClaim(index, i)
  {
    hide ClaimsPartner;
    if TwoClaimOne(index, index.at.Keys) {
      var a, b :| a in index.at && b in index.at && a != b && ClaimsPartner(index, a) && ClaimsPartner(index, b)
                  && index.at[a].seat.companionOfKey == index.at[b].seat.companionOfKey;
      var i :| 0 <= i < |index.order| && index.order[i] == a;
      var j :| 0 <= j < |index.order| && index.order[j] == b;
      assert IsSecondClaim(index, if i < j then j else i);
    }
  }

  /** What the pass over the index reports of one seat. */
  ghost predicate SeatBreaksKey(layout: LayoutDraft, c: Code, k: Key) {
    var index := IndexOf(AllPlaced(layout.sections));
    && k in index.order && k in index.at
    && SeatBreaks(index, Elements(Map(ZoneKeyOf, layout.zones)), Elements(Map(RowKeyOf, AllRows(layout.sections))),
                  Elements(Map(SectionKeyOf, layout.sections)), k, c)
  }

  lemma SeatReported(layout: LayoutDraft, c: Code)
    requires IsCrossReference(c) || IsSeatCompanionRule(c)
    ensures !Reported(layout, Issue(c, None))
    ensures forall k: Key :: Reported(layout, Issue(c, Some(k))) <==> SeatBreaksKey(layout, c, k)
  {
    hide AllPlaced, AllRows, IndexOf, Indexes, SeatBreaks, Map, Elements, Distinct;
  }

  lemma SeatRules(layout: LayoutDraft, c: Code)
    requires IsCrossReference(c) || IsSeatCompanionRule(c)
    ensures Broken(layout, c) <==> Reported(layout, Issue(c, None)) || SomeReported(layout, c)
  {
    hide Reported, SeatBreaksKey, Broken;
    SeatReported(layout, c);
    SeatBroken(layout, c);
  }

  lemma SeatBroken(layout: LayoutDraft, c: Code)
    requires IsCrossReference(c) || IsSeatCompanionRule(c)
    ensures Broken(layout, c) <==> exists k :: SeatBreaksKey(layout, c, k)
  {
    hide SeatBreaks, Indexes, IndexOf, AllPlaced, AllRows, Map, Elements;
    assert Broken(layout, c) <==> SomeSeatBreaks(layout, c);
    if SomeSeatBreaks(layout, c) {
      var index := IndexOf(AllPlaced(layout.sections));
      var k :| k in index.order && k in index.at
               && SeatBreaks(index, Elements(Map(ZoneKeyOf, layout.zones)),
                             Elements(Map(RowKeyOf, AllRows(layout.sections))),
                             Elements(Map(SectionKeyOf, layout.sections)), k, c);
      assert SeatBreaksKey(layout, c, k);
    }
  }
}
