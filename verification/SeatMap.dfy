/** Grouping a session's seats into the sections and rows a seat map renders from. */
module SeatMap {
  import opened Prelude
  import opened StableSort

  /** Labels stand for their rank in the collation; `sortOrder` is 0 where it is missing. */
  datatype Section = Section(id: string, name: string, sortOrder: int)
  datatype Row = Row(id: string, sectionId: string, rank: int, sortOrder: int)

  /** A public seat; `rowId` is "" for a seat on no row. */
  datatype Seat = Seat(id: string, rowId: string, sectionId: string, rank: int, sortOrder: int)

  datatype RowView = RowView(id: string, rank: int, sortOrder: int, seats: seq<Seat>)
  datatype SectionView = SectionView(id: string, name: string, sortOrder: int, rows: seq<RowView>, seats: seq<Seat>)

  // A section row has no label: sections of one order keep the order they come in.
  function SectionKey(): Section -> Key { (s: Section) => Key(s.sortOrder, 0) }
  function RowKey(): Row -> Key { (r: Row) => Key(r.sortOrder, r.rank) }
  function SeatKey(): Seat -> Key { (s: Seat) => Key(s.sortOrder, s.rank) }

  function OnRow(seats: seq<Seat>, rowId: string): seq<Seat> {
    if seats == [] then []
    else
      var last := seats[|seats| - 1];
      OnRow(seats[..|seats| - 1], rowId) + if last.rowId == rowId && rowId != "" then [last] else []
  }

  function Loose(seats: seq<Seat>, sectionId: string): seq<Seat> {
    if seats == [] then []
    else
      var last := seats[|seats| - 1];
      Loose(seats[..|seats| - 1], sectionId) + if last.rowId == "" && last.sectionId == sectionId then [last] else []
  }

  function RowsOf(rows: seq<Row>, sectionId: string): seq<Row> {
    if rows == [] then []
    else (if rows[0].sectionId == sectionId then [rows[0]] else []) + RowsOf(rows[1..], sectionId)
  }

  function ViewOfRow(row: Row, seats: seq<Seat>): RowView {
    RowView(row.id, row.rank, row.sortOrder, Ordered(OnRow(seats, row.id), SeatKey()))
  }

  function ViewsOfRows(rows: seq<Row>, seats: seq<Seat>): (r: seq<RowView>)
    ensures |r| == |rows|
  {
    seq(|rows|, i requires 0 <= i < |rows| => ViewOfRow(rows[i], seats))
  }

  function ViewOfSection(section: Section, rows: seq<Row>, seats: seq<Seat>): SectionView {
    SectionView(section.id, section.name, section.sortOrder,
                ViewsOfRows(Ordered(RowsOf(rows, section.id), RowKey()), seats),
                Ordered(Loose(seats, section.id), SeatKey()))
  }

  function SeatMapOf(sections: seq<Section>, rows: seq<Row>, seats: seq<Seat>): seq<SectionView> {
    var ordered := Ordered(sections, SectionKey());
    seq(|ordered|, i requires 0 <= i < |ordered| => ViewOfSection(ordered[i], rows, seats))
  }

  /** `map.get(key) ?? []`. */
  function At(m: map<string, seq<Seat>>, key: string): seq<Seat> { if key in m then m[key] else [] }

  ghost predicate RowsFiled(byRow: map<string, seq<Seat>>, seats: seq<Seat>) {
    forall id :: At(byRow, id) == OnRow(seats, id)
  }

  ghost predicate LooseFiled(looseBySection: map<string, seq<Seat>>, seats: seq<Seat>) {
    forall id :: At(looseBySection, id) == Loose(seats, id)
  }

  lemma FileOnRow(byRow: map<string, seq<Seat>>, seats: seq<Seat>, i: nat)
    requires i < |seats| && RowsFiled(byRow, seats[..i])
    ensures RowsFiled(if seats[i].rowId != "" then byRow[seats[i].rowId := At(byRow, seats[i].rowId) + [seats[i]]]
            else byRow,
                      seats[..i + 1])
  {
    var seat := seats[i];
    var filed := if seat.rowId != "" then byRow[seat.rowId := At(byRow, seat.rowId) + [seat]] else byRow;
    assert seats[..i + 1][..i] == seats[..i];
    forall id ensures At(filed, id) == OnRow(seats[..i + 1], id) {
      assert At(byRow, id) == OnRow(seats[..i], id);
      assert OnRow(seats[..i + 1], id) == OnRow(seats[..i], id) + if seat.rowId == id && id != "" then [seat] else [];
    }
  }

  lemma FileLoose(looseBySection: map<string, seq<Seat>>, seats: seq<Seat>, i: nat)
    requires i < |seats| && LooseFiled(looseBySection, seats[..i])
    ensures LooseFiled(if seats[i].rowId != "" then looseBySection
                       else looseBySection[seats[i].sectionId := At(looseBySection, seats[i].sectionId) + [seats[i]]],
                       seats[..i + 1])
  {
    var seat := seats[i];
    var filed := if seat.rowId != "" then looseBySection
                 else looseBySection[seat.sectionId := At(looseBySection, seat.sectionId) + [seat]];
    assert seats[..i + 1][..i] == seats[..i];
    forall id ensures At(filed, id) == Loose(seats[..i + 1], id) {
      assert At(looseBySection, id) == Loose(seats[..i], id);
      assert Loose(seats[..i + 1], id)
          == Loose(seats[..i], id) + if seat.rowId == "" && seat.sectionId == id then [seat] else [];
    }
  }

  method FileSeats(seats: seq<Seat>) returns (byRow: map<string, seq<Seat>>, looseBySection: map<string, seq<Seat>>)
    ensures RowsFiled(byRow, seats) && LooseFiled(looseBySection, seats)
  {
    byRow, looseBySection := map[], map[];
    assert seats[..0] == [];
    assert RowsFiled(byRow, []) && LooseFiled(looseBySection, []);
    hide RowsFiled, LooseFiled, At;
    for i := 0 to |seats|
      invariant RowsFiled(byRow, seats[..i]) && LooseFiled(looseBySection, seats[..i])
    {
      var seat := seats[i];
      FileOnRow(byRow, seats, i);
      FileLoose(looseBySection, seats, i);
      if seat.rowId != "" {
        byRow := byRow[seat.rowId := At(byRow, seat.rowId) + [seat]];
        continue;
      }
      looseBySection := looseBySection[seat.sectionId := At(looseBySection, seat.sectionId) + [seat]];
    }
    assert seats[..|seats|] == seats;
  }

  method GroupSeatMap(sections: seq<Section>, rows: seq<Row>, seats: seq<Seat>) returns (views: seq<SectionView>)
    ensures views == SeatMapOf(sections, rows, seats)
  {
    hide Ordered, OnRow, Loose, RowsOf, At;
    var byRow, looseBySection := FileSeats(seats);
    var ordered := Ordered(sections, SectionKey());
    views := [];
    for i := 0 to |ordered|
      invariant |views| == i && forall j :: 0 <= j < i ==> views[j] == ViewOfSection(ordered[j], rows, seats)
    {
      var own := Ordered(RowsOf(rows, ordered[i].id), RowKey());
      var rowViews := seq(|own|, j requires 0 <= j < |own| =>
        RowView(own[j].id, own[j].rank, own[j].sortOrder, Ordered(At(byRow, own[j].id), SeatKey())));
      assert rowViews == ViewsOfRows(own, seats);
      views := views + [SectionView(ordered[i].id, ordered[i].name, ordered[i].sortOrder, rowViews,
                                    Ordered(At(looseBySection, ordered[i].id), SeatKey()))];
    }
  }

  // --- Order ---

  /** By configured order, and by the label's rank where that is the same. */
  predicate InOrder(order: int, rank: int, laterOrder: int, laterRank: int) {
    order < laterOrder || (order == laterOrder && rank <= laterRank)
  }

  predicate SeatsInOrder(seats: seq<Seat>) {
    forall a, b :: 0 <= a < b < |seats| ==>
      InOrder(seats[a].sortOrder, seats[a].rank, seats[b].sortOrder, seats[b].rank)
  }

  lemma OrderedSeats(seats: seq<Seat>)
    ensures SeatsInOrder(Ordered(seats, SeatKey()))
  {
    hide Ordered;
    OrderedIsOrdered(seats, SeatKey());
    var sorted := Ordered(seats, SeatKey());
    assert forall a, b :: 0 <= a < b < |sorted| ==> !Below(SeatKey()(sorted[b]), SeatKey()(sorted[a]));
  }

  /** Sections, rows and seats each come in their configured order. */
  lemma EachIsOrdered(sections: seq<Section>, rows: seq<Row>, seats: seq<Seat>, i: nat)
    requires i < |SeatMapOf(sections, rows, seats)|
    ensures var view := SeatMapOf(sections, rows, seats)[i];
            && (forall a, b :: 0 <= a < b < |view.rows| ==>
                  InOrder(view.rows[a].sortOrder, view.rows[a].rank, view.rows[b].sortOrder, view.rows[b].rank))
            && SeatsInOrder(view.seats)
            && forall j :: 0 <= j < |view.rows| ==> SeatsInOrder(view.rows[j].seats)
    ensures forall a, b :: 0 <= a < b < |SeatMapOf(sections, rows, seats)| ==>
              SeatMapOf(sections, rows, seats)[a].sortOrder <= SeatMapOf(sections, rows, seats)[b].sortOrder
  {
    hide Ordered, RowsOf, OnRow, Loose, SeatsInOrder;
    var all := Ordered(sections, SectionKey());
    var own := Ordered(RowsOf(rows, all[i].id), RowKey());
    OrderedIsOrdered(sections, SectionKey());
    OrderedIsOrdered(RowsOf(rows, all[i].id), RowKey());
    OrderedSeats(Loose(seats, all[i].id));
    forall j | 0 <= j < |own| ensures SeatsInOrder(Ordered(OnRow(seats, own[j].id), SeatKey())) {
      OrderedSeats(OnRow(seats, own[j].id));
    }
    assert forall a, b :: 0 <= a < b < |own| ==> !Below(RowKey()(own[b]), RowKey()(own[a]));
    assert forall a, b :: 0 <= a < b < |all| ==> !Below(SectionKey()(all[b]), SectionKey()(all[a]));
  }

  /** Seats and rows are filed in the order given. */
  lemma {:induction false} FiledInOrder(a: seq<Seat>, b: seq<Seat>, id: string)
    ensures OnRow(a + b, id) == OnRow(a, id) + OnRow(b, id)
    ensures Loose(a + b, id) == Loose(a, id) + Loose(b, id)
  {
    if b == [] {
      assert a + b == a;
    } else {
      assert (a + b)[..|a + b| - 1] == a + b[..|b| - 1];
      FiledInOrder(a, b[..|b| - 1], id);
    }
  }

  lemma {:induction false} RowsInOrder(a: seq<Row>, b: seq<Row>, id: string)
    ensures RowsOf(a + b, id) == RowsOf(a, id) + RowsOf(b, id)
  {
    if a == [] {
      assert a + b == b;
    } else {
      assert (a + b)[1..] == a[1..] + b;
      RowsInOrder(a[1..], b, id);
    }
  }

  // --- What each view is called, and what it shows ---

  lemma {:induction false} RowsOfAre(rows: seq<Row>, sectionId: string)
    ensures forall r :: multiset(RowsOf(rows, sectionId))[r]
              == if r.sectionId == sectionId then multiset(rows)[r] else 0
  {
    if rows != [] {
      assert rows == [rows[0]] + rows[1..];
      RowsOfAre(rows[1..], sectionId);
    }
  }

  lemma {:induction false} OnRowAre(seats: seq<Seat>, rowId: string)
    ensures forall s :: s in OnRow(seats, rowId) ==> s in seats && s.rowId == rowId != ""
  {
    if seats != [] {
      assert seats == seats[..|seats| - 1] + [seats[|seats| - 1]];
      OnRowAre(seats[..|seats| - 1], rowId);
    }
  }

  lemma {:induction false} LooseAre(seats: seq<Seat>, sectionId: string)
    ensures forall s :: s in Loose(seats, sectionId) ==> s in seats && s.rowId == "" && s.sectionId == sectionId
  {
    if seats != [] {
      assert seats == seats[..|seats| - 1] + [seats[|seats| - 1]];
      LooseAre(seats[..|seats| - 1], sectionId);
    }
  }

  /** What a section's view says of the section itself, and what a row's view says of the row. */
  function SectionOf(view: SectionView): Section { Section(view.id, view.name, view.sortOrder) }
  function RowOf(sectionId: string): RowView -> Row {
    (view: RowView) => Row(view.id, sectionId, view.rank, view.sortOrder)
  }

  /** Every section has its view, and every row its view under its own section; a view shows only its own seats. */
  lemma ViewsShowTheirOwn(sections: seq<Section>, rows: seq<Row>, seats: seq<Seat>)
    ensures var views := SeatMapOf(sections, rows, seats);
            && multiset(Map(SectionOf, views)) == multiset(sections)
            && forall i :: 0 <= i < |views| ==> IsOwn(views[i], rows)
  {
    hide Ordered;
    var ordered, views := Ordered(sections, SectionKey()), SeatMapOf(sections, rows, seats);
    OrderedContents(sections, SectionKey());
    assert Map(SectionOf, views) == ordered;
    forall i | 0 <= i < |views| ensures IsOwn(views[i], rows) { SectionShowsItsOwn(ordered[i], rows, seats); }
  }

  ghost predicate IsOwn(view: SectionView, rows: seq<Row>) {
    && (forall r :: multiset(Map(RowOf(view.id), view.rows))[r]
          == if r.sectionId == view.id then multiset(rows)[r] else 0)
    && (forall j, s :: 0 <= j < |view.rows| && s in view.rows[j].seats ==> s.rowId == view.rows[j].id != "")
    && (forall s :: s in view.seats ==> s.rowId == "" && s.sectionId == view.id)
  }

  lemma SectionShowsItsOwn(section: Section, rows: seq<Row>, seats: seq<Seat>)
    ensures IsOwn(ViewOfSection(section, rows, seats), rows)
  {
    hide Ordered, OnRow, Loose, RowsOf;
    var view := ViewOfSection(section, rows, seats);
    var own := Ordered(RowsOf(rows, section.id), RowKey());
    OrderedContents(RowsOf(rows, section.id), RowKey());
    RowsOfAre(rows, section.id);
    OwnRows(own, rows, section.id);
    assert Map(RowOf(section.id), view.rows) == own;
    forall j, s | 0 <= j < |view.rows| && s in view.rows[j].seats ensures s.rowId == view.rows[j].id != "" {
      OrderedContents(OnRow(seats, own[j].id), SeatKey());
      OnRowAre(seats, own[j].id);
      assert s in multiset(OnRow(seats, own[j].id));
    }
    forall s | s in view.seats ensures s.rowId == "" && s.sectionId == view.id {
      OrderedContents(Loose(seats, section.id), SeatKey());
      LooseAre(seats, section.id);
      assert s in multiset(Loose(seats, section.id));
    }
  }

  lemma OwnRows(own: seq<Row>, rows: seq<Row>, sectionId: string)
    requires multiset(own) == multiset(RowsOf(rows, sectionId))
    requires forall r ::
      multiset(RowsOf(rows, sectionId))[r] == if r.sectionId == sectionId then multiset(rows)[r] else 0
    ensures forall i :: 0 <= i < |own| ==> own[i].sectionId == sectionId
  {
    forall i | 0 <= i < |own| ensures own[i].sectionId == sectionId {
      assert own[i] in multiset(own);
    }
  }

  // --- Conservation ---

  /** How often a seat occurs in the rendered map. */
  function OccursInRows(rows: seq<RowView>, seat: Seat): nat {
    if rows == [] then 0 else multiset(rows[0].seats)[seat] + OccursInRows(rows[1..], seat)
  }

  function Occurs(views: seq<SectionView>, seat: Seat): nat {
    if views == [] then 0
    else OccursInRows(views[0].rows, seat) + multiset(views[0].seats)[seat] + Occurs(views[1..], seat)
  }

  /** In how many places the plan would show a seat. */
  function RowSlots(rows: seq<Row>, seat: Seat): nat {
    if rows == [] then 0
    else (if rows[0].id == seat.rowId && seat.rowId != "" then 1 else 0) + RowSlots(rows[1..], seat)
  }

  function Slots(sections: seq<Section>, rows: seq<Row>, seat: Seat): nat {
    if sections == [] then 0
    else SlotsIn(sections[0], rows, seat) + Slots(sections[1..], rows, seat)
  }

  function SlotsIn(section: Section, rows: seq<Row>, seat: Seat): nat {
    RowSlots(RowsOf(rows, section.id), seat) + if seat.rowId == "" && seat.sectionId == section.id then 1 else 0
  }

  lemma {:induction false} OnRowCount(seats: seq<Seat>, rowId: string, seat: Seat)
    ensures multiset(OnRow(seats, rowId))[seat]
            == if seat.rowId == rowId && rowId != "" then multiset(seats)[seat] else 0
  {
    if seats != [] {
      var n := |seats| - 1;
      assert seats == seats[..n] + [seats[n]];
      OnRowCount(seats[..n], rowId, seat);
    }
  }

  lemma {:induction false} LooseCount(seats: seq<Seat>, sectionId: string, seat: Seat)
    ensures multiset(Loose(seats, sectionId))[seat]
            == if seat.rowId == "" && seat.sectionId == sectionId then multiset(seats)[seat] else 0
  {
    if seats != [] {
      var n := |seats| - 1;
      assert seats == seats[..n] + [seats[n]];
      LooseCount(seats[..n], sectionId, seat);
    }
  }

  lemma Times(a: nat, b: nat, c: nat)
    ensures (a + b) * c == a * c + b * c
  {
  }

  lemma RowViewCount(row: Row, seats: seq<Seat>, seat: Seat)
    ensures multiset(ViewOfRow(row, seats).seats)[seat]
            == (if row.id == seat.rowId && seat.rowId != "" then 1 else 0) * multiset(seats)[seat]
  {
    hide Ordered, OnRow;
    OrderedContents(OnRow(seats, row.id), SeatKey());
    OnRowCount(seats, row.id, seat);
  }

  lemma RowViewsNext(rows: seq<Row>, seats: seq<Seat>)
    requires rows != []
    ensures ViewsOfRows(rows, seats) == [ViewOfRow(rows[0], seats)] + ViewsOfRows(rows[1..], seats)
  {
    hide ViewOfRow;
  }

  lemma OccursInNext(view: RowView, rest: seq<RowView>, seat: Seat)
    ensures OccursInRows([view] + rest, seat) == multiset(view.seats)[seat] + OccursInRows(rest, seat)
  {
    assert ([view] + rest)[1..] == rest;
  }

  lemma NoRows(seats: seq<Seat>, seat: Seat)
    ensures OccursInRows(ViewsOfRows([], seats), seat) == 0 == RowSlots([], seat)
  {
  }

  lemma RowSlotsNext(rows: seq<Row>, seat: Seat)
    requires rows != []
    ensures RowSlots(rows, seat)
            == (if rows[0].id == seat.rowId && seat.rowId != "" then 1 else 0) + RowSlots(rows[1..], seat)
  {
  }

  lemma {:induction false} RowViewsCount(rows: seq<Row>, seats: seq<Seat>, seat: Seat)
    ensures OccursInRows(ViewsOfRows(rows, seats), seat) == RowSlots(rows, seat) * multiset(seats)[seat]
  {
    hide *;
    if rows == [] {
      NoRows(seats, seat);
    } else {
      RowViewsNext(rows, seats);
      OccursInNext(ViewOfRow(rows[0], seats), ViewsOfRows(rows[1..], seats), seat);
      RowViewsCount(rows[1..], seats, seat);
      RowViewCount(rows[0], seats, seat);
      RowSlotsNext(rows, seat);
      Times(if rows[0].id == seat.rowId && seat.rowId != "" then 1 else 0,
            RowSlots(rows[1..], seat), multiset(seats)[seat]);
    }
  }

  lemma {:induction false} RowSlotsInserted(rows: seq<Row>, row: Row, seat: Seat)
    ensures RowSlots(Inserted(rows, row, RowKey()), seat) == RowSlots([row], seat) + RowSlots(rows, seat)
  {
    assert [row][1..] == [];
    if rows != [] {
      if Below(RowKey()(row), RowKey()(rows[0])) {
        assert ([row] + rows)[1..] == rows;
      } else {
        RowSlotsInserted(rows[1..], row, seat);
        assert Inserted(rows, row, RowKey())[1..] == Inserted(rows[1..], row, RowKey());
      }
    }
  }

  lemma {:induction false} RowSlotsMore(rows: seq<Row>, row: Row, seat: Seat)
    ensures RowSlots(rows + [row], seat) == RowSlots(rows, seat) + RowSlots([row], seat)
  {
    if rows == [] {
      assert rows + [row] == [row];
    } else {
      assert (rows + [row])[1..] == rows[1..] + [row];
      RowSlotsMore(rows[1..], row, seat);
    }
  }

  lemma {:induction false} RowSlotsOrdered(rows: seq<Row>, seat: Seat)
    ensures RowSlots(Ordered(rows, RowKey()), seat) == RowSlots(rows, seat)
  {
    if rows != [] {
      var n := |rows| - 1;
      assert rows == rows[..n] + [rows[n]];
      RowSlotsOrdered(rows[..n], seat);
      RowSlotsInserted(Ordered(rows[..n], RowKey()), rows[n], seat);
      RowSlotsMore(rows[..n], rows[n], seat);
    }
  }

  function Views(sections: seq<Section>, rows: seq<Row>, seats: seq<Seat>): seq<SectionView> {
    seq(|sections|, i requires 0 <= i < |sections| => ViewOfSection(sections[i], rows, seats))
  }

  lemma SectionViewCount(section: Section, rows: seq<Row>, seats: seq<Seat>, seat: Seat)
    ensures var view := ViewOfSection(section, rows, seats);
            OccursInRows(view.rows, seat) + multiset(view.seats)[seat]
                == SlotsIn(section, rows, seat) * multiset(seats)[seat]
  {
    hide Ordered, RowsOf, Loose, OccursInRows, RowSlots, ViewsOfRows;
    var own := RowsOf(rows, section.id);
    RowViewsCount(Ordered(own, RowKey()), seats, seat);
    RowSlotsOrdered(own, seat);
    OrderedContents(Loose(seats, section.id), SeatKey());
    LooseCount(seats, section.id, seat);
    Times(RowSlots(own, seat), if seat.rowId == "" && seat.sectionId == section.id then 1 else 0,
          multiset(seats)[seat]);
  }

  lemma ViewsNext(sections: seq<Section>, rows: seq<Row>, seats: seq<Seat>)
    requires sections != []
    ensures Views(sections, rows, seats)
            == [ViewOfSection(sections[0], rows, seats)] + Views(sections[1..], rows, seats)
  {
    hide ViewOfSection;
  }

  lemma SlotsNext(sections: seq<Section>, rows: seq<Row>, seat: Seat)
    requires sections != []
    ensures Slots(sections, rows, seat) == SlotsIn(sections[0], rows, seat) + Slots(sections[1..], rows, seat)
  {
    hide SlotsIn;
  }

  lemma NothingShown(rows: seq<Row>, seats: seq<Seat>, seat: Seat)
    ensures Occurs(Views([], rows, seats), seat) == 0 == Slots([], rows, seat)
  {
    hide ViewOfSection;
  }

  lemma {:induction false} ViewsCount(sections: seq<Section>, rows: seq<Row>, seats: seq<Seat>, seat: Seat)
    ensures Occurs(Views(sections, rows, seats), seat) == Slots(sections, rows, seat) * multiset(seats)[seat]
  {
    hide *;
    var c := multiset(seats)[seat];
    if sections == [] {
      NothingShown(rows, seats, seat);
    } else {
      var view := ViewOfSection(sections[0], rows, seats);
      ViewsNext(sections, rows, seats);
      ViewsCount(sections[1..], rows, seats, seat);
      SectionViewCount(sections[0], rows, seats, seat);
      OccursNext(view, Views(sections[1..], rows, seats), seat);
      SlotsNext(sections, rows, seat);
      Times(SlotsIn(sections[0], rows, seat), Slots(sections[1..], rows, seat), c);
    }
  }

  lemma OccursNext(view: SectionView, rest: seq<SectionView>, seat: Seat)
    ensures Occurs([view] + rest, seat)
            == OccursInRows(view.rows, seat) + multiset(view.seats)[seat] + Occurs(rest, seat)
  {
    assert ([view] + rest)[1..] == rest;
  }

  lemma {:induction false} SlotsMore(sections: seq<Section>, section: Section, rows: seq<Row>, seat: Seat)
    ensures Slots(sections + [section], rows, seat) == Slots(sections, rows, seat) + SlotsIn(section, rows, seat)
  {
    hide SlotsIn;
    if sections == [] {
      assert sections + [section] == [section] && [section][1..] == [];
    } else {
      assert (sections + [section])[1..] == sections[1..] + [section];
      SlotsMore(sections[1..], section, rows, seat);
    }
  }

  lemma {:induction false} SlotsInserted(sections: seq<Section>, section: Section, rows: seq<Row>, seat: Seat)
    ensures Slots(Inserted(sections, section, SectionKey()), rows, seat)
            == SlotsIn(section, rows, seat) + Slots(sections, rows, seat)
  {
    hide SlotsIn;
    if sections == [] {
      assert [section][1..] == [];
    } else if Below(SectionKey()(section), SectionKey()(sections[0])) {
      assert ([section] + sections)[1..] == sections;
    } else {
      SlotsInserted(sections[1..], section, rows, seat);
      assert Inserted(sections, section, SectionKey())[1..] == Inserted(sections[1..], section, SectionKey());
    }
  }

  lemma {:induction false} SlotsOrdered(sections: seq<Section>, rows: seq<Row>, seat: Seat)
    ensures Slots(Ordered(sections, SectionKey()), rows, seat) == Slots(sections, rows, seat)
  {
    hide SlotsIn;
    if sections != [] {
      var n := |sections| - 1;
      assert sections == sections[..n] + [sections[n]];
      SlotsOrdered(sections[..n], rows, seat);
      SlotsInserted(Ordered(sections[..n], SectionKey()), sections[n], rows, seat);
      SlotsMore(sections[..n], sections[n], rows, seat);
    }
  }

  /** A seat is shown once for every place the plan has for it, for each time it is in the list. */
  lemma SeatsConserved(sections: seq<Section>, rows: seq<Row>, seats: seq<Seat>, seat: Seat)
    ensures Occurs(SeatMapOf(sections, rows, seats), seat) == Slots(sections, rows, seat) * multiset(seats)[seat]
  {
    var ordered := Ordered(sections, SectionKey());
    assert SeatMapOf(sections, rows, seats) == Views(ordered, rows, seats);
    ViewsCount(ordered, rows, seats, seat);
    SlotsOrdered(sections, rows, seat);
  }

  // --- With distinct ids there is one place, or none ---

  predicate DistinctSections(sections: seq<Section>) {
    forall i, j :: 0 <= i < j < |sections| ==> sections[i].id != sections[j].id
  }

  predicate DistinctRows(rows: seq<Row>) { forall i, j :: 0 <= i < j < |rows| ==> rows[i].id != rows[j].id }

  predicate HasSection(sections: seq<Section>, id: string) { exists i :: 0 <= i < |sections| && sections[i].id == id }

  /** Its row is listed, on a listed section; or it has none, and its own section is listed. */
  predicate IsListed(sections: seq<Section>, rows: seq<Row>, seat: Seat) {
    if seat.rowId == "" then HasSection(sections, seat.sectionId)
    else exists i :: 0 <= i < |rows| && rows[i].id == seat.rowId && HasSection(sections, rows[i].sectionId)
  }

  lemma {:induction false} NoRowSlot(rows: seq<Row>, seat: Seat)
    requires forall i :: 0 <= i < |rows| ==> rows[i].id != seat.rowId
    ensures RowSlots(rows, seat) == 0
  {
    if rows != [] { NoRowSlot(rows[1..], seat); }
  }

  lemma {:induction false} RowsOfMembers(rows: seq<Row>, sectionId: string)
    ensures forall r :: r in RowsOf(rows, sectionId) <==> r in rows && r.sectionId == sectionId
  {
    if rows != [] {
      assert rows == [rows[0]] + rows[1..];
      RowsOfMembers(rows[1..], sectionId);
    }
  }

  lemma {:induction false} OneRowSlot(rows: seq<Row>, sectionId: string, seat: Seat, at: nat)
    requires DistinctRows(rows) && at < |rows| && seat.rowId != "" && rows[at].id == seat.rowId
    ensures RowSlots(RowsOf(rows, sectionId), seat) == if rows[at].sectionId == sectionId then 1 else 0
  {
    var own, rest := RowsOf(rows, sectionId), RowsOf(rows[1..], sectionId);
    assert own == (if rows[0].sectionId == sectionId then [rows[0]] else []) + rest;
    assert if rows[0].sectionId == sectionId then own[1..] == rest else own == rest;
    if at == 0 {
      RowsOfMembers(rows[1..], sectionId);
      forall i | 0 <= i < |rest| ensures rest[i].id != seat.rowId {
        assert rest[i] in rest;
        var j :| 0 <= j < |rows[1..]| && rows[1..][j] == rest[i];
        assert rows[j + 1] == rest[i];
      }
      NoRowSlot(rest, seat);
    } else {
      assert rows[0].id != rows[at].id;
      OneRowSlot(rows[1..], sectionId, seat, at - 1);
    }
  }

  /** The section a seat is shown under, if there is one. */
  function Home(rows: seq<Row>, seat: Seat, at: nat): string
    requires seat.rowId != "" ==> at < |rows|
  {
    if seat.rowId == "" then seat.sectionId else rows[at].sectionId
  }

  lemma SlotsOfSection(section: Section, rows: seq<Row>, seat: Seat, at: nat)
    requires DistinctRows(rows) && (seat.rowId != "" ==> at < |rows| && rows[at].id == seat.rowId)
    ensures SlotsIn(section, rows, seat) == if Home(rows, seat, at) == section.id then 1 else 0
  {
    if seat.rowId == "" {
      NoNamedSlot(RowsOf(rows, section.id), seat);
    } else {
      OneRowSlot(rows, section.id, seat, at);
    }
  }

  lemma {:induction false} NoNamedSlot(rows: seq<Row>, seat: Seat)
    requires seat.rowId == ""
    ensures RowSlots(rows, seat) == 0
  {
    if rows != [] { NoNamedSlot(rows[1..], seat); }
  }

  lemma {:induction false} SlotsAtHome(sections: seq<Section>, rows: seq<Row>, seat: Seat, at: nat)
    requires DistinctSections(sections) && DistinctRows(rows)
    requires seat.rowId != "" ==> at < |rows| && rows[at].id == seat.rowId
    ensures Slots(sections, rows, seat) == if HasSection(sections, Home(rows, seat, at)) then 1 else 0
  {
    hide SlotsIn, DistinctRows;
    if sections != [] {
      SlotsOfSection(sections[0], rows, seat, at);
      SlotsAtHome(sections[1..], rows, seat, at);
      var home := Home(rows, seat, at);
      assert HasSection(sections, home) <==> sections[0].id == home || HasSection(sections[1..], home) by {
        if i :| 0 <= i < |sections| && sections[i].id == home && i > 0 { assert sections[1..][i - 1].id == home; }
        if i :| 0 <= i < |sections[1..]| && sections[1..][i].id == home { assert sections[i + 1].id == home; }
      }
      forall i | 0 <= i < |sections[1..]| ensures sections[1..][i].id != sections[0].id {
        assert sections[1..][i] == sections[i + 1];
      }
    }
  }

  lemma {:induction false} NowhereListed(sections: seq<Section>, rows: seq<Row>, seat: Seat)
    requires seat.rowId != "" && forall i :: 0 <= i < |rows| ==> rows[i].id != seat.rowId
    ensures Slots(sections, rows, seat) == 0
  {
    if sections != [] {
      RowsOfMembers(rows, sections[0].id);
      var own := RowsOf(rows, sections[0].id);
      forall i | 0 <= i < |own| ensures own[i].id != seat.rowId { assert own[i] in own; }
      NoRowSlot(own, seat);
      NowhereListed(sections[1..], rows, seat);
    }
  }

  /** With distinct ids each listed seat is shown exactly as often as it is given, and no other seat at all. */
  lemma ListedSeatsShownOnce(sections: seq<Section>, rows: seq<Row>, seats: seq<Seat>, seat: Seat)
    requires DistinctSections(sections) && DistinctRows(rows)
    ensures Occurs(SeatMapOf(sections, rows, seats), seat)
            == if IsListed(sections, rows, seat) then multiset(seats)[seat] else 0
  {
    hide SeatMapOf, Occurs, Slots;
    SeatsConserved(sections, rows, seats, seat);
    if seat.rowId == "" {
      SlotsAtHome(sections, rows, seat, 0);
    } else if i :| 0 <= i < |rows| && rows[i].id == seat.rowId {
      SlotsAtHome(sections, rows, seat, i);
    } else {
      NowhereListed(sections, rows, seat);
    }
  }
}
