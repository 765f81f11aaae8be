/**
 * Raw visit rows and daily totals: what the roll-up's SQL statements mean.
 *
 * Days are whole numbers (the n-th UTC day) and instants whole milliseconds,
 * so midnight of day d is the instant d * DAY_MS.
 */
module TrafficTotals {
  import opened Prelude

  type Day = int
  type Instant = int

  const DAY_MS: int := 86_400_000
  const RAW_KEEP_DAYS: int := 2

  datatype Kind = PageView | CardClick | TicketsClick | SeatsClick | WebsiteRedirect
  datatype Placement = Home | EventList | SearchPage | EventPage
  datatype Source = Direct | Internal | SearchEngine | Social | Other

  /** One counted moment; `id` is the primary key that keeps equal moments apart. */
  datatype RawRow = RawRow(
    id: string, eventId: string, kind: Kind, placement: Placement,
    source: Option<Source>, day: Day, visitorHash: Option<string>)

  datatype Figures = Figures(
    views: nat, visitors: nat, anonymousViews: nat,
    viewsDirect: nat, viewsInternal: nat, viewsSearch: nat, viewsSocial: nat, viewsOther: nat,
    cardClicks: nat, cardClicksHome: nat, cardClicksListing: nat, cardClicksSearch: nat,
    ticketClicks: nat, seatClicks: nat, ticketClickVisitors: nat,
    websiteRedirects: nat, websiteRedirectVisitors: nat)

  datatype Daily = Daily(figures: Figures, demonstration: bool, computedAt: Instant)

  type Totals = map<(string, Day), Daily>

  // ---- Clock arithmetic ---------------------------------------------------

  function UtcDay(at: Instant): Day { at / DAY_MS }

  /** The first instant at which a day's totals count as final. */
  function FinalFrom(day: Day): Instant { (day + RAW_KEEP_DAYS) * DAY_MS }

  /** The purge test of a run whose business instant is `now`. */
  predicate Purgeable(day: Day, now: Instant) { day <= UtcDay(now - RAW_KEEP_DAYS * DAY_MS) }

  /** Real totals nobody may overwrite. */
  predicate IsFinal(total: Daily, day: Day) { !total.demonstration && FinalFrom(day) <= total.computedAt }

  /** The upsert's `WHERE`: whether an existing row gives way to new sums. */
  predicate GivesWay(total: Daily, day: Day) {
    total.demonstration || total.computedAt < (day + RAW_KEEP_DAYS) * DAY_MS
  }

  /**
   * The purge cut-off and the overwrite guard are complements: a run may purge
   * a day exactly when the sums it writes for that day can never be replaced.
   */
  lemma PurgeableIffSumsFinal(day: Day, now: Instant, figures: Figures)
    ensures Purgeable(day, now) <==> !GivesWay(Daily(figures, false, now), day)
    ensures Purgeable(day, now) <==> FinalFrom(day) <= now
  {
  }

  // ---- Sums ---------------------------------------------------------------

  function OnDay(rows: set<RawRow>, day: Day): set<RawRow> { set r | r in rows && r.day == day }

  function Of(rows: set<RawRow>, eventId: string, day: Day): set<RawRow> {
    set r | r in rows && r.eventId == eventId && r.day == day
  }

  function EventsOn(rows: set<RawRow>, day: Day): set<string> { set r | r in rows && r.day == day :: r.eventId }

  // The rows one `FILTER (WHERE …)` keeps.
  function Kept(rows: set<RawRow>, kind: Kind): set<RawRow> { set r | r in rows && r.kind == kind }

  function From(rows: set<RawRow>, source: Source): set<RawRow> {
    set r | r in rows && r.kind == PageView && r.source == Some(source)
  }

  function At(rows: set<RawRow>, placement: Placement): set<RawRow> {
    set r | r in rows && r.kind == CardClick && r.placement == placement
  }

  function Anonymous(rows: set<RawRow>): set<RawRow> {
    set r | r in rows && r.kind == PageView && r.visitorHash.None?
  }

  /** `DISTINCT "visitorHash"`: a null is not counted. */
  function Codes(rows: set<RawRow>): set<string> {
    set r | r in rows && r.visitorHash.Some? :: r.visitorHash.value
  }

  /** The seventeen figures the upsert selects for one event and day. */
  function Sums(rows: set<RawRow>): Figures {
    var views := Kept(rows, PageView);
    Figures(
      |views|, |Codes(views)|, |Anonymous(rows)|,
      |From(rows, Direct)|, |From(rows, Internal)|, |From(rows, SearchEngine)|,
      |From(rows, Social)|, |From(rows, Other)|,
      |Kept(rows, CardClick)|, |At(rows, Home)|, |At(rows, EventList)|, |At(rows, SearchPage)|,
      |Kept(rows, TicketsClick)|, |Kept(rows, SeatsClick)|,
      |Codes(Kept(rows, TicketsClick) + Kept(rows, SeatsClick))|,
      |Kept(rows, WebsiteRedirect)|, |Codes(Kept(rows, WebsiteRedirect))|)
  }

  // ---- What each figure counts ----------------------------------------------

  lemma NothingSums()
    ensures Sums({}) == Figures(0, 0, 0, 0, 0, 0, 0, 0, 0, 0, 0, 0, 0, 0, 0, 0, 0)
  {
    var none: set<RawRow> := {};
    assert forall k :: Kept(none, k) == {};
    assert forall s :: From(none, s) == {};
    assert forall p :: At(none, p) == {};
    assert Anonymous(none) == {} && Codes({}) == {} && none + none == {};
  }

  function Plus(n: nat, more: bool): nat { if more then n + 1 else n }

  /** None of the rows of these kinds has the row's hash. */
  predicate IsNewVisitor(rows: set<RawRow>, r: RawRow, kinds: set<Kind>) {
    && r.visitorHash.Some? && r.kind in kinds
    && forall x :: x in rows && x.kind in kinds ==> x.visitorHash != r.visitorHash
  }

  lemma KeptGrows(rows: set<RawRow>, r: RawRow, kind: Kind)
    requires r !in rows
    ensures |Kept(rows + {r}, kind)| == Plus(|Kept(rows, kind)|, r.kind == kind)
  {
    assert Kept(rows + {r}, kind) == if r.kind == kind then Kept(rows, kind) + {r} else Kept(rows, kind);
  }

  lemma FromGrows(rows: set<RawRow>, r: RawRow, source: Source)
    requires r !in rows
    ensures |From(rows + {r}, source)| == Plus(|From(rows, source)|, r.kind == PageView && r.source == Some(source))
  {
    if r.kind == PageView && r.source == Some(source) {
      assert From(rows + {r}, source) == From(rows, source) + {r};
    } else {
      assert From(rows + {r}, source) == From(rows, source);
    }
  }

  lemma AtGrows(rows: set<RawRow>, r: RawRow, placement: Placement)
    requires r !in rows
    ensures |At(rows + {r}, placement)| == Plus(|At(rows, placement)|, r.kind == CardClick && r.placement == placement)
  {
    if r.kind == CardClick && r.placement == placement {
      assert At(rows + {r}, placement) == At(rows, placement) + {r};
    } else {
      assert At(rows + {r}, placement) == At(rows, placement);
    }
  }

  lemma AnonymousGrows(rows: set<RawRow>, r: RawRow)
    requires r !in rows
    ensures |Anonymous(rows + {r})| == Plus(|Anonymous(rows)|, r.kind == PageView && r.visitorHash.None?)
  {
    assert Anonymous(rows + {r})
        == if r.kind == PageView && r.visitorHash.None? then Anonymous(rows) + {r} else Anonymous(rows);
  }

  lemma CodesGrow(kept: set<RawRow>, grown: set<RawRow>, rows: set<RawRow>, r: RawRow, kinds: set<Kind>)
    requires kept == set x | x in rows && x.kind in kinds
    requires grown == set x | x in rows + {r} && x.kind in kinds
    ensures |Codes(grown)| == Plus(|Codes(kept)|, IsNewVisitor(rows, r, kinds))
  {
    if r.kind in kinds && r.visitorHash.Some? {
      assert grown == kept + {r};
      assert Codes(grown) == Codes(kept) + {r.visitorHash.value};
      if !IsNewVisitor(rows, r, kinds) {
        var x :| x in rows && x.kind in kinds && x.visitorHash == r.visitorHash;
        assert x in kept;
      }
    } else {
      assert Codes(grown) == Codes(kept);
    }
  }

  lemma VisitorsGrow(rows: set<RawRow>, r: RawRow)
    ensures |Codes(Kept(rows + {r}, PageView))|
         == Plus(|Codes(Kept(rows, PageView))|, IsNewVisitor(rows, r, {PageView}))
    ensures |Codes(Kept(rows + {r}, WebsiteRedirect))|
         == Plus(|Codes(Kept(rows, WebsiteRedirect))|, IsNewVisitor(rows, r, {WebsiteRedirect}))
    ensures |Codes(Kept(rows + {r}, TicketsClick) + Kept(rows + {r}, SeatsClick))|
         == Plus(|Codes(Kept(rows, TicketsClick) + Kept(rows, SeatsClick))|,
                 IsNewVisitor(rows, r, {TicketsClick, SeatsClick}))
  {
    hide Codes, IsNewVisitor;
    CodesGrow(Kept(rows, PageView), Kept(rows + {r}, PageView), rows, r, {PageView});
    CodesGrow(Kept(rows, WebsiteRedirect), Kept(rows + {r}, WebsiteRedirect), rows, r, {WebsiteRedirect});
    CodesGrow(Kept(rows, TicketsClick) + Kept(rows, SeatsClick),
              Kept(rows + {r}, TicketsClick) + Kept(rows + {r}, SeatsClick), rows, r, {TicketsClick, SeatsClick});
  }

  /** One more row raises exactly the figures of its kind, source and placement, and a visitor figure if it is new. */
  lemma SumsGrow(rows: set<RawRow>, r: RawRow)
    requires r !in rows
    ensures var (f, g) := (Sums(rows), Sums(rows + {r}));
            && g.views == Plus(f.views, r.kind == PageView)
            && g.visitors == Plus(f.visitors, IsNewVisitor(rows, r, {PageView}))
            && g.anonymousViews == Plus(f.anonymousViews, r.kind == PageView && r.visitorHash.None?)
            && g.viewsDirect == Plus(f.viewsDirect, r.kind == PageView && r.source == Some(Direct))
            && g.viewsInternal == Plus(f.viewsInternal, r.kind == PageView && r.source == Some(Internal))
            && g.viewsSearch == Plus(f.viewsSearch, r.kind == PageView && r.source == Some(SearchEngine))
            && g.viewsSocial == Plus(f.viewsSocial, r.kind == PageView && r.source == Some(Social))
            && g.viewsOther == Plus(f.viewsOther, r.kind == PageView && r.source == Some(Other))
            && g.cardClicks == Plus(f.cardClicks, r.kind == CardClick)
            && g.cardClicksHome == Plus(f.cardClicksHome, r.kind == CardClick && r.placement == Home)
            && g.cardClicksListing == Plus(f.cardClicksListing, r.kind == CardClick && r.placement == EventList)
            && g.cardClicksSearch == Plus(f.cardClicksSearch, r.kind == CardClick && r.placement == SearchPage)
            && g.ticketClicks == Plus(f.ticketClicks, r.kind == TicketsClick)
            && g.seatClicks == Plus(f.seatClicks, r.kind == SeatsClick)
            && g.ticketClickVisitors == Plus(f.ticketClickVisitors, IsNewVisitor(rows, r, {TicketsClick, SeatsClick}))
            && g.websiteRedirects == Plus(f.websiteRedirects, r.kind == WebsiteRedirect)
            && g.websiteRedirectVisitors
               == Plus(f.websiteRedirectVisitors, IsNewVisitor(rows, r, {WebsiteRedirect}))
  {
    hide Kept, From, At, Anonymous, Codes, IsNewVisitor, Plus;
    forall kind ensures |Kept(rows + {r}, kind)| == Plus(|Kept(rows, kind)|, r.kind == kind) {
      KeptGrows(rows, r, kind);
    }
    FromGrows(rows, r, Direct);
    FromGrows(rows, r, Internal);
    FromGrows(rows, r, SearchEngine);
    FromGrows(rows, r, Social);
    FromGrows(rows, r, Other);
    AtGrows(rows, r, Home);
    AtGrows(rows, r, EventList);
    AtGrows(rows, r, SearchPage);
    AnonymousGrows(rows, r);
    VisitorsGrow(rows, r);
  }

  /** The CHECKs on `TrafficEvent` that the sums rely on. */
  predicate RowChecks(r: RawRow) {
    && (r.kind == PageView <==> r.source.Some?)
    && (r.kind == CardClick <==> r.placement != EventPage)
  }

  /** The CHECKs on `TrafficDaily`. */
  predicate TotalChecks(f: Figures) {
    && f.views == f.viewsDirect + f.viewsInternal + f.viewsSearch + f.viewsSocial + f.viewsOther
    && f.cardClicks == f.cardClicksHome + f.cardClicksListing + f.cardClicksSearch
    && f.visitors + f.anonymousViews <= f.views
    && f.ticketClickVisitors <= f.ticketClicks + f.seatClicks
    && f.websiteRedirectVisitors <= f.websiteRedirects
  }

  /** No more distinct visitor codes than rows that carry one. */
  lemma {:induction false} CodesWithin(rows: set<RawRow>)
    ensures |Codes(rows)| <= |set r | r in rows && r.visitorHash.Some?|
  {
    if rows != {} {
      var r :| r in rows;
      var rest := rows - {r};
      CodesWithin(rest);
      var coded := set x | x in rows && x.visitorHash.Some?;
      var codedRest := set x | x in rest && x.visitorHash.Some?;
      if r.visitorHash.Some? {
        assert coded == codedRest + {r};
        assert Codes(rows) == Codes(rest) + {r.visitorHash.value};
      } else {
        assert coded == codedRest;
        assert Codes(rows) == Codes(rest);
      }
    }
  }

  lemma CodesAtMost(rows: set<RawRow>)
    ensures |Codes(rows)| <= |rows|
  {
    CodesWithin(rows);
    var coded := set r | r in rows && r.visitorHash.Some?;
    assert rows == coded + (rows - coded);
  }

  lemma Disjointly(a: set<RawRow>, b: set<RawRow>)
    requires a !! b
    ensures |a + b| == |a| + |b|
  {
  }

  /** Every page view came from exactly one of the five sources. */
  lemma ViewsSplitBySource(rows: set<RawRow>)
    requires forall r :: r in rows ==> RowChecks(r)
    ensures |Kept(rows, PageView)|
         == |From(rows, Direct)| + |From(rows, Internal)| + |From(rows, SearchEngine)|
          + |From(rows, Social)| + |From(rows, Other)|
  {
    var two := From(rows, Direct) + From(rows, Internal);
    var three := two + From(rows, SearchEngine);
    var four := three + From(rows, Social);
    Disjointly(From(rows, Direct), From(rows, Internal));
    Disjointly(two, From(rows, SearchEngine));
    Disjointly(three, From(rows, Social));
    Disjointly(four, From(rows, Other));
    forall r | r in Kept(rows, PageView) ensures r in four + From(rows, Other) {
      match r.source.value
      case Direct =>
      case Internal =>
      case SearchEngine =>
      case Social =>
      case Other =>
    }
    assert Kept(rows, PageView) == four + From(rows, Other);
  }

  lemma ClicksSplitByPlacement(rows: set<RawRow>)
    requires forall r :: r in rows ==> RowChecks(r)
    ensures |Kept(rows, CardClick)| == |At(rows, Home)| + |At(rows, EventList)| + |At(rows, SearchPage)|
  {
    var two := At(rows, Home) + At(rows, EventList);
    assert Kept(rows, CardClick) == two + At(rows, SearchPage);
  }

  lemma VisitorsWithinViews(rows: set<RawRow>)
    ensures |Codes(Kept(rows, PageView))| + |Anonymous(rows)| <= |Kept(rows, PageView)|
  {
    var views := Kept(rows, PageView);
    var coded := set r | r in views && r.visitorHash.Some?;
    CodesWithin(views);
    assert views == coded + Anonymous(rows);
    assert coded !! Anonymous(rows);
  }

  /** Sums of rows the raw table can hold always satisfy the totals table's CHECKs. */
  lemma SumsMeetChecks(rows: set<RawRow>)
    requires forall r :: r in rows ==> RowChecks(r)
    ensures TotalChecks(Sums(rows))
  {
    ViewsSplitBySource(rows);
    ClicksSplitByPlacement(rows);
    VisitorsWithinViews(rows);
    CodesAtMost(Kept(rows, TicketsClick) + Kept(rows, SeatsClick));
    CodesAtMost(Kept(rows, WebsiteRedirect));
  }

  // ---- The statements -----------------------------------------------------

  predicate Overwritable(totals: Totals, eventId: string, day: Day) {
    (eventId, day) in totals ==> GivesWay(totals[(eventId, day)], day)
  }

  /** `rollUpTrafficDay`: the grouped upsert. */
  function RollUpTrafficDay(totals: Totals, raw: set<RawRow>, day: Day, now: Instant): Totals {
    totals + map e | e in EventsOn(raw, day) && Overwritable(totals, e, day)
               :: (e, day) := Daily(Sums(Of(raw, e, day)), false, now)
  }

  /** `purgeTrafficDayBatch`: which sets of rows one batch may delete. */
  predicate IsPurgeBatch(raw: set<RawRow>, day: Day, limit: nat, doomed: set<RawRow>) {
    && doomed <= OnDay(raw, day)
    && |doomed| == if |OnDay(raw, day)| < limit then |OnDay(raw, day)| else limit
  }

  /** A batch always exists, whatever the day holds. */
  lemma {:induction false} PurgeBatchExists(rows: set<RawRow>, limit: nat) returns (doomed: set<RawRow>)
    ensures doomed <= rows && |doomed| == if |rows| < limit then |rows| else limit
  {
    if limit == 0 || rows == {} {
      doomed := {};
    } else {
      var r :| r in rows;
      var rest := PurgeBatchExists(rows - {r}, limit - 1);
      doomed := rest + {r};
    }
  }

  /** A batch shorter than its limit was the last: it empties the day. */
  lemma ShortBatchEmptiesDay(raw: set<RawRow>, day: Day, limit: nat, doomed: set<RawRow>)
    requires IsPurgeBatch(raw, day, limit, doomed) && |doomed| < limit
    ensures OnDay(raw - doomed, day) == {}
  {
    var rest := OnDay(raw, day) - doomed;
    assert OnDay(raw, day) == doomed + rest;
    assert OnDay(raw - doomed, day) == rest;
  }

  /** A day with no raw rows is never touched, so a purged day is never recomputed to zero. */
  lemma EmptyDayUntouched(totals: Totals, raw: set<RawRow>, day: Day, now: Instant)
    requires OnDay(raw, day) == {}
    ensures RollUpTrafficDay(totals, raw, day, now) == totals
  {
    assert forall r :: r in raw && r.day == day ==> r in OnDay(raw, day);
  }

  /** Other days, final totals and events with no rows keep what they had. */
  lemma RollUpKeeps(totals: Totals, raw: set<RawRow>, day: Day, now: Instant, key: (string, Day))
    requires key in totals
    requires key.1 != day || IsFinal(totals[key], day) || Of(raw, key.0, day) == {}
    ensures key in RollUpTrafficDay(totals, raw, day, now)
    ensures RollUpTrafficDay(totals, raw, day, now)[key] == totals[key]
  {
    if key.1 == day && key.0 in EventsOn(raw, day) {
      var r :| r in raw && r.day == day && r.eventId == key.0;
      assert r in Of(raw, key.0, day);
    }
  }

  /** Whatever is not final gives way: an event with a row gets the sums of its own rows, real and of this instant. */
  lemma RollUpWrites(totals: Totals, raw: set<RawRow>, day: Day, now: Instant, row: RawRow)
    requires row in raw && row.day == day
    ensures var (key, totals') := ((row.eventId, day), RollUpTrafficDay(totals, raw, day, now));
            && key in totals'
            && var final :=
                 key in totals && !totals[key].demonstration && (day + 2) * 86_400_000 <= totals[key].computedAt;
            totals'[key] == if final then totals[key]
                            else Daily(Sums(set r | r in raw && r.eventId == key.0 && r.day == day), false, now)
    ensures RollUpTrafficDay(totals, raw, day, now).Keys
         == totals.Keys + set r | r in raw && r.day == day :: (r.eventId, day)
  {
    hide Sums;
    assert row.eventId in EventsOn(raw, day);
    var (key, totals') := ((row.eventId, day), RollUpTrafficDay(totals, raw, day, now));
    assert Of(raw, row.eventId, day) == set r | r in raw && r.eventId == row.eventId && r.day == day;
    if key in totals && IsFinal(totals[key], day) { RollUpKeeps(totals, raw, day, now, key); }
  }

  /** Recomputing a day from the same rows changes no figure and no flag. */
  lemma RollUpIdempotent(totals: Totals, raw: set<RawRow>, day: Day, now: Instant, later: Instant)
    ensures var once := RollUpTrafficDay(totals, raw, day, now);
            var twice := RollUpTrafficDay(once, raw, day, later);
            && once.Keys == twice.Keys
            && forall key :: key in once ==>
                 && once[key].figures == twice[key].figures
                 && once[key].demonstration == twice[key].demonstration
  {
    var once := RollUpTrafficDay(totals, raw, day, now);
    var twice := RollUpTrafficDay(once, raw, day, later);
    forall e | e in EventsOn(raw, day) ensures (e, day) in once {
      if !Overwritable(totals, e, day) { assert (e, day) in totals; }
    }
    forall key | key in once
      ensures key in twice && once[key].figures == twice[key].figures
           && once[key].demonstration == twice[key].demonstration
    {
      // A row replaced the second time had already been replaced the first time.
      assert key.1 == day && key.0 in EventsOn(raw, day) && Overwritable(once, key.0, day)
        ==> Overwritable(totals, key.0, day);
    }
  }
}
