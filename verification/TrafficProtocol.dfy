/**
 * The roll-up as a protocol: one database, any number of runs, every transaction
 * one atomic step, and beacons, seeding, faults and crashes anywhere in between.
 */
module TrafficProtocol {
  import opened Prelude
  import opened TrafficTotals

  // ---- The database and what is remembered about it -----------------------

  datatype Db = Db(
    raw: set<RawRow>, totals: Totals,
    leaseOwner: Option<string>, leaseExpiresAt: Option<Instant>, lastCompletedAt: Option<Instant>,
    salts: set<Day>)

  /** A committed transaction: whose it was, for which day, whether it added the day up, what it deleted. */
  datatype Commit = Commit(run: nat, day: Day, summed: bool, rows: set<RawRow>)

  /** A lease given back by the run that held it. */
  datatype Released = Released(run: nat, at: Instant, completed: bool)

  /** What no column records: every row ever written, every commit and release, real time. */
  datatype Past = Past(written: set<RawRow>, commits: seq<Commit>, releases: seq<Released>, wall: Instant)

  function Gone(log: seq<Commit>): set<RawRow> {
    if log == [] then {} else Gone(log[..|log| - 1]) + log[|log| - 1].rows
  }

  /** What one run has committed: the days added up in order, the rows deleted, the releases. */
  datatype Work = Work(summed: seq<Day>, deleted: nat, releases: seq<Released>)

  function DeletedBy(log: seq<Commit>, run: nat): nat {
    if log == [] then 0
    else
      var last := log[|log| - 1];
      DeletedBy(log[..|log| - 1], run) + if last.run == run then |last.rows| else 0
  }

  function SummedBy(log: seq<Commit>, run: nat): seq<Day> {
    if log == [] then []
    else
      var last := log[|log| - 1];
      SummedBy(log[..|log| - 1], run) + if last.run == run && last.summed then [last.day] else []
  }

  function ReleasedBy(log: seq<Released>, run: nat): seq<Released> {
    if log == [] then []
    else
      var last := log[|log| - 1];
      ReleasedBy(log[..|log| - 1], run) + if last.run == run then [last] else []
  }

  function WorkOf(past: Past, run: nat): Work {
    Work(SummedBy(past.commits, run), DeletedBy(past.commits, run), ReleasedBy(past.releases, run))
  }

  /** The last completion recorded. */
  function LastCompletion(log: seq<Released>): Option<Instant> {
    if log == [] then None
    else if log[|log| - 1].completed then Some(log[|log| - 1].at)
    else LastCompletion(log[..|log| - 1])
  }

  lemma LogAppends(log: seq<Commit>, entry: Commit)
    ensures Gone(log + [entry]) == Gone(log) + entry.rows
  {
    assert (log + [entry])[..|log|] == log;
  }

  /** A commit adds to the work of its own run and to nobody else's. */
  lemma CommitAdds(past: Past, entry: Commit)
    ensures var past' := past.(commits := past.commits + [entry]);
            && WorkOf(past', entry.run) == Work(
                 WorkOf(past, entry.run).summed + if entry.summed then [entry.day] else [],
                 WorkOf(past, entry.run).deleted + |entry.rows|, WorkOf(past, entry.run).releases)
            && forall id :: id != entry.run ==> WorkOf(past', id) == WorkOf(past, id)
  {
    assert (past.commits + [entry])[..|past.commits|] == past.commits;
  }

  lemma ReleaseAdds(past: Past, entry: Released)
    ensures var past' := past.(releases := past.releases + [entry]);
            && WorkOf(past', entry.run)
               == WorkOf(past, entry.run).(releases := WorkOf(past, entry.run).releases + [entry])
            && (forall id :: id != entry.run ==> WorkOf(past', id) == WorkOf(past, id))
            && LastCompletion(past'.releases)
               == if entry.completed then Some(entry.at) else LastCompletion(past.releases)
  {
    assert (past.releases + [entry])[..|past.releases|] == past.releases;
  }

  // ---- The lease ----------------------------------------------------------

  /** `claimTrafficRollupLease`: free or expired, judged on the lease clock. */
  function ClaimLease(db: Db, worker: string, at: Instant, leaseMs: nat): Option<Db> {
    if db.leaseExpiresAt.None? || db.leaseExpiresAt.value < at
    then Some(db.(leaseOwner := Some(worker), leaseExpiresAt := Some(at + leaseMs)))
    else None
  }

  /** `renewLease`: None is `LEASE_LOST`. The clock is read twice. */
  function RenewLease(db: Db, worker: string, at: Instant, again: Instant, leaseMs: nat): Option<Db> {
    if db.leaseOwner == Some(worker) && db.leaseExpiresAt.Some? && at < db.leaseExpiresAt.value
    then Some(db.(leaseExpiresAt := Some(again + leaseMs)))
    else None
  }

  /** `releaseTrafficRollupLease`: None when the lease was not this worker's. */
  function ReleaseLease(db: Db, worker: string, completed: bool, at: Instant): Option<Db> {
    if db.leaseOwner == Some(worker)
    then Some(db.(leaseOwner := None, leaseExpiresAt := None,
                  lastCompletedAt := if completed then Some(at) else db.lastCompletedAt))
    else None
  }

  // ---- The transactions ---------------------------------------------------

  /** Which rows a transaction of a run may delete: none, unless the day is old enough. */
  predicate MayDelete(raw: set<RawRow>, day: Day, now: Instant, batchRows: nat, doomed: set<RawRow>) {
    if Purgeable(day, now) then IsPurgeBatch(raw, day, batchRows, doomed) else doomed == {}
  }

  /** A day's first transaction: renew, recompute, delete the first batch. None is `LEASE_LOST`. */
  function DayTransaction(
    db: Db, worker: string, leaseMs: nat, at: Instant, again: Instant,
    day: Day, now: Instant, doomed: set<RawRow>): Option<Db>
  {
    match RenewLease(db, worker, at, again, leaseMs)
    case None => None
    case Some(held) =>
      Some(held.(totals := RollUpTrafficDay(held.totals, held.raw, day, now), raw := held.raw - doomed))
  }

  /** A busy day's later transaction: renew, delete the next batch. */
  function BatchTransaction(
    db: Db, worker: string, leaseMs: nat, at: Instant, again: Instant, doomed: set<RawRow>): Option<Db>
  {
    match RenewLease(db, worker, at, again, leaseMs)
    case None => None
    case Some(held) => Some(held.(raw := held.raw - doomed))
  }

  // ---- What holds of the store in every reachable state -------------------

  predicate HasFinal(totals: Totals, eventId: string, day: Day) {
    (eventId, day) in totals && IsFinal(totals[(eventId, day)], day)
  }

  /** Every event with a row ever written for the day has final totals. */
  ghost predicate Settled(totals: Totals, written: set<RawRow>, day: Day) {
    forall r :: r in written && r.day == day ==> HasFinal(totals, r.eventId, day)
  }

  /** Final totals were computed by now and count every row ever written. */
  ghost predicate FinalCounted(totals: Totals, written: set<RawRow>, wall: Instant) {
    forall e, d :: HasFinal(totals, e, d) ==>
      && totals[(e, d)].computedAt <= wall
      && totals[(e, d)].figures == Sums(Of(written, e, d))
  }

  /** Every row ever written is still raw or was deleted, once, by a committed batch. */
  ghost predicate Accounted(raw: set<RawRow>, past: Past) {
    raw + Gone(past.commits) == past.written && raw !! Gone(past.commits)
  }

  /** A day that lost a row is settled. */
  ghost predicate LostDaysSettled(totals: Totals, past: Past) {
    forall r :: r in Gone(past.commits) ==> Settled(totals, past.written, r.day)
  }

  ghost predicate StoreInv(raw: set<RawRow>, totals: Totals, past: Past) {
    && Accounted(raw, past)
    && FinalCounted(totals, past.written, past.wall)
    && LostDaysSettled(totals, past)
  }

  /** A beacon's row arrives while its day can still take one. */
  predicate MayInsert(past: Past, row: RawRow) {
    && past.wall < FinalFrom(row.day)
    && (forall r :: r in past.written ==> r.id != row.id)
  }

  lemma InsertKeeps(raw: set<RawRow>, totals: Totals, past: Past, row: RawRow)
    requires StoreInv(raw, totals, past) && MayInsert(past, row)
    ensures StoreInv(raw + {row}, totals, past.(written := past.written + {row}))
  {
    // Nothing of the row's day is final yet, so nothing of it has been deleted either.
    assert forall e :: !HasFinal(totals, e, row.day) by { hide Accounted, LostDaysSettled, Sums, Of; }
    hide HasFinal, Sums, Of, Settled;
    assert row !in past.written;
    LostDaysStay(raw, totals, past, row);
    forall e, d | HasFinal(totals, e, d) ensures Of(past.written + {row}, e, d) == Of(past.written, e, d) {
      OtherDays(past.written, row, e, d);
    }
  }

  lemma OtherDays(written: set<RawRow>, row: RawRow, e: string, d: Day)
    requires row.day != d
    ensures Of(written + {row}, e, d) == Of(written, e, d)
  {
  }

  lemma LostDaysStay(raw: set<RawRow>, totals: Totals, past: Past, row: RawRow)
    requires Accounted(raw, past) && LostDaysSettled(totals, past)
    requires forall e :: !HasFinal(totals, e, row.day)
    ensures LostDaysSettled(totals, past.(written := past.written + {row}))
  {
    hide HasFinal;
    forall r | r in Gone(past.commits) ensures Settled(totals, past.written + {row}, r.day) {
      assert r in past.written;
      assert HasFinal(totals, r.eventId, r.day);
    }
  }

  lemma FinalsKept(totals: Totals, raw: set<RawRow>, day: Day, now: Instant, e: string, d: Day)
    requires HasFinal(totals, e, d)
    ensures var totals' := RollUpTrafficDay(totals, raw, day, now);
            HasFinal(totals', e, d) && totals'[(e, d)] == totals[(e, d)]
  {
    RollUpKeeps(totals, raw, day, now, (e, d));
  }

  /** A settled day's upsert writes nothing: a purge cut short never shrinks its totals. */
  lemma SettledDayUntouched(totals: Totals, written: set<RawRow>, raw: set<RawRow>, day: Day, now: Instant)
    requires Settled(totals, written, day) && raw <= written
    ensures RollUpTrafficDay(totals, raw, day, now) == totals
  {
    forall e | e in EventsOn(raw, day) ensures !Overwritable(totals, e, day) {
      var row :| row in raw && row.day == day && row.eventId == e;
      assert HasFinal(totals, e, day);
    }
  }

  /** The day is whole: its sums count every row ever written for it. */
  lemma WholeDayCounted(totals: Totals, raw: set<RawRow>, past: Past, day: Day, now: Instant)
    requires StoreInv(raw, totals, past) && now <= past.wall
    requires forall r :: r in Gone(past.commits) ==> r.day != day
    ensures var totals' := RollUpTrafficDay(totals, raw, day, now);
            && FinalCounted(totals', past.written, past.wall)
            && (Purgeable(day, now) ==> Settled(totals', past.written, day))
  {
    var totals' := RollUpTrafficDay(totals, raw, day, now);
    forall e, d | HasFinal(totals', e, d)
      ensures totals'[(e, d)].computedAt <= past.wall
      ensures totals'[(e, d)].figures == Sums(Of(past.written, e, d))
    {
      assert Of(raw, e, day) == Of(past.written, e, day);
      if d == day && e in EventsOn(raw, day) && Overwritable(totals, e, day) {
        assert totals'[(e, d)] == Daily(Sums(Of(raw, e, day)), false, now);
      } else {
        assert totals'[(e, d)] == totals[(e, d)];
      }
    }
    if Purgeable(day, now) {
      forall r | r in past.written && r.day == day ensures HasFinal(totals', r.eventId, day) {
        assert r in raw && r.eventId in EventsOn(raw, day);
      }
    }
  }

  /** Recomputing a day keeps everything, and settles the day when it is old enough to purge. */
  lemma RollUpKeepsStore(totals: Totals, raw: set<RawRow>, past: Past, day: Day, now: Instant)
    requires StoreInv(raw, totals, past) && now <= past.wall
    ensures var totals' := RollUpTrafficDay(totals, raw, day, now);
            && StoreInv(raw, totals', past)
            && (Purgeable(day, now) ==> Settled(totals', past.written, day))
  {
    var totals' := RollUpTrafficDay(totals, raw, day, now);
    if r :| r in Gone(past.commits) && r.day == day {
      SettledDayUntouched(totals, past.written, raw, day, now);
      assert Settled(totals, past.written, r.day);
    } else {
      WholeDayCounted(totals, raw, past, day, now);
      forall e, d | HasFinal(totals, e, d) ensures HasFinal(totals', e, d) {
        FinalsKept(totals, raw, day, now, e, d);
      }
    }
  }

  /** A batch of a settled day may go: everything in it has been counted. */
  lemma PurgeKeepsStore(totals: Totals, raw: set<RawRow>, past: Past, day: Day, entry: Commit)
    requires StoreInv(raw, totals, past) && Settled(totals, past.written, day)
    requires entry.rows <= OnDay(raw, day)
    ensures StoreInv(raw - entry.rows, totals, past.(commits := past.commits + [entry]))
  {
    LogAppends(past.commits, entry);
    var gone := Gone(past.commits + [entry]);
    assert (raw - entry.rows) + gone == raw + Gone(past.commits);
    forall r | r in gone ensures Settled(totals, past.written, r.day) {
      if r in entry.rows { assert r in OnDay(raw, day); }
    }
  }

  // ---- Runs and steps -----------------------------------------------------

  datatype Phase =
    | Waiting
    | Listing
    | Looping(todo: seq<Day>, failed: bool)
    | Batching(day: Day, rest: seq<Day>, failed: bool)
    | Closing(completed: bool)
    | Over

  /** `listed` are the days the run found when it listed them. */
  datatype Run = Run(
    worker: string, now: Instant, leaseMs: nat, batchRows: nat, listed: seq<Day>, phase: Phase)

  datatype World = World(db: Db, past: Past, runs: map<nat, Run>)

  datatype Step =
    | Start(id: nat, run: Run)
    | Claim(id: nat, at: Instant)
    | ListDays(id: nat, days: seq<Day>)
    | RollUp(id: nat, at: Instant, again: Instant, doomed: set<RawRow>)
    | MoreBatch(id: nat, at: Instant, again: Instant, doomed: set<RawRow>)
    | Fault(id: nat)
    | DiscardSalts(id: nat)
    | Release(id: nat, at: Instant)
    | Crash(id: nat)
    | Beacon(row: RawRow)
    | Tick(wall: Instant)
    | SeedDemonstration(key: (string, Day), total: Daily)
    | DropDemonstration(key: (string, Day))
    | MakeSalt(day: Day)
    | ClearSalts(day: Day)

  /** `SELECT DISTINCT "day" … ORDER BY 1`. */
  ghost predicate IsDayList(raw: set<RawRow>, days: seq<Day>) {
    && (forall i, j :: 0 <= i < j < |days| ==> days[i] < days[j])
    && (forall d :: d in days <==> OnDay(raw, d) != {})
  }

  predicate MayStart(w: World, id: nat, run: Run) {
    id !in w.runs && run.phase == Waiting && run.listed == [] && run.now <= w.past.wall && run.batchRows > 0
        && run.leaseMs > 0
  }

  function SetPhase(w: World, id: nat, phase: Phase): World
    requires id in w.runs
  {
    w.(runs := w.runs[id := w.runs[id].(phase := phase)])
  }

  /** A committed transaction: its database, what it did, and where the run goes next. */
  function Committed(w: World, id: nat, db: Db, entry: Commit, next: Phase): World
    requires id in w.runs
  {
    SetPhase(w.(db := db, past := w.past.(commits := w.past.commits + [entry])), id, next)
  }

  /** After a purge batch: a full one is followed by another. */
  function AfterBatch(run: Run, day: Day, rest: seq<Day>, failed: bool, deleted: nat): Phase {
    if Purgeable(day, run.now) && deleted >= run.batchRows
    then Batching(day, rest, failed) else Looping(rest, failed)
  }

  function SaltsFrom(salts: set<Day>, day: Day): set<Day> { set d | d in salts && day <= d }

  /** A step of the world around the runs. */
  predicate IsOutside(s: Step) {
    || s.Beacon? || s.Tick? || s.SeedDemonstration? || s.DropDemonstration? || s.MakeSalt? || s.ClearSalts?
  }

  /** The state after a step, or None when the step cannot happen there. */
  ghost function Apply(w: World, s: Step): Option<World> {
    match s
    case Start(id, run) =>
      if MayStart(w, id, run) then Some(w.(runs := w.runs[id := run])) else None
    case Beacon(row) =>
      if MayInsert(w.past, row)
      then Some(w.(db := w.db.(raw := w.db.raw + {row}), past := w.past.(written := w.past.written + {row})))
      else None
    case Tick(wall) =>
      if w.past.wall <= wall then Some(w.(past := w.past.(wall := wall))) else None
    case SeedDemonstration(key, total) =>
      // The seed leaves a real row alone.
      if total.demonstration && (key in w.db.totals ==> w.db.totals[key].demonstration)
      then Some(w.(db := w.db.(totals := w.db.totals[key := total])))
      else None
    case DropDemonstration(key) =>
      if key in w.db.totals && w.db.totals[key].demonstration
      then Some(w.(db := w.db.(totals := w.db.totals - {key})))
      else None
    case MakeSalt(day) =>
      // The first counted request of a day makes its salt, and then clears those of earlier days.
      if day !in w.db.salts && day <= UtcDay(w.past.wall)
      then Some(w.(db := w.db.(salts := w.db.salts + {day}))) else None
    case ClearSalts(day) =>
      if day <= UtcDay(w.past.wall)
      then Some(w.(db := w.db.(salts := SaltsFrom(w.db.salts, day)))) else None
    case _ => if s.id in w.runs then RunStep(w, s) else None
  }

  ghost function RunStep(w: World, s: Step): Option<World>
    requires !s.Start? && !IsOutside(s)
    requires s.id in w.runs
  {
    var run := w.runs[s.id];
    match s
    case Claim(id, at) =>
      if !run.phase.Waiting? then None else
      (match ClaimLease(w.db, run.worker, at, run.leaseMs)
       case None => Some(SetPhase(w, id, Over))
       case Some(db) => Some(SetPhase(w.(db := db), id, Listing)))
    case ListDays(id, days) =>
      if run.phase.Listing? && IsDayList(w.db.raw, days)
      then Some(w.(runs := w.runs[id := run.(listed := days, phase := Looping(days, false))])) else None
    case RollUp(id, at, again, doomed) =>
      if !(run.phase.Looping? && run.phase.todo != []) then None else
      var day, rest := run.phase.todo[0], run.phase.todo[1..];
      if !MayDelete(w.db.raw, day, run.now, run.batchRows, doomed) then None else
      (match DayTransaction(w.db, run.worker, run.leaseMs, at, again, day, run.now, doomed)
       case None => Some(SetPhase(w, id, Over))
       case Some(db) =>
         Some(Committed(w, id, db, Commit(id, day, true, doomed),
                        AfterBatch(run, day, rest, run.phase.failed, |doomed|))))
    case MoreBatch(id, at, again, doomed) =>
      if !run.phase.Batching? then None else
      if !IsPurgeBatch(w.db.raw, run.phase.day, run.batchRows, doomed) then None else
      (match BatchTransaction(w.db, run.worker, run.leaseMs, at, again, doomed)
       case None => Some(SetPhase(w, id, Over))
       case Some(db) =>
         Some(Committed(w, id, db, Commit(id, run.phase.day, false, doomed),
                        AfterBatch(run, run.phase.day, run.phase.rest, run.phase.failed, |doomed|))))
    case Fault(id) =>
      // A day's transaction rolls back and the run carries on; anything else ends it unfinished.
      (match run.phase
       case Looping(todo, _) =>
         Some(SetPhase(w, id, if todo == [] then Closing(false) else Looping(todo[1..], true)))
       case Batching(_, rest, _) => Some(SetPhase(w, id, Looping(rest, true)))
       case Listing => Some(SetPhase(w, id, Closing(false)))
       case _ => Some(SetPhase(w, id, Over)))
    case DiscardSalts(id) =>
      if run.phase.Looping? && run.phase.todo == []
      then Some(SetPhase(w.(db := w.db.(salts := SaltsFrom(w.db.salts, UtcDay(run.now)))),
                         id, Closing(!run.phase.failed)))
      else None
    case Release(id, at) =>
      if !run.phase.Closing? then None else
      (match ReleaseLease(w.db, run.worker, run.phase.completed, at)
       case None => Some(SetPhase(w, id, Over))
       case Some(db) =>
         var entry := Released(id, at, run.phase.completed);
         Some(SetPhase(w.(db := db, past := w.past.(releases := w.past.releases + [entry])), id, Over)))
    case Crash(id) => Some(SetPhase(w, id, Over))
  }

  // ---- The invariant ------------------------------------------------------

  /** Every raw row this run may purge is of one of these days. */
  ghost predicate LeftFor(raw: set<RawRow>, now: Instant, days: seq<Day>) {
    forall r :: r in raw && Purgeable(r.day, now) ==> r.day in days
  }

  /** Every row old enough to purge has been deleted, and its day settled. */
  ghost predicate PurgedThrough(db: Db, past: Past, now: Instant) {
    forall r :: r in past.written && Purgeable(r.day, now) ==> r !in db.raw && Settled(db.totals, past.written, r.day)
  }

  /** With no purgeable row left, everything purgeable was deleted and so had been counted. */
  lemma NothingLeft(db: Db, past: Past, now: Instant)
    requires StoreInv(db.raw, db.totals, past) && LeftFor(db.raw, now, [])
    ensures PurgedThrough(db, past, now)
  {
    forall r | r in past.written && Purgeable(r.day, now)
      ensures r !in db.raw && Settled(db.totals, past.written, r.day)
    {
      assert r in Gone(past.commits);
    }
  }

  /** How far a run without a failed day has come: what it added up, and what it has left to purge. */
  ghost predicate Progress(run: Run, work: Work, raw: set<RawRow>) {
    match run.phase
    case Waiting => work == Work([], 0, [])
    case Listing => work == Work([], 0, [])
    case Looping(todo, failed) =>
      && work.releases == []
      && (!failed ==> work.summed + todo == run.listed && LeftFor(raw, run.now, todo))
    case Batching(day, rest, failed) =>
      && work.releases == []
      && (!failed ==> work.summed + rest == run.listed && LeftFor(raw, run.now, [day] + rest))
    case Closing(completed) =>
      && work.releases == []
      && (completed ==> work.summed == run.listed && LeftFor(raw, run.now, []))
    case Over => true
  }

  /** Some row of the day has been deleted. */
  ghost predicate HasLost(past: Past, day: Day) { exists r :: r in Gone(past.commits) && r.day == day }

  ghost predicate RunInv(w: World, id: nat)
    requires id in w.runs
  {
    var run := w.runs[id];
    && run.now <= w.past.wall
    && run.batchRows > 0
    && (run.phase.Batching? ==> Purgeable(run.phase.day, run.now) && HasLost(w.past, run.phase.day))
    && Progress(run, WorkOf(w.past, id), w.db.raw)
  }

  ghost predicate Inv(w: World) {
    && StoreInv(w.db.raw, w.db.totals, w.past)
    && w.db.lastCompletedAt == LastCompletion(w.past.releases)
    && (forall id :: id in w.runs ==> RunInv(w, id))
    && (forall id :: id !in w.runs ==> WorkOf(w.past, id) == Work([], 0, []))
  }

  ghost predicate Initial(w: World) {
    && w.db == Db({}, map[], None, None, None, {})
    && w.past.written == {} && w.past.commits == [] && w.past.releases == []
    && w.runs == map[]
  }

  // ---- Steps keep the store's part of the invariant -----------------------

  lemma EmptyBatchKeepsStore(totals: Totals, raw: set<RawRow>, past: Past, entry: Commit)
    requires StoreInv(raw, totals, past) && entry.rows == {}
    ensures StoreInv(raw - entry.rows, totals, past.(commits := past.commits + [entry]))
  {
    LogAppends(past.commits, entry);
    assert raw - entry.rows == raw;
    assert Gone(past.commits + [entry]) == Gone(past.commits);
  }

  lemma CommitKeepsStore(totals: Totals, raw: set<RawRow>, past: Past, entry: Commit)
    requires StoreInv(raw, totals, past)
    requires entry.rows == {} || (entry.rows <= OnDay(raw, entry.day) && Settled(totals, past.written, entry.day))
    ensures StoreInv(raw - entry.rows, totals, past.(commits := past.commits + [entry]))
  {
    if entry.rows == {} {
      EmptyBatchKeepsStore(totals, raw, past, entry);
    } else {
      PurgeKeepsStore(totals, raw, past, entry.day, entry);
    }
  }

  /** Writing releases down changes nothing about rows and totals. */
  lemma ReleaseKeepsStore(totals: Totals, raw: set<RawRow>, past: Past, releases: seq<Released>)
    requires StoreInv(raw, totals, past)
    ensures StoreInv(raw, totals, past.(releases := releases))
  {
  }

  // ---- Steps keep every run's part -----------------------------------------

  /** A run at rest keeps its progress while rows are deleted, and while late rows come in. */
  lemma ProgressStays(run: Run, work: Work, raw: set<RawRow>, raw': set<RawRow>, wall: Instant)
    requires Progress(run, work, raw) && run.now <= wall
    requires forall r :: r in raw' && r !in raw ==> wall < FinalFrom(r.day)
    ensures Progress(run, work, raw')
  {
    forall r | r in raw' && Purgeable(r.day, run.now) ensures r in raw {
      PurgeableIffSumsFinal(r.day, run.now, Sums({}));
    }
  }

  /** Runs other than the one that moved. */
  lemma OthersKeep(w: World, w': World, id: nat, i: nat)
    requires i in w.runs && i != id && i in w'.runs && w'.runs[i] == w.runs[i] && RunInv(w, i)
    requires w.past.wall <= w'.past.wall && Gone(w.past.commits) <= Gone(w'.past.commits)
    requires WorkOf(w'.past, i) == WorkOf(w.past, i)
    requires forall r :: r in w'.db.raw && r !in w.db.raw ==> w.past.wall < FinalFrom(r.day)
    ensures RunInv(w', i)
  {
    hide WorkOf, Gone;
    ProgressStays(w.runs[i], WorkOf(w.past, i), w.db.raw, w'.db.raw, w.past.wall);
  }

  /** The run that committed: its next phase is where its own transaction leaves it. */
  lemma CommitterKeeps(w: World, id: nat, db: Db, entry: Commit, rest: seq<Day>, failed: bool, todo: seq<Day>)
    requires id in w.runs && RunInv(w, id) && entry.run == id && db.raw == w.db.raw - entry.rows
    requires todo == [entry.day] + rest
    requires ReleasedBy(w.past.releases, id) == []
    requires !failed ==>
      && LeftFor(w.db.raw, w.runs[id].now, todo)
      && SummedBy(w.past.commits, id) + (if entry.summed then todo else rest) == w.runs[id].listed
    requires MayDelete(w.db.raw, entry.day, w.runs[id].now, w.runs[id].batchRows, entry.rows)
    ensures var next := AfterBatch(w.runs[id], entry.day, rest, failed, |entry.rows|);
            RunInv(Committed(w, id, db, entry, next), id)
  {
    hide WorkOf, IsPurgeBatch, LeftFor, Purgeable, Gone;
    var run := w.runs[id];
    CommitAdds(w.past, entry);
    LogAppends(w.past.commits, entry);
    WorkParts(w.past, id);
    if !failed { LeftAfter(w.db.raw, run, entry, rest); }
    if Purgeable(entry.day, run.now) && |entry.rows| >= run.batchRows {
      BatchHasRow(w.db.raw, entry.day, run.batchRows, entry.rows);
    }
  }

  /** What a transaction leaves to purge: no more of its day, unless its batch was full. */
  lemma LeftAfter(raw: set<RawRow>, run: Run, entry: Commit, rest: seq<Day>)
    requires LeftFor(raw, run.now, [entry.day] + rest)
    requires MayDelete(raw, entry.day, run.now, run.batchRows, entry.rows)
    ensures LeftFor(raw - entry.rows, run.now, [entry.day] + rest)
    ensures !(Purgeable(entry.day, run.now) && |entry.rows| >= run.batchRows)
            ==> LeftFor(raw - entry.rows, run.now, rest)
  {
    hide IsPurgeBatch;
    if Purgeable(entry.day, run.now) && |entry.rows| < run.batchRows {
      ShortBatchEmptiesDay(raw, entry.day, run.batchRows, entry.rows);
      assert forall r :: r in raw - entry.rows && r.day == entry.day ==> r in OnDay(raw - entry.rows, entry.day);
    }
  }

  lemma WorkParts(past: Past, id: nat)
    ensures WorkOf(past, id).summed == SummedBy(past.commits, id)
    ensures WorkOf(past, id).releases == ReleasedBy(past.releases, id)
  {
  }

  /** A full batch of a purge that goes on deleted a row of the day. */
  lemma BatchHasRow(raw: set<RawRow>, day: Day, limit: nat, doomed: set<RawRow>)
    requires IsPurgeBatch(raw, day, limit, doomed) && |doomed| >= limit > 0
    ensures exists r :: r in doomed && r.day == day
  {
    var r := Member(doomed);
    assert r in OnDay(raw, day);
  }

  lemma CommittedKeeps(w: World, id: nat, db: Db, entry: Commit, next: Phase)
    requires Inv(w) && id in w.runs && entry.run == id
    requires StoreInv(w.db.raw, db.totals, w.past)
    requires db.raw == w.db.raw - entry.rows && db.lastCompletedAt == w.db.lastCompletedAt
    requires entry.rows == {}
            || (entry.rows <= OnDay(w.db.raw, entry.day) && Settled(db.totals, w.past.written, entry.day))
    requires RunInv(Committed(w, id, db, entry, next), id)
    ensures Inv(Committed(w, id, db, entry, next))
  {
    hide StoreInv, RunInv, WorkOf, Settled;
    var w' := Committed(w, id, db, entry, next);
    CommitKeepsStore(db.totals, w.db.raw, w.past, entry);
    CommitAdds(w.past, entry);
    LogAppends(w.past.commits, entry);
    forall i | i in w'.runs ensures RunInv(w', i) {
      if i != id { OthersKeep(w, w', id, i); }
    }
  }

  lemma RollUpStepKeeps(w: World, s: Step)
    requires Inv(w) && s.RollUp? && Apply(w, s).Some?
    ensures Inv(Apply(w, s).value)
  {
    hide StoreInv, WorkOf, Settled, IsPurgeBatch, RollUpTrafficDay;
    var run := w.runs[s.id];
    var day, rest := run.phase.todo[0], run.phase.todo[1..];
    assert RunInv(w, s.id);
    WorkParts(w.past, s.id);
    var done := DayTransaction(w.db, run.worker, run.leaseMs, s.at, s.again, day, run.now, s.doomed);
    if done.Some? {
      RollUpKeepsStore(w.db.totals, w.db.raw, w.past, day, run.now);
      var entry := Commit(s.id, day, true, s.doomed);
      assert run.phase.todo == [day] + rest;
      CommitterKeeps(w, s.id, done.value, entry, rest, run.phase.failed, run.phase.todo);
      BatchWithin(w.db.raw, day, run.now, run.batchRows, s.doomed);
      CommittedKeeps(w, s.id, done.value, entry, AfterBatch(run, day, rest, run.phase.failed, |s.doomed|));
    } else {
      EndedKeeps(w, s.id);
    }
  }

  lemma BatchWithin(raw: set<RawRow>, day: Day, now: Instant, batchRows: nat, doomed: set<RawRow>)
    requires MayDelete(raw, day, now, batchRows, doomed)
    ensures doomed <= OnDay(raw, day) && (doomed != {} ==> Purgeable(day, now))
  {
  }

  lemma EndedKeeps(w: World, id: nat)
    requires Inv(w) && id in w.runs
    ensures Inv(SetPhase(w, id, Over))
  {
    hide StoreInv, WorkOf;
    var w' := SetPhase(w, id, Over);
    assert RunInv(w, id);
    forall i | i in w'.runs ensures RunInv(w', i) { assert RunInv(w, i); }
  }

  lemma LostDayIsSettled(w: World, day: Day)
    requires StoreInv(w.db.raw, w.db.totals, w.past) && HasLost(w.past, day)
    ensures Settled(w.db.totals, w.past.written, day)
  {
  }

  lemma BatchStepKeeps(w: World, s: Step)
    requires Inv(w) && s.MoreBatch? && Apply(w, s).Some?
    ensures Inv(Apply(w, s).value)
  {
    hide StoreInv, WorkOf, Settled, IsPurgeBatch;
    var run := w.runs[s.id];
    assert RunInv(w, s.id);
    WorkParts(w.past, s.id);
    var done := BatchTransaction(w.db, run.worker, run.leaseMs, s.at, s.again, s.doomed);
    if done.Some? {
      var day, rest := run.phase.day, run.phase.rest;
      var entry := Commit(s.id, day, false, s.doomed);
      LostDayIsSettled(w, day);
      assert MayDelete(w.db.raw, day, run.now, run.batchRows, s.doomed);
      BatchWithin(w.db.raw, day, run.now, run.batchRows, s.doomed);
      CommitterKeeps(w, s.id, done.value, entry, rest, run.phase.failed, [day] + rest);
      CommittedKeeps(w, s.id, done.value, entry, AfterBatch(run, day, rest, run.phase.failed, |s.doomed|));
    } else {
      EndedKeeps(w, s.id);
    }
  }

  lemma EnvironmentStepKeeps(w: World, s: Step)
    requires Inv(w) && Apply(w, s).Some?
    requires IsOutside(s)
    ensures Inv(Apply(w, s).value)
  {
    var w' := Apply(w, s).value;
    if s.Beacon? {
      InsertKeeps(w.db.raw, w.db.totals, w.past, s.row);
    } else {
      DemonstrationsAreNotFinal(w, s);
      DemonstrationsKeepStore(w, s);
    }
    hide StoreInv, Progress, WorkOf;
    forall id | id in w'.runs ensures RunInv(w', id) {
      assert RunInv(w, id);
      ProgressStays(w.runs[id], WorkOf(w.past, id), w.db.raw, w'.db.raw, w.past.wall);
    }
    forall id ensures WorkOf(w'.past, id) == WorkOf(w.past, id) { SameLogs(w.past, w'.past, id); }
  }

  lemma SameLogs(past: Past, past': Past, id: nat)
    requires past'.commits == past.commits && past'.releases == past.releases
    ensures WorkOf(past', id) == WorkOf(past, id)
  {
  }

  /** Seeding and dropping demonstration rows leave every final total as it was. */
  lemma DemonstrationsAreNotFinal(w: World, s: Step)
    requires Apply(w, s).Some? && IsOutside(s) && !s.Beacon?
    ensures var totals' := Apply(w, s).value.db.totals;
            forall e, d :: (HasFinal(w.db.totals, e, d) <==> HasFinal(totals', e, d))
              && (HasFinal(w.db.totals, e, d) ==> totals'[(e, d)] == w.db.totals[(e, d)])
  {
  }

  lemma DemonstrationsKeepStore(w: World, s: Step)
    requires StoreInv(w.db.raw, w.db.totals, w.past) && Apply(w, s).Some?
    requires IsOutside(s) && !s.Beacon?
    ensures var w' := Apply(w, s).value; StoreInv(w'.db.raw, w'.db.totals, w'.past)
  {
    DemonstrationsAreNotFinal(w, s);
    assert Apply(w, s).value.past.commits == w.past.commits;
  }

  /** Steps of a run that touch neither rows nor totals nor the record of what was done. */
  predicate IsQuiet(s: Step) {
    s.Start? || s.Claim? || s.ListDays? || s.Fault? || s.DiscardSalts? || s.Crash?
  }

  lemma QuietStepChanges(w: World, s: Step)
    requires IsQuiet(s) && Apply(w, s).Some?
    ensures var w' := Apply(w, s).value;
            && w'.db.raw == w.db.raw && w'.db.totals == w.db.totals && w'.past == w.past
            && w'.db.lastCompletedAt == w.db.lastCompletedAt
            && w'.runs.Keys == w.runs.Keys + {s.id}
            && (forall id :: id in w'.runs && id != s.id ==> w'.runs[id] == w.runs[id])
            && !w'.runs[s.id].phase.Batching?
            && (s.Start? ==> s.id !in w.runs && MayStart(w, s.id, w'.runs[s.id]))
            && (!s.Start? ==> s.id in w.runs)
  {
  }

  /** A quiet step of a run leaves the run no further than its work. */
  lemma QuietProgress(w: World, s: Step)
    requires Inv(w) && IsQuiet(s) && Apply(w, s).Some?
    ensures RunInv(Apply(w, s).value, s.id)
  {
    hide StoreInv, WorkOf;
    var w' := Apply(w, s).value;
    QuietStepChanges(w, s);
    if s.id in w.runs { assert RunInv(w, s.id); }
    if s.ListDays? {
      forall r | r in w.db.raw ensures r.day in s.days {
        assert r in OnDay(w.db.raw, r.day);
      }
    }
  }

  lemma QuietStepKeeps(w: World, s: Step)
    requires Inv(w) && IsQuiet(s) && Apply(w, s).Some?
    ensures Inv(Apply(w, s).value)
  {
    hide StoreInv, WorkOf, RunStep, Progress;
    var w' := Apply(w, s).value;
    QuietStepChanges(w, s);
    QuietProgress(w, s);
    forall id | id in w'.runs ensures RunInv(w', id) {
      if id != s.id { assert RunInv(w, id); }
    }
  }

  lemma ReleaseStepKeeps(w: World, s: Step)
    requires Inv(w) && s.Release? && Apply(w, s).Some?
    ensures Inv(Apply(w, s).value)
  {
    hide StoreInv, WorkOf;
    var w' := Apply(w, s).value;
    var run := w.runs[s.id];
    if ReleaseLease(w.db, run.worker, run.phase.completed, s.at).Some? {
      var entry := Released(s.id, s.at, run.phase.completed);
      ReleaseAdds(w.past, entry);
      ReleaseKeepsStore(w.db.totals, w.db.raw, w.past, w'.past.releases);
      forall i | i in w'.runs ensures RunInv(w', i) {
        assert RunInv(w, i);
        if i != s.id { OthersKeep(w, w', s.id, i); }
      }
    } else {
      EndedKeeps(w, s.id);
    }
  }

  /** Every step, by any run or by the world around them, keeps the invariant. */
  lemma StepKeeps(w: World, s: Step)
    requires Inv(w) && Apply(w, s).Some?
    ensures Inv(Apply(w, s).value)
  {
    hide Inv, Apply;
    if s.RollUp? {
      RollUpStepKeeps(w, s);
    } else if s.MoreBatch? {
      BatchStepKeeps(w, s);
    } else if s.Release? {
      ReleaseStepKeeps(w, s);
    } else if IsQuiet(s) {
      QuietStepKeeps(w, s);
    } else {
      EnvironmentStepKeeps(w, s);
    }
  }
}
