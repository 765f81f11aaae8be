/** What one run may rely on from everybody else between two of its transactions. */
module TrafficEvolution {
  import opened Prelude
  import opened TrafficTotals
  import opened TrafficProtocol

  /** How the store may have changed between two instants, whoever was at work. */
  ghost predicate Evolves(a: Db, p: Past, b: Db, q: Past) {
    && p.wall <= q.wall
    && p.written <= q.written && Gone(p.commits) <= Gone(q.commits)
    && (forall r :: r in b.raw && r !in a.raw ==> p.wall < FinalFrom(r.day))
    && (forall r :: r in q.written && r !in p.written ==> p.wall < FinalFrom(r.day))
    && (forall e, d :: HasFinal(a.totals, e, d) ==>
          HasFinal(b.totals, e, d) && b.totals[(e, d)] == a.totals[(e, d)])
  }

  /** The same, while none of the transactions was run `me`'s. */
  ghost predicate EvolvesWithout(me: nat, a: Db, p: Past, b: Db, q: Past) {
    Evolves(a, p, b, q) && WorkOf(q, me) == WorkOf(p, me)
  }

  lemma EvolvesForward(a: Db, p: Past, b: Db, q: Past)
    requires Evolves(a, p, b, q)
    ensures p.wall <= q.wall
  {
  }

  lemma EvolvesReflexive(a: Db, p: Past)
    ensures Evolves(a, p, a, p)
  {
  }

  lemma EvolvesTransitive(a: Db, p: Past, b: Db, q: Past, c: Db, r: Past)
    requires Evolves(a, p, b, q) && Evolves(b, q, c, r)
    ensures Evolves(a, p, c, r)
  {
  }

  /** A day too old for new rows stays empty once emptied, and stays settled. */
  lemma OldDaysStay(a: Db, p: Past, b: Db, q: Past, day: Day)
    requires Evolves(a, p, b, q) && FinalFrom(day) <= p.wall
    ensures OnDay(b.raw, day) <= OnDay(a.raw, day) && |OnDay(b.raw, day)| <= |OnDay(a.raw, day)|
    ensures Settled(a.totals, p.written, day) ==> Settled(b.totals, q.written, day)
  {
    assert OnDay(a.raw, day) == OnDay(b.raw, day) + (OnDay(a.raw, day) - OnDay(b.raw, day));
  }

  /** A day's committed first transaction, as everybody else sees it. */
  lemma DayTransactionEvolves(
    a: Db, p: Past, worker: string, leaseMs: nat, at: Instant, again: Instant, now: Instant, entry: Commit)
    requires DayTransaction(a, worker, leaseMs, at, again, entry.day, now, entry.rows).Some?
    ensures var b := DayTransaction(a, worker, leaseMs, at, again, entry.day, now, entry.rows).value;
            Evolves(a, p, b, p.(commits := p.commits + [entry]))
  {
    LogAppends(p.commits, entry);
    var b := DayTransaction(a, worker, leaseMs, at, again, entry.day, now, entry.rows).value;
    forall e, d | HasFinal(a.totals, e, d)
      ensures HasFinal(b.totals, e, d) && b.totals[(e, d)] == a.totals[(e, d)]
    {
      FinalsKept(a.totals, a.raw, entry.day, now, e, d);
    }
  }

  lemma BatchTransactionEvolves(
    a: Db, p: Past, worker: string, leaseMs: nat, at: Instant, again: Instant, entry: Commit)
    requires BatchTransaction(a, worker, leaseMs, at, again, entry.rows).Some?
    ensures var b := BatchTransaction(a, worker, leaseMs, at, again, entry.rows).value;
            Evolves(a, p, b, p.(commits := p.commits + [entry]))
  {
    LogAppends(p.commits, entry);
  }

  /** Every protocol step by any other run is within what a run relies on, whatever its worker's name. */
  lemma StepsEvolve(w: World, s: Step, me: nat)
    requires Apply(w, s).Some?
    requires s.RollUp? || s.MoreBatch? || s.Release? ==> s.id != me
    ensures var w' := Apply(w, s).value; EvolvesWithout(me, w.db, w.past, w'.db, w'.past)
  {
    hide WorkOf, Evolves;
    var w' := Apply(w, s).value;
    if s.RollUp? {
      var run := w.runs[s.id];
      var day := run.phase.todo[0];
      CommitAdds(w.past, Commit(s.id, day, true, s.doomed));
      if DayTransaction(w.db, run.worker, run.leaseMs, s.at, s.again, day, run.now, s.doomed).Some? {
        DayTransactionEvolves(w.db, w.past, run.worker, run.leaseMs, s.at, s.again, run.now,
                              Commit(s.id, day, true, s.doomed));
      } else {
        EvolvesReflexive(w.db, w.past);
      }
    } else if s.MoreBatch? {
      var run := w.runs[s.id];
      var entry := Commit(s.id, run.phase.day, false, s.doomed);
      CommitAdds(w.past, entry);
      if BatchTransaction(w.db, run.worker, run.leaseMs, s.at, s.again, s.doomed).Some? {
        BatchTransactionEvolves(w.db, w.past, run.worker, run.leaseMs, s.at, s.again, entry);
      } else {
        EvolvesReflexive(w.db, w.past);
      }
    } else if s.Release? {
      ReleaseAdds(w.past, Released(s.id, s.at, w.runs[s.id].phase.completed));
      OtherStepsEvolve(w, s);
    } else if IsQuiet(s) {
      QuietStepChanges(w, s);
      OtherStepsEvolve(w, s);
    } else {
      SameLogs(w.past, w'.past, me);
      OtherStepsEvolve(w, s);
    }
  }

  lemma OtherStepsEvolve(w: World, s: Step)
    requires Apply(w, s).Some? && !s.RollUp? && !s.MoreBatch?
    ensures var w' := Apply(w, s).value; Evolves(w.db, w.past, w'.db, w'.past)
  {
  }
}

/** `packages/db/src/traffic-rollup.js` as it runs: statements against a shared store. */
module TrafficRollup {
  import opened Prelude
  import opened TrafficTotals
  import opened TrafficProtocol
  import opened TrafficEvolution

  datatype TxResult = Committed(deleted: nat) | LeaseLost | Faulted
  datatype DayEnd = Done | Lost | Failed

  /** How a run ended: refused arguments, a returned summary, or a rethrown failure. */
  datatype RunEnd = Refused | Returned | Threw

  class RollupSummary {
    var claimed: bool
    var leaseLost: bool
    var days: nat
    var rowsPurged: nat
    var saltsDiscarded: nat

    constructor ()
      ensures !claimed && !leaseLost && days == 0 && rowsPurged == 0 && saltsDiscarded == 0
    {
      claimed, leaseLost, days, rowsPurged, saltsDiscarded := false, false, 0, 0, 0;
    }
  }

  /** `workerId.trim().length === 0`. */
  predicate IsBlank(name: string) { forall c :: c in name ==> IsSpace(c) }

  /** Any reading at all: nothing here relies on what a worker's clock says. */
  method ReadClock() returns (at: Instant) {
    at := *;
  }

  /** The days listed, in ascending order. */
  method SortDays(days: set<Day>) returns (listed: seq<Day>)
    ensures forall i, j :: 0 <= i < j < |listed| ==> listed[i] < listed[j]
    ensures forall d :: d in listed <==> d in days
  {
    var rest := days;
    listed := [];
    while rest != {}
      invariant rest <= days
      invariant forall d :: d in listed <==> d in days && d !in rest
      invariant forall i, j :: 0 <= i < j < |listed| ==> listed[i] < listed[j]
      invariant forall i, d :: 0 <= i < |listed| && d in rest ==> listed[i] < d
      decreases rest
    {
      var first := Least(rest);
      listed, rest := listed + [first], rest - {first};
    }
  }

  method Least(days: set<Day>) returns (least: Day)
    requires days != {}
    ensures least in days && forall d :: d in days ==> least <= d
  {
    ghost var someDay := Member(days);
    least :| least in days;
    var rest := days - {least};
    while rest != {}
      invariant least in days && rest <= days
      invariant forall d :: d in days && d !in rest ==> least <= d
      decreases rest
    {
      ghost var another := Member(rest);
      var d :| d in rest;
      least, rest := if d < least then d else least, rest - {d};
    }
  }

  /** What a run has left to purge does not grow, whoever works next. */
  lemma LeftForStays(a: Db, p: Past, b: Db, q: Past, now: Instant, days: seq<Day>)
    requires LeftFor(a.raw, now, days) && now <= p.wall && Evolves(a, p, b, q)
    ensures LeftFor(b.raw, now, days)
  {
    forall r | r in b.raw && Purgeable(r.day, now) ensures r.day in days {
      PurgeableIffSumsFinal(r.day, now, Sums({}));
    }
  }

  /** A finished day is left no more. */
  lemma DayDone(raw: set<RawRow>, now: Instant, days: seq<Day>, i: nat)
    requires i < |days| && LeftFor(raw, now, days[i..])
    requires Purgeable(days[i], now) ==> OnDay(raw, days[i]) == {}
    ensures LeftFor(raw, now, days[i + 1..])
  {
    forall r | r in raw && Purgeable(r.day, now) ensures r.day in days[i + 1..] {
      assert r in OnDay(raw, r.day);
      assert days[i..] == [days[i]] + days[i + 1..];
    }
  }

  /** Every row that was raw all along is of a listed day. */
  ghost predicate CoversLasting(before: set<RawRow>, raw: set<RawRow>, days: seq<Day>) {
    forall r :: r in before && r in raw ==> r.day in days
  }

  /** A row there at the start and at the end was there when the days were listed. */
  lemma LastingListed(before: Db, p: Past, listed: Db, q: Past, after: Db, r: Past, days: seq<Day>)
    requires Accounted(before.raw, p) && Accounted(listed.raw, q) && Accounted(after.raw, r)
    requires Evolves(before, p, listed, q) && Evolves(listed, q, after, r) && IsDayList(listed.raw, days)
    ensures CoversLasting(before.raw, after.raw, days)
  {
    forall x | x in before.raw && x in after.raw ensures x.day in days {
      assert x in listed.raw;
      assert x in OnDay(listed.raw, x.day);
    }
  }

  lemma StoreAccounts(totals: Totals, raw: set<RawRow>, past: Past)
    requires StoreInv(raw, totals, past)
    ensures Accounted(raw, past)
  {
  }

  /** The days listed are all the days a run could purge. */
  lemma ListedAreLeft(raw: set<RawRow>, now: Instant, days: seq<Day>)
    requires IsDayList(raw, days)
    ensures LeftFor(raw, now, days)
  {
    forall r | r in raw ensures r.day in days { assert r in OnDay(raw, r.day); }
  }

  function After(work: Work, entry: Commit): Work {
    Work(work.summed + (if entry.summed then [entry.day] else []), work.deleted + |entry.rows|, work.releases)
  }

  lemma BatchIsOfDay(raw: set<RawRow>, day: Day, batchRows: nat, doomed: set<RawRow>)
    requires IsPurgeBatch(raw, day, batchRows, doomed)
    ensures doomed <= OnDay(raw, day)
  {
  }

  lemma SaltsEvolve(db: Db, past: Past, salts: set<Day>)
    ensures Evolves(db, past, db.(salts := salts), past)
  {
  }

  lemma PartsOf(whole: set<Day>, part: set<Day>)
    requires part <= whole
    ensures |part| == |whole| - |whole - part|
  {
    assert whole == part + (whole - part);
  }

  predicate NoneCompleted(releases: seq<Released>) {
    |releases| <= 1 && forall r :: r in releases ==> !r.completed
  }

  /** The completion is recorded; or nothing was released, because the lease is not under this name any more. */
  ghost predicate CompletedOrGone(releases: seq<Released>, me: nat, worker: string, db: Db) {
    if releases == [] then db.leaseOwner != Some(worker)
    else
      |releases| == 1 && releases[0] == Released(me, releases[0].at, true)
      && db.lastCompletedAt == Some(releases[0].at) && db.leaseOwner == None
  }

  class TrafficStore {
    var raw: set<RawRow>
    var totals: Totals
    var leaseOwner: Option<string>
    var leaseExpiresAt: Option<Instant>
    var lastCompletedAt: Option<Instant>
    var salts: set<Day>
    ghost var past: Past

    ghost function View(): Db
      reads this
    {
      Db(raw, totals, leaseOwner, leaseExpiresAt, lastCompletedAt, salts)
    }

    ghost predicate Valid()
      reads this
    {
      StoreInv(raw, totals, past) && lastCompletedAt == LastCompletion(past.releases)
    }

    /** Everything other clients may commit before this run's next statement. */
    method OtherClients(ghost me: nat)
      requires Valid()
      modifies this
      ensures Valid() && EvolvesWithout(me, old(View()), old(past), View(), past)
    {
    }

    /** The same, remembered from an earlier state on. */
    method OtherClientsSince(ghost me: nat, ghost start: Db, ghost pastStart: Past)
      requires Valid() && Evolves(start, pastStart, View(), past)
      modifies this
      ensures Valid() && Evolves(start, pastStart, View(), past)
      ensures Evolves(old(View()), old(past), View(), past)
      ensures WorkOf(past, me) == old(WorkOf(past, me))
    {
      hide StoreInv, Evolves, WorkOf;
      OtherClients(me);
      EvolvesTransitive(start, pastStart, old(View()), old(past), View(), past);
    }

    /** Whether the next statement fails: the connection, a timeout, a constraint. */
    method Faults() returns (fails: bool) {
      fails := *;
    }

    method ClaimTrafficRollupLease(workerId: string, leaseMs: nat) returns (claimed: bool, ghost at: Instant)
      requires Valid()
      modifies this
      ensures Valid() && past == old(past) && Evolves(old(View()), old(past), View(), past)
      ensures claimed <==> !(old(leaseExpiresAt).Some? && at <= old(leaseExpiresAt).value)
      ensures claimed ==> leaseOwner == Some(workerId) && leaseExpiresAt == Some(at + leaseMs)
      ensures claimed <==> ClaimLease(old(View()), workerId, at, leaseMs).Some?
      ensures View() == if claimed then ClaimLease(old(View()), workerId, at, leaseMs).value else old(View())
    {
      var now := ReadClock();
      at := now;
      claimed := leaseExpiresAt.None? || leaseExpiresAt.value < now;
      if claimed {
        leaseOwner, leaseExpiresAt := Some(workerId), Some(now + leaseMs);
      }
    }

    method ReleaseTrafficRollupLease(ghost me: nat, workerId: string, completed: bool)
      returns (released: bool, ghost at: Instant)
      requires Valid()
      modifies this
      ensures Valid() && Evolves(old(View()), old(past), View(), past)
      ensures released <==> ReleaseLease(old(View()), workerId, completed, at).Some?
      ensures released ==>
        && View() == ReleaseLease(old(View()), workerId, completed, at).value
        && past == old(past).(releases := old(past).releases + [Released(me, at, completed)])
        && WorkOf(past, me)
           == old(WorkOf(past, me)).(releases := old(WorkOf(past, me)).releases + [Released(me, at, completed)])
      ensures !released ==> View() == old(View()) && past == old(past)
    {
      hide StoreInv, WorkOf;
      var now := ReadClock();
      at := now;
      released := leaseOwner == Some(workerId);
      if released {
        ReleaseAdds(past, Released(me, at, completed));
        ReleaseKeepsStore(totals, raw, past, past.releases + [Released(me, at, completed)]);
        leaseOwner, leaseExpiresAt := None, None;
        if completed {
          lastCompletedAt := Some(now);
        }
        past := past.(releases := past.releases + [Released(me, at, completed)]);
      }
    }

    /** `LIMIT rows` of the day's rows, whichever the planner finds first. */
    method PickBatch(day: Day, rows: nat) returns (doomed: set<RawRow>)
      ensures IsPurgeBatch(raw, day, rows, doomed)
    {
      doomed := {};
      var rest := OnDay(raw, day);
      while |doomed| < rows && rest != {}
        invariant doomed !! rest && doomed + rest == OnDay(raw, day)
        invariant |doomed| <= rows
        decreases rest
      {
        var r :| r in rest;
        doomed, rest := doomed + {r}, rest - {r};
      }
      assert rest == {} ==> doomed == OnDay(raw, day);
      assert |OnDay(raw, day)| == |doomed| + |rest|;
    }

    /** A day's first transaction: renew, recompute and, for an old day, delete the first batch. */
    method RollUpTransaction(
      ghost me: nat, workerId: string, leaseMs: nat, day: Day, now: Instant, purge: bool, batchRows: nat)
      returns (result: TxResult, ghost at: Instant, ghost again: Instant, ghost entry: Commit)
      requires Valid() && now <= past.wall && purge == Purgeable(day, now)
      modifies this
      ensures Valid() && Evolves(old(View()), old(past), View(), past)
      ensures entry == Commit(me, day, true, entry.rows) && MayDelete(old(raw), day, now, batchRows, entry.rows)
      ensures result.Committed? ==>
        && DayTransaction(old(View()), workerId, leaseMs, at, again, day, now, entry.rows) == Some(View())
        && result.deleted == |entry.rows|
        && past == old(past).(commits := old(past).commits + [entry])
        && WorkOf(past, me) == After(old(WorkOf(past, me)), entry)
        && (purge ==> Settled(totals, past.written, day))
        && (purge && |entry.rows| < batchRows ==> OnDay(raw, day) == {})
      ensures result.LeaseLost? ==>
        DayTransaction(old(View()), workerId, leaseMs, at, again, day, now, entry.rows).None?
      ensures !result.Committed? ==> View() == old(View()) && past == old(past)
    {
      hide StoreInv, Evolves, Settled, IsPurgeBatch, RollUpTrafficDay, WorkOf;
      EvolvesReflexive(View(), past);
      entry := Commit(me, day, true, {});
      var batch := {};
      if purge {
        batch := PickBatch(day, batchRows);
      }
      entry := entry.(rows := batch);
      var readAt := ReadClock();
      var readAgain := ReadClock();
      at, again := readAt, readAgain;
      if !(leaseOwner == Some(workerId) && leaseExpiresAt.Some? && readAt < leaseExpiresAt.value) {
        return LeaseLost, at, again, entry;
      }
      var fails := Faults();
      if fails {
        return Faulted, at, again, entry;
      }
      RollUpKeepsStore(totals, raw, past, day, now);
      var summed := RollUpTrafficDay(totals, raw, day, now);
      DayTransactionEvolves(View(), past, workerId, leaseMs, at, again, now, entry);
      if purge && |batch| < batchRows {
        ShortBatchEmptiesDay(raw, day, batchRows, batch);
      }
      BatchWithin(raw, day, now, batchRows, batch);
      CommitKeepsStore(summed, raw, past, entry);
      CommitAdds(past, entry);
      leaseExpiresAt := Some(readAgain + leaseMs);
      totals := summed;
      raw := raw - batch;
      past := past.(commits := past.commits + [entry]);
      result := Committed(|batch|);
    }

    /** A busy day's later transaction: renew, then delete the next batch. */
    method BatchTransactionOf(ghost me: nat, workerId: string, leaseMs: nat, day: Day, batchRows: nat)
      returns (result: TxResult, ghost at: Instant, ghost again: Instant, ghost entry: Commit)
      requires Valid() && Settled(totals, past.written, day)
      modifies this
      ensures Valid() && Evolves(old(View()), old(past), View(), past)
      ensures entry == Commit(me, day, false, entry.rows) && IsPurgeBatch(old(raw), day, batchRows, entry.rows)
      ensures result.Committed? ==>
        && BatchTransaction(old(View()), workerId, leaseMs, at, again, entry.rows) == Some(View())
        && result.deleted == |entry.rows|
        && past == old(past).(commits := old(past).commits + [entry])
        && WorkOf(past, me) == After(old(WorkOf(past, me)), entry)
        && Settled(totals, past.written, day)
        && |OnDay(raw, day)| == old(|OnDay(raw, day)|) - |entry.rows|
      ensures result.LeaseLost? ==>
        BatchTransaction(old(View()), workerId, leaseMs, at, again, entry.rows).None?
      ensures !result.Committed? ==> View() == old(View()) && past == old(past)
    {
      hide StoreInv, Evolves, Settled, IsPurgeBatch, RollUpTrafficDay, WorkOf;
      EvolvesReflexive(View(), past);
      var batch := PickBatch(day, batchRows);
      entry := Commit(me, day, false, batch);
      var readAt := ReadClock();
      var readAgain := ReadClock();
      at, again := readAt, readAgain;
      if !(leaseOwner == Some(workerId) && leaseExpiresAt.Some? && readAt < leaseExpiresAt.value) {
        return LeaseLost, at, again, entry;
      }
      var fails := Faults();
      if fails {
        return Faulted, at, again, entry;
      }
      ghost var held := RenewLease(View(), workerId, at, again, leaseMs).value;
      BatchIsOfDay(raw, day, batchRows, batch);
      CommitKeepsStore(totals, raw, past, entry);
      CommitAdds(past, entry);
      BatchTransactionEvolves(View(), past, workerId, leaseMs, at, again, entry);
      assert OnDay(raw - batch, day) == OnDay(raw, day) - batch;
      leaseExpiresAt := Some(readAgain + leaseMs);
      raw := raw - batch;
      past := past.(commits := past.commits + [entry]);
      assert View() == held.(raw := held.raw - batch);
      result := Committed(|batch|);
    }

    /**
     * Add one day up and, when it is old enough, purge it batch by batch.
     *
     * Whatever other clients do between its transactions, and however it ends, the summary grows by exactly
     * the rows its committed transactions deleted; and a day it finishes has been added up once and, when
     * purgeable, has no raw row.
     */
    method RollUpAndPurgeDay(
      ghost me: nat, workerId: string, leaseMs: nat, day: Day, now: Instant, purge: bool, batchRows: nat,
      summary: RollupSummary)
      returns (end: DayEnd)
      requires Valid() && now <= past.wall && purge == Purgeable(day, now) && batchRows > 0
      modifies this, summary`rowsPurged
      ensures Valid() && Evolves(old(View()), old(past), View(), past)
      ensures summary.rowsPurged - old(summary.rowsPurged) == WorkOf(past, me).deleted - old(WorkOf(past, me).deleted)
      ensures WorkOf(past, me).releases == old(WorkOf(past, me).releases)
      ensures end == Done ==> WorkOf(past, me).summed == old(WorkOf(past, me).summed) + [day]
      ensures end == Done && purge ==> OnDay(raw, day) == {} && Settled(totals, past.written, day)
    {
      hide StoreInv, Evolves, Settled, WorkOf, DayTransaction, BatchTransaction;
      OtherClients(me);
      EvolvesForward(old(View()), old(past), View(), past);
      ghost var begun, pastBegun := View(), past;
      var result, _, _, _ := RollUpTransaction(me, workerId, leaseMs, day, now, purge, batchRows);
      EvolvesTransitive(old(View()), old(past), begun, pastBegun, View(), past);
      EvolvesForward(old(View()), old(past), View(), past);
      if !result.Committed? {
        return if result.LeaseLost? then Lost else Failed;
      }
      var deleted := result.deleted;
      summary.rowsPurged := summary.rowsPurged + deleted;
      while purge && deleted >= batchRows
        invariant Valid() && now <= past.wall && Evolves(old(View()), old(past), View(), past)
        invariant summary.rowsPurged - old(summary.rowsPurged)
               == WorkOf(past, me).deleted - old(WorkOf(past, me).deleted)
        invariant WorkOf(past, me).releases == old(WorkOf(past, me).releases)
        invariant WorkOf(past, me).summed == old(WorkOf(past, me).summed) + [day]
        invariant purge ==> Settled(totals, past.written, day)
        invariant purge && deleted < batchRows ==> OnDay(raw, day) == {}
        decreases |OnDay(raw, day)|, if purge && deleted >= batchRows then 1 else 0
      {
        ghost var before, pastBefore := View(), past;
        OtherClients(me);
        EvolvesForward(before, pastBefore, View(), past);
        PurgeableIffSumsFinal(day, now, Sums({}));
        OldDaysStay(before, pastBefore, View(), past, day);
        EvolvesTransitive(old(View()), old(past), before, pastBefore, View(), past);
        ghost var between, pastBetween := View(), past;
        var batch, _, _, _ := BatchTransactionOf(me, workerId, leaseMs, day, batchRows);
        if !batch.Committed? {
          return if batch.LeaseLost? then Lost else Failed;
        }
        EvolvesTransitive(old(View()), old(past), between, pastBetween, View(), past);
        EvolvesForward(between, pastBetween, View(), past);
        deleted := batch.deleted;
        summary.rowsPurged := summary.rowsPurged + deleted;
      }
      end := Done;
    }

    /** `SELECT DISTINCT "day" … ORDER BY 1`. */
    method ListDays() returns (days: seq<Day>)
      ensures IsDayList(raw, days)
      ensures forall i, j :: 0 <= i < j < |days| ==> days[i] < days[j]
      ensures forall d :: d in days <==> exists r :: r in raw && r.day == d
    {
      var held := set r | r in raw :: r.day;
      days := SortDays(held);
      forall d ensures d in days <==> OnDay(raw, d) != {} {
        if d in days {
          var r :| r in raw && r.day == d;
          assert r in OnDay(raw, d);
        }
        assert forall r :: r in OnDay(raw, d) ==> r.day in held;
      }
    }

    method DiscardSalts(today: Day) returns (discarded: nat)
      requires Valid()
      modifies this`salts
      ensures Valid() && Evolves(old(View()), old(past), View(), past)
      ensures View() == old(View()).(salts := salts)
      ensures forall d :: d in salts <==> d in old(salts) && today <= d
      ensures discarded == |old(salts)| - |salts|
    {
      hide StoreInv, Evolves;
      var over := set d | d in salts && d < today;
      SaltsEvolve(View(), past, salts - over);
      PartsOf(salts, over);
      discarded := |over|;
      salts := salts - over;
    }

    /**
     * One whole run, against any behaviour of everybody else.
     *
     * However it ends, `rowsPurged` is exactly what its committed transactions deleted. A run that did not get
     * the lease, lost it or failed records no completion. A run that returns otherwise has added up the day of
     * every row that was there throughout, has left nothing it may purge, and recorded its completion unless
     * its last statement found the lease under another name.
     */
    method RunTrafficRollup(ghost me: nat, workerId: string, now: Instant, leaseMs: int, purgeBatchRows: int)
      returns (end: RunEnd, summary: RollupSummary)
      requires Valid() && now <= past.wall && WorkOf(past, me) == Work([], 0, [])
      modifies this
      ensures fresh(summary)
      ensures Valid() && Evolves(old(View()), old(past), View(), past)
      ensures end == Refused <==> (forall c :: c in workerId ==> IsSpace(c)) || leaseMs <= 0 || purgeBatchRows <= 0
      ensures end == Refused ==> View() == old(View()) && past == old(past)
      ensures summary.rowsPurged == WorkOf(past, me).deleted
      ensures !summary.claimed ==> WorkOf(past, me) == Work([], 0, []) && summary.days == 0
      ensures summary.leaseLost ==>
        end == Returned && summary.claimed && WorkOf(past, me).releases == [] && summary.saltsDiscarded == 0
      ensures end == Threw ==> NoneCompleted(WorkOf(past, me).releases)
      ensures end == Returned && summary.claimed && !summary.leaseLost ==>
        && summary.days == |WorkOf(past, me).summed|
        && CoversLasting(old(raw), raw, WorkOf(past, me).summed)
        && PurgedThrough(View(), past, now)
        && CompletedOrGone(WorkOf(past, me).releases, me, workerId, View())
    {
      hide StoreInv, Evolves, Settled, WorkOf, IsDayList, LeftFor, PurgedThrough, CoversLasting, Accounted;
      summary := new RollupSummary();
      EvolvesReflexive(View(), past);
      if IsBlank(workerId) || leaseMs <= 0 || purgeBatchRows <= 0 {
        return Refused, summary;
      }
      ghost var start, pastStart := View(), past;
      StoreAccounts(totals, raw, past);
      OtherClientsSince(me, start, pastStart);
      var fails := Faults();
      if fails {
        return Threw, summary;
      }
      ghost var b, q := View(), past;
      var claimed, _ := ClaimTrafficRollupLease(workerId, leaseMs);
      EvolvesTransitive(start, pastStart, b, q, View(), past);
      if !claimed {
        return Returned, summary;
      }
      summary.claimed := true;
      OtherClientsSince(me, start, pastStart);
      fails := Faults();
      if fails {
        GiveBack(me, workerId, start, pastStart);
        return Threw, summary;
      }
      var days := ListDays();
      ghost var listed, pastListed := View(), past;
      StoreAccounts(totals, raw, past);
      ListedAreLeft(raw, now, days);
      EvolvesReflexive(View(), past);
      EvolvesForward(start, pastStart, View(), past);
      var failed := false;
      var i := 0;
      assert days[0..] == days;
      while i < |days|
        invariant 0 <= i <= |days|
        invariant Valid() && now <= past.wall && Evolves(listed, pastListed, View(), past)
        invariant summary.claimed && !summary.leaseLost && summary.saltsDiscarded == 0
        invariant summary.rowsPurged == WorkOf(past, me).deleted && WorkOf(past, me).releases == []
        invariant !failed ==>
          summary.days == i && WorkOf(past, me).summed == days[..i] && LeftFor(raw, now, days[i..])
      {
        b, q := View(), past;
        var dayEnd := RollUpAndPurgeDay(
          me, workerId, leaseMs, days[i], now, Purgeable(days[i], now), purgeBatchRows, summary);
        EvolvesForward(b, q, View(), past);
        EvolvesTransitive(listed, pastListed, b, q, View(), past);
        if dayEnd == Lost {
          summary.leaseLost := true;
          EvolvesTransitive(start, pastStart, listed, pastListed, View(), past);
          return Returned, summary;
        } else if dayEnd == Failed {
          failed := true;
        } else {
          summary.days := summary.days + 1;
          if !failed {
            LeftForStays(b, q, View(), past, now, days[i..]);
            DayDone(raw, now, days, i);
            assert days[..i + 1] == days[..i] + [days[i]];
          }
        }
        i := i + 1;
      }
      assert days[..i] == days && days[i..] == [];
      end := FinishRun(me, workerId, now, failed, summary, listed, pastListed);
      StoreAccounts(totals, raw, past);
      LastingListed(start, pastStart, listed, pastListed, View(), past, days);
      EvolvesTransitive(start, pastStart, listed, pastListed, View(), past);
    }

    /** The catch block's release: no completion, and its own failure is swallowed. */
    method GiveBack(ghost me: nat, workerId: string, ghost start: Db, ghost pastStart: Past)
      requires Valid() && Evolves(start, pastStart, View(), past) && WorkOf(past, me).releases == []
      modifies this
      ensures Valid() && Evolves(start, pastStart, View(), past)
      ensures WorkOf(past, me).summed == old(WorkOf(past, me).summed)
      ensures WorkOf(past, me).deleted == old(WorkOf(past, me).deleted)
      ensures NoneCompleted(WorkOf(past, me).releases)
    {
      hide StoreInv, Evolves, WorkOf;
      OtherClientsSince(me, start, pastStart);
      var fails := Faults();
      if !fails {
        ghost var b, q := View(), past;
        var _, _ := ReleaseTrafficRollupLease(me, workerId, false);
        EvolvesTransitive(start, pastStart, b, q, View(), past);
      }
    }

    /** After the last day: drop old salts, release, and report. */
    method FinishRun(
      ghost me: nat, workerId: string, now: Instant, failed: bool, summary: RollupSummary,
      ghost start: Db, ghost pastStart: Past)
      returns (end: RunEnd)
      requires Valid() && Evolves(start, pastStart, View(), past) && now <= past.wall
      requires WorkOf(past, me).releases == []
      requires !failed ==> LeftFor(raw, now, [])
      modifies this, summary`saltsDiscarded
      ensures Valid() && Evolves(start, pastStart, View(), past)
      ensures WorkOf(past, me).summed == old(WorkOf(past, me).summed)
      ensures WorkOf(past, me).deleted == old(WorkOf(past, me).deleted)
      ensures end != Refused && (failed ==> end == Threw)
      ensures end == Threw ==> NoneCompleted(WorkOf(past, me).releases)
      ensures end == Returned ==>
        && PurgedThrough(View(), past, now)
        && CompletedOrGone(WorkOf(past, me).releases, me, workerId, View())
    {
      hide StoreInv, Evolves, Settled, WorkOf, LeftFor, PurgedThrough;
      ghost var a, p := View(), past;
      OtherClientsSince(me, start, pastStart);
      EvolvesForward(a, p, View(), past);
      if !failed { LeftForStays(a, p, View(), past, now, []); }
      var fails := Faults();
      if fails {
        GiveBack(me, workerId, start, pastStart);
        return Threw;
      }
      ghost var b, q := View(), past;
      var discarded := DiscardSalts(UtcDay(now));
      EvolvesTransitive(start, pastStart, b, q, View(), past);
      summary.saltsDiscarded := discarded;
      b, q := View(), past;
      OtherClientsSince(me, start, pastStart);
      EvolvesForward(b, q, View(), past);
      if !failed { LeftForStays(b, q, View(), past, now, []); }
      fails := Faults();
      if fails {
        return Threw;
      }
      b, q := View(), past;
      var released, _ := ReleaseTrafficRollupLease(me, workerId, !failed);
      EvolvesTransitive(start, pastStart, b, q, View(), past);
      if !failed {
        LeftForStays(b, q, View(), past, now, []);
        NothingLeft(View(), past, now);
      }
      end := if failed then Threw else Returned;
    }
  }
}
