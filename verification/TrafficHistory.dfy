/** What holds over whole histories of the roll-up protocol. */
module TrafficHistory {
  import opened Prelude
  import opened TrafficTotals
  import opened TrafficProtocol

  /** A run of the whole system: any interleaving of steps from an empty database. */
  ghost predicate IsHistory(ws: seq<World>, ss: seq<Step>) {
    && |ws| == |ss| + 1
    && Initial(ws[0])
    && forall i :: 0 <= i < |ss| ==> Apply(ws[i], ss[i]) == Some(ws[i + 1])
  }

  lemma {:induction false} InvHolds(ws: seq<World>, ss: seq<Step>, i: nat)
    requires IsHistory(ws, ss) && i < |ws|
    ensures Inv(ws[i])
  {
    if i > 0 {
      InvHolds(ws, ss, i - 1);
      assert Apply(ws[i - 1], ss[i - 1]) == Some(ws[i]);
      StepKeeps(ws[i - 1], ss[i - 1]);
    }
  }

  // ---- Counting -----------------------------------------------------------

  /**
   * Purged implies counted. Once any raw row of a day has been deleted, every
   * event with a row ever written for that day has stored totals, and they are
   * the sums over every row ever written for it.
   */
  lemma PurgedImpliesCounted(ws: seq<World>, ss: seq<Step>, i: nat, gone: RawRow, row: RawRow)
    requires IsHistory(ws, ss) && i < |ws|
    requires gone in ws[i].past.written && gone !in ws[i].db.raw
    requires row in ws[i].past.written && row.day == gone.day
    ensures var key := (row.eventId, row.day); var db := ws[i].db;
            && key in db.totals && !db.totals[key].demonstration
            && db.totals[key].figures == Sums(Of(ws[i].past.written, row.eventId, row.day))
  {
    InvHolds(ws, ss, i);
    assert gone in Gone(ws[i].past.commits);
    assert Settled(ws[i].db.totals, ws[i].past.written, gone.day);
    assert HasFinal(ws[i].db.totals, row.eventId, row.day);
  }

  /** No step changes final totals, whatever business instant the run doing it was given. */
  lemma StepKeepsFinals(w: World, s: Step, e: string, d: Day)
    requires Apply(w, s).Some? && HasFinal(w.db.totals, e, d)
    ensures var totals' := Apply(w, s).value.db.totals;
            HasFinal(totals', e, d) && totals'[(e, d)] == w.db.totals[(e, d)]
  {
    if IsQuiet(s) {
      QuietStepChanges(w, s);
    } else if s.RollUp? {
      var day, now := w.runs[s.id].phase.todo[0], w.runs[s.id].now;
      FinalsKept(w.db.totals, w.db.raw, day, now, e, d);
    }
  }

  /** Final totals are immutable: later states hold the same row, bit for bit. */
  lemma {:induction false} FinalTotalsNeverChange(ws: seq<World>, ss: seq<Step>, i: nat, j: nat, e: string, d: Day)
    requires IsHistory(ws, ss) && i <= j < |ws| && HasFinal(ws[i].db.totals, e, d)
    ensures HasFinal(ws[j].db.totals, e, d) && ws[j].db.totals[(e, d)] == ws[i].db.totals[(e, d)]
    decreases j
  {
    if i < j {
      FinalTotalsNeverChange(ws, ss, i, j - 1, e, d);
      assert Apply(ws[j - 1], ss[j - 1]) == Some(ws[j]);
      StepKeepsFinals(ws[j - 1], ss[j - 1], e, d);
    }
  }

  // ---- Completions --------------------------------------------------------

  /**
   * The recorded completion changes only when a run that finished every day it listed gives the lease back:
   * it has added up each of them, and nothing old enough for it to purge is left or uncounted.
   */
  lemma CompletionMeansDone(ws: seq<World>, ss: seq<Step>, k: nat)
    requires IsHistory(ws, ss) && k < |ss| && ws[k + 1].db.lastCompletedAt != ws[k].db.lastCompletedAt
    ensures ss[k].Release? && ss[k].id in ws[k].runs
    ensures var run := ws[k].runs[ss[k].id];
            && run.phase == Closing(true)
            && ws[k + 1].db.lastCompletedAt == Some(ss[k].at)
            && WorkOf(ws[k].past, ss[k].id).summed == run.listed
            && PurgedThrough(ws[k + 1].db, ws[k + 1].past, run.now)
  {
    InvHolds(ws, ss, k);
    InvHolds(ws, ss, k + 1);
    hide StoreInv, WorkOf, PurgedThrough;
    var w, s := ws[k], ss[k];
    assert Apply(w, s) == Some(ws[k + 1]);
    OnlyReleaseCompletes(w, s);
    assert RunInv(w, s.id);
    NothingLeft(ws[k + 1].db, ws[k + 1].past, w.runs[s.id].now);
  }

  lemma OnlyReleaseCompletes(w: World, s: Step)
    requires Apply(w, s).Some? && Apply(w, s).value.db.lastCompletedAt != w.db.lastCompletedAt
    ensures s.Release? && s.id in w.runs && w.runs[s.id].phase == Closing(true)
    ensures Apply(w, s).value.db == ReleaseLease(w.db, w.runs[s.id].worker, true, s.at).value
  {
  }

  /** A statement of the run has failed before step `k`. */
  ghost predicate HasFailed(ss: seq<Step>, id: nat, k: nat) { exists m :: 0 <= m < k <= |ss| && ss[m] == Fault(id) }

  /** The run knows of its failure just when it has one. */
  ghost predicate KnowsFailure(phase: Phase, failed: bool) {
    match phase
    case Looping(_, f) => f == failed
    case Batching(_, _, f) => f == failed
    case Closing(completed) => completed == !failed
    case Waiting => !failed
    case Listing => !failed
    case Over => true
  }

  lemma {:induction false} FailuresKnown(ws: seq<World>, ss: seq<Step>, k: nat, id: nat)
    requires IsHistory(ws, ss) && k < |ws|
    ensures id in ws[k].runs ==> KnowsFailure(ws[k].runs[id].phase, HasFailed(ss, id, k))
    ensures id !in ws[k].runs ==> !HasFailed(ss, id, k)
  {
    if k > 0 {
      var w, s := ws[k - 1], ss[k - 1];
      FailuresKnown(ws, ss, k - 1, id);
      assert Apply(w, s) == Some(ws[k]);
      assert HasFailed(ss, id, k) <==> HasFailed(ss, id, k - 1) || s == Fault(id) by {
        if s == Fault(id) { assert ss[k - 1] == Fault(id); }
      }
      hide HasFailed;
      FailureStep(w, s, id, HasFailed(ss, id, k - 1));
    }
  }

  lemma FailureStep(w: World, s: Step, id: nat, failed: bool)
    requires Apply(w, s).Some?
    requires if id in w.runs then KnowsFailure(w.runs[id].phase, failed) else !failed
    ensures var w' := Apply(w, s).value;
            if id in w'.runs then KnowsFailure(w'.runs[id].phase, failed || s == Fault(id))
            else !(failed || s == Fault(id))
  {
  }

  /** A run that gives its own lease back records a completion exactly when none of its statements failed. */
  lemma CompletionExact(ws: seq<World>, ss: seq<Step>, k: nat)
    requires IsHistory(ws, ss) && k < |ss| && ss[k].Release? && Commits(ws[k], ss[k], ss[k].id)
    ensures ws[k + 1].db.lastCompletedAt
            == if HasFailed(ss, ss[k].id, k) then ws[k].db.lastCompletedAt else Some(ss[k].at)
  {
    assert Apply(ws[k], ss[k]) == Some(ws[k + 1]);
    FailuresKnown(ws, ss, k, ss[k].id);
    hide HasFailed;
  }

  // ---- Fencing ------------------------------------------------------------

  /** The step commits work of run `id` under the lease: a roll-up, a purge batch or a release. */
  ghost predicate Commits(w: World, s: Step, id: nat) {
    && id in w.runs
    && match s
       case RollUp(i, at, again, _) =>
         i == id && RenewLease(w.db, w.runs[id].worker, at, again, w.runs[id].leaseMs).Some?
       case MoreBatch(i, at, again, _) =>
         i == id && RenewLease(w.db, w.runs[id].worker, at, again, w.runs[id].leaseMs).Some?
       case Release(i, at) =>
         i == id && ReleaseLease(w.db, w.runs[id].worker, false, at).Some?
       case _ => false
  }

  /** A successful claim by run `id`. */
  ghost predicate Claims(w: World, s: Step, id: nat) {
    && s.Claim? && s.id == id && id in w.runs && w.runs[id].phase.Waiting?
    && ClaimLease(w.db, w.runs[id].worker, s.at, w.runs[id].leaseMs).Some?
  }

  /** A successful claim by some run of this worker name. */
  ghost predicate ClaimsUnder(w: World, s: Step, worker: string) {
    s.Claim? && Claims(w, s, s.id) && w.runs[s.id].worker == worker
  }

  ghost predicate NoClaimUnder(ws: seq<World>, ss: seq<Step>, i: nat, k: nat, worker: string)
    requires |ss| <= |ws| && k <= |ss|
  {
    forall m :: i <= m < k ==> !ClaimsUnder(ws[m], ss[m], worker)
  }

  /** The run has had its claim and the lease is not under its name any more. */
  ghost predicate Fenced(w: World, id: nat) {
    id in w.runs && !w.runs[id].phase.Waiting? && w.db.leaseOwner != Some(w.runs[id].worker)
  }

  lemma RunsPersist(w: World, s: Step, id: nat)
    requires Apply(w, s).Some? && id in w.runs
    ensures var w' := Apply(w, s).value;
            && id in w'.runs
            && w'.runs[id].worker == w.runs[id].worker
            && (!w.runs[id].phase.Waiting? ==> !w'.runs[id].phase.Waiting?)
  {
  }

  lemma OwnerChanges(w: World, s: Step)
    requires Apply(w, s).Some?
    ensures var w' := Apply(w, s).value;
            w'.db.leaseOwner
            == if s.Claim? && Claims(w, s, s.id) then Some(w.runs[s.id].worker)
               else if s.Release? && Commits(w, s, s.id) then None
               else w.db.leaseOwner
  {
  }

  /** A fenced run stays fenced until somebody claims under its name, whatever any worker's clock reads. */
  lemma FenceHolds(w: World, s: Step, id: nat)
    requires Apply(w, s).Some? && Fenced(w, id)
    ensures !Commits(w, s, id)
    ensures !ClaimsUnder(w, s, w.runs[id].worker) ==> Fenced(Apply(w, s).value, id)
  {
    RunsPersist(w, s, id);
    OwnerChanges(w, s);
  }

  lemma {:induction false} FencedUntil(ws: seq<World>, ss: seq<Step>, i: nat, k: nat, id: nat)
    requires IsHistory(ws, ss) && i <= k <= |ss| && Fenced(ws[i], id)
    requires NoClaimUnder(ws, ss, i, k, ws[i].runs[id].worker)
    ensures Fenced(ws[k], id) && ws[k].runs[id].worker == ws[i].runs[id].worker
    decreases k
  {
    if i < k {
      hide Fenced, ClaimsUnder;
      var last := k - 1;
      FencedUntil(ws, ss, i, last, id);
      StepTaken(ws, ss, last);
      assert !ClaimsUnder(ws[last], ss[last], ws[i].runs[id].worker);
      hide IsHistory, NoClaimUnder;
      FencedIsRun(ws[last], id);
      FenceHolds(ws[last], ss[last], id);
      RunsPersist(ws[last], ss[last], id);
    }
  }

  lemma StepTaken(ws: seq<World>, ss: seq<Step>, k: nat)
    requires IsHistory(ws, ss) && k < |ss|
    ensures Apply(ws[k], ss[k]) == Some(ws[k + 1])
  {
  }

  lemma FencedIsRun(w: World, id: nat)
    requires Fenced(w, id)
    ensures id in w.runs
  {
  }

  /**
   * Lease fencing. Once a claim under another name has succeeded, a run that had claimed before it commits no
   * roll-up, no purge batch and no release, unless and until some run claims under the earlier one's name.
   */
  lemma ClaimFencesEarlierRuns(ws: seq<World>, ss: seq<Step>, j: nat, k: nat, earlier: nat, later: nat)
    requires IsHistory(ws, ss) && j < k < |ss|
    requires earlier in ws[j].runs && !ws[j].runs[earlier].phase.Waiting?
    requires Claims(ws[j], ss[j], later) && ws[j].runs[later].worker != ws[j].runs[earlier].worker
    requires NoClaimUnder(ws, ss, j + 1, k, ws[j].runs[earlier].worker)
    ensures !Commits(ws[k], ss[k], earlier)
  {
    assert Apply(ws[j], ss[j]) == Some(ws[j + 1]);
    RunsPersist(ws[j], ss[j], earlier);
    FencedUntil(ws, ss, j + 1, k, earlier);
    assert Apply(ws[k], ss[k]) == Some(ws[k + 1]);
    FenceHolds(ws[k], ss[k], earlier);
  }

  /**
   * Committed steps under different names form contiguous blocks: after another's commit a run commits again
   * only when there has been a claim under its name in between.
   */
  lemma CommittedBlocks(ws: seq<World>, ss: seq<Step>, i: nat, j: nat, k: nat, one: nat, other: nat)
    requires IsHistory(ws, ss) && i < j < k < |ss|
    requires Commits(ws[i], ss[i], one) && Commits(ws[j], ss[j], other)
    requires ws[j].runs[other].worker != ws[i].runs[one].worker
    requires NoClaimUnder(ws, ss, j, k, ws[i].runs[one].worker)
    ensures !Commits(ws[k], ss[k], one)
  {
    StillClaimed(ws, ss, i, j, one);
    FencedUntil(ws, ss, j, k, one);
    assert Apply(ws[k], ss[k]) == Some(ws[k + 1]);
    FenceHolds(ws[k], ss[k], one);
  }

  lemma {:induction false} StillClaimed(ws: seq<World>, ss: seq<Step>, i: nat, j: nat, id: nat)
    requires IsHistory(ws, ss) && i < j < |ws| && Commits(ws[i], ss[i], id)
    ensures id in ws[j].runs && !ws[j].runs[id].phase.Waiting? && ws[j].runs[id].worker == ws[i].runs[id].worker
    decreases j
  {
    assert Apply(ws[j - 1], ss[j - 1]) == Some(ws[j]);
    if i + 1 < j {
      StillClaimed(ws, ss, i, j - 1, id);
    }
    RunsPersist(ws[j - 1], ss[j - 1], id);
  }

  /** A step that finds the lease gone keeps nothing and ends its run. */
  lemma LostLeaseKeepsNothing(w: World, s: Step)
    requires Apply(w, s).Some? && (s.RollUp? || s.MoreBatch?) && !Commits(w, s, s.id)
    ensures var w' := Apply(w, s).value;
            w'.db == w.db && w'.past == w.past && w'.runs[s.id].phase == Over
  {
  }

  // ---- What an overtaken run still does ----------------------------------------

  /** A step that run `id` takes itself. */
  predicate IsOwnStep(s: Step, id: nat) { !IsOutside(s) && s.id == id }

  lemma FencedChangesIff(w: World, s: Step, id: nat)
    requires Apply(w, s).Some? && Fenced(w, id) && IsOwnStep(s, id)
    ensures Apply(w, s).value.db != w.db
            <==> s.DiscardSalts? && exists d :: d in w.db.salts && d < UtcDay(w.runs[id].now)
  {
  }

  /**
   * An overtaken run's own steps change the database in one way only, until some run claims under its name: they
   * delete salts, and just when there is one old enough.
   */
  lemma OvertakenChangesIff(ws: seq<World>, ss: seq<Step>, j: nat, k: nat, earlier: nat, later: nat)
    requires IsHistory(ws, ss) && j < k < |ss|
    requires earlier in ws[j].runs && !ws[j].runs[earlier].phase.Waiting?
    requires Claims(ws[j], ss[j], later) && ws[j].runs[later].worker != ws[j].runs[earlier].worker
    requires NoClaimUnder(ws, ss, j + 1, k, ws[j].runs[earlier].worker) && IsOwnStep(ss[k], earlier)
    ensures earlier in ws[k].runs
    ensures ws[k + 1].db != ws[k].db
            <==> ss[k].DiscardSalts? && exists d :: d in ws[k].db.salts && d < UtcDay(ws[k].runs[earlier].now)
  {
    assert Apply(ws[j], ss[j]) == Some(ws[j + 1]);
    RunsPersist(ws[j], ss[j], earlier);
    FencedUntil(ws, ss, j + 1, k, earlier);
    assert Apply(ws[k], ss[k]) == Some(ws[k + 1]);
    hide Apply, Claims;
    FencedChangesIff(ws[k], ss[k], earlier);
  }

  /** Fenced or not, no run deletes the salt of a day that is not over. */
  lemma TodaysSaltStays(ws: seq<World>, ss: seq<Step>, k: nat, d: Day)
    requires IsHistory(ws, ss) && k < |ss|
    requires d in ws[k].db.salts && d !in ws[k + 1].db.salts
    ensures d < UtcDay(ws[k].past.wall)
  {
    InvHolds(ws, ss, k);
    assert Apply(ws[k], ss[k]) == Some(ws[k + 1]);
    SaltStep(ws[k], ss[k], d);
  }

  lemma SaltStep(w: World, s: Step, d: Day)
    requires Inv(w) && Apply(w, s).Some? && d in w.db.salts && d !in Apply(w, s).value.db.salts
    ensures d < UtcDay(w.past.wall)
  {
    hide StoreInv, Progress, WorkOf;
    assert s.ClearSalts? || s.DiscardSalts?;
    if s.DiscardSalts? {
      assert RunInv(w, s.id);
      LaterIsLater(w.runs[s.id].now, w.past.wall);
    }
  }

  lemma LaterIsLater(a: Instant, b: Instant)
    requires a <= b
    ensures UtcDay(a) <= UtcDay(b)
  {
  }

  function SaltRun(worker: string): Run { Run(worker, DAY_MS, 1, 1, [], Waiting) }

  function SaltSteps(): seq<Step> {
    [MakeSalt(0), Start(0, SaltRun("a")), Claim(0, 0), ListDays(0, []), Start(1, SaltRun("b")), Claim(1, 5),
     DiscardSalts(0)]
  }

  function SaltDb(salts: set<Day>, owner: Option<string>, until: Option<Instant>): Db {
    Db({}, map[], owner, until, None, salts)
  }

  function SaltWorlds(): seq<World> {
    var past := Past({}, [], [], DAY_MS);
    var (a, b) := (SaltRun("a"), SaltRun("b"));
    var (done, listing) := (a.(phase := Looping([], false)), b.(phase := Listing));
    [World(SaltDb({}, None, None), past, map[]),
     World(SaltDb({0}, None, None), past, map[]),
     World(SaltDb({0}, None, None), past, map[0 := a]),
     World(SaltDb({0}, Some("a"), Some(1)), past, map[0 := a.(phase := Listing)]),
     World(SaltDb({0}, Some("a"), Some(1)), past, map[0 := done]),
     World(SaltDb({0}, Some("a"), Some(1)), past, map[0 := done, 1 := b]),
     World(SaltDb({0}, Some("b"), Some(6)), past, map[0 := done, 1 := listing]),
     World(SaltDb({}, Some("b"), Some(6)), past, map[0 := a.(phase := Closing(true)), 1 := listing])]
  }

  /** Reachable from an empty database: a run overtaken by another worker deletes a salt all the same. */
  lemma OvertakenRunDeletesSalt()
    ensures IsHistory(SaltWorlds(), SaltSteps())
    ensures Claims(SaltWorlds()[5], SaltSteps()[5], 1) && Fenced(SaltWorlds()[6], 0)
    ensures SaltWorlds()[7].db.salts != SaltWorlds()[6].db.salts
  {
    var ws, ss := SaltWorlds(), SaltSteps();
    forall i | 0 <= i < |ss| ensures Apply(ws[i], ss[i]) == Some(ws[i + 1]) {
      if i < 5 { EarlySalt(i); } else { LateSalt(i); }
    }
  }

  lemma EarlySalt(i: nat)
    requires i < 5
    ensures Apply(SaltWorlds()[i], SaltSteps()[i]) == Some(SaltWorlds()[i + 1])
  {
    var (a, b) := (SaltRun("a"), SaltRun("b"));
    var listing, done := a.(phase := Listing), a.(phase := Looping([], false));
    var none: map<nat, Run> := map[];
    assert {} + {0} == {0} && UtcDay(DAY_MS) == 1;
    assert none[0 := a] == map[0 := a] && map[0 := a][0 := listing] == map[0 := listing];
    assert map[0 := listing][0 := done] == map[0 := done] && map[0 := done][1 := b] == map[0 := done, 1 := b];
    assert forall d :: OnDay({}, d) == {};
    assert IsDayList({}, []);
  }

  lemma LateSalt(i: nat)
    requires 5 <= i < 7
    ensures Apply(SaltWorlds()[i], SaltSteps()[i]) == Some(SaltWorlds()[i + 1])
  {
    var (a, b) := (SaltRun("a"), SaltRun("b"));
    var done, listing := a.(phase := Looping([], false)), b.(phase := Listing);
    var before, taken := map[0 := done, 1 := b], map[0 := done, 1 := listing];
    assert before[1 := listing] == taken;
    assert taken[0 := a.(phase := Closing(true))] == map[0 := a.(phase := Closing(true)), 1 := listing];
    assert UtcDay(DAY_MS) == 1 && SaltsFrom({0}, 1) == {};
  }

  // ---- When an overtaken run can commit again ------------------------------

  /** There is a next step that commits the run's work. */
  ghost predicate CanCommit(w: World, id: nat) { exists s :: Apply(w, s).Some? && Commits(w, s, id) }

  predicate IsAtWork(run: Run) {
    (run.phase.Looping? && run.phase.todo != []) || run.phase.Batching? || run.phase.Closing?
  }

  /** A run at work can commit exactly while the lease stands under its name. */
  lemma CanCommitIff(w: World, id: nat)
    requires id in w.runs && (w.db.leaseOwner.Some? ==> w.db.leaseExpiresAt.Some?)
    ensures CanCommit(w, id) <==> IsAtWork(w.runs[id]) && w.db.leaseOwner == Some(w.runs[id].worker)
  {
    var run := w.runs[id];
    if IsAtWork(run) && w.db.leaseOwner == Some(run.worker) {
      var at := w.db.leaseExpiresAt.value - 1;
      if run.phase.Closing? {
        Enabled(w, Release(id, at), id);
      } else if run.phase.Batching? {
        var doomed := PurgeBatchExists(OnDay(w.db.raw, run.phase.day), run.batchRows);
        Enabled(w, MoreBatch(id, at, at, doomed), id);
      } else {
        var day := run.phase.todo[0];
        var batch := PurgeBatchExists(OnDay(w.db.raw, day), run.batchRows);
        Enabled(w, RollUp(id, at, at, if Purgeable(day, run.now) then batch else {}), id);
      }
    }
  }

  lemma Enabled(w: World, s: Step, id: nat)
    requires Apply(w, s).Some? && Commits(w, s, id)
    ensures CanCommit(w, id)
  {
  }

  lemma {:induction false} LeaseIsPaired(ws: seq<World>, ss: seq<Step>, k: nat)
    requires IsHistory(ws, ss) && k < |ws|
    ensures ws[k].db.leaseOwner.Some? <==> ws[k].db.leaseExpiresAt.Some?
  {
    if k > 0 {
      LeaseIsPaired(ws, ss, k - 1);
      assert Apply(ws[k - 1], ss[k - 1]) == Some(ws[k]);
      LeaseStep(ws[k - 1], ss[k - 1]);
    }
  }

  lemma LeaseStep(w: World, s: Step)
    requires Apply(w, s).Some? && (w.db.leaseOwner.Some? <==> w.db.leaseExpiresAt.Some?)
    ensures var w' := Apply(w, s).value; w'.db.leaseOwner.Some? <==> w'.db.leaseExpiresAt.Some?
  {
  }

  /** The step hands the lease to somebody or gives it back. */
  ghost predicate MovesLease(w: World, s: Step) {
    (s.Claim? && Claims(w, s, s.id)) || (s.Release? && Commits(w, s, s.id))
  }

  /** The claim at `m` was under this name, and the lease has not moved since. */
  ghost predicate HoldsSince(ws: seq<World>, ss: seq<Step>, m: nat, k: nat, worker: string)
    requires |ss| <= |ws| && m < k <= |ss|
  {
    ClaimsUnder(ws[m], ss[m], worker) && forall n :: m < n < k ==> !MovesLease(ws[n], ss[n])
  }

  ghost predicate LaterClaimHolds(ws: seq<World>, ss: seq<Step>, j: nat, k: nat, worker: string)
    requires |ss| <= |ws| && k <= |ss|
  {
    exists m :: j < m < k && HoldsSince(ws, ss, m, k, worker)
  }

  lemma HoldsOn(ws: seq<World>, ss: seq<Step>, j: nat, k: nat, next: nat, worker: string)
    requires |ss| <= |ws| && j < k && next == k + 1 <= |ss|
    requires !MovesLease(ws[k], ss[k])
    ensures LaterClaimHolds(ws, ss, j, next, worker) <==> LaterClaimHolds(ws, ss, j, k, worker)
  {
    if LaterClaimHolds(ws, ss, j, next, worker) {
      var m :| j < m < next && HoldsSince(ws, ss, m, next, worker);
      assert m != k;
      assert HoldsSince(ws, ss, m, k, worker);
    }
    if LaterClaimHolds(ws, ss, j, k, worker) {
      var m :| j < m < k && HoldsSince(ws, ss, m, k, worker);
      assert HoldsSince(ws, ss, m, next, worker);
    }
  }

  /** After somebody else's claim the lease is under a name just when a later claim under it still holds. */
  lemma {:induction false} OwnerIsLastClaim(ws: seq<World>, ss: seq<Step>, j: nat, k: nat, worker: string)
    requires IsHistory(ws, ss) && j < k <= |ss|
    requires ss[j].Claim? && Claims(ws[j], ss[j], ss[j].id) && ws[j].runs[ss[j].id].worker != worker
    ensures ws[k].db.leaseOwner == Some(worker) <==> LaterClaimHolds(ws, ss, j, k, worker)
    decreases k
  {
    var w, s := ws[k - 1], ss[k - 1];
    assert Apply(w, s) == Some(ws[k]);
    OwnerChanges(w, s);
    if k == j + 1 {
      assert ws[k].db.leaseOwner != Some(worker);
    } else {
      OwnerIsLastClaim(ws, ss, j, k - 1, worker);
      if ClaimsUnder(w, s, worker) {
        assert HoldsSince(ws, ss, k - 1, k, worker);
      } else if MovesLease(w, s) {
        forall m | j < m < k ensures !HoldsSince(ws, ss, m, k, worker) {
          if m < k - 1 { assert MovesLease(ws[k - 1], ss[k - 1]); }
        }
      } else {
        HoldsOn(ws, ss, j, k - 1, k, worker);
      }
    }
  }

  /**
   * The exact condition. A run overtaken by a claim under another name, and still at work, can commit again
   * just when a later claim under its own name holds the lease.
   */
  lemma OvertakenCommitsIff(ws: seq<World>, ss: seq<Step>, j: nat, k: nat, earlier: nat, later: nat)
    requires IsHistory(ws, ss) && j < k <= |ss|
    requires earlier in ws[j].runs && Claims(ws[j], ss[j], later)
    requires ws[j].runs[later].worker != ws[j].runs[earlier].worker
    requires earlier in ws[k].runs && IsAtWork(ws[k].runs[earlier])
    ensures CanCommit(ws[k], earlier) <==> LaterClaimHolds(ws, ss, j, k, ws[j].runs[earlier].worker)
  {
    hide Claims, LaterClaimHolds, CanCommit, Apply, IsAtWork;
    SameWorker(ws, ss, j, k, earlier);
    LeaseIsPaired(ws, ss, k);
    CanCommitIff(ws[k], earlier);
    ClaimIsStep(ws[j], ss[j], later);
    OwnerIsLastClaim(ws, ss, j, k, ws[j].runs[earlier].worker);
  }

  lemma ClaimIsStep(w: World, s: Step, id: nat)
    requires Claims(w, s, id)
    ensures s.Claim? && s.id == id
  {
  }

  lemma {:induction false} SameWorker(ws: seq<World>, ss: seq<Step>, i: nat, k: nat, id: nat)
    requires IsHistory(ws, ss) && i <= k < |ws| && id in ws[i].runs
    ensures id in ws[k].runs && ws[k].runs[id].worker == ws[i].runs[id].worker
    decreases k
  {
    if i < k {
      SameWorker(ws, ss, i, k - 1, id);
      assert Apply(ws[k - 1], ss[k - 1]) == Some(ws[k]);
      RunsPersist(ws[k - 1], ss[k - 1], id);
    }
  }

  // ---- A history in which it does -------------------------------------------

  const SAMPLE_ROW := RawRow("r", "e", PageView, EventPage, Some(Direct), 0, None)

  function SampleRun(worker: string): Run { Run(worker, 0, 1, 1, [], Waiting) }

  function Held(owner: string, until: Instant): Db {
    Db({SAMPLE_ROW}, map[], Some(owner), Some(until), None, {})
  }

  /**
   * The fence is by worker name alone. Reachable from an empty database: a run of `a` is overtaken by one of
   * `b`, another run of `a` takes the lease over in turn, and the overtaken first run's day commits.
   */
  lemma SharedNameIsNoFence(ws: seq<World>, ss: seq<Step>)
    requires ss == SampleSteps() && ws == SampleWorlds()
    ensures IsHistory(ws, ss)
    ensures Claims(ws[5], ss[5], 1) && ws[5].runs[0].phase == Looping([0], false)
    ensures ws[5].runs[0].worker != ws[5].runs[1].worker
    ensures Commits(ws[8], ss[8], 0)
  {
    hide RollUpTrafficDay, Sums;
    forall i | 0 <= i < |ss| ensures Apply(ws[i], ss[i]) == Some(ws[i + 1]) {
      if i < 5 { EarlySample(i); } else if i < 8 { LateSample(i); } else { LastSample(); }
    }
  }

  lemma EarlySample(i: nat)
    requires i < 5
    ensures Apply(SampleWorlds()[i], SampleSteps()[i]) == Some(SampleWorlds()[i + 1])
  {
    hide RollUpTrafficDay, Sums;
    var (a, b) := (SampleRun("a"), SampleRun("b"));
    var listing, ready := a.(phase := Listing), a.(listed := [0], phase := Looping([0], false));
    var none: map<nat, Run> := map[];
    assert {} + {SAMPLE_ROW} == {SAMPLE_ROW};
    assert none[0 := a] == map[0 := a] && map[0 := a][0 := listing] == map[0 := listing];
    assert map[0 := listing][0 := ready] == map[0 := ready] && map[0 := ready][1 := b] == map[0 := ready, 1 := b];
    assert OnDay({SAMPLE_ROW}, 0) == {SAMPLE_ROW} && forall d :: d != 0 ==> OnDay({SAMPLE_ROW}, d) == {};
    assert IsDayList({SAMPLE_ROW}, [0]);
  }

  lemma LateSample(i: nat)
    requires 5 <= i < 8
    ensures Apply(SampleWorlds()[i], SampleSteps()[i]) == Some(SampleWorlds()[i + 1])
  {
    hide RollUpTrafficDay, Sums;
    var (a, b) := (SampleRun("a"), SampleRun("b"));
    var ready, taken := a.(listed := [0], phase := Looping([0], false)), b.(phase := Listing);
    var before, overtaken := map[0 := ready, 1 := b], map[0 := ready, 1 := taken];
    assert before[1 := taken] == overtaken;
    assert overtaken[2 := a] == map[0 := ready, 1 := taken, 2 := a];
    assert overtaken[2 := a][2 := a.(phase := Listing)] == map[0 := ready, 1 := taken, 2 := a.(phase := Listing)];
  }

  lemma LastSample()
    ensures Apply(SampleWorlds()[8], SampleSteps()[8]) == Some(SampleWorlds()[9])
  {
    hide RollUpTrafficDay, Sums;
    var w, s := SampleWorlds()[8], SampleSteps()[8];
    var (a, b) := (SampleRun("a"), SampleRun("b"));
    var ready := w.runs[0];
    assert ready == a.(listed := [0], phase := Looping([0], false)) && [0][1..] == [];
    assert {SAMPLE_ROW} - {} == {SAMPLE_ROW};
    assert !Purgeable(0, 0);
    var done := DayTransaction(w.db, "a", 1, 10, 10, 0, 0, {});
    assert done == Some(SampleWorlds()[9].db);
    assert AfterBatch(ready, 0, [], false, 0) == Looping([], false);
    assert w.runs[0 := ready.(phase := Looping([], false))] == SampleWorlds()[9].runs;
    assert [] + [Commit(0, 0, true, {})] == [Commit(0, 0, true, {})];
  }

  /** Two runs of one process and one of another. */
  function SampleSteps(): seq<Step> {
    [Beacon(SAMPLE_ROW), Start(0, SampleRun("a")), Claim(0, 0), ListDays(0, [0]), Start(1, SampleRun("b")),
     Claim(1, 5), Start(2, SampleRun("a")), Claim(2, 10), RollUp(0, 10, 10, {})]
  }

  ghost function SampleWorlds(): seq<World> {
    var free := Db({SAMPLE_ROW}, map[], None, None, None, {});
    var past := Past({SAMPLE_ROW}, [], [], 0);
    var (a, b) := (SampleRun("a"), SampleRun("b"));
    var ready := a.(listed := [0], phase := Looping([0], false));
    var (listing, taken) := (a.(phase := Listing), b.(phase := Listing));
    [World(free.(raw := {}), past.(written := {}), map[]),
     World(free, past, map[]),
     World(free, past, map[0 := a]),
     World(Held("a", 1), past, map[0 := listing]),
     World(Held("a", 1), past, map[0 := ready]),
     World(Held("a", 1), past, map[0 := ready, 1 := b]),
     World(Held("b", 6), past, map[0 := ready, 1 := taken]),
     World(Held("b", 6), past, map[0 := ready, 1 := taken, 2 := a]),
     World(Held("a", 11), past, map[0 := ready, 1 := taken, 2 := listing]),
     World(Held("a", 11).(totals := RollUpTrafficDay(map[], {SAMPLE_ROW}, 0, 0)),
           past.(commits := [Commit(0, 0, true, {})]),
           map[0 := ready.(phase := Looping([], false)), 1 := taken, 2 := listing])]
  }
}
