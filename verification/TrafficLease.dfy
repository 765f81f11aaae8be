/** Who has the lease, told from the steps of a history and the clock readings they carry. */
module TrafficLease {
  import opened Prelude
  import opened TrafficTotals
  import opened TrafficProtocol
  import opened TrafficHistory

  // ---- What a step did to the lease, seen from outside ------------------------

  /** A step that takes or renews the lease when it succeeds. */
  predicate Asks(w: World, s: Step) { (s.Claim? || s.RollUp? || s.MoreBatch?) && s.id in w.runs }

  /** A claim after which its run goes on, or a transaction that committed. */
  ghost predicate Writes(w: World, s: Step, next: World) {
    && Asks(w, s)
    && if s.Claim? then s.id in next.runs && next.runs[s.id].phase.Listing? else next.past.commits != w.past.commits
  }

  ghost predicate Frees(w: World, s: Step, next: World) { s.Release? && next.past.releases != w.past.releases }

  function WorkerOf(w: World, s: Step): string
    requires Asks(w, s)
  {
    w.runs[s.id].worker
  }

  /** How long a lease lasts that this step wrote: from the claim's reading, or the renewal's second. */
  function LeaseEnd(w: World, s: Step): Instant
    requires Asks(w, s)
  {
    (if s.Claim? then s.at else s.again) + w.runs[s.id].leaseMs
  }

  /** The step that wrote the lease last, unless it has been given back since. */
  ghost function Standing(ws: seq<World>, ss: seq<Step>, k: nat): (m: Option<nat>)
    requires |ws| == |ss| + 1 && k <= |ss|
    ensures m.Some? ==> m.value < k && Asks(ws[m.value], ss[m.value])
  {
    if k == 0 then None
    else if Writes(ws[k - 1], ss[k - 1], ws[k]) then Some(k - 1)
    else if Frees(ws[k - 1], ss[k - 1], ws[k]) then None
    else Standing(ws, ss, k - 1)
  }

  lemma LeaseStep(w: World, s: Step)
    requires Apply(w, s).Some?
    ensures var next := Apply(w, s).value;
            if Writes(w, s, next) then
              next.db.leaseOwner == Some(WorkerOf(w, s)) && next.db.leaseExpiresAt == Some(LeaseEnd(w, s))
            else if Frees(w, s, next) then
              next.db.leaseOwner == None && next.db.leaseExpiresAt == None
            else
              next.db.leaseOwner == w.db.leaseOwner && next.db.leaseExpiresAt == w.db.leaseExpiresAt
  {
  }

  /** The lease is of the step that stands, and free when none does. */
  lemma {:induction false} LeaseOfStanding(ws: seq<World>, ss: seq<Step>, k: nat)
    requires IsHistory(ws, ss) && k <= |ss|
    ensures match Standing(ws, ss, k)
            case None => ws[k].db.leaseOwner == None && ws[k].db.leaseExpiresAt == None
            case Some(m) =>
              && ws[k].db.leaseOwner == Some(WorkerOf(ws[m], ss[m]))
              && ws[k].db.leaseExpiresAt == Some(LeaseEnd(ws[m], ss[m]))
  {
    if k > 0 {
      LeaseOfStanding(ws, ss, k - 1);
      StepTaken(ws, ss, k - 1);
      LeaseStep(ws[k - 1], ss[k - 1]);
      hide IsHistory, Apply, Writes, Frees, WorkerOf, LeaseEnd, Asks;
    }
  }

  // ---- What each statement on the lease does ---------------------------------

  /**
   * Nobody takes a lease that lasts. A claim succeeds exactly when the end set by the step that wrote the lease
   * last, if it has not been given back since, lies before the claim's own reading.
   */
  lemma ClaimTakesIff(ws: seq<World>, ss: seq<Step>, k: nat)
    requires IsHistory(ws, ss) && k < |ss| && ss[k].Claim?
    ensures var (s, m, next) := (ss[k], Standing(ws, ss, k), ws[k + 1]);
            && s.id in ws[k].runs && s.id in next.runs
            && var run := ws[k].runs[s.id];
            if m.None? || LeaseEnd(ws[m.value], ss[m.value]) < s.at then
              && next.runs[s.id].phase == Listing
              && next.db.leaseOwner == Some(run.worker) && next.db.leaseExpiresAt == Some(s.at + run.leaseMs)
            else
              && next.runs[s.id].phase == Over
              && next.db == ws[k].db
  {
    LeaseOfStanding(ws, ss, k);
    StepTaken(ws, ss, k);
    hide IsHistory, Standing;
    ClaimStep(ws[k], ss[k]);
  }

  lemma ClaimStep(w: World, s: Step)
    requires Apply(w, s).Some? && s.Claim?
    ensures s.id in w.runs && s.id in Apply(w, s).value.runs
    ensures var next := Apply(w, s).value; var run := w.runs[s.id];
            if w.db.leaseExpiresAt.None? || w.db.leaseExpiresAt.value < s.at then
              && next.runs[s.id].phase == Listing
              && next.db.leaseOwner == Some(run.worker) && next.db.leaseExpiresAt == Some(s.at + run.leaseMs)
            else
              && next.runs[s.id].phase == Over
              && next.db == w.db
  {
  }

  /** A transaction commits exactly when a step of its own worker name stands and its end is after the reading. */
  lemma CommitsIff(ws: seq<World>, ss: seq<Step>, k: nat)
    requires IsHistory(ws, ss) && k < |ss| && (ss[k].RollUp? || ss[k].MoreBatch?)
    ensures ss[k].id in ws[k].runs
    ensures var m := Standing(ws, ss, k);
            ws[k + 1].past.commits != ws[k].past.commits
            <==> && m.Some?
                 && WorkerOf(ws[m.value], ss[m.value]) == ws[k].runs[ss[k].id].worker
                 && ss[k].at < LeaseEnd(ws[m.value], ss[m.value])
  {
    LeaseOfStanding(ws, ss, k);
    StepTaken(ws, ss, k);
    hide IsHistory, Standing;
    CommitStep(ws[k], ss[k]);
  }

  lemma CommitStep(w: World, s: Step)
    requires Apply(w, s).Some? && (s.RollUp? || s.MoreBatch?)
    ensures s.id in w.runs
    ensures Apply(w, s).value.past.commits != w.past.commits
            <==> && w.db.leaseOwner == Some(w.runs[s.id].worker)
                 && w.db.leaseExpiresAt.Some? && s.at < w.db.leaseExpiresAt.value
  {
  }

  /** A release gives the lease back exactly when a step of its own worker name stands, lapsed or not. */
  lemma FreesIff(ws: seq<World>, ss: seq<Step>, k: nat)
    requires IsHistory(ws, ss) && k < |ss| && ss[k].Release?
    ensures ss[k].id in ws[k].runs
    ensures var m := Standing(ws, ss, k);
            ws[k + 1].past.releases != ws[k].past.releases
            <==> m.Some? && WorkerOf(ws[m.value], ss[m.value]) == ws[k].runs[ss[k].id].worker
  {
    LeaseOfStanding(ws, ss, k);
    StepTaken(ws, ss, k);
    hide IsHistory, Standing;
    ReleaseStep(ws[k], ss[k]);
  }

  lemma ReleaseStep(w: World, s: Step)
    requires Apply(w, s).Some? && s.Release?
    ensures s.id in w.runs
    ensures Apply(w, s).value.past.releases != w.past.releases <==> w.db.leaseOwner == Some(w.runs[s.id].worker)
  {
  }

  /**
   * Two names never hold the lease at once. Whoever takes it from another name, without a release in between,
   * has read a clock past the end that the other's last write set.
   */
  lemma TakenOnlyAfterTheEnd(ws: seq<World>, ss: seq<Step>, k: nat)
    requires IsHistory(ws, ss) && k < |ss|
    requires ws[k].db.leaseOwner.Some? && ws[k + 1].db.leaseOwner.Some?
    requires ws[k + 1].db.leaseOwner != ws[k].db.leaseOwner
    ensures ss[k].Claim? && Standing(ws, ss, k).Some?
    ensures var m := Standing(ws, ss, k).value;
            && ws[k].db.leaseOwner == Some(WorkerOf(ws[m], ss[m]))
            && LeaseEnd(ws[m], ss[m]) < ss[k].at
  {
    LeaseOfStanding(ws, ss, k);
    StepTaken(ws, ss, k);
    if ss[k].Claim? {
      ClaimTakesIff(ws, ss, k);
    } else {
      hide IsHistory, Standing;
      OwnerStays(ws[k], ss[k]);
    }
  }

  lemma OwnerStays(w: World, s: Step)
    requires Apply(w, s).Some? && !s.Claim?
    ensures Apply(w, s).value.db.leaseOwner in {w.db.leaseOwner, None}
  {
  }
}
