/** The companion graph of a layout: each seat names at most one other, which may not exist. */
module CompanionGraph {
  import opened Prelude

  type Key = string

  /** Declared seats and the seat each is a companion of. */
  type Graph = map<Key, Option<Key>>

  function Next(g: Graph, k: Key): Option<Key> { if k in g then g[k] else None }

  function After(i: nat, n: nat): nat
    requires i < n
  {
    if i + 1 < n then i + 1 else 0
  }

  /** A simple loop, written once around without repeating its first key. */
  predicate IsLoop(g: Graph, c: seq<Key>) {
    && c != []
    && Distinct(c)
    && forall i :: 0 <= i < |c| ==> Next(g, c[i]) == Some(c[After(i, |c|)])
  }

  ghost predicate OnLoop(g: Graph, k: Key) { exists c :: IsLoop(g, c) && k in c }

  ghost predicate Acyclic(g: Graph) { forall k :: !OnLoop(g, k) }

  /** Following the graph from inside the set never leaves it. */
  ghost predicate Forward(g: Graph, s: set<Key>) {
    forall k :: k in s && Next(g, k).Some? ==> Next(g, k).value in s
  }

  function Around(i: nat, steps: nat, n: nat): nat
    requires i < n && steps < n
  {
    if i + steps < n then i + steps else i + steps - n
  }

  lemma {:induction false} LoopStaysInside(g: Graph, c: seq<Key>, s: set<Key>, i: nat, steps: nat)
    requires IsLoop(g, c) && Forward(g, s) && i < |c| && c[i] in s && steps < |c|
    ensures c[Around(i, steps, |c|)] in s
  {
    if steps > 0 {
      LoopStaysInside(g, c, s, i, steps - 1);
      var before := Around(i, steps - 1, |c|);
      assert Next(g, c[before]) == Some(c[After(before, |c|)]);
    }
  }

  /** A loop that touches a forward-closed set lies in it. */
  lemma LoopInside(g: Graph, c: seq<Key>, s: set<Key>, k: Key)
    requires IsLoop(g, c) && Forward(g, s) && k in c && k in s
    ensures forall x :: x in c ==> x in s
  {
    var i :| 0 <= i < |c| && c[i] == k;
    forall j | 0 <= j < |c| ensures c[j] in s {
      LoopStaysInside(g, c, s, i, if i <= j then j - i else j - i + |c|);
    }
  }

  lemma LoopIsForward(g: Graph, c: seq<Key>)
    requires IsLoop(g, c)
    ensures Forward(g, Elements(c))
  {
    forall k | k in c ensures Next(g, k).Some? && Next(g, k).value in c {
      var i :| 0 <= i < |c| && c[i] == k;
      assert Next(g, c[i]) == Some(c[After(i, |c|)]);
    }
  }

  /** Loops that share a key visit the same keys. */
  lemma LoopsShareAll(g: Graph, c: seq<Key>, d: seq<Key>, k: Key)
    requires IsLoop(g, c) && IsLoop(g, d) && k in c && k in d
    ensures Elements(c) == Elements(d)
  {
    LoopIsForward(g, c);
    LoopIsForward(g, d);
    LoopInside(g, d, Elements(c), k);
    LoopInside(g, c, Elements(d), k);
  }

  /** One is the other, entered somewhere else. */
  ghost predicate IsRotation(c: seq<Key>, d: seq<Key>) { exists r: nat :: r < |d| && c == d[r..] + d[..r] }

  lemma {:induction false} DistinctSize(s: seq<Key>)
    requires Distinct(s)
    ensures |Elements(s)| == |s|
  {
    if s != [] {
      var n := |s| - 1;
      DistinctSize(s[..n]);
      assert s == s[..n] + [s[n]];
      assert Elements(s) == Elements(s[..n]) + {s[n]};
    }
  }

  lemma LoopStep(g: Graph, c: seq<Key>, i: nat)
    requires IsLoop(g, c) && i < |c|
    ensures Next(g, c[i]) == Some(c[After(i, |c|)])
  {
  }

  lemma AroundNext(r: nat, m: nat, n: nat)
    requires r < n && m + 1 < n
    ensures Around(r, m, n) < n && Around(r, m + 1, n) == After(Around(r, m, n), n)
    ensures Around(r, 0, n) == r && After(m, n) == m + 1
  {
  }

  lemma {:induction false} LoopsInStep(g: Graph, c: seq<Key>, d: seq<Key>, r: nat, m: nat)
    requires IsLoop(g, c) && IsLoop(g, d) && |c| == |d| && r < |d| && m < |c| && c[0] == d[r]
    ensures Around(r, m, |d|) < |d| && c[m] == d[Around(r, m, |d|)]
  {
    if m > 0 {
      hide IsLoop, Around, After, Next;
      var last := m - 1;
      AroundNext(r, last, |d|);
      LoopsInStep(g, c, d, r, last);
      LoopStep(g, c, last);
      LoopStep(g, d, Around(r, last, |d|));
    }
  }

  /** Loops that share a key are one loop: each is a rotation of the other. */
  lemma LoopsMeetOnce(g: Graph, c: seq<Key>, d: seq<Key>, k: Key)
    requires IsLoop(g, c) && IsLoop(g, d) && k in c && k in d
    ensures IsRotation(c, d)
  {
    LoopsShareAll(g, c, d, k);
    DistinctSize(c);
    DistinctSize(d);
    assert c[0] in Elements(d);
    var r :| 0 <= r < |d| && d[r] == c[0];
    forall m | 0 <= m < |c| ensures c[m] == (d[r..] + d[..r])[m] { LoopsInStep(g, c, d, r, m); }
    assert c == d[r..] + d[..r];
  }

  /** Every list walks one loop and repeats its first key at the end. */
  ghost predicate AreLoops(g: Graph, cycles: seq<seq<Key>>) {
    forall i :: 0 <= i < |cycles| ==>
      && |cycles[i]| >= 2
      && cycles[i][|cycles[i]| - 1] == cycles[i][0]
      && IsLoop(g, cycles[i][..|cycles[i]| - 1])
  }

  ghost predicate Disjoint(cycles: seq<seq<Key>>) {
    forall i, j, k :: 0 <= i < j < |cycles| && k in cycles[i] ==> k !in cycles[j]
  }

  ghost predicate Reported(cycles: seq<seq<Key>>, k: Key) { exists i :: 0 <= i < |cycles| && k in cycles[i] }

  /** Consecutive steps of the graph, with no key twice. */
  ghost predicate IsWalk(g: Graph, path: seq<Key>) {
    && Distinct(path)
    && forall i :: 0 <= i < |path| - 1 ==> Next(g, path[i]) == Some(path[i + 1])
  }

  /** A loop through a walk's key passes through everything later on the walk. */
  lemma {:induction false} LoopFollowsWalk(g: Graph, path: seq<Key>, c: seq<Key>, i: nat, j: nat)
    requires IsWalk(g, path) && IsLoop(g, c) && i <= j < |path| && path[i] in c
    ensures path[j] in c && Next(g, path[j]).Some? && Next(g, path[j]).value in c
    decreases j
  {
    LoopIsForward(g, c);
    if i < j {
      LoopFollowsWalk(g, path, c, i, j - 1);
    }
    var at :| 0 <= at < |c| && c[at] == path[j];
    assert Next(g, c[at]) == Some(c[After(at, |c|)]);
  }

  /** What the walks so far have settled. */
  ghost predicate WalkInv(g: Graph, settled: set<Key>, cycles: seq<seq<Key>>) {
    && Forward(g, settled)
    && AreLoops(g, cycles) && Disjoint(cycles)
    && (forall i, k :: 0 <= i < |cycles| && k in cycles[i] ==> k in settled)
    && (forall k :: k in settled && OnLoop(g, k) ==> Reported(cycles, k))
  }

  /** A walk that runs out, or into settled keys, met no loop. */
  lemma DeadEnd(g: Graph, settled: set<Key>, cycles: seq<seq<Key>>, path: seq<Key>, current: Option<Key>)
    requires WalkInv(g, settled, cycles) && IsWalk(g, path) && path != []
    requires current == Next(g, path[|path| - 1])
    requires forall k :: k in path ==> k !in settled
    requires current.Some? ==> current.value in settled
    ensures WalkInv(g, settled + Elements(path), cycles)
  {
    forall k | k in path ensures !OnLoop(g, k) {
      var i :| 0 <= i < |path| && path[i] == k;
      if c :| IsLoop(g, c) && k in c {
        LoopFollowsWalk(g, path, c, i, |path| - 1);
        LoopInside(g, c, settled, current.value);
        assert false;
      }
    }
    WalkIsForward(g, settled, path, current);
  }

  lemma WalkIsForward(g: Graph, settled: set<Key>, path: seq<Key>, current: Option<Key>)
    requires Forward(g, settled) && IsWalk(g, path) && path != []
    requires current == Next(g, path[|path| - 1])
    requires current.Some? ==> current.value in settled || current.value in path
    ensures Forward(g, settled + Elements(path))
  {
    forall k | k in path && Next(g, k).Some?
      ensures Next(g, k).value in settled + Elements(path)
    {
      var i :| 0 <= i < |path| && path[i] == k;
      if i < |path| - 1 { assert Next(g, path[i]) == Some(path[i + 1]); }
    }
  }

  /** The tail a walk comes back to is a loop, and the only one the walk meets. */
  lemma TailIsTheLoop(g: Graph, path: seq<Key>, at: nat)
    requires IsWalk(g, path) && at < |path| && Next(g, path[|path| - 1]) == Some(path[at])
    ensures IsLoop(g, path[at..])
    ensures forall k :: k in path && OnLoop(g, k) ==> k in path[at..]
  {
    var loop := path[at..];
    assert IsLoop(g, loop) by {
      forall i | 0 <= i < |loop| ensures Next(g, loop[i]) == Some(loop[After(i, |loop|)]) {
        if i + 1 < |loop| { assert Next(g, path[at + i]) == Some(path[at + i + 1]); }
      }
    }
    forall k | k in path && OnLoop(g, k) ensures k in loop {
      var c :| IsLoop(g, c) && k in c;
      var i :| 0 <= i < |path| && path[i] == k;
      LoopFollowsWalk(g, path, c, i, |path| - 1);
      LoopsShareAll(g, c, loop, path[at]);
      assert k in Elements(c);
    }
  }

  /** A walk that bites its own tail has found exactly one new loop. */
  lemma FoundLoop(g: Graph, settled: set<Key>, cycles: seq<seq<Key>>, path: seq<Key>, at: nat)
    requires WalkInv(g, settled, cycles) && IsWalk(g, path) && at < |path|
    requires Next(g, path[|path| - 1]) == Some(path[at])
    requires forall k :: k in path ==> k !in settled
    ensures WalkInv(g, settled + Elements(path), cycles + [path[at..] + [path[at]]])
  {
    var loop := path[at..];
    var cycle := loop + [path[at]];
    var cycles' := cycles + [cycle];
    TailIsTheLoop(g, path, at);
    assert cycle[..|cycle| - 1] == loop;
    assert path[at] == loop[0];
    assert forall k :: k in cycle <==> k in loop;
    assert forall k :: k in loop ==> k in path;
    WalkIsForward(g, settled, path, Some(path[at]));
    forall k | k in settled + Elements(path) && OnLoop(g, k) ensures Reported(cycles', k) {
      if k in settled {
        var i :| 0 <= i < |cycles| && k in cycles[i];
        assert cycles'[i] == cycles[i];
      } else {
        assert k in cycles'[|cycles|];
      }
    }
  }

  function Targets(g: Graph): set<Key> { set k | k in g && g[k].Some? :: g[k].value }

  lemma NothingWalked(g: Graph)
    ensures WalkInv(g, {}, []) && IsWalk(g, [])
  {
  }

  lemma NextIsTarget(g: Graph, k: Key)
    ensures Next(g, k).Some? ==> Next(g, k).value in Targets(g)
  {
  }

  lemma WalkGrows(g: Graph, path: seq<Key>, k: Key)
    requires IsWalk(g, path) && k !in path && (path != [] ==> Next(g, path[|path| - 1]) == Some(k))
    ensures IsWalk(g, path + [k])
    ensures Elements(path + [k]) == Elements(path) + {k} && k !in Elements(path)
  {
  }

  /**
   * Every loop in the graph, each as the keys around it, the first repeated.
   *
   * Sound, complete and without repeats, whatever the graph and the order the
   * seats are visited in; a target that is not a seat is a dead end.
   */
  method CompanionCycles(order: seq<Key>, g: Graph) returns (cycles: seq<seq<Key>>)
    requires forall k :: k in order <==> k in g
    ensures AreLoops(g, cycles) && Disjoint(cycles)
    ensures forall k :: OnLoop(g, k) <==> Reported(cycles, k)
    ensures cycles == [] <==> Acyclic(g)
  {
    cycles := [];
    var settled: set<Key> := {};
    NothingWalked(g);
    hide WalkInv, IsWalk, Targets, AreLoops, Disjoint, OnLoop, Reported, Acyclic;
    for n := 0 to |order|
      invariant WalkInv(g, settled, cycles)
      invariant forall i :: 0 <= i < n ==> order[i] in settled
    {
      if order[n] in settled { continue; }
      var path: seq<Key> := [];
      var onPath: map<Key, nat> := map[];
      var current: Option<Key> := Some(order[n]);
      ghost var bitten := false;
      while current.Some? && current.value !in settled
        invariant !bitten && IsWalk(g, path)
        invariant forall k :: k in path ==> k !in settled
        invariant forall k :: k in onPath <==> k in path
        invariant forall k :: k in onPath ==> onPath[k] < |path| && path[onPath[k]] == k
        invariant path == [] ==> current == Some(order[n])
        invariant path != [] ==> path[0] == order[n] && current == Next(g, path[|path| - 1])
        invariant Elements(path) <= g.Keys + Targets(g)
        invariant current.Some? ==> current.value in g.Keys + Targets(g)
        decreases (g.Keys + Targets(g)) - Elements(path)
      {
        if current.value in onPath {
          FoundLoop(g, settled, cycles, path, onPath[current.value]);
          cycles := cycles + [path[onPath[current.value]..] + [current.value]];
          bitten := true;
          break;
        }
        ghost var before := path;
        onPath := onPath[current.value := |path|];
        path := path + [current.value];
        WalkGrows(g, before, current.value);
        NextIsTarget(g, current.value);
        current := Next(g, current.value);
      }
      if !bitten {
        DeadEnd(g, settled, cycles, path, current);
      }
      assert order[n] in path;
      settled := settled + Elements(path);
    }
    assert forall k :: k in g ==> k in settled;
    AllFound(g, settled, cycles);
  }

  /** Once every seat is settled the loops found are all there are. */
  lemma AllFound(g: Graph, settled: set<Key>, cycles: seq<seq<Key>>)
    requires WalkInv(g, settled, cycles)
    requires forall k :: k in g ==> k in settled
    ensures AreLoops(g, cycles) && Disjoint(cycles)
    ensures forall k :: OnLoop(g, k) <==> Reported(cycles, k)
    ensures cycles == [] <==> Acyclic(g)
  {
    forall k | OnLoop(g, k) ensures Reported(cycles, k) {
      var c :| IsLoop(g, c) && k in c;
      var i :| 0 <= i < |c| && c[i] == k;
      assert Next(g, c[i]).Some?;
      assert k in g;
    }
    forall k | Reported(cycles, k) ensures OnLoop(g, k) {
      var i :| 0 <= i < |cycles| && k in cycles[i];
      var c := cycles[i][..|cycles[i]| - 1];
      assert cycles[i] == c + [cycles[i][0]] && c[0] == cycles[i][0];
      assert k in c;
    }
    if cycles != [] {
      assert Reported(cycles, cycles[0][0]);
    }
  }

  /** Each loop is returned exactly once, up to rotation. */
  lemma EachLoopOnce(g: Graph, cycles: seq<seq<Key>>, c: seq<Key>) returns (at: nat)
    requires AreLoops(g, cycles) && Disjoint(cycles)
    requires forall k :: OnLoop(g, k) <==> Reported(cycles, k)
    requires IsLoop(g, c)
    ensures at < |cycles| && IsRotation(cycles[at][..|cycles[at]| - 1], c)
    ensures forall i :: 0 <= i < |cycles| && i != at ==> Elements(cycles[i]) !! Elements(c)
  {
    assert OnLoop(g, c[0]);
    at :| 0 <= at < |cycles| && c[0] in cycles[at];
    var d := cycles[at][..|cycles[at]| - 1];
    assert cycles[at] == d + [d[0]];
    LoopsMeetOnce(g, d, c, c[0]);
    LoopsShareAll(g, d, c, c[0]);
    assert Elements(cycles[at]) == Elements(d);
    forall i, k | 0 <= i < |cycles| && i != at && k in cycles[i] ensures k !in c {
      assert k in c ==> k in Elements(c);
    }
  }
}
