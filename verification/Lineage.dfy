/** Ticket lineages: what the count of terminal members says about a purchased line. */
module Lineage {
  import opened Prelude

  /** A row of the ticket table; `live` when it still holds a credential digest. */
  datatype Ticket = Ticket(line: int, supersedes: Option<int>, live: bool)

  type Table = map<int, Ticket>

  /** The schema's own rules: a predecessor exists, and has one successor at most. */
  ghost predicate IsTable(t: Table) {
    && (forall id :: id in t && t[id].supersedes.Some? ==> t[id].supersedes.value in t)
    && (forall a, b :: a in t && b in t && t[a].supersedes.Some? && t[a].supersedes == t[b].supersedes ==> a == b)
  }

  /** `successor` replaces `id` on the same line. */
  predicate Succeeds(t: Table, successor: int, id: int) {
    && successor in t && id in t
    && t[successor].supersedes == Some(id) && t[successor].line == t[id].line
  }

  ghost function Members(t: Table, line: int): set<int> { set id | id in t && t[id].line == line }

  ghost predicate IsTerminal(t: Table, id: int) { forall s :: s in t ==> !Succeeds(t, s, id) }

  ghost function Terminals(t: Table, line: int): set<int> { set id | id in Members(t, line) && IsTerminal(t, id) }

  /** It replaces nothing on its own line. */
  predicate IsOpening(t: Table, id: int)
    requires id in t
  {
    t[id].supersedes.None? || !Succeeds(t, id, t[id].supersedes.value)
  }

  ghost function Openings(t: Table, line: int): set<int> { set id | id in Members(t, line) && IsOpening(t, id) }

  /** The tickets checkout issued on a line. */
  ghost function ChainRoots(t: Table, line: int): set<int> { set id | id in Members(t, line) && t[id].supersedes.None? }

  ghost function Live(t: Table, line: int): set<int> { set id | id in Members(t, line) && t[id].live }

  // --- The checks, as queries over the rows ---

  /** The two failures `noDuplicateSettlement` reports of a paid line. */
  ghost predicate HasSurplus(t: Table, line: int, quantity: nat) { |Terminals(t, line)| > quantity }

  ghost predicate IsStranded(t: Table, line: int) { |Members(t, line)| > 0 && |Terminals(t, line)| == 0 }

  ghost predicate NoCrossing(t: Table) {
    forall s :: s in t && t[s].supersedes.Some? && t[s].supersedes.value in t
        ==> t[s].line == t[t[s].supersedes.value].line
  }

  ghost predicate HasSurplusAuthority(t: Table, line: int, quantity: nat) { |Live(t, line)| > quantity }

  // --- Terminal members are as many as openings ---

  function Image(s: set<int>, f: map<int, int>): set<int>
    requires s <= f.Keys
  {
    set x | x in s :: f[x]
  }

  lemma {:induction false} ImageSize(s: set<int>, f: map<int, int>)
    requires s <= f.Keys && forall x, y :: x in s && y in s && f[x] == f[y] ==> x == y
    ensures |Image(s, f)| == |s|
  {
    if s != {} {
      var x := Member(s);
      ImageSize(s - {x}, f);
      assert Image(s, f) == Image(s - {x}, f) + {f[x]};
    }
  }

  ghost function Predecessors(t: Table, line: int): map<int, int>
    requires IsTable(t)
  {
    map id | id in Members(t, line) && !IsOpening(t, id) :: t[id].supersedes.value
  }

  /** Superseding pairs the members that open nothing with the members that are not terminal. */
  lemma TerminalsCountOpenings(t: Table, line: int)
    requires IsTable(t)
    ensures |Terminals(t, line)| == |Openings(t, line)|
  {
    var members, f := Members(t, line), Predecessors(t, line);
    var continuing, superseded := members - Openings(t, line), members - Terminals(t, line);
    assert continuing == f.Keys;
    forall id | id in superseded ensures id in Image(continuing, f) {
      var s :| s in t && Succeeds(t, s, id);
      assert s in continuing && f[s] == id;
    }
    forall id | id in Image(continuing, f) ensures id in superseded {
      var s :| s in continuing && f[s] == id;
      assert Succeeds(t, s, id);
    }
    assert Image(continuing, f) == superseded;
    ImageSize(continuing, f);
    assert |members| == |continuing| + |Openings(t, line)| by { Parts(members, Openings(t, line)); }
    assert |members| == |superseded| + |Terminals(t, line)| by { Parts(members, Terminals(t, line)); }
  }

  lemma Parts(whole: set<int>, part: set<int>)
    requires part <= whole
    ensures |whole| == |whole - part| + |part|
  {
    assert whole == (whole - part) + part;
  }

  /** It replaces a ticket of another line. */
  predicate Crosses(t: Table, id: int)
    requires id in t
  {
    && t[id].supersedes.Some? && t[id].supersedes.value in t
    && t[id].line != t[t[id].supersedes.value].line
  }

  /** A line's terminal members are as many as the tickets issued on it exactly when none of its members crossed. */
  lemma TerminalsCountIssuedIff(t: Table, line: int)
    requires IsTable(t)
    ensures |Terminals(t, line)| == |ChainRoots(t, line)| <==> forall id :: id in Members(t, line) ==> !Crosses(t, id)
  {
    TerminalsCountOpenings(t, line);
    var openings, roots := Openings(t, line), ChainRoots(t, line);
    assert roots <= openings;
    Parts(openings, roots);
    assert forall id :: id in openings - roots <==> id in Members(t, line) && Crosses(t, id);
    if |openings| == |roots| {
      assert openings - roots == {};
    } else {
      var id := Member(openings - roots);
      assert Crosses(t, id);
    }
  }

  /** A predecessor superseded from another line only is still counted on its own. */
  lemma CrossedStaysTerminal(t: Table, id: int, s: int)
    requires IsTable(t) && id in t && s in t && t[s].supersedes == Some(id)
    ensures id in Terminals(t, t[id].line) <==> t[s].line != t[id].line
  {
    if t[s].line == t[id].line { assert Succeeds(t, s, id); }
  }

  // --- A line with no terminal member is made of cycles ---

  /** Going back `n` predecessors. */
  ghost function Back(t: Table, id: int, n: nat): int {
    if n == 0 then id
    else
      var b := Back(t, id, n - 1);
      if b in t && t[b].supersedes.Some? then t[b].supersedes.value else b
  }

  ghost predicate OnCycle(t: Table, id: int) { exists n: nat :: n > 0 && Back(t, id, n) == id && StaysOnLine(t, id, n) }

  /** The first `n` steps back stay on the line. */
  ghost predicate StaysOnLine(t: Table, id: int, n: nat) {
    forall i :: 0 <= i < n ==> Succeeds(t, Back(t, id, i), Back(t, id, i + 1))
  }

  lemma {:induction false} StaysWithin(t: Table, line: int, id: int, n: nat)
    requires IsTable(t) && id in Members(t, line) && Openings(t, line) == {}
    ensures Back(t, id, n) in Members(t, line) && StaysOnLine(t, id, n)
  {
    if n > 0 {
      StaysWithin(t, line, id, n - 1);
      assert Back(t, id, n - 1) !in Openings(t, line);
    }
  }

  lemma {:induction false} BackInjective(t: Table, line: int, id: int, i: nat, j: nat)
    requires IsTable(t) && id in Members(t, line) && Openings(t, line) == {}
    requires i <= j && Back(t, id, i) == Back(t, id, j)
    ensures Back(t, id, j - i) == id
  {
    if i > 0 {
      StaysWithin(t, line, id, j);
      assert Succeeds(t, Back(t, id, i - 1), Back(t, id, i)) && Succeeds(t, Back(t, id, j - 1), Back(t, id, j));
      BackInjective(t, line, id, i - 1, j - 1);
    }
  }

  ghost function Reached(t: Table, id: int, n: nat): set<int> { set i | 0 <= i < n :: Back(t, id, i) }

  lemma {:induction false} NewUntilRepeat(t: Table, id: int, n: nat)
    requires forall i, j :: 0 <= i < j < n ==> Back(t, id, i) != Back(t, id, j)
    ensures |Reached(t, id, n)| == n
  {
    hide Back;
    if n > 0 {
      NewUntilRepeat(t, id, n - 1);
      assert Reached(t, id, n) == Reached(t, id, n - 1) + {Back(t, id, n - 1)};
    } else {
      assert Reached(t, id, n) == {};
    }
  }

  lemma Repeats(t: Table, line: int, id: int)
    requires IsTable(t) && id in Members(t, line) && Openings(t, line) == {}
    ensures OnCycle(t, id)
  {
    var members := Members(t, line);
    var n := |members| + 1;
    if forall i, j :: 0 <= i < j < n ==> Back(t, id, i) != Back(t, id, j) {
      NewUntilRepeat(t, id, n);
      forall i | 0 <= i < n ensures Back(t, id, i) in members { StaysWithin(t, line, id, i); }
      Smaller(Reached(t, id, n), members);
      assert false;
    }
    var i, j :| 0 <= i < j < n && Back(t, id, i) == Back(t, id, j);
    BackInjective(t, line, id, i, j);
    StaysWithin(t, line, id, j - i);
  }

  lemma Smaller(part: set<int>, whole: set<int>)
    requires part <= whole
    ensures |part| <= |whole|
  {
    Parts(whole, part);
  }

  lemma CycleMemberNotTerminal(t: Table, id: int)
    requires id in t && OnCycle(t, id)
    ensures !IsTerminal(t, id)
  {
    var n: nat :| n > 0 && Back(t, id, n) == id && StaysOnLine(t, id, n);
    assert Succeeds(t, Back(t, id, n - 1), Back(t, id, n - 1 + 1));
  }

  /** A line is reported stranded exactly when it has members and all of them lie on cycles. */
  lemma StrandedIffCycles(t: Table, line: int)
    requires IsTable(t)
    ensures IsStranded(t, line) <==> Members(t, line) != {} && forall id :: id in Members(t, line) ==> OnCycle(t, id)
  {
    TerminalsCountOpenings(t, line);
    if IsStranded(t, line) {
      forall id | id in Members(t, line) ensures OnCycle(t, id) { Repeats(t, line, id); }
    }
    if Members(t, line) != {} && forall id :: id in Members(t, line) ==> OnCycle(t, id) {
      forall id | id in Members(t, line) ensures id !in Terminals(t, line) { CycleMemberNotTerminal(t, id); }
      assert Terminals(t, line) == {};
    }
  }

  // --- Histories ---

  datatype Change =
    | Issue(id: int, line: int)
    | Transfer(predecessor: int, successor: int)
    | Revoke(id: int)

  /** Checkout issues; a transfer replaces a live ticket on its own line; a revocation clears the digest. */
  ghost predicate May(t: Table, c: Change) {
    match c
    case Issue(id, line) => id !in t
    case Transfer(p, s) => p in t && t[p].live && IsReplacement(t, p, s)
    case Revoke(id) => id in t
  }

  /** `p` has no successor yet, and `s` is new. */
  ghost predicate IsReplacement(t: Table, p: int, s: int) {
    p in t && s !in t && forall x :: x in t ==> t[x].supersedes != Some(p)
  }

  function Replaced(t: Table, p: int, s: int): Table
    requires p in t
  {
    t[p := t[p].(live := false)][s := Ticket(t[p].line, Some(p), true)]
  }

  ghost function After(t: Table, c: Change): Table
    requires May(t, c)
  {
    match c
    case Issue(id, line) => t[id := Ticket(line, None, true)]
    case Transfer(p, s) => Replaced(t, p, s)
    case Revoke(id) => t[id := t[id].(live := false)]
  }

  /** Nothing crosses lines and only a current member can open a door. */
  ghost predicate Healthy(t: Table) {
    && IsTable(t) && NoCrossing(t)
    && forall id, s :: id in t && t[id].live && s in t ==> t[s].supersedes != Some(id)
  }

  lemma ChangeKeepsHealth(t: Table, c: Change)
    requires Healthy(t) && May(t, c)
    ensures Healthy(After(t, c))
  {
  }

  lemma ReplacedMembers(t: Table, p: int, s: int, line: int)
    requires IsReplacement(t, p, s)
    ensures var t' := Replaced(t, p, s);
            && Members(t', line) == Members(t, line) + (if line == t[p].line then {s} else {})
            && Live(t', line) == (if line == t[p].line then Live(t, line) - {p} + {s} else Live(t, line))
            && ChainRoots(t', line) == ChainRoots(t, line)
  {
    var t' := Replaced(t, p, s);
    assert forall id :: id in t' <==> id in t || id == s;
    assert forall id :: id in t ==> t'[id].line == t[id].line && t'[id].supersedes == t[id].supersedes;
    assert t'[s].line == t[p].line && t'[s].supersedes.Some?;
  }

  lemma ReplacedTerminals(t: Table, p: int, s: int)
    requires IsTable(t) && IsReplacement(t, p, s)
    ensures var t' := Replaced(t, p, s);
            && IsTerminal(t, p) && !IsTerminal(t', p) && IsTerminal(t', s)
            && forall id :: id in t && id != p ==> (IsTerminal(t', id) <==> IsTerminal(t, id))
  {
    var t' := Replaced(t, p, s);
    assert Succeeds(t', s, p);
    forall id | id in t && id != p ensures IsTerminal(t', id) <==> IsTerminal(t, id) {
      assert forall x :: x in t ==> (Succeeds(t', x, id) <==> Succeeds(t, x, id));
      assert !Succeeds(t', s, id);
    }
  }

  /**
   * On any table, healthy or not, replacing a ticket without a successor by a new one on its line moves the
   * terminal, and changes no line's count; nor the count of usable passes, if the one replaced was usable.
   */
  lemma ReplacementKeepsCounts(t: Table, p: int, s: int, line: int)
    requires IsTable(t) && IsReplacement(t, p, s)
    ensures var t' := Replaced(t, p, s);
            && IsTable(t')
            && Terminals(t', line) == (if line == t[p].line then Terminals(t, line) - {p} + {s} else Terminals(t, line))
            && |Terminals(t', line)| == |Terminals(t, line)|
            && |Live(t', line)| == |Live(t, line)| + (if line == t[p].line && !t[p].live then 1 else 0)
            && ChainRoots(t', line) == ChainRoots(t, line)
  {
    ReplacedIsTable(t, p, s);
    ReplacedMembers(t, p, s, line);
    ReplacedTerminalSet(t, p, s, line);
    if line == t[p].line {
      SwapSize(Terminals(t, line), p, s);
      SwapSize(Live(t, line), p, s);
    }
  }

  lemma SwapSize(whole: set<int>, p: int, s: int)
    requires s !in whole
    ensures |whole - {p} + {s}| == |whole| + if p in whole then 0 else 1
  {
  }

  lemma ReplacedTerminalSet(t: Table, p: int, s: int, line: int)
    requires IsTable(t) && IsReplacement(t, p, s)
    ensures var t' := Replaced(t, p, s);
            Terminals(t', line) == if line == t[p].line then Terminals(t, line) - {p} + {s} else Terminals(t, line)
    ensures line == t[p].line ==> p in Terminals(t, line)
  {
    hide IsTerminal, Replaced, IsTable;
    ReplacedMembers(t, p, s, line);
    ReplacedTerminals(t, p, s);
    assert Members(t, line) <= t.Keys;
  }

  lemma ReplacedIsTable(t: Table, p: int, s: int)
    requires IsTable(t) && IsReplacement(t, p, s)
    ensures IsTable(Replaced(t, p, s))
  {
  }

  ghost predicate IsHistory(tables: seq<Table>, changes: seq<Change>) {
    && |tables| == |changes| + 1 && tables[0] == map[]
    && forall i :: 0 <= i < |changes| ==> May(tables[i], changes[i]) && tables[i + 1] == After(tables[i], changes[i])
  }

  /** How many tickets checkout issued on a line. */
  ghost function Issued(changes: seq<Change>, line: int): nat {
    if changes == [] then 0
    else
      var last := changes[|changes| - 1];
      Issued(changes[..|changes| - 1], line) + if last.Issue? && last.line == line then 1 else 0
  }

  lemma IssueAddsRoot(t: Table, id: int, line: int, l: int)
    requires id !in t
    ensures |ChainRoots(After(t, Issue(id, line)), l)| == |ChainRoots(t, l)| + if l == line then 1 else 0
  {
    var t' := After(t, Issue(id, line));
    assert forall x :: x in t' <==> x in t || x == id;
    assert forall x :: x in t ==> t'[x] == t[x];
    assert id !in ChainRoots(t, l);
    assert ChainRoots(t', l) == ChainRoots(t, l) + if l == line then {id} else {};
  }

  lemma RevokeKeepsRoots(t: Table, id: int, l: int)
    requires id in t
    ensures ChainRoots(After(t, Revoke(id)), l) == ChainRoots(t, l)
  {
    var t' := After(t, Revoke(id));
    assert t'.Keys == t.Keys;
    assert forall x :: x in t ==> t'[x].line == t[x].line && t'[x].supersedes == t[x].supersedes;
  }

  lemma {:induction false} HistoryCounts(tables: seq<Table>, changes: seq<Change>, line: int)
    requires IsHistory(tables, changes)
    ensures Healthy(tables[|changes|]) && |ChainRoots(tables[|changes|], line)| == Issued(changes, line)
  {
    hide Healthy, ChainRoots, IsTable;
    var n := |changes|;
    if n == 0 {
      EmptyTable(line);
    } else {
      HistoryCounts(tables[..n], changes[..n - 1], line);
      var t, c := tables[n - 1], changes[n - 1];
      HealthyIsTable(t);
      ChangeKeepsHealth(t, c);
      match c
      case Issue(id, l) => IssueAddsRoot(t, id, l, line);
      case Transfer(p, s) => ReplacementKeepsCounts(t, p, s, line);
      case Revoke(id) => RevokeKeepsRoots(t, id, line);
    }
  }

  lemma HealthyIsTable(t: Table)
    requires Healthy(t)
    ensures IsTable(t)
  {
  }

  lemma EmptyTable(line: int)
    ensures Healthy(map[]) && ChainRoots(map[], line) == {}
  {
    var t: Table := map[];
    assert forall id :: id !in t;
    assert Members(t, line) == {};
  }

  /** After any history a line has one terminal member for every ticket issued on it, and no more ways in than that. */
  lemma TerminalsEqualIssued(tables: seq<Table>, changes: seq<Change>, line: int)
    requires IsHistory(tables, changes)
    ensures var t := tables[|changes|];
            && |Terminals(t, line)| == Issued(changes, line)
            && |Live(t, line)| <= Issued(changes, line)
            && !IsStranded(t, line)
  {
    hide May;
    var t := tables[|changes|];
    HistoryCounts(tables, changes, line);
    TerminalsCountIssuedIff(t, line);
    assert Live(t, line) <= Terminals(t, line);
    Smaller(Live(t, line), Terminals(t, line));
    if IsStranded(t, line) {
      NoRootNoMember(tables, changes, line);
    }
  }

  /** A line on which nothing was issued has no tickets. */
  lemma {:induction false} NoRootNoMember(tables: seq<Table>, changes: seq<Change>, line: int)
    requires IsHistory(tables, changes) && Issued(changes, line) == 0
    ensures Members(tables[|changes|], line) == {}
  {
    var n := |changes|;
    if n > 0 {
      NoRootNoMember(tables[..n], changes[..n - 1], line);
      var t, c := tables[n - 1], changes[n - 1];
      if c.Transfer? { assert c.predecessor !in Members(t, line); }
      assert Members(After(t, c), line) <= Members(t, line);
    }
  }

  /** The settlement check passes on every history exactly when no line was issued more tickets than it sold. */
  lemma SettlementCheckExact(tables: seq<Table>, changes: seq<Change>, line: int, quantity: nat)
    requires IsHistory(tables, changes)
    ensures var t := tables[|changes|];
            HasSurplus(t, line, quantity) || IsStranded(t, line) <==> Issued(changes, line) > quantity
    ensures var t := tables[|changes|];
            && (HasSurplusAuthority(t, line, quantity)
                <==> |set id | id in t && t[id].line == line && t[id].live| > quantity)
            && (Issued(changes, line) <= quantity ==> !HasSurplusAuthority(t, line, quantity))
  {
    TerminalsEqualIssued(tables, changes, line);
    var t := tables[|changes|];
    assert Live(t, line) == set id | id in t && t[id].line == line && t[id].live;
  }
}
