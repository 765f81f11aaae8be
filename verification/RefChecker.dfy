/** The contract check that every `$ref` of a generated document resolves inside it. */
module RefChecker {
  import opened Prelude
  import opened JsonTrees
  import opened Hoisting

  datatype RefIssue = LocalDefsRef | DanglingRef | ExternalRef

  function Verdict(pointer: string, known: set<string>): Option<RefIssue> {
    if StartsWith(pointer, LOCAL) then Some(LocalDefsRef)
    else if StartsWith(pointer, SHARED) then
      if pointer[|SHARED|..] in known then None else Some(DanglingRef)
    else Some(ExternalRef)
  }

  function PointerIssues(pointer: string, known: set<string>): seq<RefIssue> {
    match Verdict(pointer, known)
    case Some(issue) => [issue]
    case None => []
  }

  /** Names a component the document has. */
  function Resolves(known: set<string>): string -> bool {
    pointer => StartsWith(pointer, SHARED) && pointer[|SHARED|..] in known
  }

  function Concat<T>(parts: seq<seq<T>>): seq<T> {
    if parts == [] then [] else Concat(parts[..|parts| - 1]) + parts[|parts| - 1]
  }

  /** The issues of a fragment, in the order of the walk. */
  function RefIssues(node: Json, known: set<string>): seq<RefIssue>
    decreases node
  {
    match node
    case Arr(items) => Concat(seq(|items|, i requires 0 <= i < |items| => RefIssues(items[i], known)))
    case Obj(fields) =>
      Concat(seq(|fields|, i requires 0 <= i < |fields| =>
        if IsRef(fields[i]) then PointerIssues(fields[i].value.text, known) else RefIssues(fields[i].value, known)))
    case _ => []
  }

  /** The issues found so far. */
  class RefWalk {
    const known: set<string>
    var issues: seq<RefIssue>

    constructor (known: set<string>)
      ensures this.known == known && issues == []
    {
      this.known := known;
      issues := [];
    }

    method Walk(node: Json)
      modifies this
      ensures issues == old(issues) + RefIssues(node, known)
      decreases node, 2
    {
      match node
      case Arr(items) => WalkItems(node);
      case Obj(fields) => WalkFields(node);
      case _ =>
    }

    method WalkItems(node: Json)
      requires node.Arr?
      modifies this
      ensures issues == old(issues) + RefIssues(node, known)
      decreases node, 0
    {
      var items := node.items;
      ghost var parts := ItemIssues(items, known);
      IssuesOfItems(node, known);
      ConcatEnds(parts);
      hide RefIssues, ItemIssues, First;
      for i := 0 to |items|
        invariant issues == old(issues) + First(parts, i)
      {
        Walk(items[i]);
        ConcatNext(parts, i);
        Regroup(old(issues), First(parts, i), parts[i]);
      }
    }

    method WalkFields(node: Json)
      requires node.Obj?
      modifies this
      ensures issues == old(issues) + RefIssues(node, known)
      decreases node, 1
    {
      ghost var parts := FieldIssues(node.fields, known);
      IssuesOfFields(node, known);
      ConcatEnds(parts);
      hide RefIssues, FieldIssues, First, PointerIssues, IsRef;
      for i := 0 to |node.fields|
        invariant issues == old(issues) + First(parts, i)
      {
        WalkField(node, i);
        ConcatNext(parts, i);
        Regroup(old(issues), First(parts, i), parts[i]);
      }
    }

    method WalkField(node: Json, i: nat)
      requires node.Obj? && i < |node.fields|
      modifies this
      ensures issues == old(issues) + FieldIssues(node.fields, known)[i]
      decreases node, 0
    {
      hide RefIssues, FieldIssues, PointerIssues;
      var field := node.fields[i];
      if IsRef(field) {
        CheckPointer(field.value.text);
      } else {
        Walk(field.value);
      }
    }

    method CheckPointer(pointer: string)
      modifies this
      ensures issues == old(issues) + PointerIssues(pointer, known)
    {
      if StartsWith(pointer, LOCAL) {
        issues := issues + [LocalDefsRef];
      } else if StartsWith(pointer, SHARED) {
        if pointer[|SHARED|..] !in known {
          issues := issues + [DanglingRef];
        }
      } else {
        issues := issues + [ExternalRef];
      }
    }
  }

  ghost function ItemIssues(items: seq<Json>, known: set<string>): (r: seq<seq<RefIssue>>)
    ensures |r| == |items| && forall i :: 0 <= i < |items| ==> r[i] == RefIssues(items[i], known)
  {
    seq(|items|, i requires 0 <= i < |items| => RefIssues(items[i], known))
  }

  ghost function FieldIssues(fields: seq<Field>, known: set<string>): (r: seq<seq<RefIssue>>)
    ensures |r| == |fields|
    ensures forall i :: 0 <= i < |fields| ==>
      r[i] == if IsRef(fields[i]) then PointerIssues(fields[i].value.text, known) else RefIssues(fields[i].value, known)
  {
    seq(|fields|, i requires 0 <= i < |fields| =>
      if IsRef(fields[i]) then PointerIssues(fields[i].value.text, known) else RefIssues(fields[i].value, known))
  }

  lemma IssuesOfItems(node: Json, known: set<string>)
    requires node.Arr?
    ensures RefIssues(node, known) == Concat(ItemIssues(node.items, known))
  {
    assert ItemIssues(node.items, known)
        == seq(|node.items|, i requires 0 <= i < |node.items| => RefIssues(node.items[i], known));
  }

  lemma IssuesOfFields(node: Json, known: set<string>)
    requires node.Obj?
    ensures RefIssues(node, known) == Concat(FieldIssues(node.fields, known))
  {
    assert FieldIssues(node.fields, known)
        == seq(|node.fields|, i requires 0 <= i < |node.fields| =>
             if IsRef(node.fields[i]) then PointerIssues(node.fields[i].value.text, known)
             else RefIssues(node.fields[i].value, known));
  }

  /** The first `n` parts together. */
  function First<T>(parts: seq<seq<T>>, n: nat): seq<T>
    requires n <= |parts|
  {
    Concat(parts[..n])
  }

  lemma ConcatNext<T>(parts: seq<seq<T>>, i: nat)
    requires i < |parts|
    ensures First(parts, i + 1) == First(parts, i) + parts[i]
  {
    assert parts[..i + 1][..i] == parts[..i];
  }

  lemma ConcatEnds<T>(parts: seq<seq<T>>)
    ensures First(parts, 0) == [] && First(parts, |parts|) == Concat(parts)
  {
    assert parts[..|parts|] == parts;
  }

  lemma Regroup<T>(a: seq<T>, b: seq<T>, c: seq<T>)
    ensures a + b + c == a + (b + c)
  {
  }

  lemma {:induction false} ConcatEmpty<T>(parts: seq<seq<T>>)
    ensures Concat(parts) == [] <==> forall i :: 0 <= i < |parts| ==> parts[i] == []
  {
    if parts != [] {
      ConcatEmpty(parts[..|parts| - 1]);
    }
  }

  /** The walk is silent exactly on fragments whose every pointer names a known component. */
  lemma {:induction false} SilentIffResolved(node: Json, known: set<string>)
    ensures RefIssues(node, known) == [] <==> AllRefs(node, Resolves(known))
    decreases node
  {
    match node
    case Arr(items) =>
      IssuesOfItems(node, known);
      ConcatEmpty(ItemIssues(items, known));
      forall i | 0 <= i < |items| ensures RefIssues(items[i], known) == [] <==> AllRefs(items[i], Resolves(known)) {
        SilentIffResolved(items[i], known);
      }
    case Obj(fields) =>
      IssuesOfFields(node, known);
      ConcatEmpty(FieldIssues(fields, known));
      forall i | 0 <= i < |fields|
        ensures FieldIssues(fields, known)[i] == [] <==>
          if IsRef(fields[i]) then Resolves(known)(fields[i].value.text) else AllRefs(fields[i].value, Resolves(known))
      {
        if IsRef(fields[i]) {
          VerdictResolves(fields[i].value.text, known);
        } else {
          SilentIffResolved(fields[i].value, known);
        }
      }
    case _ =>
  }

  lemma VerdictResolves(pointer: string, known: set<string>)
    ensures Verdict(pointer, known).None? <==> Resolves(known)(pointer)
  {
    if StartsWith(pointer, LOCAL) { PrefixesDiffer(pointer); }
  }

  /** What holds of the rewritten pointers is what holds of the pointers once repointed. */
  lemma {:induction false} RewrittenRefs(node: Json, renames: map<string, string>, good: string -> bool)
    ensures AllRefs(RewriteRefs(node, renames), good) <==> AllRefs(node, pointer => good(Repointed(pointer, renames)))
    decreases node
  {
    var before := pointer => good(Repointed(pointer, renames));
    match node
    case Arr(items) =>
      var after := RewriteRefs(node, renames).items;
      forall i | 0 <= i < |items| ensures AllRefs(after[i], good) <==> AllRefs(items[i], before) {
        RewrittenRefs(items[i], renames, good);
      }
    case Obj(fields) =>
      var after := RewriteRefs(node, renames).fields;
      forall i | 0 <= i < |fields|
        ensures IsRef(after[i]) <==> IsRef(fields[i])
        ensures (if IsRef(after[i]) then good(after[i].value.text) else AllRefs(after[i].value, good))
                <==> if IsRef(fields[i]) then before(fields[i].value.text) else AllRefs(fields[i].value, before)
      {
        if !IsRef(fields[i]) { RewrittenRefs(fields[i].value, renames, good); }
      }
    case _ =>
  }
}
