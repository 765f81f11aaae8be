/** Moving a fragment's `$defs` into the shared bag of component schemas. */
module Hoisting {
  import opened Prelude
  import opened JsonTrees

  /** `renames[name] ?? name`, for a pointer into `$defs`; any other pointer stays. */
  function Repointed(pointer: string, renames: map<string, string>): string {
    if StartsWith(pointer, LOCAL) then
      var name := pointer[|LOCAL|..];
      SHARED + if name in renames then renames[name] else name
    else pointer
  }

  function RewriteRefs(node: Json, renames: map<string, string>): (r: Json)
    ensures r.Obj? <==> node.Obj?
    decreases node
  {
    match node
    case Arr(items) => Arr(seq(|items|, i requires 0 <= i < |items| => RewriteRefs(items[i], renames)))
    case Obj(fields) =>
      Obj(seq(|fields|, i requires 0 <= i < |fields| =>
        if IsRef(fields[i]) then Field(REF, Text(Repointed(fields[i].value.text, renames)))
        else Field(fields[i].key, RewriteRefs(fields[i].value, renames))))
    case _ => node
  }

  predicate IsSafe(c: char) {
    'A' <= c <= 'Z' || 'a' <= c <= 'z' || '0' <= c <= '9' || c == '_' || c == '.' || c == '-'
  }

  function SafePrefix(prefix: string): (r: string)
    ensures |r| == |prefix| && forall i :: 0 <= i < |r| ==> r[i] == prefix[i] || (r[i] == '_' && !IsSafe(prefix[i]))
    ensures forall c :: c in r ==>
              'A' <= c <= 'Z' || 'a' <= c <= 'z' || '0' <= c <= '9' || c == '_' || c == '.' || c == '-'
  {
    seq(|prefix|, i requires 0 <= i < |prefix| => if IsSafe(prefix[i]) then prefix[i] else '_')
  }

  function Key(prefix: string, name: string): string { SafePrefix(prefix) + "." + name }

  function Renames(defs: seq<Field>, prefix: string): (r: map<string, string>)
    ensures r.Keys == Keys(defs)
  {
    map name | name in Keys(defs) :: Key(prefix, name)
  }

  lemma RenamesNext(defs: seq<Field>, i: nat, prefix: string)
    requires i < |defs|
    ensures Renames(defs[..i + 1], prefix) == Renames(defs[..i], prefix)[defs[i].key := Key(prefix, defs[i].key)]
  {
    assert defs[..i + 1] == defs[..i] + [defs[i]];
    assert Keys(defs[..i + 1]) == Keys(defs[..i]) + {defs[i].key};
  }

  /** The `$defs` of a fragment, which when present is an object. */
  function Defs(fragment: seq<Field>): seq<Field> {
    match Get(fragment, DEFS)
    case Some(Obj(defs)) => defs
    case _ => []
  }

  function Rest(fragment: seq<Field>): seq<Field> { Without(fragment, DEFS) }

  /** The bag once the definitions have been written into it one after the other. */
  function Stored(bag: seq<Field>, defs: seq<Field>, prefix: string, renames: map<string, string>): seq<Field>
    decreases |defs|
  {
    if defs == [] then bag
    else Stored(Put(bag, Key(prefix, defs[0].key), RewriteRefs(defs[0].value, renames)), defs[1..], prefix, renames)
  }

  function HoistedBag(bag: seq<Field>, fragment: seq<Field>, prefix: string): seq<Field> {
    Stored(bag, Defs(fragment), prefix, Renames(Defs(fragment), prefix))
  }

  function HoistedRest(fragment: seq<Field>, prefix: string): (r: seq<Field>) {
    if Defs(fragment) == [] then Rest(fragment)
    else RewriteRefs(Obj(Rest(fragment)), Renames(Defs(fragment), prefix)).fields
  }

  /** The document's `components.schemas`. */
  class ComponentBag {
    var schemas: seq<Field>

    constructor ()
      ensures schemas == []
    {
      schemas := [];
    }

    method HoistDefinitions(fragment: seq<Field>, prefix: string) returns (rest: seq<Field>)
      modifies this
      ensures schemas == HoistedBag(old(schemas), fragment, prefix)
      ensures rest == HoistedRest(fragment, prefix)
    {
      hide RewriteRefs, Defs, Rest, Key, Put;
      var defs := Defs(fragment);
      rest := Rest(fragment);
      if |defs| == 0 {
        return;
      }
      var renames: map<string, string> := map[];
      for i := 0 to |defs|
        invariant schemas == old(schemas)
        invariant renames == Renames(defs[..i], prefix)
      {
        RenamesNext(defs, i, prefix);
        renames := renames[defs[i].key := Key(prefix, defs[i].key)];
      }
      assert defs[..|defs|] == defs;
      for i := 0 to |defs|
        invariant Stored(schemas, defs[i..], prefix, renames) == Stored(old(schemas), defs, prefix, renames)
      {
        assert defs[i..][1..] == defs[i + 1..];
        schemas := Put(schemas, renames[defs[i].key], RewriteRefs(defs[i].value, renames));
      }
      rest := RewriteRefs(Obj(rest), renames).fields;
    }
  }

  // --- Fragments and what their pointers name ---

  /** Every pointer goes to a definition of the fragment itself. */
  function Names(defs: seq<Field>): string -> bool {
    pointer => StartsWith(pointer, LOCAL) && pointer[|LOCAL|..] in Keys(defs)
  }

  /** A pointer into `$defs` goes to a definition there, and none goes to a component. */
  function KeepsOut(defs: seq<Field>): string -> bool {
    pointer => if StartsWith(pointer, LOCAL) then pointer[|LOCAL|..] in Keys(defs) else !StartsWith(pointer, SHARED)
  }

  ghost predicate Throughout(fragment: seq<Field>, good: string -> bool) {
    && AllRefs(Obj(Rest(fragment)), good)
    && forall d :: d in Defs(fragment) ==> AllRefs(d.value, good)
  }

  ghost predicate IsClosed(fragment: seq<Field>) {
    && IsObject(fragment) && IsObject(Defs(fragment))
    && Throughout(fragment, Names(Defs(fragment)))
  }

  ghost predicate IsTame(fragment: seq<Field>) {
    && IsObject(fragment) && IsObject(Defs(fragment))
    && Throughout(fragment, KeepsOut(Defs(fragment)))
  }

  lemma ClosedIsTame(fragment: seq<Field>)
    requires IsClosed(fragment)
    ensures IsTame(fragment)
  {
    var defs := Defs(fragment);
    AllRefsImply(Obj(Rest(fragment)), Names(defs), KeepsOut(defs));
    forall d | d in defs ensures AllRefs(d.value, KeepsOut(defs)) {
      AllRefsImply(d.value, Names(defs), KeepsOut(defs));
    }
  }

  /** The bag holds every definition of the fragment, rewritten, under its own key. */
  ghost predicate Holds(bag: seq<Field>, fragment: seq<Field>, prefix: string) {
    var defs := Defs(fragment);
    forall d :: d in defs ==> Get(bag, Key(prefix, d.key)) == Some(RewriteRefs(d.value, Renames(defs, prefix)))
  }

  lemma PrefixFacts(name: string)
    ensures StartsWith(LOCAL + name, LOCAL) && (LOCAL + name)[|LOCAL|..] == name
    ensures StartsWith(SHARED + name, SHARED) && (SHARED + name)[|SHARED|..] == name
  {
  }

  lemma PrefixesDiffer(pointer: string)
    requires StartsWith(pointer, LOCAL)
    ensures !StartsWith(pointer, SHARED)
  {
    assert pointer[2] == LOCAL[2] == '$' && SHARED[2] == 'c';
    assert |pointer| >= |SHARED| ==> pointer[..|SHARED|][2] == '$';
  }

  lemma KeysTellNamesApart(prefix: string, a: string, b: string)
    requires Key(prefix, a) == Key(prefix, b)
    ensures a == b
  {
    var n := |SafePrefix(prefix)| + 1;
    assert a == Key(prefix, a)[n..] && b == Key(prefix, b)[n..];
  }

  lemma {:induction false} StoredElsewhere(
      bag: seq<Field>, defs: seq<Field>, prefix: string, renames: map<string, string>, key: string)
    requires forall d :: d in defs ==> Key(prefix, d.key) != key
    ensures Get(Stored(bag, defs, prefix, renames), key) == Get(bag, key)
    decreases |defs|
  {
    if defs != [] {
      assert defs[0] in defs;
      GetPut(bag, Key(prefix, defs[0].key), RewriteRefs(defs[0].value, renames), key);
      StoredElsewhere(Put(bag, Key(prefix, defs[0].key), RewriteRefs(defs[0].value, renames)), defs[1..], prefix,
          renames, key);
    }
  }

  lemma {:induction false} StoredAt(
      bag: seq<Field>, defs: seq<Field>, prefix: string, renames: map<string, string>, i: nat)
    requires IsObject(defs) && i < |defs|
    ensures Get(Stored(bag, defs, prefix, renames), Key(prefix, defs[i].key))
            == Some(RewriteRefs(defs[i].value, renames))
    decreases |defs|
  {
    var next := Put(bag, Key(prefix, defs[0].key), RewriteRefs(defs[0].value, renames));
    if i == 0 {
      GetPut(bag, Key(prefix, defs[0].key), RewriteRefs(defs[0].value, renames), Key(prefix, defs[0].key));
      forall d | d in defs[1..] ensures Key(prefix, d.key) != Key(prefix, defs[0].key) {
        if Key(prefix, d.key) == Key(prefix, defs[0].key) { KeysTellNamesApart(prefix, d.key, defs[0].key); }
      }
      StoredElsewhere(next, defs[1..], prefix, renames, Key(prefix, defs[0].key));
    } else {
      StoredAt(next, defs[1..], prefix, renames, i - 1);
    }
  }

  /** A hoist adds exactly the fragment's keys to the bag, each holding its rewritten definition. */
  lemma HoistStores(bag: seq<Field>, fragment: seq<Field>, prefix: string)
    requires IsObject(Defs(fragment))
    ensures Holds(HoistedBag(bag, fragment, prefix), fragment, prefix)
    ensures forall key :: (forall d :: d in Defs(fragment) ==> Key(prefix, d.key) != key)
                           ==> Get(HoistedBag(bag, fragment, prefix), key) == Get(bag, key)
  {
    var defs := Defs(fragment);
    var renames := Renames(defs, prefix);
    forall d | d in defs
      ensures Get(HoistedBag(bag, fragment, prefix), Key(prefix, d.key)) == Some(RewriteRefs(d.value, renames))
    {
      var i :| 0 <= i < |defs| && defs[i] == d;
      StoredAt(bag, defs, prefix, renames, i);
    }
    forall key | forall d :: d in defs ==> Key(prefix, d.key) != key
      ensures Get(HoistedBag(bag, fragment, prefix), key) == Get(bag, key)
    {
      StoredElsewhere(bag, defs, prefix, renames, key);
    }
  }

  // --- Rewriting preserves meaning ---

  /** One pointer, followed before hoisting and after it. */
  lemma PointerPreserved(pointer: string, bag: seq<Field>, fragment: seq<Field>, prefix: string)
    requires KeepsOut(Defs(fragment))(pointer) && IsObject(Defs(fragment)) && Holds(bag, fragment, prefix)
    ensures var moved := Repointed(pointer, Renames(Defs(fragment), prefix));
            if StartsWith(pointer, LOCAL) then
              && StartsWith(moved, SHARED)
              && Get(Defs(fragment), pointer[|LOCAL|..]).Some?
              && Get(bag, moved[|SHARED|..])
                 == Some(RewriteRefs(Get(Defs(fragment), pointer[|LOCAL|..]).value, Renames(Defs(fragment), prefix)))
            else moved == pointer && !StartsWith(moved, SHARED)
  {
    if StartsWith(pointer, LOCAL) {
      var name := pointer[|LOCAL|..];
      PrefixFacts(Key(prefix, name));
      assert Field(name, Get(Defs(fragment), name).value) in Defs(fragment);
    }
  }

  /**
   * Following pointers to any depth gives the same tree before the hoist, against the fragment's own
   * definitions, and after it, against the bag. Recursive definitions included.
   */
  lemma {:induction false} RewritePreservesMeaning(
      k: nat, node: Json, bag: seq<Field>, fragment: seq<Field>, prefix: string)
    requires IsTame(fragment) && AllRefs(node, KeepsOut(Defs(fragment))) && Holds(bag, fragment, prefix)
    ensures Unfold(k, RewriteRefs(node, Renames(Defs(fragment), prefix)), SHARED, bag)
            == Unfold(k, node, LOCAL, Defs(fragment))
    decreases k, node, 1
  {
    var defs, renames := Defs(fragment), Renames(Defs(fragment), prefix);
    match node
    case Arr(items) =>
      hide Defs, Holds, IsTame, Renames;
      forall i | 0 <= i < |items|
        ensures Unfold(k, RewriteRefs(items[i], renames), SHARED, bag) == Unfold(k, items[i], LOCAL, defs)
      {
        RewritePreservesMeaning(k, items[i], bag, fragment, prefix);
      }
      assert Unfold(k, RewriteRefs(node, renames), SHARED, bag).items == Unfold(k, node, LOCAL, defs).items;
    case Obj(fields) =>
      hide Defs, Holds, IsTame, Renames;
      var before, after := Unfold(k, node, LOCAL, defs), Unfold(k, RewriteRefs(node, renames), SHARED, bag);
      forall i | 0 <= i < |fields| ensures after.members[i] == before.members[i] {
        if IsRef(fields[i]) {
          ReferencePreserved(k, node, i, bag, fragment, prefix);
        } else {
          RewritePreservesMeaning(k, fields[i].value, bag, fragment, prefix);
        }
      }
      assert after.members == before.members;
    case _ =>
  }

  lemma {:induction false} ReferencePreserved(
      k: nat, node: Json, i: nat, bag: seq<Field>, fragment: seq<Field>, prefix: string)
    requires IsTame(fragment) && AllRefs(node, KeepsOut(Defs(fragment))) && Holds(bag, fragment, prefix)
    requires node.Obj? && i < |node.fields| && IsRef(node.fields[i])
    ensures Unfold(k, RewriteRefs(node, Renames(Defs(fragment), prefix)), SHARED, bag).members[i]
            == Unfold(k, node, LOCAL, Defs(fragment)).members[i]
    decreases k, node, 0
  {
    hide Holds, Renames, Defs;
    var defs, pointer := Defs(fragment), node.fields[i].value.text;
    PointerPreserved(pointer, bag, fragment, prefix);
    if StartsWith(pointer, LOCAL) && k > 0 {
      var target := Get(defs, pointer[|LOCAL|..]).value;
      assert AllRefs(target, KeepsOut(defs)) by { assert Field(pointer[|LOCAL|..], target) in defs; }
      RewritePreservesMeaning(k - 1, target, bag, fragment, prefix);
    }
  }

  lemma NothingToRewrite(node: Json, renames: map<string, string>)
    requires AllRefs(node, pointer => !StartsWith(pointer, LOCAL))
    ensures RewriteRefs(node, renames) == node
    decreases node
  {
    match node
    case Arr(items) =>
      forall i | 0 <= i < |items| ensures RewriteRefs(items[i], renames) == items[i] {
        NothingToRewrite(items[i], renames);
      }
      assert RewriteRefs(node, renames).items == items;
    case Obj(fields) =>
      forall i | 0 <= i < |fields| ensures RewriteRefs(node, renames).fields[i] == fields[i] {
        if !IsRef(fields[i]) { NothingToRewrite(fields[i].value, renames); }
      }
      assert RewriteRefs(node, renames).fields == fields;
    case _ =>
  }

  /** A fragment without definitions is returned as it is, which is what rewriting it would give. */
  lemma RestIsRewritten(fragment: seq<Field>, prefix: string)
    requires IsTame(fragment)
    ensures Obj(HoistedRest(fragment, prefix)) == RewriteRefs(Obj(Rest(fragment)), Renames(Defs(fragment), prefix))
  {
    if Defs(fragment) == [] {
      AllRefsImply(Obj(Rest(fragment)), KeepsOut([]), pointer => !StartsWith(pointer, LOCAL));
      NothingToRewrite(Obj(Rest(fragment)), Renames([], prefix));
    }
  }

  lemma HoistPreservesMeaning(k: nat, bag: seq<Field>, fragment: seq<Field>, prefix: string)
    requires IsTame(fragment)
    ensures Unfold(k, Obj(HoistedRest(fragment, prefix)), SHARED, HoistedBag(bag, fragment, prefix))
            == Unfold(k, Obj(Rest(fragment)), LOCAL, Defs(fragment))
  {
    HoistStores(bag, fragment, prefix);
    RestIsRewritten(fragment, prefix);
    RewritePreservesMeaning(k, Obj(Rest(fragment)), HoistedBag(bag, fragment, prefix), fragment, prefix);
  }
}
