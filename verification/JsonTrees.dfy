/** JSON values, JavaScript objects as field lists, and the `$ref` pointers inside them. */
module JsonTrees {
  import opened Prelude

  datatype Json =
    | Null
    | Bool(truth: bool)
    | Number(number: int)
    | Text(text: string)
    | Arr(items: seq<Json>)
    | Obj(fields: seq<Field>)

  datatype Field = Field(key: string, value: Json)

  function Keys(fields: seq<Field>): set<string> { set f | f in fields :: f.key }

  /** The fields of a JavaScript object: no key twice. */
  predicate IsObject(fields: seq<Field>) {
    forall i, j :: 0 <= i < j < |fields| ==> fields[i].key != fields[j].key
  }

  function Get(fields: seq<Field>, key: string): (r: Option<Json>)
    ensures r.Some? <==> key in Keys(fields)
    ensures r.Some? ==> Field(key, r.value) in fields
  {
    if fields == [] then None
    else if fields[0].key == key then Some(fields[0].value)
    else
      var rest := Get(fields[1..], key);
      assert fields == [fields[0]] + fields[1..];
      rest
  }

  /** `object[key] = value`: in place when the key is there, at the end otherwise. */
  function Put(fields: seq<Field>, key: string, value: Json): (r: seq<Field>)
    ensures Keys(r) == Keys(fields) + {key}
  {
    if fields == [] then [Field(key, value)]
    else if fields[0].key == key then
      assert fields == [fields[0]] + fields[1..];
      [Field(key, value)] + fields[1..]
    else
      assert fields == [fields[0]] + fields[1..];
      var rest := Put(fields[1..], key, value);
      assert Keys([fields[0]] + rest) == {fields[0].key} + Keys(rest);
      [fields[0]] + rest
  }

  /** Every field but the one called `key`. */
  function Without(fields: seq<Field>, key: string): (r: seq<Field>)
    ensures forall f :: f in r <==> f in fields && f.key != key
  {
    if fields == [] then []
    else
      assert fields == [fields[0]] + fields[1..];
      (if fields[0].key == key then [] else [fields[0]]) + Without(fields[1..], key)
  }

  lemma {:induction false} GetPut(fields: seq<Field>, key: string, value: Json, other: string)
    ensures Get(Put(fields, key, value), other) == if other == key then Some(value) else Get(fields, other)
  {
    if fields != [] && fields[0].key != key {
      GetPut(fields[1..], key, value, other);
      assert Put(fields, key, value)[1..] == Put(fields[1..], key, value);
    } else if fields != [] {
      assert Put(fields, key, value)[1..] == fields[1..];
    }
  }

  /** A key that is there keeps its place, and a new one comes last. */
  lemma {:induction false} PutInPlace(fields: seq<Field>, key: string, value: Json, i: nat)
    requires i < |fields| && fields[i].key == key && forall j :: 0 <= j < i ==> fields[j].key != key
    ensures Put(fields, key, value) == fields[i := Field(key, value)]
  {
    if i > 0 {
      PutInPlace(fields[1..], key, value, i - 1);
      assert fields[i := Field(key, value)] == [fields[0]] + fields[1..][i - 1 := Field(key, value)];
    }
  }

  lemma {:induction false} PutLast(fields: seq<Field>, key: string, value: Json)
    requires key !in Keys(fields)
    ensures Put(fields, key, value) == fields + [Field(key, value)]
  {
    if fields != [] {
      assert fields == [fields[0]] + fields[1..];
      PutLast(fields[1..], key, value);
    }
  }

  lemma {:induction false} WithoutJoins(a: seq<Field>, b: seq<Field>, key: string)
    ensures Without(a + b, key) == Without(a, key) + Without(b, key)
  {
    if a == [] {
      assert a + b == b;
    } else {
      assert (a + b)[1..] == a[1..] + b;
      WithoutJoins(a[1..], b, key);
    }
  }

  lemma {:induction false} PutIsObject(fields: seq<Field>, key: string, value: Json)
    requires IsObject(fields)
    ensures IsObject(Put(fields, key, value))
    ensures |Put(fields, key, value)| == |fields| + if key in Keys(fields) then 0 else 1
  {
    if fields != [] {
      assert fields == [fields[0]] + fields[1..];
      if fields[0].key != key {
        var rest := Put(fields[1..], key, value);
        PutIsObject(fields[1..], key, value);
        forall j | 0 <= j < |rest| ensures rest[j].key != fields[0].key {
          assert rest[j].key in Keys(rest);
          assert fields[0].key !in Keys(fields[1..]);
        }
      } else {
        assert key in Keys(fields);
      }
    }
  }

  /** In an object the field found under a key is the only one there. */
  lemma {:induction false} GetOnly(fields: seq<Field>, i: nat)
    requires IsObject(fields) && i < |fields|
    ensures Get(fields, fields[i].key) == Some(fields[i].value)
  {
    if i > 0 {
      GetOnly(fields[1..], i - 1);
    }
  }

  predicate StartsWith(s: string, prefix: string) { |prefix| <= |s| && s[..|prefix|] == prefix }

  const REF := "$ref"
  const DEFS := "$defs"
  const LOCAL := "#/$defs/"
  const SHARED := "#/components/schemas/"

  predicate IsRef(f: Field) { f.key == REF && f.value.Text? }

  /** Every pointer inside `node` meets `good`. */
  ghost predicate AllRefs(node: Json, good: string -> bool)
    decreases node
  {
    match node
    case Arr(items) => forall i :: 0 <= i < |items| ==> AllRefs(items[i], good)
    case Obj(fields) =>
      forall i :: 0 <= i < |fields| ==>
        if IsRef(fields[i]) then good(fields[i].value.text) else AllRefs(fields[i].value, good)
    case _ => true
  }

  lemma AllRefsImply(node: Json, good: string -> bool, weaker: string -> bool)
    requires AllRefs(node, good)
    requires forall s :: good(s) ==> weaker(s)
    ensures AllRefs(node, weaker)
    decreases node
  {
    match node
    case Arr(items) =>
      forall i | 0 <= i < |items| ensures AllRefs(items[i], weaker) { AllRefsImply(items[i], good, weaker); }
    case Obj(fields) =>
      forall i | 0 <= i < |fields| && !IsRef(fields[i]) ensures AllRefs(fields[i].value, weaker) {
        AllRefsImply(fields[i].value, good, weaker);
      }
    case _ =>
  }

  /** What a fragment means once its pointers are followed. */
  datatype Tree =
    | Leaf(value: Json)
    | Items(items: seq<Tree>)
    | Members(members: seq<Member>)

  datatype Member =
    | Plain(key: string, value: Tree)
    | Reached(target: Tree)
    | Unexplored
    | Dangling
    | Foreign(pointer: string)

  /** `node` with every pointer under `home` replaced by what `env` holds there, `k` pointers deep. */
  ghost function Unfold(k: nat, node: Json, home: string, env: seq<Field>): Tree
    decreases k, node
  {
    match node
    case Arr(items) => Items(seq(|items|, i requires 0 <= i < |items| => Unfold(k, items[i], home, env)))
    case Obj(fields) =>
      Members(seq(|fields|, i requires 0 <= i < |fields| =>
        if !IsRef(fields[i]) then Plain(fields[i].key, Unfold(k, fields[i].value, home, env))
        else if !StartsWith(fields[i].value.text, home) then Foreign(fields[i].value.text)
        else
          match Get(env, fields[i].value.text[|home|..])
          case None => Dangling
          case Some(target) => if k == 0 then Unexplored else Reached(Unfold(k - 1, target, home, env))))
    case _ => Leaf(node)
  }
}
