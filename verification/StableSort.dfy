/** The stable order `Array.prototype.sort` gives: what it is, and that nothing else is one. */
module StableSort {

  /** A configured order, and the rank of a label in a fixed collation. */
  datatype Key = Key(order: int, rank: int)

  predicate Below(a: Key, b: Key) { a.order < b.order || (a.order == b.order && a.rank < b.rank) }

  predicate IsOrdered<T(!new)>(items: seq<T>, key: T -> Key) {
    forall i, j :: 0 <= i < j < |items| ==> !Below(key(items[j]), key(items[i]))
  }

  /** The items of one key, in the order they come in. */
  function Tied<T>(items: seq<T>, key: T -> Key, k: Key): seq<T> {
    if items == [] then []
    else (if key(items[0]) == k then [items[0]] else []) + Tied(items[1..], key, k)
  }

  /** After everything not above it. */
  function Inserted<T>(items: seq<T>, x: T, key: T -> Key): seq<T> {
    if items == [] then [x]
    else if Below(key(x), key(items[0])) then [x] + items
    else [items[0]] + Inserted(items[1..], x, key)
  }

  function Ordered<T>(items: seq<T>, key: T -> Key): seq<T> {
    if items == [] then [] else Inserted(Ordered(items[..|items| - 1], key), items[|items| - 1], key)
  }

  lemma {:induction false} InsertedContents<T(!new)>(items: seq<T>, x: T, key: T -> Key)
    ensures multiset(Inserted(items, x, key)) == multiset(items) + multiset{x}
  {
    if items != [] {
      assert items == [items[0]] + items[1..];
      if !Below(key(x), key(items[0])) { InsertedContents(items[1..], x, key); }
    }
  }

  lemma {:induction false} OrderedContents<T(!new)>(items: seq<T>, key: T -> Key)
    ensures multiset(Ordered(items, key)) == multiset(items)
  {
    if items != [] {
      var n := |items| - 1;
      assert items == items[..n] + [items[n]];
      OrderedContents(items[..n], key);
      InsertedContents(Ordered(items[..n], key), items[n], key);
    }
  }

  lemma FirstIsLeast<T(!new)>(items: seq<T>, key: T -> Key)
    requires items != [] && IsOrdered(items, key)
    ensures forall y :: y in items ==> !Below(key(y), key(items[0]))
  {
  }

  lemma ConsOrdered<T(!new)>(x: T, items: seq<T>, key: T -> Key)
    requires IsOrdered(items, key) && forall y :: y in items ==> !Below(key(y), key(x))
    ensures IsOrdered([x] + items, key)
  {
    var all := [x] + items;
    forall i, j | 0 <= i < j < |all| ensures !Below(key(all[j]), key(all[i])) {
      assert all[j] == items[j - 1] && items[j - 1] in items;
      if i > 0 { assert all[i] == items[i - 1]; }
    }
  }

  lemma {:induction false} InsertedOrdered<T(!new)>(items: seq<T>, x: T, key: T -> Key)
    requires IsOrdered(items, key)
    ensures IsOrdered(Inserted(items, x, key), key)
  {
    if items != [] {
      var first, rest := items[0], items[1..];
      assert IsOrdered(rest, key);
      if Below(key(x), key(first)) {
        FirstIsLeast(items, key);
        ConsOrdered(x, items, key);
      } else {
        InsertedOrdered(rest, x, key);
        InsertedContents(rest, x, key);
        forall y | y in Inserted(rest, x, key) ensures !Below(key(y), key(first)) {
          assert y in multiset(Inserted(rest, x, key));
          assert y in multiset(rest) || y == x;
          assert y in rest ==> y in items;
          FirstIsLeast(items, key);
        }
        ConsOrdered(first, Inserted(rest, x, key), key);
      }
    }
  }

  lemma {:induction false} OrderedIsOrdered<T(!new)>(items: seq<T>, key: T -> Key)
    ensures IsOrdered(Ordered(items, key), key)
  {
    if items != [] {
      OrderedIsOrdered(items[..|items| - 1], key);
      InsertedOrdered(Ordered(items[..|items| - 1], key), items[|items| - 1], key);
    }
  }

  lemma {:induction false} TiedNone<T(!new)>(items: seq<T>, key: T -> Key, k: Key)
    requires forall y :: y in items ==> key(y) != k
    ensures Tied(items, key, k) == []
  {
    if items != [] {
      assert items[0] in items;
      TiedNone(items[1..], key, k);
    }
  }

  lemma {:induction false} InsertedTied<T(!new)>(items: seq<T>, x: T, key: T -> Key, k: Key)
    requires IsOrdered(items, key)
    ensures Tied(Inserted(items, x, key), key, k) == Tied(items, key, k) + if key(x) == k then [x] else []
  {
    if items != [] {
      assert IsOrdered(items[1..], key);
      if Below(key(x), key(items[0])) {
        assert ([x] + items)[1..] == items;
        if key(x) == k {
          FirstIsLeast(items, key);
          TiedNone(items, key, k);
        }
      } else {
        InsertedTied(items[1..], x, key, k);
        assert Inserted(items, x, key)[1..] == Inserted(items[1..], x, key);
      }
    } else {
      assert [x][1..] == [];
    }
  }

  lemma {:induction false} TiedMore<T(!new)>(items: seq<T>, x: T, key: T -> Key, k: Key)
    ensures Tied(items + [x], key, k) == Tied(items, key, k) + if key(x) == k then [x] else []
  {
    if items == [] {
      assert items + [x] == [x] && [x][1..] == [];
    } else {
      assert (items + [x])[1..] == items[1..] + [x];
      TiedMore(items[1..], x, key, k);
    }
  }

  /** Items of one key keep their order. */
  lemma {:induction false} OrderedIsStable<T(!new)>(items: seq<T>, key: T -> Key, k: Key)
    ensures Tied(Ordered(items, key), key, k) == Tied(items, key, k)
  {
    if items != [] {
      var n := |items| - 1;
      assert items == items[..n] + [items[n]];
      OrderedIsStable(items[..n], key, k);
      OrderedIsOrdered(items[..n], key);
      InsertedTied(Ordered(items[..n], key), items[n], key, k);
      TiedMore(items[..n], items[n], key, k);
    }
  }

  lemma {:induction false} TiedMembers<T(!new)>(items: seq<T>, key: T -> Key, k: Key)
    ensures forall y :: y in Tied(items, key, k) <==> y in items && key(y) == k
  {
    if items != [] {
      assert items == [items[0]] + items[1..];
      TiedMembers(items[1..], key, k);
    }
  }

  /** Only one arrangement is ordered and keeps the order of ties. */
  lemma {:induction false} StableOrderUnique<T(!new)>(a: seq<T>, b: seq<T>, key: T -> Key)
    requires IsOrdered(a, key) && IsOrdered(b, key)
    requires forall k :: Tied(a, key, k) == Tied(b, key, k)
    ensures a == b
    decreases |a|
  {
    if a == [] || b == [] {
      if a != [] { TiedMembers(a, key, key(a[0])); }
      if b != [] { TiedMembers(b, key, key(b[0])); }
    } else {
      var k := key(a[0]);
      SameHeads(a, b, key);
      assert key(b[0]) == k;
      assert Tied(a, key, k)[0] == a[0] && Tied(b, key, k)[0] == b[0];
      forall l ensures Tied(a[1..], key, l) == Tied(b[1..], key, l) {
        var n := if k == l then 1 else 0;
        assert Tied(a[1..], key, l) == Tied(a, key, l)[n..];
        assert Tied(b[1..], key, l) == Tied(b, key, l)[n..];
      }
      StableOrderUnique(a[1..], b[1..], key);
      assert a == [a[0]] + a[1..] && b == [b[0]] + b[1..];
    }
  }

  lemma SameHeads<T(!new)>(a: seq<T>, b: seq<T>, key: T -> Key)
    requires a != [] && b != [] && IsOrdered(a, key) && IsOrdered(b, key)
    requires forall k :: Tied(a, key, k) == Tied(b, key, k)
    ensures key(a[0]) == key(b[0])
  {
    TiedMembers(a, key, key(a[0]));
    TiedMembers(b, key, key(a[0]));
    TiedMembers(a, key, key(b[0]));
    TiedMembers(b, key, key(b[0]));
    assert a[0] in Tied(b, key, key(a[0])) && b[0] in Tied(a, key, key(b[0]));
    FirstIsLeast(a, key);
    FirstIsLeast(b, key);
  }
}
