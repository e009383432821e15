/** A `BTreeMap` is modelled as a `map`; iterating over it follows the strictly
    increasing list of its keys, which this module constructs and shows unique. */
module Ordered {
  import opened Primitives

  ghost predicate StrictTotal<K(!new)>(less: (K, K) -> bool) {
    && (forall x :: !less(x, x))
    && (forall x, y, z :: less(x, y) && less(y, z) ==> less(x, z))
    && (forall x, y :: x == y || less(x, y) || less(y, x))
  }

  ghost predicate Increasing<K>(less: (K, K) -> bool, s: seq<K>) {
    forall i, j :: 0 <= i < j < |s| ==> less(s[i], s[j])
  }

  lemma LeastExists<K(!new)>(less: (K, K) -> bool, s: set<K>) returns (least: K)
    requires StrictTotal(less) && s != {}
    ensures least in s && forall k :: k in s ==> k == least || less(least, k)
    decreases |s|
  {
    var k :| k in s;
    if s == {k} {
      least := k;
    } else {
      var m := LeastExists(less, s - {k});
      least := if less(k, m) then k else m;
      forall o | o in s ensures o == least || less(least, o) {
        assert o == k || o in s - {k};
      }
    }
  }

  /** The elements of `s` in increasing order (`KeysIncreasing`): a `BTreeMap`'s iteration order. */
  function Keys<K(!new, ==)>(less: (K, K) -> bool, s: set<K>): (r: seq<K>)
    requires StrictTotal(less)
    ensures forall k :: k in r <==> k in s
    ensures |r| == |s|
    decreases |s|
  {
    if s == {} then []
    else
      var k := Least(less, s);
      var r := [k] + Keys(less, s - {k});
      assert forall o :: o in s <==> o == k || o in s - {k};
      r
  }

  lemma {:induction false} KeysIncreasing<K(!new)>(less: (K, K) -> bool, s: set<K>)
    requires StrictTotal(less)
    ensures Increasing(less, Keys(less, s))
    decreases |s|
  {
    if s == {} {
    } else {
      var k := Least(less, s);
      var rest := Keys(less, s - {k});
      KeysIncreasing(less, s - {k});
      assert Keys(less, s) == [k] + rest;
      assert forall j :: 0 <= j < |rest| ==> rest[j] in s - {k};
    }
  }

  function Least<K(!new, ==)>(less: (K, K) -> bool, s: set<K>): (least: K)
    requires StrictTotal(less) && s != {}
    ensures least in s && forall k :: k in s ==> k == least || less(least, k)
  {
    assert exists k :: k in s && forall o :: o in s ==> o == k || less(k, o) by {
      var k := LeastExists(less, s);
    }
    var k :| k in s && forall o :: o in s ==> o == k || less(k, o);
    k
  }

  lemma {:induction false} IncreasingIsUnique<K(!new)>(less: (K, K) -> bool, a: seq<K>, b: seq<K>)
    requires StrictTotal(less) && Increasing(less, a) && Increasing(less, b)
    requires forall k :: k in a <==> k in b
    ensures a == b
  {
    if a == [] {
      assert forall i :: 0 <= i < |b| ==> b[i] in b;
    } else {
      assert a[0] in b && b != [] && b[0] in a;
      var i :| 0 <= i < |b| && b[i] == a[0];
      var j :| 0 <= j < |a| && a[j] == b[0];
      assert i == 0;
      forall k ensures k in a[1..] <==> k in b[1..] {
        if k in a[1..] { assert k != a[0] && k in b; }
        if k in b[1..] { assert k != b[0] && k in a; }
      }
      IncreasingIsUnique(less, a[1..], b[1..]);
      assert a == [a[0]] + a[1..] && b == [b[0]] + b[1..];
    }
  }

  predicate AddressLess(a: Address, b: Address) { LexLess(a, b) }

  predicate WordLess(a: Word, b: Word) { LexLess(a, b) }

  lemma AddressOrder()
    ensures StrictTotal(AddressLess)
  {
    forall a: Address, b: Address ensures !AddressLess(a, a) && (a == b || AddressLess(a, b) || AddressLess(b, a)) {
      LexTrichotomy(a, b);
    }
    forall a: Address, b: Address, c: Address | AddressLess(a, b) && AddressLess(b, c) ensures AddressLess(a, c) {
      LexTransitive(a, b, c);
    }
  }

  lemma WordOrder()
    ensures StrictTotal(WordLess)
  {
    forall a: Word, b: Word ensures !WordLess(a, a) && (a == b || WordLess(a, b) || WordLess(b, a)) {
      LexTrichotomy(a, b);
    }
    forall a: Word, b: Word, c: Word | WordLess(a, b) && WordLess(b, c) ensures WordLess(a, c) {
      LexTransitive(a, b, c);
    }
  }
}
