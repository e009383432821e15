/** The standard library's stable `sort_by` and `dedup_by`, as the builder uses them. */
module Sorting {
  ghost predicate TotalPreorder<T(!new)>(le: (T, T) -> bool) {
    && (forall x, y {:trigger le(x, y)} :: le(x, y) || le(y, x))
    && (forall x, y, z {:trigger le(x, y), le(y, z)} :: le(x, y) && le(y, z) ==> le(x, z))
  }

  predicate AllBelow<T(==)>(le: (T, T) -> bool, s: seq<T>, x: T) { forall y :: y in s ==> le(y, x) }

  predicate Sorted<T(==)>(le: (T, T) -> bool, s: seq<T>) {
    s == [] || (AllBelow(le, s[..|s| - 1], s[|s| - 1]) && Sorted(le, s[..|s| - 1]))
  }

  /** `x` goes after everything that is not greater, so equal elements keep their order. */
  function Insert<T>(le: (T, T) -> bool, s: seq<T>, x: T): seq<T> {
    if s != [] && !le(s[|s| - 1], x) then Insert(le, s[..|s| - 1], x) + [s[|s| - 1]] else s + [x]
  }

  function StableSort<T>(le: (T, T) -> bool, s: seq<T>): seq<T> {
    if s == [] then [] else Insert(le, StableSort(le, s[..|s| - 1]), s[|s| - 1])
  }

  /** Drops every element that `same` relates to the last one kept. */
  function Dedup<T>(same: (T, T) -> bool, s: seq<T>): seq<T> {
    if s == [] then []
    else
      var kept, x := Dedup(same, s[..|s| - 1]), s[|s| - 1];
      if kept != [] && same(x, kept[|kept| - 1]) then kept else kept + [x]
  }

  predicate NoNeighbours<T>(same: (T, T) -> bool, s: seq<T>) {
    |s| < 2 || (!same(s[|s| - 1], s[|s| - 2]) && NoNeighbours(same, s[..|s| - 1]))
  }

  lemma SortedSnoc<T>(le: (T, T) -> bool, s: seq<T>, x: T)
    ensures Sorted(le, s + [x]) <==> AllBelow(le, s, x) && Sorted(le, s)
  {
    assert (s + [x])[..|s|] == s;
  }

  lemma {:induction false} SortedMeans<T>(le: (T, T) -> bool, s: seq<T>)
    ensures Sorted(le, s) <==> forall i, j :: 0 <= i < j < |s| ==> le(s[i], s[j])
  {
    if s == [] {
    } else {
      var n := |s| - 1;
      SortedMeans(le, s[..n]);
      assert AllBelow(le, s[..n], s[n]) <==> forall i :: 0 <= i < n ==> le(s[..n][i], s[n]);
    }
  }

  lemma {:induction false} InsertElements<T>(le: (T, T) -> bool, s: seq<T>, x: T)
    ensures forall y :: y in Insert(le, s, x) <==> y == x || y in s
  {
    if s == [] {
    } else {
      InsertElements(le, s[..|s| - 1], x);
      assert s == s[..|s| - 1] + [s[|s| - 1]];
    }
  }

  lemma {:induction false} InsertPermutes<T>(le: (T, T) -> bool, s: seq<T>, x: T)
    ensures multiset(Insert(le, s, x)) == multiset(s) + multiset{x}
  {
    if s == [] {
    } else {
      InsertPermutes(le, s[..|s| - 1], x);
      assert s == s[..|s| - 1] + [s[|s| - 1]];
    }
  }

  lemma {:induction false} InsertSorts<T(!new)>(le: (T, T) -> bool, s: seq<T>, x: T)
    requires TotalPreorder(le) && Sorted(le, s)
    ensures Sorted(le, Insert(le, s, x))
  {
    if s == [] {
    } else {
      var n, last := |s| - 1, s[|s| - 1];
      assert s == s[..n] + [last];
      if !le(last, x) {
        InsertSorts(le, s[..n], x);
        InsertElements(le, s[..n], x);
        SortedSnoc(le, Insert(le, s[..n], x), last);
      } else {
        SortedSnoc(le, s, x);
      }
    }
  }

  lemma {:induction false} SortPermutes<T>(le: (T, T) -> bool, s: seq<T>)
    ensures multiset(StableSort(le, s)) == multiset(s)
  {
    if s == [] {
    } else {
      SortPermutes(le, s[..|s| - 1]);
      InsertPermutes(le, StableSort(le, s[..|s| - 1]), s[|s| - 1]);
      assert s == s[..|s| - 1] + [s[|s| - 1]];
    }
  }

  lemma {:induction false} SortSorts<T(!new)>(le: (T, T) -> bool, s: seq<T>)
    requires TotalPreorder(le)
    ensures Sorted(le, StableSort(le, s))
  {
    if s == [] {
    } else {
      SortSorts(le, s[..|s| - 1]);
      InsertSorts(le, StableSort(le, s[..|s| - 1]), s[|s| - 1]);
    }
  }

  function TiedTo<T>(le: (T, T) -> bool, c: T, x: T): seq<T> { if le(c, x) && le(x, c) then [x] else [] }

  /** The elements of `s` tied with `c`, in their order. */
  function Class<T>(le: (T, T) -> bool, c: T, s: seq<T>): seq<T> {
    if s == [] then [] else Class(le, c, s[..|s| - 1]) + TiedTo(le, c, s[|s| - 1])
  }

  lemma ClassSnoc<T>(le: (T, T) -> bool, c: T, s: seq<T>, x: T)
    ensures Class(le, c, s + [x]) == Class(le, c, s) + TiedTo(le, c, x)
  {
    assert (s + [x])[..|s|] == s;
  }

  lemma OneTied<T(!new)>(le: (T, T) -> bool, last: T, x: T, c: T)
    requires TotalPreorder(le) && !le(last, x)
    ensures TiedTo(le, c, x) == [] || TiedTo(le, c, last) == []
  {
  }

  lemma Commutes<T>(a: seq<T>, p: seq<T>, q: seq<T>)
    requires p == [] || q == []
    ensures (a + p) + q == (a + q) + p
  {
  }

  lemma {:induction false} InsertIsStable<T(!new)>(le: (T, T) -> bool, s: seq<T>, x: T, c: T)
    requires TotalPreorder(le)
    ensures Class(le, c, Insert(le, s, x)) == Class(le, c, s) + TiedTo(le, c, x)
  {
    if s != [] && !le(s[|s| - 1], x) {
      var init, last := s[..|s| - 1], s[|s| - 1];
      InsertIsStable(le, init, x, c);
      ClassSnoc(le, c, Insert(le, init, x), last);
      OneTied(le, last, x, c);
      Commutes(Class(le, c, init), TiedTo(le, c, x), TiedTo(le, c, last));
    } else {
      ClassSnoc(le, c, s, x);
    }
  }

  /** Elements the order does not distinguish keep their relative order. */
  lemma {:induction false} SortIsStable<T(!new)>(le: (T, T) -> bool, s: seq<T>, c: T)
    requires TotalPreorder(le)
    ensures Class(le, c, StableSort(le, s)) == Class(le, c, s)
  {
    if s == [] {
    } else {
      SortIsStable(le, s[..|s| - 1], c);
      InsertIsStable(le, StableSort(le, s[..|s| - 1]), s[|s| - 1], c);
    }
  }

  /** Sorting changes nothing that is already in order. */
  lemma {:induction false} SortKeepsSorted<T>(le: (T, T) -> bool, s: seq<T>)
    requires Sorted(le, s)
    ensures StableSort(le, s) == s
  {
    if s == [] {
    } else {
      var n := |s| - 1;
      SortKeepsSorted(le, s[..n]);
      assert s == s[..n] + [s[n]];
      if n > 0 { assert s[..n][n - 1] in s[..n]; }
    }
  }

  lemma {:induction false} DedupKeeps<T>(same: (T, T) -> bool, s: seq<T>)
    requires NoNeighbours(same, s)
    ensures Dedup(same, s) == s
  {
    if s == [] {
    } else {
      DedupKeeps(same, s[..|s| - 1]);
      assert s == s[..|s| - 1] + [s[|s| - 1]];
    }
  }

  predicate Deduped<T(==)>(le: (T, T) -> bool, same: (T, T) -> bool, kept: seq<T>, s: seq<T>) {
    NoNeighbours(same, kept) && Sorted(le, kept) && forall x :: x in kept ==> x in s
  }

  lemma DedupedSnoc<T>(le: (T, T) -> bool, same: (T, T) -> bool, kept: seq<T>, s: seq<T>, x: T)
    requires AllBelow(le, s, x) && Deduped(le, same, kept, s)
    ensures Deduped(le, same, kept, s + [x])
    ensures kept == [] || !same(x, kept[|kept| - 1]) ==> Deduped(le, same, kept + [x], s + [x])
  {
    SortedSnoc(le, kept, x);
    assert (kept + [x])[..|kept|] == kept;
  }

  lemma {:induction false} DedupSorted<T>(le: (T, T) -> bool, same: (T, T) -> bool, s: seq<T>)
    requires Sorted(le, s)
    ensures Deduped(le, same, Dedup(same, s), s)
  {
    if s == [] {
    } else {
      DedupSorted(le, same, s[..|s| - 1]);
      DedupedSnoc(le, same, Dedup(same, s[..|s| - 1]), s[..|s| - 1], s[|s| - 1]);
      assert s[..|s| - 1] + [s[|s| - 1]] == s;
    }
  }

  function Canonical<T>(le: (T, T) -> bool, same: (T, T) -> bool, s: seq<T>): seq<T> {
    Dedup(same, StableSort(le, s))
  }

  /** Sort-then-dedup is a projection. */
  lemma CanonicalIdempotent<T(!new)>(le: (T, T) -> bool, same: (T, T) -> bool, s: seq<T>)
    requires TotalPreorder(le)
    ensures Canonical(le, same, Canonical(le, same, s)) == Canonical(le, same, s)
    ensures Sorted(le, Canonical(le, same, s)) && NoNeighbours(same, Canonical(le, same, s))
  {
    SortSorts(le, s);
    DedupSorted(le, same, StableSort(le, s));
    SortKeepsSorted(le, Canonical(le, same, s));
    DedupKeeps(same, Canonical(le, same, s));
  }

  // ---- Exactly when the input order does not matter ----

  predicate Tied<T>(le: (T, T) -> bool, x: T, y: T) { le(x, y) && le(y, x) }

  predicate Below<T>(le: (T, T) -> bool, x: T, y: T) { le(x, y) && !le(y, x) }

  /** `same` compares keys, and elements the order cannot tell apart have one key. */
  ghost predicate ByKey<T(!new), K(!new)>(le: (T, T) -> bool, same: (T, T) -> bool, key: T -> K) {
    && (forall x, y :: same(x, y) <==> key(x) == key(y))
    && (forall x, y :: Tied(le, x, y) ==> key(x) == key(y))
  }

  /** `z` is among the greatest elements of `a` below `x`. */
  ghost predicate JustBelow<T(!new)>(le: (T, T) -> bool, a: seq<T>, z: T, x: T) {
    z in a && Below(le, z, x) && forall w :: w in a ==> !(Below(le, z, w) && Below(le, w, x))
  }

  /** Everything tied with `x` is dropped, because it directly follows elements with its key. */
  ghost predicate Shadowed<T(!new), K(!new)>(le: (T, T) -> bool, key: T -> K, a: seq<T>, x: T) {
    exists z :: JustBelow(le, a, z, x) && key(z) == key(x)
  }

  /** Different elements that the order ties are all dropped. */
  ghost predicate Determined<T(!new), K(!new)>(le: (T, T) -> bool, key: T -> K, a: seq<T>) {
    forall x, y :: x in a && y in a && Tied(le, x, y) ==> x == y || Shadowed(le, key, a, x)
  }

  /** Every rearrangement of `a` has its canonical form. */
  ghost predicate OrderFree<T(!new)>(le: (T, T) -> bool, same: (T, T) -> bool, a: seq<T>) {
    forall b {:trigger multiset(b)} :: multiset(b) == multiset(a) ==> Canonical(le, same, b) == Canonical(le, same, a)
  }

  /** Position `i` starts a run of elements with one key. */
  predicate StartsRun<T, K(==)>(key: T -> K, s: seq<T>, i: nat)
    requires i < |s|
  {
    i == 0 || key(s[i]) != key(s[i - 1])
  }

  lemma {:induction false} DedupLast<T(!new), K(!new)>(le: (T, T) -> bool, same: (T, T) -> bool, key: T -> K, s: seq<T>)
    requires ByKey(le, same, key) && s != []
    ensures Dedup(same, s) != [] && key(Dedup(same, s)[|Dedup(same, s)| - 1]) == key(s[|s| - 1])
  {
    if |s| == 1 {
    } else {
      DedupLast(le, same, key, s[..|s| - 1]);
    }
  }

  lemma DedupStep<T(!new), K(!new)>(le: (T, T) -> bool, same: (T, T) -> bool, key: T -> K, s: seq<T>, n: nat)
    requires ByKey(le, same, key) && n < |s|
    ensures Dedup(same, s[..n + 1]) == Dedup(same, s[..n]) + (if StartsRun(key, s, n) then [s[n]] else [])
  {
    assert s[..n + 1][..n] == s[..n];
    if n == 0 {
      assert Dedup(same, s[..0]) == [];
    } else {
      DedupLast(le, same, key, s[..n]);
    }
  }

  /** Deduplication keeps the first element of every run, and nothing else. */
  lemma {:induction false} DedupAgrees<T(!new), K(!new)>(
    le: (T, T) -> bool, same: (T, T) -> bool, key: T -> K, s: seq<T>, t: seq<T>, n: nat)
    requires ByKey(le, same, key) && |s| == |t| && n <= |s|
    requires forall i :: 0 <= i < |s| ==> key(s[i]) == key(t[i]) && (StartsRun(key, s, i) ==> s[i] == t[i])
    ensures Dedup(same, s[..n]) == Dedup(same, t[..n])
  {
    if n == 0 {
    } else {
      DedupAgrees(le, same, key, s, t, n - 1);
      DedupStep(le, same, key, s, n - 1);
      DedupStep(le, same, key, t, n - 1);
    }
  }

  lemma {:induction false} RunStartKept<T(!new), K(!new)>(
    le: (T, T) -> bool, same: (T, T) -> bool, key: T -> K, s: seq<T>, i: nat, n: nat)
    requires ByKey(le, same, key) && i < n <= |s| && StartsRun(key, s, i)
    ensures s[i] in Dedup(same, s[..n])
  {
    DedupStep(le, same, key, s, n - 1);
    if i < n - 1 { RunStartKept(le, same, key, s, i, n - 1); }
  }

  // ---- Rearrangements, sorted, are tied position by position ----

  lemma {:induction false} ClassConcat<T>(le: (T, T) -> bool, c: T, s: seq<T>, t: seq<T>)
    ensures Class(le, c, s + t) == Class(le, c, s) + Class(le, c, t)
    decreases |t|
  {
    if t == [] {
      assert s + t == s;
    } else {
      var n := |t| - 1;
      assert s + t == (s + t[..n]) + [t[n]];
      ClassSnoc(le, c, s + t[..n], t[n]);
      ClassConcat(le, c, s, t[..n]);
    }
  }

  lemma RemoveOne<T>(s: seq<T>, x: T, u: seq<T>, v: seq<T>)
    requires multiset(s + [x]) == multiset((u + [x]) + v)
    ensures multiset(s) == multiset(u + v)
  {
    assert multiset(s) == multiset(s + [x]) - multiset{x};
    assert multiset(u + v) == multiset((u + [x]) + v) - multiset{x};
  }

  lemma {:induction false} ClassSize<T>(le: (T, T) -> bool, c: T, s: seq<T>, t: seq<T>)
    requires multiset(s) == multiset(t)
    ensures |Class(le, c, s)| == |Class(le, c, t)|
    decreases |s|
  {
    if s == [] {
      assert t == [] by { assert |multiset(t)| == |t|; }
    } else {
      var n, x := |s| - 1, s[|s| - 1];
      assert s == s[..n] + [x];
      assert x in multiset(t);
      var i :| 0 <= i < |t| && t[i] == x;
      var u, v := t[..i], t[i + 1..];
      assert t == (u + [x]) + v;
      RemoveOne(s[..n], x, u, v);
      ClassSize(le, c, s[..n], u + v);
      ClassConcat(le, c, u, v);
      ClassConcat(le, c, u + [x], v);
      ClassSnoc(le, c, u, x);
    }
  }

  lemma {:induction false} ClassMember<T>(le: (T, T) -> bool, c: T, s: seq<T>)
    ensures Class(le, c, s) != [] <==> exists w :: w in s && Tied(le, c, w)
  {
    if s == [] {
    } else {
      var init, last := s[..|s| - 1], s[|s| - 1];
      ClassMember(le, c, init);
      forall w ensures w in s <==> w in init || w == last {
        assert s == init + [last];
      }
      if exists w :: w in init && Tied(le, c, w) {
        var w :| w in init && Tied(le, c, w);
        assert w in s;
      } else if Tied(le, c, last) {
        assert last in s;
      }
    }
  }

  ghost predicate SameClasses<T(!new)>(le: (T, T) -> bool, s: seq<T>, t: seq<T>) {
    |s| == |t| && forall c :: |Class(le, c, s)| == |Class(le, c, t)|
  }

  /** The last element of a sorted list is above every element of its rearrangements. */
  lemma LastIsGreatest<T(!new)>(le: (T, T) -> bool, s: seq<T>, x: T, t: seq<T>, y: T)
    requires TotalPreorder(le) && Sorted(le, t + [y]) && SameClasses(le, s + [x], t + [y])
    ensures le(x, y)
  {
    ClassSnoc(le, x, s, x);
    assert le(x, x);
    assert |Class(le, x, s + [x])| == |Class(le, x, t + [y])|;
    ClassMember(le, x, t + [y]);
    var w :| w in t + [y] && Tied(le, x, w);
    SortedSnoc(le, t, y);
    assert le(w, y);
  }

  lemma PeelClasses<T(!new)>(le: (T, T) -> bool, s: seq<T>, x: T, t: seq<T>, y: T)
    requires TotalPreorder(le) && Tied(le, x, y) && SameClasses(le, s + [x], t + [y])
    ensures SameClasses(le, s, t)
  {
    forall c ensures |Class(le, c, s)| == |Class(le, c, t)| {
      ClassSnoc(le, c, s, x);
      ClassSnoc(le, c, t, y);
      assert TiedTo(le, c, x) == [] <==> TiedTo(le, c, y) == [];
      assert |Class(le, c, s + [x])| == |Class(le, c, t + [y])|;
    }
  }

  ghost predicate Rivals<T(!new)>(le: (T, T) -> bool, s: seq<T>, t: seq<T>) {
    Sorted(le, s) && Sorted(le, t) && SameClasses(le, s, t)
  }

  lemma PeelRivals<T(!new)>(le: (T, T) -> bool, s: seq<T>, x: T, t: seq<T>, y: T)
    requires TotalPreorder(le) && Rivals(le, s + [x], t + [y])
    ensures Tied(le, x, y) && Rivals(le, s, t)
  {
    LastIsGreatest(le, s, x, t, y);
    LastIsGreatest(le, t, y, s, x);
    PeelClasses(le, s, x, t, y);
    SortedSnoc(le, s, x);
    SortedSnoc(le, t, y);
  }

  lemma {:induction false} SortedTied<T(!new)>(le: (T, T) -> bool, s: seq<T>, t: seq<T>, i: nat)
    requires TotalPreorder(le) && Rivals(le, s, t) && i < |s|
    ensures |s| == |t| && Tied(le, s[i], t[i])
    decreases |s|
  {
    var n := |s| - 1;
    var init, init' := s[..n], t[..n];
    assert s == init + [s[n]] && t == init' + [t[n]];
    PeelRivals(le, init, s[n], init', t[n]);
    if i < n { SortedTied(le, init, init', i); }
  }

  lemma SameElements<T>(a: seq<T>, b: seq<T>)
    requires multiset(a) == multiset(b)
    ensures forall x :: x in a <==> x in b
  {
    forall x ensures x in a <==> x in b {
      assert x in a <==> x in multiset(a);
      assert x in b <==> x in multiset(b);
    }
  }

  lemma Rearranged<T(!new)>(le: (T, T) -> bool, a: seq<T>, b: seq<T>)
    requires TotalPreorder(le) && multiset(a) == multiset(b)
    ensures Rivals(le, StableSort(le, a), StableSort(le, b))
  {
    var s, t := StableSort(le, a), StableSort(le, b);
    SortSorts(le, a);
    SortSorts(le, b);
    SortPermutes(le, a);
    SortPermutes(le, b);
    assert |multiset(s)| == |s| && |multiset(t)| == |t|;
    forall c ensures |Class(le, c, s)| == |Class(le, c, t)| { ClassSize(le, c, s, t); }
  }

  // ---- The result of a stable sort is unique ----

  /** `t` rearranges `s`, keeping the order of elements that `le` ties. */
  ghost predicate StablyRearranges<T(!new)>(le: (T, T) -> bool, s: seq<T>, t: seq<T>) {
    |s| == |t| && forall c :: Class(le, c, s) == Class(le, c, t)
  }

  lemma PeelLast<T(!new)>(le: (T, T) -> bool, s: seq<T>, x: T, t: seq<T>, y: T)
    requires TotalPreorder(le) && Sorted(le, s + [x]) && Sorted(le, t + [y]) && StablyRearranges(le, s + [x], t + [y])
    ensures x == y && Sorted(le, s) && Sorted(le, t) && StablyRearranges(le, s, t)
  {
    PeelRivals(le, s, x, t, y);
    ClassSnoc(le, x, s, x);
    ClassSnoc(le, x, t, y);
    assert le(x, x);
    var whole := Class(le, x, s + [x]);
    assert whole[|whole| - 1] == x && whole[|whole| - 1] == y;
    forall c ensures Class(le, c, s) == Class(le, c, t) {
      ClassSnoc(le, c, s, x);
      ClassSnoc(le, c, t, x);
      LeftCancel(Class(le, c, s), Class(le, c, t), TiedTo(le, c, x));
    }
  }

  lemma LeftCancel<T>(a: seq<T>, b: seq<T>, tail: seq<T>)
    requires a + tail == b + tail
    ensures a == b
  {
    assert |a| == |b|;
    assert a == (a + tail)[..|a|] == (b + tail)[..|b|] == b;
  }

  lemma {:induction false} SortedIsUnique<T(!new)>(le: (T, T) -> bool, s: seq<T>, t: seq<T>)
    requires TotalPreorder(le) && Sorted(le, s) && Sorted(le, t) && StablyRearranges(le, s, t)
    ensures s == t
  {
    if s == [] {
    } else {
      var n := |s| - 1;
      assert s == s[..n] + [s[n]] && t == t[..n] + [t[n]];
      PeelLast(le, s[..n], s[n], t[..n], t[n]);
      SortedIsUnique(le, s[..n], t[..n]);
    }
  }

  /** Whatever algorithm a stable sort uses, its result is this one. */
  lemma SortIsUnique<T(!new)>(le: (T, T) -> bool, s: seq<T>, t: seq<T>)
    requires TotalPreorder(le)
    ensures t == StableSort(le, s) <==> Sorted(le, t) && StablyRearranges(le, s, t)
  {
    var r := StableSort(le, s);
    SortSorts(le, s);
    SortPermutes(le, s);
    assert |multiset(s)| == |s| && |multiset(r)| == |r|;
    forall c ensures Class(le, c, r) == Class(le, c, s) { SortIsStable(le, s, c); }
    if Sorted(le, t) && StablyRearranges(le, s, t) { SortedIsUnique(le, t, r); }
  }

  // ---- Which elements are kept ----

  lemma SortedPair<T>(le: (T, T) -> bool, s: seq<T>, i: nat, j: nat)
    requires Sorted(le, s) && i < j < |s|
    ensures le(s[i], s[j])
  {
    SortedMeans(le, s);
  }

  lemma RunStartUnshadowed<T(!new), K(!new)>(
    le: (T, T) -> bool, same: (T, T) -> bool, key: T -> K, a: seq<T>, s: seq<T>, i: nat)
    requires TotalPreorder(le) && ByKey(le, same, key) && Sorted(le, s) && (forall x :: x in a <==> x in s)
    requires i < |s| && StartsRun(key, s, i)
    ensures !Shadowed(le, key, a, s[i])
  {
    var x := s[i];
    forall z | JustBelow(le, a, z, x) ensures key(z) != key(x) {
      var j :| 0 <= j < |s| && s[j] == z;
      if i < j { SortedPair(le, s, i, j); }
      assert j < i;
      var y := s[i - 1];
      SortedPair(le, s, i - 1, i);
      if j < i - 1 { SortedPair(le, s, j, i - 1); }
      assert le(z, y) && le(y, x) && y in a && !Tied(le, y, x);
      assert !(Below(le, z, y) && Below(le, y, x));
      assert Tied(le, z, y);
    }
  }

  lemma DeterminedRun<T(!new), K(!new)>(
    le: (T, T) -> bool, same: (T, T) -> bool, key: T -> K, a: seq<T>, s: seq<T>, t: seq<T>, i: nat)
    requires TotalPreorder(le) && ByKey(le, same, key) && Determined(le, key, a) && Rivals(le, s, t) && i < |s|
    requires (forall x :: x in a <==> x in s) && (forall x :: x in a <==> x in t)
    ensures |s| == |t| && key(s[i]) == key(t[i]) && (StartsRun(key, s, i) ==> s[i] == t[i])
  {
    SortedTied(le, s, t, i);
    assert s[i] in a && t[i] in a;
    if StartsRun(key, s, i) { RunStartUnshadowed(le, same, key, a, s, i); }
  }

  /** Determined lists: sorting any rearrangement keeps the same elements. */
  lemma DeterminedIsFree<T(!new), K(!new)>(le: (T, T) -> bool, same: (T, T) -> bool, key: T -> K, a: seq<T>, b: seq<T>)
    requires TotalPreorder(le) && ByKey(le, same, key) && Determined(le, key, a) && multiset(b) == multiset(a)
    ensures Canonical(le, same, b) == Canonical(le, same, a)
  {
    var s, t := StableSort(le, a), StableSort(le, b);
    SortPermutes(le, a);
    SortPermutes(le, b);
    SameElements(s, a);
    SameElements(t, a);
    Rearranged(le, a, b);
    forall i | 0 <= i < |s| ensures key(s[i]) == key(t[i]) && (StartsRun(key, s, i) ==> s[i] == t[i]) {
      DeterminedRun(le, same, key, a, s, t, i);
    }
    DedupAgrees(le, same, key, s, t, |s|);
    assert s[..|s|] == s && t[..|t|] == t;
  }

  lemma {:induction false} ClassFirst<T>(le: (T, T) -> bool, c: T, s: seq<T>) returns (i: nat)
    requires Class(le, c, s) != []
    ensures i < |s| && s[i] == Class(le, c, s)[0] && forall j :: 0 <= j < i ==> !Tied(le, c, s[j])
  {
    var n := |s| - 1;
    if Class(le, c, s[..n]) == [] {
      i := n;
      ClassMember(le, c, s[..n]);
      forall j | 0 <= j < i ensures !Tied(le, c, s[j]) {
        assert s[j] in s[..n];
      }
    } else {
      i := ClassFirst(le, c, s[..n]);
    }
  }

  /** The first input element comes first among those tied with it after sorting, too. */
  lemma FirstOfClass<T(!new)>(le: (T, T) -> bool, x: T, rest: seq<T>) returns (i: nat)
    requires TotalPreorder(le)
    ensures var s := StableSort(le, [x] + rest);
            i < |s| && s[i] == x && forall j :: 0 <= j < i ==> !Tied(le, x, s[j])
  {
    SortIsStable(le, [x] + rest, x);
    ClassConcat(le, x, [x], rest);
    assert [x][..0] == [] && le(x, x);
    assert Class(le, x, [x]) == [x];
    i := ClassFirst(le, x, StableSort(le, [x] + rest));
  }

  /** An element that comes first in the input survives unless its whole class is dropped. */
  lemma FirstSurvives<T(!new), K(!new)>(le: (T, T) -> bool, same: (T, T) -> bool, key: T -> K, x: T, rest: seq<T>)
    requires TotalPreorder(le) && ByKey(le, same, key) && !Shadowed(le, key, [x] + rest, x)
    ensures x in Canonical(le, same, [x] + rest)
  {
    var s := StableSort(le, [x] + rest);
    SortSorts(le, [x] + rest);
    SortPermutes(le, [x] + rest);
    SameElements(s, [x] + rest);
    var i := FirstOfClass(le, x, rest);
    if 0 < i { BeforeClass(le, key, [x] + rest, s, i); }
    RunStartKept(le, same, key, s, i, |s|);
    assert s[..|s|] == s;
  }

  /** What directly precedes a class in sorted order is just below it. */
  lemma BeforeClass<T(!new), K(!new)>(le: (T, T) -> bool, key: T -> K, a: seq<T>, s: seq<T>, i: nat)
    requires TotalPreorder(le) && Sorted(le, s) && (forall x :: x in a <==> x in s)
    requires 0 < i < |s| && !Tied(le, s[i], s[i - 1]) && !Shadowed(le, key, a, s[i])
    ensures StartsRun(key, s, i)
  {
    var z, x := s[i - 1], s[i];
    SortedPair(le, s, i - 1, i);
    forall w | w in a ensures !(Below(le, z, w) && Below(le, w, x)) {
      var m :| 0 <= m < |s| && s[m] == w;
      if m < i - 1 { SortedPair(le, s, m, i - 1); }
      if i < m { SortedPair(le, s, i, m); }
    }
    assert z in a && JustBelow(le, a, z, x);
  }

  lemma {:induction false} NoNeighboursMeans<T>(same: (T, T) -> bool, s: seq<T>, i: nat)
    requires NoNeighbours(same, s) && i + 1 < |s|
    ensures !same(s[i + 1], s[i])
  {
    if i + 2 < |s| { NoNeighboursMeans(same, s[..|s| - 1], i); }
  }

  /** A canonical form holds at most one element of each class. */
  lemma CanonicalTies<T(!new), K(!new)>(le: (T, T) -> bool, same: (T, T) -> bool, key: T -> K, c: seq<T>, x: T, y: T)
    requires TotalPreorder(le) && ByKey(le, same, key) && Sorted(le, c) && NoNeighbours(same, c)
    requires x in c && y in c && Tied(le, x, y)
    ensures x == y
  {
    var p :| 0 <= p < |c| && c[p] == x;
    var q :| 0 <= q < |c| && c[q] == y;
    var i, j := if p < q then p else q, if p < q then q else p;
    if i < j {
      SortedPair(le, c, i, i + 1);
      if i + 1 < j { SortedPair(le, c, i + 1, j); }
      assert Tied(le, c[i + 1], c[i]);
      NoNeighboursMeans(same, c, i);
    }
  }

  lemma Front<T>(a: seq<T>, x: T) returns (rest: seq<T>)
    requires x in a
    ensures multiset([x] + rest) == multiset(a)
  {
    var i :| 0 <= i < |a| && a[i] == x;
    rest := a[..i] + a[i + 1..];
    assert a == a[..i] + [x] + a[i + 1..];
  }

  lemma ShadowMoves<T(!new), K(!new)>(
    le: (T, T) -> bool, same: (T, T) -> bool, key: T -> K, a: seq<T>, b: seq<T>, x: T, y: T)
    requires TotalPreorder(le) && ByKey(le, same, key) && Tied(le, x, y) && multiset(a) == multiset(b)
    requires Shadowed(le, key, b, y)
    ensures Shadowed(le, key, a, x)
  {
    SameElements(a, b);
    var z :| JustBelow(le, b, z, y) && key(z) == key(y);
    forall w | w in a ensures !(Below(le, z, w) && Below(le, w, x)) {
      assert Below(le, w, x) ==> Below(le, w, y);
    }
    assert JustBelow(le, a, z, x);
  }

  lemma UnshadowedStays<T(!new), K(!new)>(
    le: (T, T) -> bool, same: (T, T) -> bool, key: T -> K, a: seq<T>, b: seq<T>, x: T)
    requires TotalPreorder(le) && ByKey(le, same, key) && multiset(a) == multiset(b) && !Shadowed(le, key, a, x)
    ensures !Shadowed(le, key, b, x)
  {
    assert le(x, x);
    if Shadowed(le, key, b, x) { ShadowMoves(le, same, key, a, b, x, x); }
  }

  lemma FreeAt<T(!new)>(le: (T, T) -> bool, same: (T, T) -> bool, a: seq<T>, b: seq<T>)
    requires OrderFree(le, same, a) && multiset(b) == multiset(a)
    ensures Canonical(le, same, b) == Canonical(le, same, a)
  {
  }

  /** If the order does not matter, every element that is not dropped survives. */
  lemma FreeKeeps<T(!new), K(!new)>(le: (T, T) -> bool, same: (T, T) -> bool, key: T -> K, a: seq<T>, x: T)
    requires TotalPreorder(le) && ByKey(le, same, key) && OrderFree(le, same, a)
    requires x in a && !Shadowed(le, key, a, x)
    ensures x in Canonical(le, same, a)
  {
    var rest := Front(a, x);
    FreeAt(le, same, a, [x] + rest);
    UnshadowedStays(le, same, key, a, [x] + rest, x);
    FirstSurvives(le, same, key, x, rest);
  }

  lemma FreeIsDetermined<T(!new), K(!new)>(le: (T, T) -> bool, same: (T, T) -> bool, key: T -> K, a: seq<T>, x: T, y: T)
    requires TotalPreorder(le) && ByKey(le, same, key) && OrderFree(le, same, a)
    requires x in a && y in a && Tied(le, x, y) && !Shadowed(le, key, a, x)
    ensures x == y
  {
    if Shadowed(le, key, a, y) { ShadowMoves(le, same, key, a, a, x, y); }
    FreeKeeps(le, same, key, a, x);
    FreeKeeps(le, same, key, a, y);
    CanonicalIdempotent(le, same, a);
    CanonicalTies(le, same, key, Canonical(le, same, a), x, y);
  }

  /** The canonical form forgets the input order exactly if the input's different tied elements are
      all dropped. */
  lemma CanonicalForgetsOrder<T(!new), K(!new)>(le: (T, T) -> bool, same: (T, T) -> bool, key: T -> K, a: seq<T>)
    requires TotalPreorder(le) && ByKey(le, same, key)
    ensures OrderFree(le, same, a) <==> Determined(le, key, a)
  {
    if Determined(le, key, a) {
      forall b {:trigger multiset(b)} | multiset(b) == multiset(a)
        ensures Canonical(le, same, b) == Canonical(le, same, a)
      {
        DeterminedIsFree(le, same, key, a, b);
      }
    }
    if OrderFree(le, same, a) {
      forall x, y | x in a && y in a && Tied(le, x, y) ensures x == y || Shadowed(le, key, a, x) {
        if !Shadowed(le, key, a, x) { FreeIsDetermined(le, same, key, a, x, y); }
      }
    }
  }

  /** Elements with one key are equal. */
  ghost predicate Agree<T(!new), K(!new)>(key: T -> K, a: seq<T>) {
    forall x, y :: x in a && y in a && key(x) == key(y) ==> x == y
  }

  /** Where the order is the order of the keys, nothing is dropped whole. */
  lemma AgreeIsDetermined<T(!new), K(!new)>(le: (T, T) -> bool, key: T -> K, a: seq<T>)
    requires forall x, y :: Tied(le, x, y) <==> key(x) == key(y)
    ensures Determined(le, key, a) <==> Agree(key, a)
  {
    forall x, z | JustBelow(le, a, z, x) ensures key(z) != key(x) {
      assert !Tied(le, z, x);
    }
    if Determined(le, key, a) {
      forall x, y | x in a && y in a && key(x) == key(y) ensures x == y {
        assert Tied(le, x, y);
      }
    }
  }

  // ---- Sorting looks at elements through the order only ----

  function Map<T, U>(f: T -> U, s: seq<T>): (r: seq<U>)
    ensures |r| == |s|
  {
    if s == [] then [] else Map(f, s[..|s| - 1]) + [f(s[|s| - 1])]
  }

  lemma MapSnoc<T, U>(f: T -> U, s: seq<T>, x: T)
    ensures Map(f, s + [x]) == Map(f, s) + [f(x)]
  {
    assert (s + [x])[..|s|] == s;
  }

  lemma {:induction false} MapConcat<T, U>(f: T -> U, s: seq<T>, t: seq<T>)
    ensures Map(f, s + t) == Map(f, s) + Map(f, t)
    decreases |t|
  {
    if t == [] {
      assert s + t == s;
    } else {
      var init, last := t[..|t| - 1], t[|t| - 1];
      assert s + t == (s + init) + [last];
      MapSnoc(f, s + init, last);
      MapConcat(f, s, init);
    }
  }

  /** `f` is invisible to both comparisons. */
  ghost predicate Invisible<T(!new)>(le: (T, T) -> bool, same: (T, T) -> bool, f: T -> T) {
    forall x, y :: le(f(x), f(y)) == le(x, y) && same(f(x), f(y)) == same(x, y)
  }

  lemma {:induction false} InsertMap<T(!new)>(le: (T, T) -> bool, same: (T, T) -> bool, f: T -> T, s: seq<T>, x: T)
    requires Invisible(le, same, f)
    ensures Insert(le, Map(f, s), f(x)) == Map(f, Insert(le, s, x))
  {
    if s == [] {
      MapSnoc(f, s, x);
    } else {
      var init, last := s[..|s| - 1], s[|s| - 1];
      assert Map(f, s)[..|init|] == Map(f, init);
      InsertMap(le, same, f, init, x);
      MapSnoc(f, Insert(le, init, x), last);
      MapSnoc(f, s, x);
      assert le(f(last), f(x)) == le(last, x);
    }
  }

  lemma {:induction false} SortMap<T(!new)>(le: (T, T) -> bool, same: (T, T) -> bool, f: T -> T, s: seq<T>)
    requires Invisible(le, same, f)
    ensures StableSort(le, Map(f, s)) == Map(f, StableSort(le, s))
  {
    if s == [] {
    } else {
      var init, last := s[..|s| - 1], s[|s| - 1];
      assert Map(f, s)[..|init|] == Map(f, init);
      SortMap(le, same, f, init);
      InsertMap(le, same, f, StableSort(le, init), last);
    }
  }

  lemma {:induction false} DedupMap<T(!new)>(le: (T, T) -> bool, same: (T, T) -> bool, f: T -> T, s: seq<T>)
    requires Invisible(le, same, f)
    ensures Dedup(same, Map(f, s)) == Map(f, Dedup(same, s))
  {
    if s == [] {
    } else {
      var init, last := s[..|s| - 1], s[|s| - 1];
      assert Map(f, s)[..|init|] == Map(f, init);
      DedupMap(le, same, f, init);
      var kept := Dedup(same, init);
      MapSnoc(f, kept, last);
      if kept != [] { assert same(f(last), f(kept[|kept| - 1])) == same(last, kept[|kept| - 1]); }
    }
  }

  lemma CanonicalMap<T(!new)>(le: (T, T) -> bool, same: (T, T) -> bool, f: T -> T, s: seq<T>)
    requires Invisible(le, same, f)
    ensures Canonical(le, same, Map(f, s)) == Map(f, Canonical(le, same, s))
  {
    SortMap(le, same, f, s);
    DedupMap(le, same, f, StableSort(le, s));
  }
}
