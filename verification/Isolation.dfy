/** Trace contexts are diagnostic only: which frame an event came from never reaches a certificate. */
module Isolation {
  import opened Primitives
  import opened Cse
  import opened Partition
  import opened ReduceIr
  import opened Lifecycle
  import opened Certificates
  import opened Passes
  import opened Sorting
  import opened Canonicalize

  /** The two streams differ in their trace contexts at most. */
  predicate SameButTrace(a: seq<CseEvent>, b: seq<CseEvent>) {
    |a| == |b| && forall i :: 0 <= i < |a| ==> a[i].(trace := NO_TRACE) == b[i].(trace := NO_TRACE)
  }

  function Unframed(p: Provenance): Provenance { p.(frameId := 0, callDepth := 0) }

  /** The observations, with the frame coordinates erased. */
  function Blurred(h: seq<ObservedLifecycle>): seq<ObservedLifecycle> {
    if h == [] then []
    else
      var o := h[|h| - 1];
      Blurred(h[..|h| - 1]) + [o.(provenance := Unframed(o.provenance))]
  }

  lemma BlurredSnoc(h: seq<ObservedLifecycle>, e: CseEvent, a: Address)
    ensures Blurred(h + LifecycleAt(e, a)) == Blurred(h) + LifecycleAt(e.(trace := Trace(0, 0)), a)
  {
    if LifecycleAt(e, a) == [] {
      assert h + [] == h && Blurred(h) + [] == Blurred(h);
    } else {
      assert (h + LifecycleAt(e, a))[..|h|] == h;
    }
  }

  lemma {:induction false} SameHistories(a: seq<CseEvent>, b: seq<CseEvent>, k: Key, x: Address)
    requires SameButTrace(a, b)
    ensures History(a, k) == History(b, k) && LogHistory(a, x) == LogHistory(b, x)
         && RefundHistory(a) == RefundHistory(b)
    ensures Blurred(LifecycleHistory(a, x)) == Blurred(LifecycleHistory(b, x))
    decreases |a|
  {
    if a == [] {
    } else {
      var n := |a| - 1;
      SameHistories(a[..n], b[..n], k, x);
      assert a[n].(trace := NO_TRACE) == b[n].(trace := NO_TRACE);
      BlurredSnoc(LifecycleHistory(a[..n], x), a[n], x);
      BlurredSnoc(LifecycleHistory(b[..n], x), b[n], x);
      assert a[n].(trace := Trace(0, 0)) == b[n].(trace := Trace(0, 0));
    }
  }

  // ---- Identities depend on generation keys only ----

  function KeysOf(gens: seq<Generation>): (r: seq<GenerationKey>)
    ensures |r| == |gens|
  {
    if gens == [] then [] else [gens[0].key] + KeysOf(gens[1..])
  }

  lemma KeysOfConcat(a: seq<Generation>, b: seq<Generation>)
    ensures KeysOf(a + b) == KeysOf(a) + KeysOf(b)
    decreases |a|
  {
    if a == [] {
      assert a + b == b;
    } else {
      assert (a + b)[1..] == a[1..] + b;
      KeysOfConcat(a[1..], b);
    }
  }

  predicate Alike(o: ObservedLifecycle, p: ObservedLifecycle) {
    o.payload == p.payload && Unframed(o.provenance) == Unframed(p.provenance)
  }

  predicate AllAlike(g: seq<ObservedLifecycle>, h: seq<ObservedLifecycle>) {
    |g| == |h| && forall i :: 0 <= i < |g| ==> Alike(g[i], h[i])
  }

  lemma {:induction false} BlurredAlike(g: seq<ObservedLifecycle>, h: seq<ObservedLifecycle>)
    requires Blurred(g) == Blurred(h)
    ensures AllAlike(g, h)
    decreases |g|
  {
    if g != [] && h != [] {
      var m, n := |g| - 1, |h| - 1;
      var x, y := Blurred(g), Blurred(h);
      assert x[..|x| - 1] == Blurred(g[..m]) && y[..|y| - 1] == Blurred(h[..n]);
      assert x[|x| - 1] == g[m].(provenance := Unframed(g[m].provenance));
      assert y[|y| - 1] == h[n].(provenance := Unframed(h[n].provenance));
      assert Alike(g[m], h[n]);
      BlurredAlike(g[..m], h[..n]);
    }
  }

  /** The generation, with the frame coordinates erased. */
  function Blur(g: Generation): Generation {
    Generation(g.key, Unframed(g.begin), if g.end == None then None else Some(Unframed(g.end.value)))
  }

  /** Neither the order of generations nor what counts as a duplicate depends on frames. */
  lemma BlurIsInvisible()
    ensures Invisible(GenerationLe, SameGeneration, Blur)
  {
  }

  lemma {:induction false} BlurredKeys(g: seq<Generation>, h: seq<Generation>)
    requires Map(Blur, g) == Map(Blur, h)
    ensures KeysOf(g) == KeysOf(h)
    decreases |g|
  {
    if g != [] && h != [] {
      var m, n := |g| - 1, |h| - 1;
      var x, y := Map(Blur, g), Map(Blur, h);
      assert x[..|x| - 1] == Map(Blur, g[..m]) && y[..|y| - 1] == Map(Blur, h[..n]);
      assert x[|x| - 1].key == g[m].key && y[|y| - 1].key == h[n].key;
      BlurredKeys(g[..m], h[..n]);
      KeysOfConcat(g[..m], [g[m]]);
      KeysOfConcat(h[..n], [h[n]]);
      assert g == g[..m] + [g[m]] && h == h[..n] + [h[n]];
    }
  }

  lemma {:induction false} SameGenerationsOf(
    a: Address, g: seq<ObservedLifecycle>, h: seq<ObservedLifecycle>, id: nat, p: Provenance, q: Provenance, open: bool)
    requires AllAlike(g, h) && Unframed(p) == Unframed(q)
    ensures Map(Blur, Generations(a, g, id, p, open)) == Map(Blur, Generations(a, h, id, q, open))
    decreases |g|
  {
    if g == [] {
    } else {
      assert Alike(g[0], h[0]) && AllAlike(g[1..], h[1..]);
      if g[0].payload.ContractDestroyed? {
        var k := GenerationKey(a, id);
        var x, y := Generation(k, p, Some(g[0].provenance)), Generation(k, q, Some(h[0].provenance));
        SameGenerationsOf(a, g[1..], h[1..], id + 1, g[0].provenance, h[0].provenance, false);
        MapConcat(Blur, [x], Generations(a, g[1..], id + 1, g[0].provenance, false));
        MapConcat(Blur, [y], Generations(a, h[1..], id + 1, h[0].provenance, false));
      } else {
        SameGenerationsOf(a, g[1..], h[1..], id, g[0].provenance, h[0].provenance, true);
      }
    }
  }

  lemma {:induction false} SameResolved(
    keys: seq<Address>, t: LifecycleTable, u: LifecycleTable, preStates: map<Address, bool>)
    requires forall a :: AllAlike(At(t, a), At(u, a))
    ensures Map(Blur, ResolveFrom(keys, t, preStates).generations)
         == Map(Blur, ResolveFrom(keys, u, preStates).generations)
    decreases |keys|
  {
    if keys == [] {
    } else {
      var a := keys[0];
      SameResolved(keys[1..], t, u, preStates);
      assert AllAlike(At(t, a), At(u, a));
      SameGenerationsOf(a, At(t, a), At(u, a), 0, FirstProvenance(At(t, a)), FirstProvenance(At(u, a)), true);
      MapConcat(Blur, GenerationsOf(a, At(t, a)), ResolveFrom(keys[1..], t, preStates).generations);
      MapConcat(Blur, GenerationsOf(a, At(u, a)), ResolveFrom(keys[1..], u, preStates).generations);
    }
  }

  lemma {:induction false} SameOfAddress(g: seq<Generation>, h: seq<Generation>, a: Address)
    requires KeysOf(g) == KeysOf(h)
    ensures KeysOf(OfAddress(g, a)) == KeysOf(OfAddress(h, a))
    decreases |g|
  {
    if g == [] {
    } else {
      assert g[0].key == KeysOf(g)[0] == KeysOf(h)[0] == h[0].key;
      assert KeysOf(g[1..]) == KeysOf(g)[1..] == KeysOf(h)[1..] == KeysOf(h[1..]);
      SameOfAddress(g[1..], h[1..], a);
      KeysOfConcat([g[0]], OfAddress(g[1..], a));
      KeysOfConcat([h[0]], OfAddress(h[1..], a));
    }
  }

  lemma {:induction false} SameWithId(g: seq<Generation>, h: seq<Generation>, id: nat)
    requires KeysOf(g) == KeysOf(h)
    ensures KeysOf(WithId(g, id)) == KeysOf(WithId(h, id))
    decreases |g|
  {
    if g == [] {
    } else {
      assert g[0].key == KeysOf(g)[0] == KeysOf(h)[0] == h[0].key;
      assert KeysOf(g[1..]) == KeysOf(g)[1..] == KeysOf(h)[1..] == KeysOf(h[1..]);
      SameWithId(g[1..], h[1..], id);
      KeysOfConcat([g[0]], WithId(g[1..], id));
      KeysOfConcat([h[0]], WithId(h[1..], id));
    }
  }

  lemma {:induction false} SameMaxId(g: seq<Generation>, h: seq<Generation>)
    requires KeysOf(g) == KeysOf(h) && g != []
    ensures MaxId(g) == MaxId(h)
    decreases |g|
  {
    var n := |g| - 1;
    KeysOfConcat(g[..n], [g[n]]);
    KeysOfConcat(h[..n], [h[n]]);
    assert g == g[..n] + [g[n]] && h == h[..n] + [h[n]];
    assert KeysOf(g)[n] == g[n].key && KeysOf(h)[n] == h[n].key;
    assert KeysOf(g[..n]) == KeysOf(g)[..n] == KeysOf(h)[..n] == KeysOf(h[..n]);
    if 0 < n { SameMaxId(g[..n], h[..n]); }
  }

  lemma SameIdentity(g: seq<Generation>, h: seq<Generation>, a: Address)
    requires KeysOf(g) == KeysOf(h)
    ensures ResolveGeneration(g, a) == ResolveGeneration(h, a)
  {
    SameOfAddress(g, h, a);
    var x, y := OfAddress(g, a), OfAddress(h, a);
    if x != [] {
      SameMaxId(x, y);
      SameWithId(x, y, MaxId(x));
      var t, u := WithId(x, MaxId(x)), WithId(y, MaxId(y));
      if |t| == 1 { assert t[0].key == KeysOf(t)[0] == KeysOf(u)[0] == u[0].key; }
    }
  }

  // ---- Certificates ----

  lemma SameCollection<T, E>(addresses: set<Address>, f: Address -> Result<T, E>, g: Address -> Result<T, E>)
    requires forall a :: a in addresses ==> f(a) == g(a)
    ensures Collect(addresses, f) == Collect(addresses, g)
  {
    SameFailure(SortedAddresses(addresses), 0, f, g);
    if Collect(addresses, f).Ok? {
      CollectMeans(addresses, f, Collect(addresses, f).value);
      Collected(addresses, g, Collect(addresses, f).value);
    }
  }

  lemma SameCertifiers(table: StateTable, i: Identify, j: Identify, recover: Recover)
    requires forall a: Address :: i(a) == j(a)
    ensures Collect(Touched(table), Certifier(table, i, recover))
         == Collect(Touched(table), Certifier(table, j, recover))
  {
    SameCollection(Touched(table), Certifier(table, i, recover), Certifier(table, j, recover));
  }

  lemma SameCertificates(table: StateTable, i: Identify, j: Identify, recover: Recover)
    requires forall a: Address :: i(a) == j(a)
    ensures BuildSpec(table, i, recover) == BuildSpec(table, j, recover)
  {
    SameFailure(TableKeys(table), 0, KeyIdentifier(i), KeyIdentifier(j));
    SameCertifiers(table, i, j, recover);
  }

  lemma SameLifecycles(metadata: Provisional, a: seq<CseEvent>, b: seq<CseEvent>, z: Address)
    requires SameButTrace(a, b)
    ensures var t, u := BucketOf(metadata, a).lifecycle, BucketOf(metadata, b).lifecycle;
            AllAlike(At(t, z), At(u, z)) && (z in t <==> z in u)
  {
    BucketHolds(metadata, a);
    BucketHolds(metadata, b);
    SameHistories(a, b, BalanceKey(z), z);
    BlurredAlike(LifecycleHistory(a, z), LifecycleHistory(b, z));
  }

  lemma SameTables(metadata: Provisional, a: seq<CseEvent>, b: seq<CseEvent>)
    requires SameButTrace(a, b)
    ensures var x, y := BucketOf(metadata, a), BucketOf(metadata, b);
            && x.stateTables == y.stateTables && x.logs == y.logs && x.gasRefund == y.gasRefund
            && x.lifecycle.Keys == y.lifecycle.Keys
            && forall z :: AllAlike(At(x.lifecycle, z), At(y.lifecycle, z))
  {
    var x, y := BucketOf(metadata, a), BucketOf(metadata, b);
    forall z ensures AllAlike(At(x.lifecycle, z), At(y.lifecycle, z)) && (z in x.lifecycle <==> z in y.lifecycle) {
      SameLifecycles(metadata, a, b, z);
    }
    SameFlatTables(metadata, a, b);
  }

  lemma SameFlatTables(metadata: Provisional, a: seq<CseEvent>, b: seq<CseEvent>)
    requires SameButTrace(a, b)
    ensures var x, y := BucketOf(metadata, a), BucketOf(metadata, b);
            x.stateTables == y.stateTables && x.logs == y.logs && x.gasRefund == y.gasRefund
  {
    var x, y := BucketOf(metadata, a), BucketOf(metadata, b);
    BucketHolds(metadata, a);
    BucketHolds(metadata, b);
    forall k ensures At(x.stateTables, k) == At(y.stateTables, k) { SameHistories(a, b, k, ZERO_ADDRESS); }
    SameTable(x.stateTables, y.stateTables);
    forall z ensures At(x.logs, z) == At(y.logs, z) { SameHistories(a, b, BalanceKey(z), z); }
    SameTable(x.logs, y.logs);
    SameHistories(a, b, BalanceKey(ZERO_ADDRESS), ZERO_ADDRESS);
  }

  lemma SameReduction(x: Bucket, y: Bucket)
    requires x.stateTables == y.stateTables && x.gasRefund == y.gasRefund
    ensures if ReduceBucket(x).Err? then ReduceBucket(y) == ReduceBucket(x)
            else ReduceBucket(y).Ok? && ReduceBucket(x).value.stateTable == ReduceBucket(y).value.stateTable
    ensures ReduceBucket(x).Ok? ==> ReduceBucket(x).value.lifecycle == x.lifecycle
  {
  }

  /** Canonicalized generations, for looking identities up. */
  function IdentityOf(table: LifecycleTable, preStates: map<Address, bool>, source: Source): Identify {
    Identifier(LifecyclePass(table, preStates).value.generations, source)
  }

  /** Transactions that differ in trace contexts only reduce alike and get the same certificates, or
      the same error. */
  lemma TraceContextIsInert(
    metadata: Provisional, a: seq<CseEvent>, b: seq<CseEvent>, preStates: map<Address, bool>, source: Source)
    requires SameButTrace(a, b)
    ensures var x, y := ReduceBucket(BucketOf(metadata, a)), ReduceBucket(BucketOf(metadata, b));
            if x.Err? then y == x
            else
              && y.Ok? && x.value.stateTable == y.value.stateTable
              && BuildSpec(x.value.stateTable, IdentityOf(x.value.lifecycle, preStates, source), source.recover)
              == BuildSpec(y.value.stateTable, IdentityOf(y.value.lifecycle, preStates, source), source.recover)
  {
    SameTables(metadata, a, b);
    SameReduction(BucketOf(metadata, a), BucketOf(metadata, b));
    SameReduction(BucketOf(metadata, b), BucketOf(metadata, a));
    if ReduceBucket(BucketOf(metadata, a)).Ok? {
      var x, y := ReduceBucket(BucketOf(metadata, a)).value, ReduceBucket(BucketOf(metadata, b)).value;
      SameIdentities(metadata, a, b, preStates, source);
      SameCertificates(x.stateTable, IdentityOf(x.lifecycle, preStates, source),
                       IdentityOf(y.lifecycle, preStates, source), source.recover);
    }
  }

  lemma SameIdentities(
    metadata: Provisional, a: seq<CseEvent>, b: seq<CseEvent>, preStates: map<Address, bool>, source: Source)
    requires SameButTrace(a, b)
    ensures forall x: Address :: IdentityOf(BucketOf(metadata, a).lifecycle, preStates, source)(x)
                              == IdentityOf(BucketOf(metadata, b).lifecycle, preStates, source)(x)
  {
    SameGenerations(metadata, a, b, preStates);
    var g := LifecyclePass(BucketOf(metadata, a).lifecycle, preStates).value.generations;
    var h := LifecyclePass(BucketOf(metadata, b).lifecycle, preStates).value.generations;
    forall x: Address ensures Identifier(g, source)(x) == Identifier(h, source)(x) {
      SameIdentity(g, h, x);
    }
  }

  lemma SameGenerations(metadata: Provisional, a: seq<CseEvent>, b: seq<CseEvent>, preStates: map<Address, bool>)
    requires SameButTrace(a, b)
    ensures KeysOf(LifecyclePass(BucketOf(metadata, a).lifecycle, preStates).value.generations)
         == KeysOf(LifecyclePass(BucketOf(metadata, b).lifecycle, preStates).value.generations)
  {
    var t, u := BucketOf(metadata, a).lifecycle, BucketOf(metadata, b).lifecycle;
    SameTables(metadata, a, b);
    assert TableAddresses(t) == TableAddresses(u);
    SameResolved(TableAddresses(t), t, u, preStates);
    var g, h := Resolve(t, preStates).generations, Resolve(u, preStates).generations;
    BlurIsInvisible();
    CanonicalMap(GenerationLe, SameGeneration, Blur, g);
    CanonicalMap(GenerationLe, SameGeneration, Blur, h);
    BlurredKeys(Canonical(GenerationLe, SameGeneration, g), Canonical(GenerationLe, SameGeneration, h));
  }
}
