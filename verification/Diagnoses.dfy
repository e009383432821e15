/** What lifecycle resolution and canonicalization report, position by position. */
module Diagnoses {
  import opened Primitives
  import opened Ordered
  import opened Partition
  import opened Lifecycle
  import opened Canonicalize
  import opened Sorting
  import opened Passes
  import opened Iteration

  // ---- The generations of one address ----

  function Destructions(obs: seq<ObservedLifecycle>): nat {
    if obs == [] then 0 else (if obs[0].payload.ContractDestroyed? then 1 else 0) + Destructions(obs[1..])
  }

  /** Whether a generation is still open after `obs`, if `open` tells whether one was before. */
  predicate StillOpen(obs: seq<ObservedLifecycle>, open: bool) {
    if obs == [] then open else !obs[|obs| - 1].payload.ContractDestroyed?
  }

  /** Where the generation that observation `i` ends began: at the observation before it. */
  function BeganAt(obs: seq<ObservedLifecycle>, i: nat, begin: Provenance): Provenance
    requires i <= |obs|
  {
    if i == 0 then begin else obs[i - 1].provenance
  }

  /** `gens` has one closed generation for each destruction, numbered from `id`, and an open one at
      the end unless a destruction came last. */
  ghost predicate Spans(
    gens: seq<Generation>, a: Address, obs: seq<ObservedLifecycle>, id: nat, begin: Provenance, open: bool)
  {
    && |gens| == Destructions(obs) + (if StillOpen(obs, open) then 1 else 0)
    && (forall i :: 0 <= i < |obs| && obs[i].payload.ContractDestroyed? ==>
          var n := Destructions(obs[..i]);
          && n < |gens|
          && gens[n] == Generation(GenerationKey(a, id + n), BeganAt(obs, i, begin), Some(obs[i].provenance)))
    && (StillOpen(obs, open) ==>
          gens[|gens| - 1] == Generation(GenerationKey(a, id + Destructions(obs)), BeganAt(obs, |obs|, begin), None))
  }

  lemma DestructionsCons(obs: seq<ObservedLifecycle>, i: nat)
    requires 0 < i <= |obs|
    ensures Destructions(obs[..i])
         == (if obs[0].payload.ContractDestroyed? then 1 else 0) + Destructions(obs[1..][..i - 1])
  {
    assert obs[..i][1..] == obs[1..][..i - 1];
  }

  lemma {:induction false} GenerationsSpan(
    a: Address, obs: seq<ObservedLifecycle>, id: nat, begin: Provenance, open: bool)
    ensures Spans(Generations(a, obs, id, begin, open), a, obs, id, begin, open)
    decreases |obs|
  {
    if obs == [] {
    } else {
      var p, rest := obs[0].provenance, obs[1..];
      var gens := Generations(a, obs, id, begin, open);
      if obs[0].payload.ContractDestroyed? {
        var tail := Generations(a, rest, id + 1, p, false);
        GenerationsSpan(a, rest, id + 1, p, false);
        assert gens == [Generation(GenerationKey(a, id), begin, Some(p))] + tail;
        SpansAfterDestruction(tail, a, obs, id, begin, open);
      } else {
        GenerationsSpan(a, rest, id, p, true);
        SpansAfterCreation(gens, a, obs, id, begin, open);
      }
    }
  }

  lemma SpansAfterDestruction(
    tail: seq<Generation>, a: Address, obs: seq<ObservedLifecycle>, id: nat, begin: Provenance, open: bool)
    requires obs != [] && obs[0].payload.ContractDestroyed?
    requires Spans(tail, a, obs[1..], id + 1, obs[0].provenance, false)
    ensures Spans([Generation(GenerationKey(a, id), begin, Some(obs[0].provenance))] + tail, a, obs, id, begin, open)
  {
    var gens, rest := [Generation(GenerationKey(a, id), begin, Some(obs[0].provenance))] + tail, obs[1..];
    assert obs[..0] == [];
    forall i | 0 < i < |obs| && obs[i].payload.ContractDestroyed?
      ensures var n := Destructions(obs[..i]);
              n < |gens|
              && gens[n] == Generation(GenerationKey(a, id + n), BeganAt(obs, i, begin), Some(obs[i].provenance))
    {
      DestructionsCons(obs, i);
      assert rest[i - 1] == obs[i];
      assert gens[Destructions(obs[..i])] == tail[Destructions(rest[..i - 1])];
    }
  }

  lemma SpansAfterCreation(
    gens: seq<Generation>, a: Address, obs: seq<ObservedLifecycle>, id: nat, begin: Provenance, open: bool)
    requires obs != [] && !obs[0].payload.ContractDestroyed?
    requires Spans(gens, a, obs[1..], id, obs[0].provenance, true)
    ensures Spans(gens, a, obs, id, begin, open)
  {
    var rest := obs[1..];
    forall i | 0 < i < |obs| && obs[i].payload.ContractDestroyed?
      ensures var n := Destructions(obs[..i]);
              n < |gens|
              && gens[n] == Generation(GenerationKey(a, id + n), BeganAt(obs, i, begin), Some(obs[i].provenance))
    {
      DestructionsCons(obs, i);
      assert rest[i - 1] == obs[i];
    }
  }

  /** An address's generations, position by position: the n-th destruction ends generation n, which
      began at the observation before it (the first one began where the observations begin); after a
      creation, or without observations, one more is open. */
  lemma GenerationsByPosition(a: Address, obs: seq<ObservedLifecycle>)
    ensures Spans(GenerationsOf(a, obs), a, obs, 0, if obs == [] then DEFAULT_PROVENANCE else obs[0].provenance, true)
  {
    GenerationsSpan(a, obs, 0, FirstProvenance(obs), true);
  }

  /** The last generation's number: one less than the destructions if the last one was not followed by
      a creation. */
  function LastId(obs: seq<ObservedLifecycle>): int {
    Destructions(obs) - (if obs != [] && obs[|obs| - 1].payload.ContractDestroyed? then 1 else 0)
  }

  lemma LastGeneration(a: Address, obs: seq<ObservedLifecycle>)
    requires obs != [] && GenerationsOf(a, obs) != []
    requires Chain(a, GenerationsOf(a, obs), 0, obs[0].provenance.traceOrdinal)
    ensures var own := GenerationsOf(a, obs);
            own[|own| - 1].key.address == a && own[|own| - 1].key.generationId == LastId(obs)
  {
    GenerationsByPosition(a, obs);
  }

  // ---- Pre-states and collisions ----

  /** The observations before the first destruction. */
  function Leading(obs: seq<ObservedLifecycle>): (n: nat)
    ensures n <= |obs|
    ensures forall i :: 0 <= i < n ==> !obs[i].payload.ContractDestroyed?
    ensures n < |obs| ==> obs[n].payload.ContractDestroyed?
  {
    if obs == [] || obs[0].payload.ContractDestroyed? then 0 else 1 + Leading(obs[1..])
  }

  /** The address existed before the transaction. */
  predicate Flagged(preStates: map<Address, bool>, a: Address) { a in preStates && preStates[a] == true }

  /** A collision for each creation before the first destruction, if the address existed before. */
  function CollisionsAt(a: Address, obs: seq<ObservedLifecycle>, existed: bool): seq<Diagnostic> {
    if existed
    then seq(Leading(obs), i requires 0 <= i < Leading(obs) => Diagnostic(obs[i].provenance, Collision(a, 0)))
    else []
  }

  lemma {:induction false} LaterNeverCollide(a: Address, obs: seq<ObservedLifecycle>, id: nat, existed: bool)
    requires 0 < id || !existed
    ensures Collisions(a, obs, id, existed) == []
    decreases |obs|
  {
    if obs == [] {
    } else {
      LaterNeverCollide(a, obs[1..], if obs[0].payload.ContractDestroyed? then id + 1 else id, existed);
    }
  }

  lemma {:induction false} CollisionsMean(a: Address, obs: seq<ObservedLifecycle>, existed: bool)
    ensures Collisions(a, obs, 0, existed) == CollisionsAt(a, obs, existed)
    decreases |obs|
  {
    if !existed {
      LaterNeverCollide(a, obs, 0, existed);
    } else if obs == [] {
    } else if obs[0].payload.ContractDestroyed? {
      LaterNeverCollide(a, obs[1..], 1, existed);
    } else {
      CollisionsMean(a, obs[1..], existed);
    }
  }

  function AllCollisions(
    keys: seq<Address>, table: LifecycleTable, preStates: map<Address, bool>): seq<Diagnostic>
  {
    if keys == [] then []
    else CollisionsAt(keys[0], At(table, keys[0]), Flagged(preStates, keys[0]))
           + AllCollisions(keys[1..], table, preStates)
  }

  lemma {:induction false} ResolveFromMeans(keys: seq<Address>, table: LifecycleTable, preStates: map<Address, bool>)
    ensures var r := ResolveFrom(keys, table, preStates);
            && |r.preStates| == |keys|
            && (forall i :: 0 <= i < |keys| ==>
                  r.preStates[i] == PreState(GenerationKey(keys[i], 0), Flagged(preStates, keys[i])))
            && r.diagnostics == AllCollisions(keys, table, preStates)
    decreases |keys|
  {
    if keys == [] {
    } else {
      ResolveFromMeans(keys[1..], table, preStates);
      CollisionsMean(keys[0], At(table, keys[0]), Flagged(preStates, keys[0]));
    }
  }

  /** Resolution records one pre-state per address of the table, in byte order, flagged exactly if the
      address existed before; and it reports, in that order, a collision for each creation of such an
      address that no destruction precedes. */
  lemma ResolveMeans(table: LifecycleTable, preStates: map<Address, bool>, keys: seq<Address>)
    requires InByteOrder(keys) && forall a :: a in keys <==> a in table
    ensures var r := Resolve(table, preStates);
            && |r.preStates| == |keys|
            && (forall i :: 0 <= i < |keys| ==>
                  r.preStates[i] == PreState(GenerationKey(keys[i], 0), Flagged(preStates, keys[i])))
            && r.diagnostics == AllCollisions(keys, table, preStates)
  {
    TableAddressesInOrder(table);
    AddressesInOrder(table.Keys, keys);
    ResolveFromMeans(keys, table, preStates);
  }

  /** Observation `j` of `a` is a collision. */
  predicate Collides(table: LifecycleTable, preStates: map<Address, bool>, a: Address, j: nat) {
    && a in table && Flagged(preStates, a) && j < |table[a]|
    && forall i :: 0 <= i <= j ==> !table[a][i].payload.ContractDestroyed?
  }

  lemma CollisionAt(a: Address, obs: seq<ObservedLifecycle>, d: Diagnostic)
    ensures d in CollisionsAt(a, obs, true) <==>
              exists j :: 0 <= j < Leading(obs) && d == Diagnostic(obs[j].provenance, Collision(a, 0))
  {
    var all := CollisionsAt(a, obs, true);
    if exists j :: 0 <= j < Leading(obs) && d == Diagnostic(obs[j].provenance, Collision(a, 0)) {
      var j :| 0 <= j < Leading(obs) && d == Diagnostic(obs[j].provenance, Collision(a, 0));
      assert all[j] == d;
    }
  }

  lemma {:induction false} CollisionsFound(
    keys: seq<Address>, table: LifecycleTable, preStates: map<Address, bool>, d: Diagnostic)
    requires forall a :: a in keys ==> a in table
    ensures d in AllCollisions(keys, table, preStates) <==>
              exists a, j: nat :: a in keys && Collides(table, preStates, a, j)
                                  && d == Diagnostic(table[a][j].provenance, Collision(a, 0))
    decreases |keys|
  {
    if keys == [] {
    } else {
      var x := keys[0];
      CollisionsFound(keys[1..], table, preStates, d);
      CollisionAt(x, table[x], d);
      assert forall j: nat :: Collides(table, preStates, x, j) <==> Flagged(preStates, x) && j < Leading(table[x]);
      assert forall a :: a in keys <==> a == x || a in keys[1..];
    }
  }

  /** The diagnostics of resolution are exactly the collisions. */
  lemma ResolveReports(table: LifecycleTable, preStates: map<Address, bool>, d: Diagnostic)
    ensures d in Resolve(table, preStates).diagnostics <==>
              exists a, j: nat :: Collides(table, preStates, a, j)
                                  && d == Diagnostic(table[a][j].provenance, Collision(a, 0))
  {
    var keys := TableAddresses(table);
    ResolveFromMeans(keys, table, preStates);
    CollisionsFound(keys, table, preStates, d);
  }

  // ---- The schema's diagnostics ----

  predicate RepeatsKey(gens: seq<Generation>, i: nat) {
    i < |gens| && exists j :: 0 <= j < i && gens[j].key == gens[i].key
  }

  predicate EndsEarly(g: Generation) { g.end.Some? && g.end.value.traceOrdinal <= g.begin.traceOrdinal }

  /** `h`, which follows `g`, belongs before it: by address, then begin, then number. */
  ghost predicate OutOfOrder(g: Generation, h: Generation) {
    Earlier(h.key.address, g.key.address) ||
    (h.key.address == g.key.address &&
      (h.begin.traceOrdinal < g.begin.traceOrdinal ||
       (h.begin.traceOrdinal == g.begin.traceOrdinal && h.key.generationId < g.key.generationId)))
  }

  /** `h`, which follows `g`, begins before `g` of the same address has ended. */
  predicate Overlaps(g: Generation, h: Generation) {
    g.key.address == h.key.address && g.end.Some? && h.begin.traceOrdinal <= g.end.value.traceOrdinal
  }

  lemma OrderSpelled(g: Generation, h: Generation)
    ensures GenerationLe(g, h) <==> !OutOfOrder(g, h)
    ensures IntervalOk(g) <==> !EndsEarly(g)
    ensures NextOk(g, h) <==> !Overlaps(g, h)
  {
    AddressesCompare(g.key.address, h.key.address, g.key.address);
    LexIsEarlier(h.key.address, g.key.address);
  }

  predicate GenerationReported(gens: seq<Generation>, i: nat, d: Diagnostic)
    requires i < |gens|
  {
    || (RepeatsKey(gens, i) && d == Diagnostic(gens[i].begin, DuplicateKey(gens[i].key)))
    || (EndsEarly(gens[i]) && d == Diagnostic(gens[i].begin, IntervalInvalid(gens[i].key)))
  }

  predicate BalanceReported(ir: SemanticIr, i: nat, d: Diagnostic)
    requires i < |ir.balances|
  {
    && (forall g :: g in ir.generations ==> g.key != ir.balances[i].key)
    && d == Diagnostic(ir.balances[i].location, IntegrityBreach(ir.balances[i].key))
  }

  ghost predicate PairReported(gens: seq<Generation>, i: nat, d: Diagnostic)
    requires 0 < i < |gens|
  {
    || (OutOfOrder(gens[i - 1], gens[i]) && d == Diagnostic(gens[i].begin, OrderingBreach))
    || (Overlaps(gens[i - 1], gens[i]) && d == Diagnostic(gens[i].begin, OverlapDetected(gens[i].key.address)))
  }

  lemma GenerationFaultsMean(gens: seq<Generation>, i: nat, d: Diagnostic)
    requires i < |gens|
    ensures d in GenerationFaults(gens[..i], gens[i]) <==> GenerationReported(gens, i, d)
  {
    OrderSpelled(gens[i], gens[i]);
    assert gens[i].key in KeySet(gens[..i]) <==> RepeatsKey(gens, i) by {
      if RepeatsKey(gens, i) {
        var j :| 0 <= j < i && gens[j].key == gens[i].key;
        assert gens[..i][j] in gens[..i];
      }
    }
  }

  lemma {:induction false} GenerationsReported(gens: seq<Generation>, n: nat, d: Diagnostic)
    requires n <= |gens|
    ensures d in GenerationDiagnostics(gens, n) <==> exists i: nat :: i < n && GenerationReported(gens, i, d)
  {
    if n == 0 {
    } else {
      GenerationsReported(gens, n - 1, d);
      GenerationFaultsMean(gens, n - 1, d);
    }
  }

  lemma {:induction false} BalancesReported(ir: SemanticIr, n: nat, d: Diagnostic)
    requires n <= |ir.balances|
    ensures d in BalanceDiagnostics(ir, n) <==> exists i: nat :: i < n && BalanceReported(ir, i, d)
  {
    if n == 0 {
    } else {
      BalancesReported(ir, n - 1, d);
      assert d in BalanceFaults(ir.generations, ir.balances[n - 1]) <==> BalanceReported(ir, n - 1, d);
    }
  }

  lemma PairFaultsMean(gens: seq<Generation>, i: nat, d: Diagnostic)
    requires 0 < i < |gens|
    ensures d in PairFaults(gens[i - 1], gens[i]) <==> PairReported(gens, i, d)
  {
    OrderSpelled(gens[i - 1], gens[i]);
  }

  lemma {:induction false} PairsReported(gens: seq<Generation>, n: nat, d: Diagnostic)
    requires n < |gens| || n == 0
    ensures d in PairDiagnostics(gens, n) <==> exists i :: 0 < i <= n && PairReported(gens, i, d)
  {
    if n == 0 {
    } else {
      PairsReported(gens, n - 1, d);
      PairFaultsMean(gens, n, d);
      assert (exists i :: 0 < i <= n && PairReported(gens, i, d)) <==>
               (exists i :: 0 < i <= n - 1 && PairReported(gens, i, d)) || PairReported(gens, n, d);
    }
  }

  /** When each violation is listed, and where: a repeated key or an interval that ends no later than it
      begins at the generation, a balance without a generation at the balance, a neighbour out of order
      or overlapping at the later of the two. */
  lemma DiagnosticsMean(ir: SemanticIr, d: Diagnostic)
    ensures d in DiagnosticsOf(ir) <==>
              || (exists i: nat :: i < |ir.generations| && GenerationReported(ir.generations, i, d))
              || (exists i: nat :: i < |ir.balances| && BalanceReported(ir, i, d))
              || (exists i :: 0 < i < |ir.generations| && PairReported(ir.generations, i, d))
  {
    var gens := ir.generations;
    GenerationsReported(gens, |gens|, d);
    BalancesReported(ir, |ir.balances|, d);
    PairsReported(gens, Windows(gens), d);
  }

  /** The report's flags: no repeated key, a generation for every balance, no neighbours out of order,
      and no interval that ends no later than it begins or overlaps the next. */
  lemma FlagsMean(ir: SemanticIr)
    ensures var r, gens := ReportOf(ir), ir.generations;
            && (r.keysUnique <==> forall i :: 0 <= i < |gens| ==> !RepeatsKey(gens, i))
            && (r.referentialIntegrity <==>
                  forall b :: b in ir.balances ==> exists g :: g in gens && g.key == b.key)
            && (r.deterministicOrder <==> forall i :: 0 < i < |gens| ==> !OutOfOrder(gens[i - 1], gens[i]))
            && (r.intervalsValid <==>
                  && (forall i :: 0 <= i < |gens| ==> !EndsEarly(gens[i]))
                  && (forall i :: 0 < i < |gens| ==> !Overlaps(gens[i - 1], gens[i])))
  {
    var gens := ir.generations;
    IntervalsMeans(gens);
    forall g: Generation, h: Generation
      ensures (GenerationLe(g, h) <==> !OutOfOrder(g, h)) && (NextOk(g, h) <==> !Overlaps(g, h))
    {
      OrderSpelled(g, h);
    }
    if KeysUnique(gens) {
    } else {
      var i, j :| 0 <= i < j < |gens| && gens[i].key == gens[j].key;
      assert RepeatsKey(gens, j);
    }
  }

  /** Nothing is listed exactly if the report is clean. */
  lemma SilentReport(ir: SemanticIr)
    ensures DiagnosticsOf(ir) == [] <==> ReportOf(ir) == Report(true, true, true, true)
  {
    var gens, all := ir.generations, DiagnosticsOf(ir);
    IntervalsMeans(gens);
    if all != [] {
      DiagnosticsMean(ir, all[0]);
      Unclean(ir, all[0]);
    } else {
      Clean(ir);
    }
  }

  lemma Unclean(ir: SemanticIr, d: Diagnostic)
    requires || (exists i: nat :: i < |ir.generations| && GenerationReported(ir.generations, i, d))
             || (exists i: nat :: i < |ir.balances| && BalanceReported(ir, i, d))
             || (exists i :: 0 < i < |ir.generations| && PairReported(ir.generations, i, d))
    ensures !(KeysUnique(ir.generations) && Integrity(ir) && OrderedPairs(ir.generations)
              && IntervalsEach(ir.generations) && PairsApart(ir.generations))
  {
    var gens := ir.generations;
    if i: nat :| i < |gens| && GenerationReported(gens, i, d) {
      OrderSpelled(gens[i], gens[i]);
    } else if i: nat :| i < |ir.balances| && BalanceReported(ir, i, d) {
      assert ir.balances[i] in ir.balances;
    } else {
      var i :| 0 < i < |gens| && PairReported(gens, i, d);
      OrderSpelled(gens[i - 1], gens[i]);
    }
  }

  lemma Clean(ir: SemanticIr)
    requires DiagnosticsOf(ir) == []
    ensures KeysUnique(ir.generations) && Integrity(ir) && OrderedPairs(ir.generations)
    ensures IntervalsEach(ir.generations) && PairsApart(ir.generations)
  {
    var gens := ir.generations;
    forall i, j | 0 <= i < j < |gens| ensures gens[i].key != gens[j].key {
      var d := Diagnostic(gens[j].begin, DuplicateKey(gens[j].key));
      DiagnosticsMean(ir, d);
      assert !GenerationReported(gens, j, d);
    }
    forall i | 0 <= i < |gens| ensures IntervalOk(gens[i]) {
      var d := Diagnostic(gens[i].begin, IntervalInvalid(gens[i].key));
      DiagnosticsMean(ir, d);
      OrderSpelled(gens[i], gens[i]);
      assert !GenerationReported(gens, i, d);
    }
    forall b | b in ir.balances ensures b.key in KeySet(gens) {
      var i :| 0 <= i < |ir.balances| && ir.balances[i] == b;
      var d := Diagnostic(b.location, IntegrityBreach(b.key));
      DiagnosticsMean(ir, d);
      assert !BalanceReported(ir, i, d);
    }
    forall i | 0 < i < |gens| ensures GenerationLe(gens[i - 1], gens[i]) && NextOk(gens[i - 1], gens[i]) {
      var d := Diagnostic(gens[i].begin, OrderingBreach);
      var e := Diagnostic(gens[i].begin, OverlapDetected(gens[i].key.address));
      DiagnosticsMean(ir, d);
      DiagnosticsMean(ir, e);
      OrderSpelled(gens[i - 1], gens[i]);
      assert !PairReported(gens, i, d) && !PairReported(gens, i, e);
    }
  }

  // ---- The order of canonical lists ----

  /** By address, then number. */
  ghost predicate KeyInOrder(k: GenerationKey, l: GenerationKey) {
    Earlier(k.address, l.address) || (k.address == l.address && k.generationId <= l.generationId)
  }

  lemma KeyOrderSpelled(k: GenerationKey, l: GenerationKey)
    ensures GenerationKeyLe(k, l) <==> KeyInOrder(k, l)
  {
    LexIsEarlier(k.address, l.address);
  }

  /** Canonicalization lists pre-states and balance facts by address and number, and generations by
      address, begin and number. */
  lemma CanonicalInOrder(pre: seq<PreState>, gens: seq<Generation>, bals: seq<BalanceFact>, i: nat, j: nat)
    requires i < j
    ensures var v := ProcessSpec(pre, gens, bals).value;
            && (j < |v.preStates| ==> KeyInOrder(v.preStates[i].key, v.preStates[j].key))
            && (j < |v.generations| ==> !OutOfOrder(v.generations[i], v.generations[j]))
            && (j < |v.balances| ==> KeyInOrder(v.balances[i].key, v.balances[j].key))
  {
    var v := ProcessSpec(pre, gens, bals).value;
    PreStateOrder();
    GenerationOrder();
    BalanceOrder();
    CanonicalIdempotent(PreStateLe, SamePreState, pre);
    CanonicalIdempotent(GenerationLe, SameGeneration, gens);
    CanonicalIdempotent(BalanceLe, SameBalance, bals);
    if j < |v.preStates| {
      SortedPair(PreStateLe, v.preStates, i, j);
      KeyOrderSpelled(v.preStates[i].key, v.preStates[j].key);
    }
    if j < |v.generations| {
      SortedPair(GenerationLe, v.generations, i, j);
      OrderSpelled(v.generations[i], v.generations[j]);
    }
    if j < |v.balances| {
      SortedPair(BalanceLe, v.balances, i, j);
      KeyOrderSpelled(v.balances[i].key, v.balances[j].key);
    }
  }

  // ---- A transaction's pass ----

  lemma {:induction false} IncreasingKeysCanonical(pre: seq<PreState>)
    requires forall i, j :: 0 <= i < j < |pre| ==> AddressLess(pre[i].key.address, pre[j].key.address)
    ensures Sorted(PreStateLe, pre) && NoNeighbours(SamePreState, pre)
  {
    SortedMeans(PreStateLe, pre);
    if 2 <= |pre| {
      var n := |pre| - 1;
      IncreasingKeysCanonical(pre[..n]);
      LexTrichotomy(pre[n].key.address, pre[n].key.address);
    }
  }

  /** The pass keeps the pre-states as resolved. */
  lemma PassPreStates(table: LifecycleTable, preStates: map<Address, bool>)
    ensures LifecyclePass(table, preStates).value.preStates == Resolve(table, preStates).preStates
  {
    var keys, pre := TableAddresses(table), Resolve(table, preStates).preStates;
    TableAddressesIncreasing(table);
    ResolveFromMeans(keys, table, preStates);
    IncreasingKeysCanonical(pre);
    SortKeepsSorted(PreStateLe, pre);
    DedupKeeps(SamePreState, pre);
  }

  /** A transaction's pass is valid, reporting nothing, exactly if every destruction directly follows a
      creation and no address created or destroyed existed before the transaction. */
  lemma PassIsValid(table: LifecycleTable, preStates: map<Address, bool>)
    requires Chronological(table)
    ensures LifecyclePass(table, preStates).diagnostics == [] <==>
              forall a :: a in table ==> Paired(false, table[a]) && !Flagged(preStates, a)
  {
    var resolved := Resolve(table, preStates);
    var ir := ProcessSpec(resolved.preStates, resolved.generations, []).value;
    LifecycleDecides(table, preStates);
    SilentReport(ir);
    if forall a :: a in table ==> Paired(false, table[a]) {
      NoCollisions(table, preStates);
    }
  }

  /** On paired histories an address that existed before collides at its first observation. */
  lemma NoCollisions(table: LifecycleTable, preStates: map<Address, bool>)
    requires Chronological(table) && forall a :: a in table ==> Paired(false, table[a])
    ensures Resolve(table, preStates).diagnostics == [] <==> forall a :: a in table ==> !Flagged(preStates, a)
  {
    var all := Resolve(table, preStates).diagnostics;
    if all != [] {
      ResolveReports(table, preStates, all[0]);
    } else {
      forall a | a in table ensures !Flagged(preStates, a) {
        ResolveReports(table, preStates, Diagnostic(table[a][0].provenance, Collision(a, 0)));
        assert !Collides(table, preStates, a, 0);
      }
    }
  }

  /** A pass reports the faults of its schema first, and then the collisions in address order. */
  lemma PassReports(table: LifecycleTable, preStates: map<Address, bool>, keys: seq<Address>)
    requires InByteOrder(keys) && forall a :: a in keys <==> a in table
    ensures var pass := LifecyclePass(table, preStates);
            pass.diagnostics == DiagnosticsOf(pass.value) + AllCollisions(keys, table, preStates)
  {
    ResolveMeans(table, preStates, keys);
  }
}
