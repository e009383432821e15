/** Canonicalization (`lifecycle/canonicalize.rs`): sort, deduplicate, verify the schema. */
module Canonicalize {
  import opened Primitives
  import opened Ordered
  import opened Partition
  import opened Lifecycle
  import opened Sorting

  /** A balance fact scoped to a generation; the value is four 64-bit limbs. */
  datatype BalanceFact = BalanceFact(key: GenerationKey, value: seq<u64>, location: Provenance)

  datatype SemanticIr = SemanticIr(preStates: seq<PreState>, generations: seq<Generation>, balances: seq<BalanceFact>)

  datatype Report = Report(keysUnique: bool, referentialIntegrity: bool, deterministicOrder: bool, intervalsValid: bool)

  datatype Pass = Pass(value: SemanticIr, diagnostics: seq<Diagnostic>, report: Report)

  // ---- Orders ----

  predicate GenerationKeyLe(a: GenerationKey, b: GenerationKey) {
    AddressLess(a.address, b.address) || (a.address == b.address && a.generationId <= b.generationId)
  }

  predicate PreStateLe(a: PreState, b: PreState) { GenerationKeyLe(a.key, b.key) }

  predicate BalanceLe(a: BalanceFact, b: BalanceFact) { GenerationKeyLe(a.key, b.key) }

  /** Address, then begin, then generation id. */
  predicate GenerationLe(a: Generation, b: Generation) {
    AddressLess(a.key.address, b.key.address) ||
    (a.key.address == b.key.address &&
      (a.begin.traceOrdinal < b.begin.traceOrdinal ||
       (a.begin.traceOrdinal == b.begin.traceOrdinal && a.key.generationId <= b.key.generationId)))
  }

  predicate SamePreState(a: PreState, b: PreState) { a.key == b.key }

  predicate SameGeneration(a: Generation, b: Generation) { a.key == b.key }

  predicate SameBalance(a: BalanceFact, b: BalanceFact) { a.key == b.key }

  lemma AddressesCompare(a: Address, b: Address, c: Address)
    ensures a == b || AddressLess(a, b) || AddressLess(b, a)
    ensures AddressLess(a, b) && AddressLess(b, c) ==> AddressLess(a, c)
    ensures !(AddressLess(a, b) && AddressLess(b, a))
  {
    LexTrichotomy(a, b);
    if AddressLess(a, b) && AddressLess(b, c) { LexTransitive(a, b, c); }
    if AddressLess(a, b) && AddressLess(b, a) {
      LexTransitive(a, b, a);
    }
  }

  lemma PreStateOrder()
    ensures TotalPreorder(PreStateLe)
  {
    forall a: PreState, b: PreState ensures PreStateLe(a, b) || PreStateLe(b, a) {
      AddressesCompare(a.key.address, b.key.address, b.key.address);
    }
    forall a: PreState, b: PreState, c: PreState | PreStateLe(a, b) && PreStateLe(b, c) ensures PreStateLe(a, c) {
      AddressesCompare(a.key.address, b.key.address, c.key.address);
    }
  }

  lemma BalanceOrder()
    ensures TotalPreorder(BalanceLe)
  {
    forall a: BalanceFact, b: BalanceFact ensures BalanceLe(a, b) || BalanceLe(b, a) {
      AddressesCompare(a.key.address, b.key.address, b.key.address);
    }
    forall a: BalanceFact, b: BalanceFact, c: BalanceFact | BalanceLe(a, b) && BalanceLe(b, c) ensures BalanceLe(a, c) {
      AddressesCompare(a.key.address, b.key.address, c.key.address);
    }
  }

  lemma GenerationOrder()
    ensures TotalPreorder(GenerationLe)
  {
    forall a: Generation, b: Generation ensures GenerationLe(a, b) || GenerationLe(b, a) {
      AddressesCompare(a.key.address, b.key.address, b.key.address);
    }
    forall a: Generation, b: Generation, c: Generation | GenerationLe(a, b) && GenerationLe(b, c)
      ensures GenerationLe(a, c)
    {
      AddressesCompare(a.key.address, b.key.address, c.key.address);
    }
  }

  // ---- Schema verification ----

  predicate KeysUnique(gens: seq<Generation>) { forall i, j :: 0 <= i < j < |gens| ==> gens[i].key != gens[j].key }

  predicate IntervalsEach(gens: seq<Generation>) { forall i :: 0 <= i < |gens| ==> IntervalOk(gens[i]) }

  function KeySet(gens: seq<Generation>): set<GenerationKey> { set g | g in gens :: g.key }

  predicate Integrity(ir: SemanticIr) { forall b :: b in ir.balances ==> b.key in KeySet(ir.generations) }

  predicate PairsApart(gens: seq<Generation>) { forall i :: 0 < i < |gens| ==> NextOk(gens[i - 1], gens[i]) }

  predicate OrderedPairs(gens: seq<Generation>) { forall i :: 0 < i < |gens| ==> GenerationLe(gens[i - 1], gens[i]) }

  function ReportOf(ir: SemanticIr): Report {
    Report(KeysUnique(ir.generations), Integrity(ir), OrderedPairs(ir.generations), IntervalsOk(ir.generations))
  }

  function GenerationFaults(seen: seq<Generation>, g: Generation): seq<Diagnostic> {
    (if g.key in KeySet(seen) then [Diagnostic(g.begin, DuplicateKey(g.key))] else [])
      + (if IntervalOk(g) then [] else [Diagnostic(g.begin, IntervalInvalid(g.key))])
  }

  function GenerationDiagnostics(gens: seq<Generation>, n: nat): seq<Diagnostic>
    requires n <= |gens|
  {
    if n == 0 then [] else GenerationDiagnostics(gens, n - 1) + GenerationFaults(gens[..n - 1], gens[n - 1])
  }

  function BalanceFaults(gens: seq<Generation>, b: BalanceFact): seq<Diagnostic> {
    if b.key in KeySet(gens) then [] else [Diagnostic(b.location, IntegrityBreach(b.key))]
  }

  function BalanceDiagnostics(ir: SemanticIr, n: nat): seq<Diagnostic>
    requires n <= |ir.balances|
  {
    if n == 0 then [] else BalanceDiagnostics(ir, n - 1) + BalanceFaults(ir.generations, ir.balances[n - 1])
  }

  function PairFaults(g: Generation, h: Generation): seq<Diagnostic> {
    (if GenerationLe(g, h) then [] else [Diagnostic(h.begin, OrderingBreach)])
      + (if NextOk(g, h) then [] else [Diagnostic(h.begin, OverlapDetected(h.key.address))])
  }

  /** The number of neighbouring pairs. */
  function Windows(gens: seq<Generation>): nat { if gens == [] then 0 else |gens| - 1 }

  /** The faults of the first `n` neighbouring pairs. */
  function PairDiagnostics(gens: seq<Generation>, n: nat): seq<Diagnostic>
    requires n < |gens| || n == 0
  {
    if n == 0 then [] else PairDiagnostics(gens, n - 1) + PairFaults(gens[n - 1], gens[n])
  }

  function DiagnosticsOf(ir: SemanticIr): seq<Diagnostic> {
    GenerationDiagnostics(ir.generations, |ir.generations|)
      + BalanceDiagnostics(ir, |ir.balances|)
      + PairDiagnostics(ir.generations, Windows(ir.generations))
  }

  lemma {:induction false} IntervalsMeans(gens: seq<Generation>)
    ensures IntervalsOk(gens) <==> IntervalsEach(gens) && PairsApart(gens)
  {
    if gens == [] {
    } else {
      var rest := gens[1..];
      IntervalsMeans(rest);
      assert forall i :: 0 < i < |gens| ==> gens[i] == rest[i - 1];
      if IntervalsOk(gens) {
        forall i | 0 < i < |gens| ensures NextOk(gens[i - 1], gens[i]) {
          if 1 < i { assert NextOk(rest[i - 2], rest[i - 1]); }
        }
      } else {
        forall i | 0 < i < |rest| ensures NextOk(rest[i - 1], rest[i]) <==> NextOk(gens[i], gens[i + 1]) {
        }
      }
    }
  }

  /** The first `n` generations have different keys, and proper intervals. */
  predicate UniqueTo(gens: seq<Generation>, n: nat)
    requires n <= |gens|
  {
    n == 0 || (UniqueTo(gens, n - 1) && gens[n - 1].key !in KeySet(gens[..n - 1]))
  }

  predicate ProperTo(gens: seq<Generation>, n: nat)
    requires n <= |gens|
  {
    n == 0 || (ProperTo(gens, n - 1) && IntervalOk(gens[n - 1]))
  }

  lemma UniqueSnoc(gens: seq<Generation>, g: Generation)
    ensures KeysUnique(gens + [g]) <==> KeysUnique(gens) && g.key !in KeySet(gens)
    ensures IntervalsEach(gens + [g]) <==> IntervalsEach(gens) && IntervalOk(g)
  {
    var longer := gens + [g];
    assert longer[|gens|] == g && forall i :: 0 <= i < |gens| ==> longer[i] == gens[i];
    if g.key in KeySet(gens) {
      var i :| 0 <= i < |gens| && gens[i].key == g.key;
      assert longer[i].key == longer[|gens|].key;
    }
  }

  lemma {:induction false} GenerationsMean(gens: seq<Generation>, n: nat)
    requires n <= |gens|
    ensures UniqueTo(gens, n) <==> KeysUnique(gens[..n])
    ensures ProperTo(gens, n) <==> IntervalsEach(gens[..n])
  {
    if n == 0 {
    } else {
      GenerationsMean(gens, n - 1);
      UniqueSnoc(gens[..n - 1], gens[n - 1]);
      assert gens[..n] == gens[..n - 1] + [gens[n - 1]];
    }
  }

  method VerifyGenerations(gens: seq<Generation>)
    returns (diagnostics: seq<Diagnostic>, keysUnique: bool, intervals: bool)
    ensures diagnostics == GenerationDiagnostics(gens, |gens|)
    ensures keysUnique == UniqueTo(gens, |gens|)
    ensures intervals == ProperTo(gens, |gens|)
  {
    diagnostics, keysUnique, intervals := [], true, true;
    var seen: set<GenerationKey> := {};
    for i := 0 to |gens|
      invariant seen == KeySet(gens[..i])
      invariant keysUnique == UniqueTo(gens, i)
      invariant intervals == ProperTo(gens, i)
      invariant diagnostics == GenerationDiagnostics(gens, i)
    {
      var gen := gens[i];
      KeySnoc(gens[..i], gen);
      assert gens[..i + 1] == gens[..i] + [gen];
      ghost var before := diagnostics;
      if gen.key in seen {
        keysUnique := false;
        diagnostics := diagnostics + [Diagnostic(gen.begin, DuplicateKey(gen.key))];
      }
      seen := seen + {gen.key};
      if gen.end.Some? {
        if gen.begin.traceOrdinal >= gen.end.value.traceOrdinal {
          intervals := false;
          diagnostics := diagnostics + [Diagnostic(gen.begin, IntervalInvalid(gen.key))];
        }
      }
      assert diagnostics == before + GenerationFaults(gens[..i], gen);
    }
  }

  method VerifyBalances(ir: SemanticIr, active: set<GenerationKey>)
    returns (diagnostics: seq<Diagnostic>, integrity: bool)
    requires active == KeySet(ir.generations)
    ensures diagnostics == BalanceDiagnostics(ir, |ir.balances|)
    ensures integrity <==> Integrity(ir)
  {
    diagnostics, integrity := [], true;
    for i := 0 to |ir.balances|
      invariant integrity <==> forall j :: 0 <= j < i ==> ir.balances[j].key in KeySet(ir.generations)
      invariant diagnostics == BalanceDiagnostics(ir, i)
    {
      var bal := ir.balances[i];
      ghost var before := diagnostics;
      if bal.key !in active {
        integrity := false;
        diagnostics := diagnostics + [Diagnostic(bal.location, IntegrityBreach(bal.key))];
      }
      assert diagnostics == before + BalanceFaults(ir.generations, bal);
    }
  }

  method VerifyPair(g1: Generation, g2: Generation)
    returns (diagnostics: seq<Diagnostic>, ordered: bool, disjoint: bool)
    ensures diagnostics == PairFaults(g1, g2)
    ensures ordered == GenerationLe(g1, g2) && disjoint == NextOk(g1, g2)
  {
    diagnostics, ordered, disjoint := [], true, true;
    if !GenerationLe(g1, g2) {
      ordered := false;
      diagnostics := diagnostics + [Diagnostic(g2.begin, OrderingBreach)];
    }
    if g1.key.address == g2.key.address {
      if g1.end.Some? {
        if g1.end.value.traceOrdinal >= g2.begin.traceOrdinal {
          disjoint := false;
          diagnostics := diagnostics + [Diagnostic(g2.begin, OverlapDetected(g2.key.address))];
        }
      }
    }
  }

  /** The first `n` neighbouring pairs are in order, and apart. */
  predicate OrderedTo(gens: seq<Generation>, n: nat)
    requires n < |gens| || n == 0
  {
    n == 0 || (OrderedTo(gens, n - 1) && GenerationLe(gens[n - 1], gens[n]))
  }

  predicate ApartTo(gens: seq<Generation>, n: nat)
    requires n < |gens| || n == 0
  {
    n == 0 || (ApartTo(gens, n - 1) && NextOk(gens[n - 1], gens[n]))
  }

  lemma {:induction false} PairsMean(gens: seq<Generation>, n: nat)
    requires n < |gens| || n == 0
    ensures OrderedTo(gens, n) <==> forall j :: 0 < j <= n ==> GenerationLe(gens[j - 1], gens[j])
    ensures ApartTo(gens, n) <==> forall j :: 0 < j <= n ==> NextOk(gens[j - 1], gens[j])
  {
    if n == 0 {
    } else {
      PairsMean(gens, n - 1);
    }
  }

  method VerifyPairs(gens: seq<Generation>) returns (diagnostics: seq<Diagnostic>, ordered: bool, disjoint: bool)
    ensures diagnostics == PairDiagnostics(gens, Windows(gens))
    ensures ordered == OrderedTo(gens, Windows(gens))
    ensures disjoint == ApartTo(gens, Windows(gens))
  {
    diagnostics, ordered, disjoint := [], true, true;
    for i := 0 to Windows(gens)
      invariant ordered == OrderedTo(gens, i) && disjoint == ApartTo(gens, i)
      invariant diagnostics == PairDiagnostics(gens, i)
    {
      var faults, inOrder, apart := VerifyPair(gens[i], gens[i + 1]);
      diagnostics := diagnostics + faults;
      ordered, disjoint := ordered && inOrder, disjoint && apart;
    }
  }

  method VerifyGlobalSchema(ir: SemanticIr) returns (diagnostics: seq<Diagnostic>, report: Report)
    ensures diagnostics == DiagnosticsOf(ir)
    ensures report == ReportOf(ir)
  {
    var keysUnique, integrity, ordered, intervals, disjoint, more;
    diagnostics, keysUnique, intervals := VerifyGenerations(ir.generations);
    GenerationsMean(ir.generations, |ir.generations|);
    assert ir.generations[..|ir.generations|] == ir.generations;
    more, integrity := VerifyBalances(ir, KeySet(ir.generations));
    diagnostics := diagnostics + more;
    more, ordered, disjoint := VerifyPairs(ir.generations);
    PairsMean(ir.generations, Windows(ir.generations));
    diagnostics := diagnostics + more;
    IntervalsMeans(ir.generations);
    report := Report(keysUnique, integrity, ordered, intervals && disjoint);
  }

  lemma KeySnoc(gens: seq<Generation>, g: Generation)
    ensures KeySet(gens + [g]) == KeySet(gens) + {g.key}
  {
    var all := gens + [g];
    assert all[|gens|] == g && forall i :: 0 <= i < |gens| ==> all[i] == gens[i];
  }

  // ---- The pass ----

  function CanonicalIr(pre: seq<PreState>, gens: seq<Generation>, bals: seq<BalanceFact>): SemanticIr {
    SemanticIr(Canonical(PreStateLe, SamePreState, pre),
               Canonical(GenerationLe, SameGeneration, gens),
               Canonical(BalanceLe, SameBalance, bals))
  }

  function ProcessSpec(pre: seq<PreState>, gens: seq<Generation>, bals: seq<BalanceFact>): Pass {
    var ir := CanonicalIr(pre, gens, bals);
    Pass(ir, DiagnosticsOf(ir), ReportOf(ir))
  }

  method Process(pre: seq<PreState>, gens: seq<Generation>, bals: seq<BalanceFact>) returns (pass: Pass)
    ensures pass == ProcessSpec(pre, gens, bals)
  {
    var preStates := StableSort(PreStateLe, pre);
    preStates := Dedup(SamePreState, preStates);
    var generations := StableSort(GenerationLe, gens);
    generations := Dedup(SameGeneration, generations);
    var balances := StableSort(BalanceLe, bals);
    balances := Dedup(SameBalance, balances);
    var ir := SemanticIr(preStates, generations, balances);
    var diagnostics, report := VerifyGlobalSchema(ir);
    pass := Pass(ir, diagnostics, report);
  }

  /** Processing a processed result changes nothing: value, diagnostics or report. */
  lemma ProcessIdempotent(pre: seq<PreState>, gens: seq<Generation>, bals: seq<BalanceFact>)
    ensures var ir := ProcessSpec(pre, gens, bals).value;
            ProcessSpec(ir.preStates, ir.generations, ir.balances) == ProcessSpec(pre, gens, bals)
  {
    PreStateOrder();
    GenerationOrder();
    BalanceOrder();
    CanonicalIdempotent(PreStateLe, SamePreState, pre);
    CanonicalIdempotent(GenerationLe, SameGeneration, gens);
    CanonicalIdempotent(BalanceLe, SameBalance, bals);
  }

  function PreStateKey(p: PreState): GenerationKey { p.key }

  function KeyOf(g: Generation): GenerationKey { g.key }

  function BalanceKeyOf(b: BalanceFact): GenerationKey { b.key }

  lemma PreStateKeys()
    ensures ByKey(PreStateLe, SamePreState, PreStateKey)
    ensures forall x, y :: Tied(PreStateLe, x, y) <==> PreStateKey(x) == PreStateKey(y)
  {
    forall x, y ensures Tied(PreStateLe, x, y) <==> PreStateKey(x) == PreStateKey(y) {
      AddressesCompare(x.key.address, y.key.address, y.key.address);
    }
  }

  lemma BalanceKeys()
    ensures ByKey(BalanceLe, SameBalance, BalanceKeyOf)
    ensures forall x, y :: Tied(BalanceLe, x, y) <==> BalanceKeyOf(x) == BalanceKeyOf(y)
  {
    forall x, y ensures Tied(BalanceLe, x, y) <==> BalanceKeyOf(x) == BalanceKeyOf(y) {
      AddressesCompare(x.key.address, y.key.address, y.key.address);
    }
  }

  lemma GenerationTies(x: Generation, y: Generation)
    ensures Tied(GenerationLe, x, y) <==> x.key == y.key && x.begin.traceOrdinal == y.begin.traceOrdinal
  {
    AddressesCompare(x.key.address, y.key.address, y.key.address);
  }

  lemma GenerationKeys()
    ensures ByKey(GenerationLe, SameGeneration, KeyOf)
  {
    forall x, y | Tied(GenerationLe, x, y) ensures KeyOf(x) == KeyOf(y) {
      GenerationTies(x, y);
    }
  }

  /** The order in which the facts arrive does not matter to the pass. */
  ghost predicate OrderFreePass(pre: seq<PreState>, gens: seq<Generation>, bals: seq<BalanceFact>) {
    forall pre', gens', bals' {:trigger multiset(pre'), multiset(gens'), multiset(bals')} ::
      multiset(pre') == multiset(pre) && multiset(gens') == multiset(gens) && multiset(bals') == multiset(bals) ==>
      ProcessSpec(pre', gens', bals') == ProcessSpec(pre, gens, bals)
  }

  /** The input order does not matter exactly if pre-states and balance facts with one key agree, and
      different generations with one key and begin all directly follow, in order, generations with
      that key, because deduplication then drops them all. */
  lemma ProcessForgetsOrder(pre: seq<PreState>, gens: seq<Generation>, bals: seq<BalanceFact>)
    ensures OrderFreePass(pre, gens, bals) <==>
              Agree(PreStateKey, pre) && Determined(GenerationLe, KeyOf, gens) && Agree(BalanceKeyOf, bals)
  {
    PreStateOrder();
    GenerationOrder();
    BalanceOrder();
    PreStateKeys();
    GenerationKeys();
    BalanceKeys();
    AgreeIsDetermined(PreStateLe, PreStateKey, pre);
    AgreeIsDetermined(BalanceLe, BalanceKeyOf, bals);
    CanonicalForgetsOrder(PreStateLe, SamePreState, PreStateKey, pre);
    CanonicalForgetsOrder(GenerationLe, SameGeneration, KeyOf, gens);
    CanonicalForgetsOrder(BalanceLe, SameBalance, BalanceKeyOf, bals);
    PassParts(pre, gens, bals);
  }

  /** The pass forgets the order exactly if each of its three lists does. */
  lemma PassParts(pre: seq<PreState>, gens: seq<Generation>, bals: seq<BalanceFact>)
    ensures OrderFreePass(pre, gens, bals) <==>
              && OrderFree(PreStateLe, SamePreState, pre)
              && OrderFree(GenerationLe, SameGeneration, gens)
              && OrderFree(BalanceLe, SameBalance, bals)
  {
    if OrderFreePass(pre, gens, bals) {
      forall pre' {:trigger multiset(pre')} | multiset(pre') == multiset(pre)
        ensures Canonical(PreStateLe, SamePreState, pre') == Canonical(PreStateLe, SamePreState, pre)
      {
        PassAt(pre, gens, bals, pre', gens, bals);
      }
      forall gens' {:trigger multiset(gens')} | multiset(gens') == multiset(gens)
        ensures Canonical(GenerationLe, SameGeneration, gens') == Canonical(GenerationLe, SameGeneration, gens)
      {
        PassAt(pre, gens, bals, pre, gens', bals);
      }
      forall bals' {:trigger multiset(bals')} | multiset(bals') == multiset(bals)
        ensures Canonical(BalanceLe, SameBalance, bals') == Canonical(BalanceLe, SameBalance, bals)
      {
        PassAt(pre, gens, bals, pre, gens, bals');
      }
    }
  }

  lemma PassAt(
    pre: seq<PreState>, gens: seq<Generation>, bals: seq<BalanceFact>,
    pre': seq<PreState>, gens': seq<Generation>, bals': seq<BalanceFact>)
    requires OrderFreePass(pre, gens, bals)
    requires multiset(pre') == multiset(pre) && multiset(gens') == multiset(gens) && multiset(bals') == multiset(bals)
    ensures CanonicalIr(pre', gens', bals') == CanonicalIr(pre, gens, bals)
  {
    assert ProcessSpec(pre', gens', bals').value == ProcessSpec(pre, gens, bals).value;
  }

  /** In particular the order does not matter to lists with unique keys. */
  lemma UniqueKeysDetermined(gens: seq<Generation>)
    requires KeysUnique(gens)
    ensures Determined(GenerationLe, KeyOf, gens)
  {
    forall x, y | x in gens && y in gens && Tied(GenerationLe, x, y) ensures x == y {
      GenerationTies(x, y);
      var i :| 0 <= i < |gens| && gens[i] == x;
      var j :| 0 <= j < |gens| && gens[j] == y;
    }
  }

  /** Otherwise it does: the stable sort keeps whichever duplicate came first. */
  lemma DuplicatesRememberOrder(p: Provenance, q: Provenance)
    ensures var k := GenerationKey(ZERO_ADDRESS, 0);
            var g, h := Generation(k, p, None), Generation(k, p, Some(q));
            && multiset([g, h]) == multiset([h, g])
            && ProcessSpec([], [g, h], []).value.generations == [g]
            && ProcessSpec([], [h, g], []).value.generations == [h]
  {
    var k := GenerationKey(ZERO_ADDRESS, 0);
    var g, h := Generation(k, p, None), Generation(k, p, Some(q));
    TwoTied(g, h);
    TwoTied(h, g);
  }

  lemma TwoTied(g: Generation, h: Generation)
    requires g.key == h.key && g.begin == h.begin
    ensures Canonical(GenerationLe, SameGeneration, [g, h]) == [g]
  {
    assert [g, h][..1] == [g] && [g][..0] == [];
    assert StableSort(GenerationLe, [g]) == [g];
    assert StableSort(GenerationLe, [g, h]) == [g, h];
    assert Dedup(SameGeneration, [g]) == [g];
  }

  // ---- Adjacent checks imply global ones ----

  lemma {:induction false} OrderedTransitive(gens: seq<Generation>, i: nat, j: nat)
    requires OrderedPairs(gens) && i < j < |gens|
    ensures GenerationLe(gens[i], gens[j])
    decreases j - i
  {
    if i + 1 < j {
      OrderedTransitive(gens, i, j - 1);
      AddressesCompare(gens[i].key.address, gens[j - 1].key.address, gens[j].key.address);
    }
  }

  /** If a schema is reported ordered with valid intervals, every closed generation ends strictly
      before every later generation of its address begins, not only before its neighbour. */
  lemma AdjacentImpliesGlobal(ir: SemanticIr, i: nat, j: nat)
    requires ReportOf(ir).deterministicOrder && ReportOf(ir).intervalsValid
    requires i < j < |ir.generations| && ir.generations[i].key.address == ir.generations[j].key.address
    requires ir.generations[i].end.Some?
    ensures ir.generations[i].end.value.traceOrdinal < ir.generations[j].begin.traceOrdinal
  {
    var gens := ir.generations;
    IntervalsMeans(gens);
    assert NextOk(gens[i], gens[i + 1]);
    OrderedTransitive(gens, i, i + 1);
    if i + 1 < j {
      OrderedTransitive(gens, i + 1, j);
      AddressesCompare(gens[i].key.address, gens[i + 1].key.address, gens[i].key.address);
    }
  }

  // ---- Resolved tables are already canonical ----

  /** What a lifecycle table built from one transaction's stream satisfies. */
  predicate Chronological(table: LifecycleTable) { forall a :: a in table ==> table[a] != [] && Ascending(table[a]) }

  ghost predicate Strict(gens: seq<Generation>) {
    forall i, j :: 0 <= i < j < |gens| ==> GenerationLe(gens[i], gens[j]) && gens[i].key != gens[j].key
  }

  lemma StrictSegment(a: Address, gens: seq<Generation>, id: nat, from: nat)
    requires Chain(a, gens, id, from)
    ensures Strict(gens)
  {
  }

  lemma StrictConcat(a: seq<Generation>, b: seq<Generation>)
    requires Strict(a) && Strict(b)
    requires forall i, j :: 0 <= i < |a| && 0 <= j < |b| ==> AddressLess(a[i].key.address, b[j].key.address)
    ensures Strict(a + b)
  {
    var s := a + b;
    forall i, j | 0 <= i < j < |s| ensures GenerationLe(s[i], s[j]) && s[i].key != s[j].key {
      if i < |a| <= j {
        LexTrichotomy(a[i].key.address, a[i].key.address);
      }
    }
  }

  lemma {:induction false} IntervalsConcat(a: seq<Generation>, b: seq<Generation>)
    requires a != [] && b != [] ==> a[|a| - 1].key.address != b[0].key.address
    ensures IntervalsOk(a + b) <==> IntervalsOk(a) && IntervalsOk(b)
    decreases |a|
  {
    if a == [] {
      assert a + b == b;
    } else {
      IntervalsConcat(a[1..], b);
      assert a + b == [a[0]] + (a[1..] + b) && a == [a[0]] + a[1..];
      IntervalsCons(a[0], a[1..] + b);
      IntervalsCons(a[0], a[1..]);
    }
  }

  predicate AllPaired(keys: seq<Address>, table: LifecycleTable)
  {
    forall a :: a in keys ==> Paired(false, At(table, a))
  }

  /** The generations of the addresses `keys`, one address after the other. */
  function Resolved(keys: seq<Address>, table: LifecycleTable, preStates: map<Address, bool>): seq<Generation> {
    ResolveFrom(keys, table, preStates).generations
  }

  lemma {:induction false} ResolvedAddresses(keys: seq<Address>, table: LifecycleTable, preStates: map<Address, bool>)
    requires Chronological(table) && forall a :: a in keys ==> a in table
    ensures forall g :: g in Resolved(keys, table, preStates) ==> g.key.address in keys
    decreases |keys|
  {
    if keys == [] {
    } else {
      var a := keys[0];
      ResolvedAddresses(keys[1..], table, preStates);
      GenerationsChain(a, table[a], 0, table[a][0].provenance, true);
    }
  }

  lemma FirstIsLeast(keys: seq<Address>, tail: seq<Generation>)
    requires Increasing(AddressLess, keys) && keys != []
    requires forall g :: g in tail ==> g.key.address in keys[1..]
    ensures forall j :: 0 <= j < |tail| ==> AddressLess(keys[0], tail[j].key.address) && tail[j].key.address != keys[0]
  {
    forall j | 0 <= j < |tail| ensures AddressLess(keys[0], tail[j].key.address) && tail[j].key.address != keys[0] {
      assert tail[j] in tail;
      var k :| 0 < k < |keys| && keys[k] == tail[j].key.address;
      assert AddressLess(keys[0], keys[k]);
      LexTrichotomy(keys[0], keys[0]);
    }
  }

  lemma {:induction false} ResolvedStrict(keys: seq<Address>, table: LifecycleTable, preStates: map<Address, bool>)
    requires Increasing(AddressLess, keys) && Chronological(table) && forall a :: a in keys ==> a in table
    ensures Strict(Resolved(keys, table, preStates))
    decreases |keys|
  {
    if keys == [] {
    } else {
      var a := keys[0];
      var head, tail := GenerationsOf(a, table[a]), Resolved(keys[1..], table, preStates);
      ResolvedStrict(keys[1..], table, preStates);
      ResolvedAddresses(keys[1..], table, preStates);
      GenerationsChain(a, table[a], 0, table[a][0].provenance, true);
      StrictSegment(a, head, 0, table[a][0].provenance.traceOrdinal);
      FirstIsLeast(keys, tail);
      StrictConcat(head, tail);
    }
  }

  lemma {:induction false} ResolvedIntervals(keys: seq<Address>, table: LifecycleTable, preStates: map<Address, bool>)
    requires Increasing(AddressLess, keys) && Chronological(table) && forall a :: a in keys ==> a in table
    ensures IntervalsOk(Resolved(keys, table, preStates)) <==> AllPaired(keys, table)
    decreases |keys|
  {
    if keys == [] {
    } else {
      var a := keys[0];
      var head, tail := GenerationsOf(a, table[a]), Resolved(keys[1..], table, preStates);
      ResolvedIntervals(keys[1..], table, preStates);
      ResolvedAddresses(keys[1..], table, preStates);
      GenerationsChain(a, table[a], 0, table[a][0].provenance, true);
      FirstIsLeast(keys, tail);
      IntervalsConcat(head, tail);
      AddressIntervals(a, table[a]);
      assert forall x :: x in keys <==> x == a || x in keys[1..];
    }
  }

  /** Strictly ordered generations are their own canonical form. */
  lemma StrictIsCanonical(gens: seq<Generation>)
    requires Strict(gens)
    ensures Canonical(GenerationLe, SameGeneration, gens) == gens
    ensures KeysUnique(gens) && OrderedPairs(gens)
  {
    SortedMeans(GenerationLe, gens);
    SortKeepsSorted(GenerationLe, gens);
    StrictNoNeighbours(gens);
    DedupKeeps(SameGeneration, gens);
  }

  /** Resolving and canonicalizing a transaction's lifecycle table: the generations come out as
      resolved, keys are unique and order is deterministic whatever was observed, and the
      intervals are valid exactly when every destruction directly follows a creation. */
  lemma LifecycleDecides(table: LifecycleTable, preStates: map<Address, bool>)
    requires Chronological(table)
    ensures var resolved := Resolve(table, preStates);
            var pass := ProcessSpec(resolved.preStates, resolved.generations, []);
            && pass.value.generations == resolved.generations
            && pass.report.keysUnique && pass.report.deterministicOrder && pass.report.referentialIntegrity
            && (pass.report.intervalsValid <==> forall a :: a in table ==> Paired(false, table[a]))
  {
    var keys := TableAddresses(table);
    TableAddressesIncreasing(table);
    ResolvedStrict(keys, table, preStates);
    ResolvedIntervals(keys, table, preStates);
    StrictIsCanonical(Resolve(table, preStates).generations);
    assert Canonical(BalanceLe, SameBalance, []) == [];
    PairedTable(keys, table);
  }

  lemma PairedTable(keys: seq<Address>, table: LifecycleTable)
    requires forall a :: a in keys <==> a in table
    ensures AllPaired(keys, table) <==> forall a :: a in table ==> Paired(false, table[a])
  {
    forall a | a in table ensures Paired(false, At(table, a)) == Paired(false, table[a]) {
    }
  }

  lemma {:induction false} StrictNoNeighbours(gens: seq<Generation>)
    requires Strict(gens)
    ensures NoNeighbours(SameGeneration, gens)
  {
    if 2 <= |gens| { StrictNoNeighbours(gens[..|gens| - 1]); }
  }

  /** Every address's generations are numbered from 0 in chronological order. */
  lemma IdsConsecutive(table: LifecycleTable, a: Address)
    requires Chronological(table) && a in table
    ensures GenerationsOf(a, table[a]) != []
    ensures Chain(a, GenerationsOf(a, table[a]), 0, table[a][0].provenance.traceOrdinal)
  {
    GenerationsChain(a, table[a], 0, table[a][0].provenance, true);
  }
}
