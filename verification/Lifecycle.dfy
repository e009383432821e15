/** Lifecycle resolution (`lifecycle/resolve.rs`): create and destroy observations become
    generations, the spans over which an address keeps one identity. */
module Lifecycle {
  import opened Primitives
  import opened Ordered
  import opened Partition

  datatype GenerationKey = GenerationKey(address: Address, generationId: nat)

  datatype Generation = Generation(key: GenerationKey, begin: Provenance, end: Option<Provenance>)

  datatype PreState = PreState(key: GenerationKey, existedBeforeTx: bool)

  datatype Violation =
    | Collision(address: Address, generationId: nat)
    | DuplicateKey(key: GenerationKey)
    | IntegrityBreach(key: GenerationKey)
    | IntervalInvalid(key: GenerationKey)
    | OverlapDetected(address: Address)
    | OrderingBreach

  /** Severity is always Error; the explanation text is not modelled. */
  datatype Diagnostic = Diagnostic(location: Provenance, violation: Violation)

  datatype Resolution = Resolution(preStates: seq<PreState>, generations: seq<Generation>, diagnostics: seq<Diagnostic>)

  type LifecycleTable = map<Address, seq<ObservedLifecycle>>

  const DEFAULT_PROVENANCE := Provenance(0, 0, 0, 0, 0)

  function Existed(preStates: map<Address, bool>, a: Address): bool { a in preStates && preStates[a] }

  /** The generations of one address, from observation list `obs` on. */
  function Generations(a: Address, obs: seq<ObservedLifecycle>, id: nat, begin: Provenance, open: bool): seq<Generation>
  {
    if obs == [] then if open then [Generation(GenerationKey(a, id), begin, None)] else []
    else if obs[0].payload.ContractDestroyed? then
      [Generation(GenerationKey(a, id), begin, Some(obs[0].provenance))]
        + Generations(a, obs[1..], id + 1, obs[0].provenance, false)
    else Generations(a, obs[1..], id, obs[0].provenance, true)
  }

  /** A creation of an account that existed before, in its first generation, collides. */
  function Collisions(a: Address, obs: seq<ObservedLifecycle>, id: nat, existed: bool): seq<Diagnostic> {
    if obs == [] then []
    else if obs[0].payload.ContractDestroyed? then Collisions(a, obs[1..], id + 1, existed)
    else
      (if id == 0 && existed then [Diagnostic(obs[0].provenance, Collision(a, id))] else [])
        + Collisions(a, obs[1..], id, existed)
  }

  function FirstProvenance(obs: seq<ObservedLifecycle>): Provenance {
    if obs == [] then DEFAULT_PROVENANCE else obs[0].provenance
  }

  function GenerationsOf(a: Address, obs: seq<ObservedLifecycle>): seq<Generation> {
    Generations(a, obs, 0, FirstProvenance(obs), true)
  }

  /** The addresses of the table in iteration order. */
  function TableAddresses<V>(m: map<Address, V>): (r: seq<Address>)
    ensures forall a :: a in r <==> a in m
  {
    AddressOrder();
    Keys(AddressLess, m.Keys)
  }

  lemma TableAddressesIncreasing<V>(m: map<Address, V>)
    ensures Increasing(AddressLess, TableAddresses(m))
  {
    AddressOrder();
    KeysIncreasing(AddressLess, m.Keys);
  }

  function ResolveFrom(keys: seq<Address>, table: LifecycleTable, preStates: map<Address, bool>): Resolution {
    if keys == [] then Resolution([], [], [])
    else
      var a, rest := keys[0], ResolveFrom(keys[1..], table, preStates);
      Resolution([PreState(GenerationKey(a, 0), Existed(preStates, a))] + rest.preStates,
                 GenerationsOf(a, At(table, a)) + rest.generations,
                 Collisions(a, At(table, a), 0, Existed(preStates, a)) + rest.diagnostics)
  }

  function Resolve(table: LifecycleTable, preStates: map<Address, bool>): Resolution {
    ResolveFrom(TableAddresses(table), table, preStates)
  }

  method ResolveAddress(a: Address, observations: seq<ObservedLifecycle>, existed: bool)
    returns (generations: seq<Generation>, diagnostics: seq<Diagnostic>)
    ensures generations == GenerationsOf(a, observations)
    ensures diagnostics == Collisions(a, observations, 0, existed)
  {
    generations, diagnostics := [], [];
    var currentGenId: nat := 0;
    var begin := FirstProvenance(observations);
    var genOpen := true;
    for i := 0 to |observations|
      invariant generations + Generations(a, observations[i..], currentGenId, begin, genOpen)
             == GenerationsOf(a, observations)
      invariant diagnostics + Collisions(a, observations[i..], currentGenId, existed)
             == Collisions(a, observations, 0, existed)
    {
      var obs := observations[i];
      assert observations[i..][0] == obs && observations[i..][1..] == observations[i + 1..];
      if obs.payload.ContractDestroyed? {
        Associate(generations, [Generation(GenerationKey(a, currentGenId), begin, Some(obs.provenance))],
                  Generations(a, observations[i + 1..], currentGenId + 1, obs.provenance, false));
        generations := generations + [Generation(GenerationKey(a, currentGenId), begin, Some(obs.provenance))];
        currentGenId, begin, genOpen := currentGenId + 1, obs.provenance, false;
      } else {
        var existedBefore := if currentGenId == 0 then existed else false;
        Associate(diagnostics, if existedBefore then [Diagnostic(obs.provenance, Collision(a, currentGenId))] else [],
                  Collisions(a, observations[i + 1..], currentGenId, existed));
        if existedBefore {
          diagnostics := diagnostics + [Diagnostic(obs.provenance, Collision(a, currentGenId))];
        } else {
          assert diagnostics + [] == diagnostics;
        }
        begin, genOpen := obs.provenance, true;
      }
    }
    assert diagnostics + [] == diagnostics;
    if genOpen {
      generations := generations + [Generation(GenerationKey(a, currentGenId), begin, None)];
    } else {
      assert generations + [] == generations;
    }
  }

  method ResolveTable(table: LifecycleTable, preStates: map<Address, bool>) returns (r: Resolution)
    ensures r == Resolve(table, preStates)
  {
    var keys := TableAddresses(table);
    r := Resolution([], [], []);
    assert keys[0..] == keys;
    for i := 0 to |keys|
      invariant var rest := ResolveFrom(keys[i..], table, preStates);
                Resolution(r.preStates + rest.preStates, r.generations + rest.generations,
                           r.diagnostics + rest.diagnostics)
                == Resolve(table, preStates)
    {
      var a := keys[i];
      assert keys[i..][0] == a && keys[i..][1..] == keys[i + 1..];
      var generations, diagnostics := ResolveAddress(a, table[a], Existed(preStates, a));
      ghost var rest := ResolveFrom(keys[i + 1..], table, preStates);
      Associate(r.preStates, [PreState(GenerationKey(a, 0), Existed(preStates, a))], rest.preStates);
      Associate(r.generations, generations, rest.generations);
      Associate(r.diagnostics, diagnostics, rest.diagnostics);
      r := Resolution(r.preStates + [PreState(GenerationKey(a, 0), Existed(preStates, a))],
                      r.generations + generations, r.diagnostics + diagnostics);
    }
    assert r.preStates + [] == r.preStates && r.generations + [] == r.generations;
    assert r.diagnostics + [] == r.diagnostics;
  }

  // ---- Shape of the generations of one address ----

  predicate Ascending(obs: seq<ObservedLifecycle>) {
    forall i, j :: 0 <= i < j < |obs| ==> obs[i].provenance.traceOrdinal < obs[j].provenance.traceOrdinal
  }

  /** `p` lies before every observation of `obs`. */
  predicate Precedes(p: Provenance, obs: seq<ObservedLifecycle>) {
    forall i :: 0 <= i < |obs| ==> p.traceOrdinal < obs[i].provenance.traceOrdinal
  }

  /** Every destruction follows a creation directly; `created` says whether one came just before. */
  predicate Paired(created: bool, obs: seq<ObservedLifecycle>)
    decreases |obs|
  {
    obs == [] ||
    (if obs[0].payload.ContractDestroyed? then created && Paired(false, obs[1..]) else Paired(true, obs[1..]))
  }

  /** Whether position `i` is a creation, or, if it is a destruction, directly follows one. */
  predicate PairedAt(created: bool, obs: seq<ObservedLifecycle>, i: nat)
    requires i < |obs|
  {
    obs[i].payload.ContractDestroyed? ==> if i == 0 then created else !obs[i - 1].payload.ContractDestroyed?
  }

  lemma {:induction false} PairedMeans(created: bool, obs: seq<ObservedLifecycle>)
    ensures Paired(created, obs) <==> forall i :: 0 <= i < |obs| ==> PairedAt(created, obs, i)
    decreases |obs|
  {
    if obs == [] {
    } else {
      var rest, first := obs[1..], !obs[0].payload.ContractDestroyed?;
      PairedMeans(first, rest);
      forall i | 0 < i < |obs| ensures PairedAt(created, obs, i) <==> PairedAt(first, rest, i - 1) {
      }
      if forall i :: 0 <= i < |rest| ==> PairedAt(first, rest, i) {
        assert PairedAt(created, obs, 0) ==> forall i :: 0 <= i < |obs| ==> PairedAt(created, obs, i);
      } else {
        var i :| 0 <= i < |rest| && !PairedAt(first, rest, i);
        assert !PairedAt(created, obs, i + 1);
      }
    }
  }

  predicate IntervalOk(g: Generation) { g.end.Some? ==> g.begin.traceOrdinal < g.end.value.traceOrdinal }

  /** A closed generation ends before its same-address successor begins. */
  predicate NextOk(g: Generation, h: Generation) {
    g.key.address == h.key.address && g.end.Some? ==> g.end.value.traceOrdinal < h.begin.traceOrdinal
  }

  /** `intervals_valid`: every interval and every pair of neighbours. */
  predicate IntervalsOk(gens: seq<Generation>) {
    gens == [] || (IntervalOk(gens[0]) && (1 < |gens| ==> NextOk(gens[0], gens[1])) && IntervalsOk(gens[1..]))
  }

  lemma IntervalsCons(g: Generation, gens: seq<Generation>)
    ensures IntervalsOk([g] + gens) <==> IntervalOk(g) && (gens != [] ==> NextOk(g, gens[0])) && IntervalsOk(gens)
  {
    assert ([g] + gens)[1..] == gens;
  }

  /** Ids count up from `id`, begins never go back, and everything belongs to `a`. */
  ghost predicate Chain(a: Address, gens: seq<Generation>, id: nat, from: nat) {
    && (forall i :: 0 <= i < |gens| ==> gens[i].key == GenerationKey(a, id + i) && from <= gens[i].begin.traceOrdinal)
    && (forall i, j :: 0 <= i < j < |gens| ==> gens[i].begin.traceOrdinal <= gens[j].begin.traceOrdinal)
  }

  lemma {:induction false} GenerationsChain(
    a: Address, obs: seq<ObservedLifecycle>, id: nat, begin: Provenance, open: bool)
    requires Ascending(obs) && (forall i :: 0 <= i < |obs| ==> begin.traceOrdinal <= obs[i].provenance.traceOrdinal)
    ensures Chain(a, Generations(a, obs, id, begin, open), id, begin.traceOrdinal)
    ensures open || obs != [] ==> Generations(a, obs, id, begin, open) != []
  {
    if obs == [] {
    } else {
      var p, rest := obs[0].provenance, obs[1..];
      if obs[0].payload.ContractDestroyed? {
        GenerationsChain(a, rest, id + 1, p, false);
        var g, tail := Generation(GenerationKey(a, id), begin, Some(p)), Generations(a, rest, id + 1, p, false);
        var gens := [g] + tail;
        forall i | 0 < i < |gens|
          ensures gens[i].key == GenerationKey(a, id + i) && begin.traceOrdinal <= gens[i].begin.traceOrdinal
        {
          assert gens[i] == tail[i - 1];
        }
        forall i, j | 0 <= i < j < |gens| ensures gens[i].begin.traceOrdinal <= gens[j].begin.traceOrdinal {
          if 0 < i { assert gens[i] == tail[i - 1] && gens[j] == tail[j - 1]; }
        }
      } else {
        GenerationsChain(a, rest, id, p, true);
      }
    }
  }

  /** After an observation: intervals are valid iff the remaining destructions are paired. */
  lemma {:induction false} IntervalsPaired(
    a: Address, obs: seq<ObservedLifecycle>, id: nat, begin: Provenance, created: bool)
    requires Ascending(obs) && Precedes(begin, obs)
    ensures var gens := Generations(a, obs, id, begin, created);
            Paired(created, obs) <==>
              IntervalsOk(gens) && (!created && gens != [] ==> begin.traceOrdinal < gens[0].begin.traceOrdinal)
  {
    var gens := Generations(a, obs, id, begin, created);
    if obs != [] {
      var p, rest := obs[0].provenance, obs[1..];
      assert Precedes(p, rest);
      if obs[0].payload.ContractDestroyed? {
        IntervalsPaired(a, rest, id + 1, p, false);
        GenerationsChain(a, rest, id + 1, p, false);
        IntervalsCons(Generation(GenerationKey(a, id), begin, Some(p)), Generations(a, rest, id + 1, p, false));
      } else {
        IntervalsPaired(a, rest, id, p, true);
        GenerationsChain(a, rest, id, p, true);
      }
    }
  }

  /** One address's intervals are valid exactly when each destruction directly follows a creation. */
  lemma AddressIntervals(a: Address, obs: seq<ObservedLifecycle>)
    requires obs != [] && Ascending(obs)
    ensures IntervalsOk(GenerationsOf(a, obs)) <==> Paired(false, obs)
  {
    var p, rest := obs[0].provenance, obs[1..];
    assert Precedes(p, rest);
    if obs[0].payload.ContractDestroyed? {
      IntervalsCons(Generation(GenerationKey(a, 0), p, Some(p)), Generations(a, rest, 1, p, false));
    } else {
      IntervalsPaired(a, rest, 0, p, true);
    }
  }
}
