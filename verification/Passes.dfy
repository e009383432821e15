/** Resolution and canonicalization of every bucket (`lifecycle/mod.rs`). */
module Passes {
  import opened Primitives
  import opened Cse
  import opened Partition
  import opened ReduceIr
  import opened Lifecycle
  import opened Certificates
  import opened Pipeline
  import Canonicalize

  /** Resolution followed by canonicalization, whose diagnostics come first. */
  function LifecyclePass(table: LifecycleTable, preStates: map<Address, bool>): Canonicalize.Pass {
    var resolved := Resolve(table, preStates);
    var pass := Canonicalize.ProcessSpec(resolved.preStates, resolved.generations, []);
    pass.(diagnostics := pass.diagnostics + resolved.diagnostics)
  }

  function ProcessLifecycles(ir: seq<ReducedBucket>, preStates: map<Address, bool>): (r: seq<Canonicalize.Pass>)
    ensures |r| == |ir| && forall i :: 0 <= i < |ir| ==> r[i] == LifecyclePass(ir[i].lifecycle, preStates)
  {
    seq(|ir|, i requires 0 <= i < |ir| => LifecyclePass(ir[i].lifecycle, preStates))
  }

  /** On a transaction's canonicalized generations an address has no identity exactly if it was
      neither created nor destroyed, and otherwise has that of its last generation. */
  lemma PassIdentifies(metadata: Provisional, events: seq<CseEvent>, preStates: map<Address, bool>, a: Address)
    requires SequencesAscend(events)
    ensures var table := BucketOf(metadata, events).lifecycle;
            var gens := LifecyclePass(table, preStates).value.generations;
            && (a in table <==> LifecycleHistory(events, a) != [])
            && (a !in table ==> ResolveGeneration(gens, a) == Err(IdentityAbsent(a)))
            && (a in table ==> var own := GenerationsOf(a, table[a]);
                               && own != []
                               && ResolveGeneration(gens, a) == Ok(VerifiedGeneration(own[|own| - 1].key, ZERO_WORD)))
  {
    var table := BucketOf(metadata, events).lifecycle;
    BucketHolds(metadata, events);
    BucketChronological(metadata, events);
    Canonicalize.LifecycleDecides(table, preStates);
    TerminalGeneration(table, preStates, a);
  }

  /** Each transaction's pass keeps the generations as resolved, with unique keys in deterministic
      order; its intervals are valid exactly if every destruction directly follows a creation; and it
      reports every creation of an account that already existed. */
  lemma PassesDecide(ir: seq<ReducedBucket>, preStates: map<Address, bool>, i: nat)
    requires i < |ir| && Canonicalize.Chronological(ir[i].lifecycle)
    ensures var pass, table := ProcessLifecycles(ir, preStates)[i], ir[i].lifecycle;
            && pass.value.generations == Resolve(table, preStates).generations
            && pass.report.keysUnique && pass.report.deterministicOrder && pass.report.referentialIntegrity
            && (pass.report.intervalsValid <==> forall a :: a in table ==> Paired(false, table[a]))
            && forall d :: d in Resolve(table, preStates).diagnostics ==> d in pass.diagnostics
  {
    Canonicalize.LifecycleDecides(ir[i].lifecycle, preStates);
  }
}
