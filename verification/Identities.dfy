/** Which generation a certificate carries. */
module Identities {
  import opened Primitives
  import opened Cse
  import opened Partition
  import opened Lifecycle
  import opened Certificates
  import opened Pipeline
  import opened Passes
  import opened Diagnoses
  import opened Keys
  import opened ReduceIr
  import opened Iteration
  import Canonicalize
  import Gate2Laws

  /** The generations of a transaction, as its pass has them. */
  function PassGenerations(metadata: Provisional, events: seq<CseEvent>, preStates: map<Address, bool>)
    : seq<Generation>
  {
    LifecyclePass(BucketOf(metadata, events).lifecycle, preStates).value.generations
  }

  lemma LastKey(table: LifecycleTable, a: Address)
    requires Canonicalize.Chronological(table) && a in table
    ensures var own := GenerationsOf(a, table[a]);
            own != [] && 0 <= LastId(table[a]) && own[|own| - 1].key == GenerationKey(a, LastId(table[a]))
  {
    Canonicalize.IdsConsecutive(table, a);
    LastGeneration(a, table[a]);
  }

  lemma TableGeneration(table: LifecycleTable, preStates: map<Address, bool>, a: Address)
    requires Canonicalize.Chronological(table)
    ensures var answer := ResolveGeneration(LifecyclePass(table, preStates).value.generations, a);
            if a !in table then answer.Err?
            else 0 <= LastId(table[a])
                 && answer == Ok(VerifiedGeneration(GenerationKey(a, LastId(table[a])), ZERO_WORD))
  {
    Canonicalize.LifecycleDecides(table, preStates);
    TerminalGeneration(table, preStates, a);
    if a in table { LastKey(table, a); }
  }

  lemma TableHistory(metadata: Provisional, events: seq<CseEvent>, a: Address)
    ensures var table := BucketOf(metadata, events).lifecycle;
            && (a in table <==> LifecycleHistory(events, a) != [])
            && (a in table ==> table[a] == LifecycleHistory(events, a))
  {
    BucketHolds(metadata, events);
    assert At(BucketOf(metadata, events).lifecycle, a) == LifecycleHistory(events, a);
  }

  lemma OwnGeneration(metadata: Provisional, events: seq<CseEvent>, preStates: map<Address, bool>, a: Address)
    requires SequencesAscend(events)
    ensures var h := LifecycleHistory(events, a);
            var answer := ResolveGeneration(PassGenerations(metadata, events, preStates), a);
            if h == [] then answer.Err?
            else 0 <= LastId(h) && answer == Ok(VerifiedGeneration(GenerationKey(a, LastId(h)), ZERO_WORD))
  {
    TableHistory(metadata, events, a);
    BucketChronological(metadata, events);
    TableGeneration(BucketOf(metadata, events).lifecycle, preStates, a);
  }

  /** An account created or destroyed resolves to its last generation, numbered by its destructions,
      whatever the source says; for any other account the source is asked. */
  lemma ResolvedIdentity(
    metadata: Provisional, events: seq<CseEvent>, preStates: map<Address, bool>, source: Source, a: Address)
    requires SequencesAscend(events)
    ensures var h := LifecycleHistory(events, a);
            var answer := Identifier(PassGenerations(metadata, events, preStates), source)(a);
            if h == [] then answer == source.identity(a)
            else 0 <= LastId(h) && answer == Ok(VerifiedGeneration(GenerationKey(a, LastId(h)), ZERO_WORD))
  {
    OwnGeneration(metadata, events, preStates, a);
  }

  /** So a certificate carries the account's last generation of the transaction if it was created or
      destroyed in it, and otherwise the source's answer. */
  lemma CertificateIdentity(
    metadata: Provisional, events: seq<CseEvent>, preStates: map<Address, bool>, source: Source,
    table: StateTable, certificates: map<Address, Certificate>, a: Address)
    requires SequencesAscend(events) && a in certificates
    requires BuildSpec(table, Identifier(PassGenerations(metadata, events, preStates), source), source.recover)
          == Ok(certificates)
    ensures var h, generation := LifecycleHistory(events, a), certificates[a].generation;
            if h == [] then source.identity(a) == Ok(generation)
            else
              && generation.key.address == a && generation.key.generationId == LastId(h)
              && generation.stateTableProofRoot == ZERO_WORD
  {
    ResolvedIdentity(metadata, events, preStates, source, a);
    Gate2Laws.BuiltMeans(
      table, Identifier(PassGenerations(metadata, events, preStates), source), source.recover, certificates);
  }

  // ---- Which failure the builders report ----

  lemma {:induction false} FirstFailureAt<K, T, E>(keys: seq<K>, i: nat, f: K -> Result<T, E>) returns (j: nat)
    requires i <= |keys| && FirstFailure(keys, i, f).Some?
    ensures i <= j < |keys| && f(keys[j]) == Err(FirstFailure(keys, i, f).value)
    ensures forall l :: i <= l < j ==> f(keys[l]).Ok?
    decreases |keys| - i
  {
    if f(keys[i]).Ok? {
      j := FirstFailureAt(keys, i + 1, f);
    } else {
      j := i;
    }
  }

  /** The first written cell, in order, whose account has no identity. */
  ghost predicate LacksIdentity(table: StateTable, identify: Identify, k: Key) {
    k in table && identify(k.address).Err? && forall l :: l in table && KeyBefore(l, k) ==> identify(l.address).Ok?
  }

  /** The account's fields are all written or recovered. */
  predicate Fillable(table: StateTable, recover: Recover, a: Address) {
    Complete(FieldsOf(table, a)) || recover(a).Ok?
  }

  /** The first written account, in byte order, whose snapshot is needed and cannot be recovered. */
  ghost predicate LacksSnapshot(table: StateTable, recover: Recover, a: Address) {
    a in Touched(table) && !Fillable(table, recover, a)
    && forall b :: b in Touched(table) && Earlier(b, a) ==> Fillable(table, recover, b)
  }

  lemma KeysFail(table: StateTable, identify: Identify) returns (k: Key)
    requires FirstFailure(TableKeys(table), 0, KeyIdentifier(identify)).Some?
    ensures LacksIdentity(table, identify, k)
    ensures FirstFailure(TableKeys(table), 0, KeyIdentifier(identify)) == Some(identify(k.address).error)
  {
    var keys := TableKeys(table);
    TableKeysInOrder(table, keys);
    var j := FirstFailureAt(keys, 0, KeyIdentifier(identify));
    k := keys[j];
    forall l | l in table && KeyBefore(l, k) ensures identify(l.address).Ok? {
      assert l in keys;
      var i :| 0 <= i < |keys| && keys[i] == l;
      BeforeIsEarlier(keys, i, j);
      assert KeyIdentifier(identify)(keys[i]).Ok?;
    }
  }

  lemma OneLacksIdentity(table: StateTable, identify: Identify, k: Key, l: Key)
    requires LacksIdentity(table, identify, k) && LacksIdentity(table, identify, l)
    ensures k == l
  {
    KeyOrder();
    KeyLessIsBefore(k, l);
    KeyLessIsBefore(l, k);
  }

  lemma AddressesFail(table: StateTable, identify: Identify, recover: Recover) returns (a: Address)
    requires forall k :: k in table ==> identify(k.address).Ok?
    requires FirstFailure(SortedAddresses(Touched(table)), 0, Certifier(table, identify, recover)).Some?
    ensures LacksSnapshot(table, recover, a)
    ensures FirstFailure(SortedAddresses(Touched(table)), 0, Certifier(table, identify, recover))
         == Some(recover(a).error)
  {
    var keys, certify := SortedAddresses(Touched(table)), Certifier(table, identify, recover);
    AddressesInOrder(Touched(table), keys);
    var j := FirstFailureAt(keys, 0, certify);
    a := keys[j];
    assert a in keys;
    CertifyFails(table, identify, recover, a);
    forall b | b in Touched(table) && Earlier(b, a) ensures Fillable(table, recover, b) {
      assert b in keys;
      var i :| 0 <= i < |keys| && keys[i] == b;
      NotBothEarlier(keys[i], keys[j]);
      assert i < j;
      assert certify(keys[i]).Ok?;
      CertifyFails(table, identify, recover, b);
    }
  }

  lemma NotBothEarlier(a: Address, b: Address)
    ensures !(Earlier(a, b) && Earlier(b, a)) && (a == b || Earlier(a, b) || Earlier(b, a)) && !Earlier(a, a)
  {
    LexIsEarlier(a, b);
    LexIsEarlier(b, a);
    LexIsEarlier(a, a);
    LexTrichotomy(a, b);
    if LexLess(a, b) && LexLess(b, a) { LexTransitive(a, b, a); }
  }

  lemma CertifyFails(table: StateTable, identify: Identify, recover: Recover, a: Address)
    requires a in Touched(table) && forall k :: k in table ==> identify(k.address).Ok?
    ensures Certifier(table, identify, recover)(a)
         == if Fillable(table, recover, a) then BuildOne(FieldsOf(table, a), identify, recover, a)
            else Err(recover(a).error)
    ensures Certifier(table, identify, recover)(a).Ok? <==> Fillable(table, recover, a)
  {
    var k :| k in table && k.address == a;
    assert identify(a).Ok?;
  }

  lemma OneLacksSnapshot(table: StateTable, recover: Recover, a: Address, b: Address)
    requires LacksSnapshot(table, recover, a) && LacksSnapshot(table, recover, b)
    ensures a == b
  {
    NotBothEarlier(a, b);
  }

  /** The builders fail with the identity error of the first written cell whose account has none, else
      with the snapshot error of the first written account that needs one and has none. */
  lemma BuildFails(table: StateTable, identify: Identify, recover: Recover, error: ResolutionError)
    ensures BuildSpec(table, identify, recover) == Err(error) <==>
              || (exists k :: LacksIdentity(table, identify, k) && identify(k.address) == Err(error))
              || ((forall k :: k in table ==> identify(k.address).Ok?)
                  && exists a :: LacksSnapshot(table, recover, a) && recover(a) == Err(error))
  {
    var failure := FirstFailure(TableKeys(table), 0, KeyIdentifier(identify));
    if failure.Some? {
      var k := KeysFail(table, identify);
      forall l | LacksIdentity(table, identify, l) ensures l == k { OneLacksIdentity(table, identify, k, l); }
    } else {
      NoFailureMeans(TableKeys(table), 0, KeyIdentifier(identify));
      forall k | k in table ensures identify(k.address).Ok? {
        var keys := TableKeys(table);
        assert k in keys;
        var j :| 0 <= j < |keys| && keys[j] == k;
        assert KeyIdentifier(identify)(keys[j]).Ok?;
      }
      SnapshotsFail(table, identify, recover, error);
    }
  }

  lemma SnapshotsFail(table: StateTable, identify: Identify, recover: Recover, error: ResolutionError)
    requires forall k :: k in table ==> identify(k.address).Ok?
    ensures Collect(Touched(table), Certifier(table, identify, recover)) == Err(error) <==>
              exists a :: LacksSnapshot(table, recover, a) && recover(a) == Err(error)
  {
    var certify := Certifier(table, identify, recover);
    if FirstFailure(SortedAddresses(Touched(table)), 0, certify).Some? {
      var a := AddressesFail(table, identify, recover);
      forall b | LacksSnapshot(table, recover, b) ensures b == a { OneLacksSnapshot(table, recover, a, b); }
    } else {
      NoFailure(Touched(table), certify);
      forall a | a in Touched(table) ensures Fillable(table, recover, a) { CertifyFails(table, identify, recover, a); }
    }
  }

  /** The first entry, in byte order of the keys, filed under an address other than its own. */
  ghost predicate Misfiled(m: map<Address, Hydrated>, key: Address) {
    key in m && m[key].address != key && forall k :: k in m && Earlier(k, key) ==> m[k].address == k
  }

  /** Assembly fails exactly on the first misfiled entry, naming its address and its key. */
  lemma AssemblyFails(m: map<Address, Hydrated>, error: AssemblyError)
    ensures AssembleSpec(m) == Err(error) <==>
              exists key :: Misfiled(m, key) && error.address == m[key].address && error.key == key
  {
    var keys, assemble := SortedAddresses(m.Keys), Assembler(m);
    AddressesInOrder(m.Keys, keys);
    if FirstFailure(keys, 0, assemble).Some? {
      var j := FirstFailureAt(keys, 0, assemble);
      assert keys[j] in keys;
      forall k | k in m && Earlier(k, keys[j]) ensures m[k].address == k {
        assert k in keys;
        var i :| 0 <= i < |keys| && keys[i] == k;
        NotBothEarlier(keys[i], keys[j]);
        assert i < j;
        assert assemble(keys[i]).Ok?;
      }
      assert Misfiled(m, keys[j]);
      forall key | Misfiled(m, key) ensures key == keys[j] { NotBothEarlier(key, keys[j]); }
    } else {
      NoFailure(m.Keys, assemble);
      forall k | k in m ensures m[k].address == k { assert assemble(k).Ok?; }
    }
  }
}
