/** Account certificates (`lifecycle/certificate.rs`, `lifecycle/hydration.rs`): two builders that
    must agree, and the choice of the terminal generation of an address. */
module Certificates {
  import opened Primitives
  import opened Ordered
  import opened Cse
  import opened Timeline
  import opened ReduceIr
  import opened Lifecycle
  import opened Canonicalize

  datatype ResolutionError =
    | IdentityAbsent(address: Address)
    | IdentityAmbiguous(address: Address)
    | ProvenanceMetadataDivergence(address: Address, generationId: nat)
    | MalformedProvenanceChain(address: Address)
    | StateDatabaseCorruption(address: Address)
    | InsufficientStateInformation(address: Address, missingField: string)

  datatype VerifiedGeneration = VerifiedGeneration(key: GenerationKey, stateTableProofRoot: Word)

  datatype Snapshot = Snapshot(nonce: u64, balance: Word, codeHash: Word)

  /** `AccountSnapshotSource`: data from outside the transaction, as pure lookups. */
  datatype Source = Source(
    identity: Address -> Result<VerifiedGeneration, ResolutionError>,
    recover: Address -> Result<Snapshot, ResolutionError>)

  datatype StorageRoot = Verified(root: Word) | AwaitingDerivation

  datatype Certificate = Certificate(
    address: Address, generation: VerifiedGeneration, nonce: u64, balance: Word, codeHash: Word,
    storageRoot: StorageRoot)

  datatype Hydrated = Hydrated(
    address: Address, snapshot: Snapshot, generation: VerifiedGeneration, storageRoot: StorageRoot)

  datatype AssemblyError = IdentityMismatchedKey(address: Address, key: Address)

  type StateTable = map<Key, Reduced>

  // ---- The terminal generation ----

  function OfAddress(gens: seq<Generation>, a: Address): seq<Generation> {
    if gens == [] then []
    else
      var rest := OfAddress(gens[1..], a);
      if gens[0].key.address == a then [gens[0]] + rest else rest
  }

  function MaxId(gens: seq<Generation>): nat
    requires gens != []
  {
    var n := |gens| - 1;
    if n == 0 then gens[0].key.generationId
    else
      var m := MaxId(gens[..n]);
      if m < gens[n].key.generationId then gens[n].key.generationId else m
  }

  function WithId(gens: seq<Generation>, id: nat): seq<Generation> {
    if gens == [] then []
    else
      var rest := WithId(gens[1..], id);
      if gens[0].key.generationId == id then [gens[0]] + rest else rest
  }

  function ResolveGeneration(gens: seq<Generation>, a: Address): Result<VerifiedGeneration, ResolutionError> {
    var matches := OfAddress(gens, a);
    if matches == [] then Err(IdentityAbsent(a))
    else
      var terminal := WithId(matches, MaxId(matches));
      if |terminal| != 1 then Err(IdentityAmbiguous(a))
      else Ok(VerifiedGeneration(terminal[0].key, ZERO_WORD))
  }

  lemma {:induction false} OfAddressConcat(x: seq<Generation>, y: seq<Generation>, a: Address)
    ensures OfAddress(x + y, a) == OfAddress(x, a) + OfAddress(y, a)
    decreases |x|
  {
    if x == [] {
      assert x + y == y;
    } else {
      assert (x + y)[1..] == x[1..] + y;
      OfAddressConcat(x[1..], y, a);
    }
  }

  lemma {:induction false} OfAddressUniform(gens: seq<Generation>, b: Address, a: Address)
    requires forall g :: g in gens ==> g.key.address == b
    ensures OfAddress(gens, a) == if a == b then gens else []
    decreases |gens|
  {
    if gens == [] {
    } else {
      OfAddressUniform(gens[1..], b, a);
      assert gens == [gens[0]] + gens[1..];
    }
  }

  /** The generations an address resolves to are found under that address, and only there. */
  lemma {:induction false} ResolvedOfAddress(
    keys: seq<Address>, table: LifecycleTable, pre: map<Address, bool>, a: Address)
    requires Increasing(AddressLess, keys) && Chronological(table) && forall x :: x in keys ==> x in table
    ensures OfAddress(Resolved(keys, table, pre), a) == if a in keys then GenerationsOf(a, table[a]) else []
    decreases |keys|
  {
    if keys == [] {
    } else {
      var b := keys[0];
      var head, tail := GenerationsOf(b, table[b]), Resolved(keys[1..], table, pre);
      ResolvedOfAddress(keys[1..], table, pre, a);
      GenerationsChain(b, table[b], 0, table[b][0].provenance, true);
      OfAddressConcat(head, tail, a);
      OfAddressUniform(head, b, a);
      assert a in keys <==> a == b || a in keys[1..];
      NotTwice(keys);
    }
  }

  lemma NotTwice(keys: seq<Address>)
    requires Increasing(AddressLess, keys) && keys != []
    ensures keys[0] !in keys[1..]
  {
    forall k | 0 < k < |keys| ensures keys[k] != keys[0] {
      assert AddressLess(keys[0], keys[k]);
      LexTrichotomy(keys[0], keys[0]);
    }
  }

  lemma {:induction false} WithIdInChain(a: Address, gens: seq<Generation>, first: nat, from: nat, id: nat)
    requires Chain(a, gens, first, from)
    ensures WithId(gens, id) == if first <= id < first + |gens| then [gens[id - first]] else []
    decreases |gens|
  {
    if gens == [] {
    } else {
      var rest := gens[1..];
      assert forall i :: 0 <= i < |rest| ==> rest[i] == gens[i + 1];
      WithIdInChain(a, rest, first + 1, from, id);
    }
  }

  lemma {:induction false} MaxIdOfChain(a: Address, own: seq<Generation>, from: nat)
    requires Chain(a, own, 0, from) && own != []
    ensures MaxId(own) == |own| - 1
  {
    var n := |own| - 1;
    assert own[n].key == GenerationKey(a, n);
    if 0 < n { MaxIdOfChain(a, own[..n], from); }
  }

  lemma ResolveOwn(gens: seq<Generation>, a: Address, own: seq<Generation>, from: nat)
    requires OfAddress(gens, a) == own && own != [] && Chain(a, own, 0, from)
    ensures ResolveGeneration(gens, a) == Ok(VerifiedGeneration(own[|own| - 1].key, ZERO_WORD))
  {
    MaxIdOfChain(a, own, from);
    WithIdInChain(a, own, 0, from, |own| - 1);
  }

  /** On a transaction's resolved generations the choice is never ambiguous: it fails exactly for
      addresses without lifecycle observations and otherwise takes the chronologically last one. */
  lemma TerminalGeneration(table: LifecycleTable, pre: map<Address, bool>, a: Address)
    requires Chronological(table)
    ensures a !in table ==> ResolveGeneration(Resolve(table, pre).generations, a) == Err(IdentityAbsent(a))
    ensures a in table ==>
              var own := GenerationsOf(a, table[a]);
              && own != []
              && ResolveGeneration(Resolve(table, pre).generations, a)
                  == Ok(VerifiedGeneration(own[|own| - 1].key, ZERO_WORD))
  {
    var keys, gens := TableAddresses(table), Resolve(table, pre).generations;
    TableAddressesIncreasing(table);
    ResolvedOfAddress(keys, table, pre, a);
    if a in table {
      IdsConsecutive(table, a);
      ResolveOwn(gens, a, GenerationsOf(a, table[a]), table[a][0].provenance.traceOrdinal);
    }
  }

  // ---- What both builders compute ----

  function AsCount(v: Value): u64 { if v.Count? then v.n else 0 }

  function AsWord(v: Value): Word { if v.Bytes? then v.word else ZERO_WORD }

  /** The fields of `a` that the transaction wrote. */
  datatype Fields = Fields(nonce: Option<u64>, balance: Option<Word>, codeHash: Option<Word>)

  const NO_FIELDS := Fields(None, None, None)

  function FieldsOf(table: StateTable, a: Address): Fields {
    Fields(if NonceKey(a) in table then Some(AsCount(table[NonceKey(a)].terminal)) else None,
           if BalanceKey(a) in table then Some(AsWord(table[BalanceKey(a)].terminal)) else None,
           if CodeKey(a) in table then Some(AsWord(table[CodeKey(a)].terminal)) else None)
  }

  predicate Complete(f: Fields) { f.nonce.Some? && f.balance.Some? && f.codeHash.Some? }

  /** Written fields win; the snapshot is consulted only when some field was not written. */
  function Fill(f: Fields, recover: Address -> Result<Snapshot, ResolutionError>, a: Address)
    : Result<Snapshot, ResolutionError>
  {
    if Complete(f) then Ok(Snapshot(f.nonce.value, f.balance.value, f.codeHash.value))
    else
      match recover(a)
      case Err(e) => Err(e)
      case Ok(s) => Ok(Snapshot(if f.nonce.Some? then f.nonce.value else s.nonce,
                                if f.balance.Some? then f.balance.value else s.balance,
                                if f.codeHash.Some? then f.codeHash.value else s.codeHash))
  }

  function GenerationFor(gens: seq<Generation>, source: Source, a: Address): Result<VerifiedGeneration, ResolutionError>
  {
    if ResolveGeneration(gens, a).Ok? then ResolveGeneration(gens, a) else source.identity(a)
  }

  type Identify = Address -> Result<VerifiedGeneration, ResolutionError>

  type Recover = Address -> Result<Snapshot, ResolutionError>

  function Identifier(gens: seq<Generation>, source: Source): Identify
  {
    (a: Address) => GenerationFor(gens, source, a)
  }

  function Touched(table: StateTable): set<Address> { set k | k in table :: k.address }

  function SortedAddresses(s: set<Address>): (r: seq<Address>)
    ensures forall a :: a in r <==> a in s
  {
    AddressOrder();
    Ordered.Keys(AddressLess, s)
  }

  /** The first failure of `f` over `keys[i..]`. */
  function FirstFailure<K, T, E>(keys: seq<K>, i: nat, f: K -> Result<T, E>): Option<E>
    requires i <= |keys|
    decreases |keys| - i
  {
    if i == |keys| then None
    else
      match f(keys[i])
      case Err(e) => Some(e)
      case Ok(_) => FirstFailure(keys, i + 1, f)
  }

  lemma {:induction false} NoFailureMeans<K, T, E>(keys: seq<K>, i: nat, f: K -> Result<T, E>)
    requires i <= |keys|
    ensures FirstFailure(keys, i, f) == None <==> forall j :: i <= j < |keys| ==> f(keys[j]).Ok?
    decreases |keys| - i
  {
    if i == |keys| {
    } else {
      NoFailureMeans(keys, i + 1, f);
    }
  }

  lemma NoFailure<T, E>(addresses: set<Address>, f: Address -> Result<T, E>)
    requires FirstFailure(SortedAddresses(addresses), 0, f) == None
    ensures forall a :: a in addresses ==> f(a).Ok?
  {
    var keys := SortedAddresses(addresses);
    NoFailureMeans(keys, 0, f);
    forall a | a in addresses ensures f(a).Ok? {
      assert a in keys;
      var j :| 0 <= j < |keys| && keys[j] == a;
      assert f(keys[j]).Ok?;
    }
  }

  /** The first `n` elements, as a set. */
  ghost function Firsts<T>(s: seq<T>, n: nat): set<T>
    requires n <= |s|
  {
    if n == 0 then {} else Firsts(s, n - 1) + {s[n - 1]}
  }

  lemma {:induction false} FirstsMeans<T>(s: seq<T>, n: nat)
    requires n <= |s|
    ensures Firsts(s, n) == set x | x in s[..n]
  {
    if n == 0 {
    } else {
      FirstsMeans(s, n - 1);
      assert s[..n] == s[..n - 1] + [s[n - 1]];
    }
  }

  lemma FirstsAll<T>(s: seq<T>, all: set<T>)
    requires forall x :: x in s <==> x in all
    ensures Firsts(s, |s|) == all
  {
    FirstsMeans(s, |s|);
    assert s[..|s|] == s;
  }

  lemma AllKeysFirst<V>(table: map<Key, V>)
    ensures Firsts(TableKeys(table), |TableKeys(table)|) == table.Keys
  {
    FirstsAll(TableKeys(table), table.Keys);
  }

  /** `into_iter().map(f).collect()` over a map's keys: every result, or the first failure in address order. */
  function Collect<T, E>(addresses: set<Address>, f: Address -> Result<T, E>): Result<map<Address, T>, E> {
    match FirstFailure(SortedAddresses(addresses), 0, f)
    case Some(e) => Err(e)
    case None =>
      NoFailure(addresses, f);
      Ok(map a | a in addresses :: f(a).value)
  }

  lemma CollectMeans<T, E>(addresses: set<Address>, f: Address -> Result<T, E>, m: map<Address, T>)
    requires Collect(addresses, f) == Ok(m)
    ensures m.Keys == addresses && forall a :: a in m ==> f(a) == Ok(m[a])
  {
    NoFailure(addresses, f);
  }

  function KeyIdentifier(identify: Identify): Key -> Result<VerifiedGeneration, ResolutionError> {
    (k: Key) => identify(k.address)
  }

  function HydrateOne(f: Fields, identify: Identify, recover: Recover, a: Address): Result<Hydrated, ResolutionError> {
    match identify(a)
    case Err(e) => Err(e)
    case Ok(g) =>
      match Fill(f, recover, a)
      case Err(e) => Err(e)
      case Ok(s) => Ok(Hydrated(a, s, g, AwaitingDerivation))
  }

  function Hydrator(table: StateTable, identify: Identify, recover: Recover)
    : Address -> Result<Hydrated, ResolutionError>
  {
    (a: Address) => HydrateOne(FieldsOf(table, a), identify, recover, a)
  }

  /** What hydration returns: the first identity failure in key order, else the first snapshot
      failure in address order, else every touched account's generation and filled fields. */
  function HydrateSpec(table: StateTable, identify: Identify, recover: Recover)
    : Result<map<Address, Hydrated>, ResolutionError>
  {
    match FirstFailure(TableKeys(table), 0, KeyIdentifier(identify))
    case Some(e) => Err(e)
    case None => Collect(Touched(table), Hydrator(table, identify, recover))
  }

  function CertificateOf(h: Hydrated): Certificate {
    Certificate(h.address, h.generation, h.snapshot.nonce, h.snapshot.balance, h.snapshot.codeHash, h.storageRoot)
  }

  function AssembleOne(h: Hydrated, key: Address): Result<Certificate, AssemblyError> {
    if h.address != key then Err(IdentityMismatchedKey(h.address, key)) else Ok(CertificateOf(h))
  }

  /** Total outside the map's keys only so that it can be a function value. */
  function Assembler(m: map<Address, Hydrated>): Address -> Result<Certificate, AssemblyError> {
    (key: Address) => if key in m then AssembleOne(m[key], key) else Err(IdentityMismatchedKey(key, key))
  }

  function AssembleSpec(m: map<Address, Hydrated>): Result<map<Address, Certificate>, AssemblyError> {
    Collect(m.Keys, Assembler(m))
  }

  function BuildOne(f: Fields, identify: Identify, recover: Recover, a: Address): Result<Certificate, ResolutionError> {
    match identify(a)
    case Err(e) => Err(e)
    case Ok(g) =>
      match Fill(f, recover, a)
      case Err(e) => Err(e)
      case Ok(s) => Ok(Certificate(a, g, s.nonce, s.balance, s.codeHash, AwaitingDerivation))
  }

  function Certifier(table: StateTable, identify: Identify, recover: Recover)
    : Address -> Result<Certificate, ResolutionError>
  {
    (a: Address) => BuildOne(FieldsOf(table, a), identify, recover, a)
  }

  function BuildSpec(table: StateTable, identify: Identify, recover: Recover)
    : Result<map<Address, Certificate>, ResolutionError>
  {
    match FirstFailure(TableKeys(table), 0, KeyIdentifier(identify))
    case Some(e) => Err(e)
    case None => Collect(Touched(table), Certifier(table, identify, recover))
  }

  // ---- The builders' first loop ----

  /** Stores a reduced transition's terminal value in the field its key names, if any. */
  function SetField(f: Fields, k: Key, t: Reduced): Fields {
    match k
    case BalanceKey(_) => f.(balance := Some(AsWord(t.terminal)))
    case NonceKey(_) => f.(nonce := Some(AsCount(t.terminal)))
    case CodeKey(_) => f.(codeHash := Some(AsWord(t.terminal)))
    case StorageKey(_, _) => f
    case TransientKey(_, _) => f
  }

  /** The fields of `a` once the keys `seen` have been processed. */
  function FieldsSeen(table: StateTable, seen: set<Key>, a: Address): Fields {
    Fields(if NonceKey(a) in table && NonceKey(a) in seen then Some(AsCount(table[NonceKey(a)].terminal)) else None,
           if BalanceKey(a) in table && BalanceKey(a) in seen
           then Some(AsWord(table[BalanceKey(a)].terminal)) else None,
           if CodeKey(a) in table && CodeKey(a) in seen then Some(AsWord(table[CodeKey(a)].terminal)) else None)
  }

  lemma SeeKey(table: StateTable, seen: set<Key>, k: Key, a: Address)
    requires k in table
    ensures FieldsSeen(table, seen + {k}, a)
         == if k.address == a then SetField(FieldsSeen(table, seen, a), k, table[k]) else FieldsSeen(table, seen, a)
  {
  }

  function AddressesOf(seen: set<Key>): set<Address> { set k | k in seen :: k.address }

  function FieldsAt(fields: map<Address, Fields>, a: Address): Fields { if a in fields then fields[a] else NO_FIELDS }

  /** What the first loop of either builder has established after the keys `seen`. */
  ghost predicate Gathered(
    table: StateTable, identify: Identify, seen: set<Key>,
    fields: map<Address, Fields>, generations: map<Address, VerifiedGeneration>)
  {
    && fields.Keys == generations.Keys == AddressesOf(seen)
    && (forall a :: a in fields ==> fields[a] == FieldsSeen(table, seen, a))
    && (forall a :: a in generations ==> identify(a) == Ok(generations[a]))
  }

  lemma AddressesGrow(seen: set<Key>, k: Key)
    ensures AddressesOf(seen + {k}) == AddressesOf(seen) + {k.address}
  {
  }

  lemma NothingSeen(table: StateTable, seen: set<Key>, a: Address)
    requires a !in AddressesOf(seen)
    ensures FieldsSeen(table, seen, a) == NO_FIELDS
  {
    assert NonceKey(a).address == a && BalanceKey(a).address == a && CodeKey(a).address == a;
  }

  lemma FieldsStep(table: StateTable, seen: set<Key>, fields: map<Address, Fields>, k: Key)
    requires fields.Keys == AddressesOf(seen) && (forall a :: a in fields ==> fields[a] == FieldsSeen(table, seen, a))
    requires k in table
    ensures var fields' := fields[k.address := SetField(FieldsAt(fields, k.address), k, table[k])];
            forall a :: a in fields' ==> fields'[a] == FieldsSeen(table, seen + {k}, a)
  {
    if k.address !in fields { NothingSeen(table, seen, k.address); }
    assert FieldsAt(fields, k.address) == FieldsSeen(table, seen, k.address);
    forall a | a == k.address || a in fields
      ensures FieldsSeen(table, seen + {k}, a)
           == if k.address == a then SetField(FieldsSeen(table, seen, a), k, table[k]) else FieldsSeen(table, seen, a)
    {
      SeeKey(table, seen, k, a);
    }
  }

  /** `generations'` is `generations` with an entry for `a`, added only if it was missing. */
  predicate Identified(
    identify: Identify, generations: map<Address, VerifiedGeneration>, a: Address,
    generations': map<Address, VerifiedGeneration>)
  {
    if a in generations then generations' == generations
    else identify(a).Ok? && generations' == generations[a := identify(a).value]
  }

  lemma GatherStep(
    table: StateTable, identify: Identify, seen: set<Key>,
    fields: map<Address, Fields>, generations: map<Address, VerifiedGeneration>, k: Key,
    generations': map<Address, VerifiedGeneration>)
    requires Gathered(table, identify, seen, fields, generations) && k in table
    requires Identified(identify, generations, k.address, generations')
    ensures Gathered(table, identify, seen + {k},
                     fields[k.address := SetField(FieldsAt(fields, k.address), k, table[k])], generations')
  {
    FieldsStep(table, seen, fields, k);
    AddressesGrow(seen, k);
  }

  lemma AllSeen(
    table: StateTable, identify: Identify, fields: map<Address, Fields>, generations: map<Address, VerifiedGeneration>)
    requires Gathered(table, identify, table.Keys, fields, generations)
    ensures fields.Keys == generations.Keys == Touched(table)
    ensures forall a :: a in fields ==> fields[a] == FieldsOf(table, a)
  {
    assert AddressesOf(table.Keys) == Touched(table);
  }

  method GatherByAddress(
    table: StateTable, identify: Identify, ghost identifyKey: Key -> Result<VerifiedGeneration, ResolutionError>)
    returns (
      error: Option<ResolutionError>, fieldsByAddress: map<Address, Fields>,
      generationByAddress: map<Address, VerifiedGeneration>)
    requires forall k :: identifyKey(k) == identify(k.address)
    ensures error == FirstFailure(TableKeys(table), 0, identifyKey)
    ensures error == None ==> Gathered(table, identify, table.Keys, fieldsByAddress, generationByAddress)
  {
    error, fieldsByAddress, generationByAddress := None, map[], map[];
    var keys := TableKeys(table);
    for i := 0 to |keys|
      invariant FirstFailure(keys, 0, identifyKey) == FirstFailure(keys, i, identifyKey)
      invariant Gathered(table, identify, Firsts(keys, i), fieldsByAddress, generationByAddress)
    {
      var key := keys[i];
      assert key in table && identifyKey(key) == identify(key.address);
      ghost var before := generationByAddress;
      if key.address !in generationByAddress {
        var generation := identify(key.address);
        if generation.Err? { return Some(generation.error), map[], map[]; }
        generationByAddress := generationByAddress[key.address := generation.value];
      }
      GatherStep(table, identify, Firsts(keys, i), fieldsByAddress, before, key, generationByAddress);
      var fields := FieldsAt(fieldsByAddress, key.address);
      fieldsByAddress := fieldsByAddress[key.address := SetField(fields, key, table[key])];
    }
    AllKeysFirst(table);
  }

  datatype Builder = Builder(address: Address, generation: VerifiedGeneration, fields: Fields)

  /** What the first loop of the direct builder has established after the keys `seen`. */
  ghost predicate Built(table: StateTable, identify: Identify, seen: set<Key>, builders: map<Address, Builder>) {
    && builders.Keys == AddressesOf(seen)
    && forall a :: a in builders ==>
         identify(a) == Ok(builders[a].generation)
             && builders[a] == Builder(a, builders[a].generation, FieldsSeen(table, seen, a))
  }

  /** `entry(key.address).or_insert(...)`: the builder already there, or a fresh one. */
  predicate Entry(identify: Identify, builders: map<Address, Builder>, a: Address, b: Builder) {
    if a in builders then b == builders[a]
    else identify(a) == Ok(b.generation) && b == Builder(a, b.generation, NO_FIELDS)
  }

  lemma BuiltStep(
    table: StateTable, identify: Identify, seen: set<Key>, builders: map<Address, Builder>, k: Key, b: Builder)
    requires Built(table, identify, seen, builders) && k in table && Entry(identify, builders, k.address, b)
    ensures Built(table, identify, seen + {k}, builders[k.address := b.(fields := SetField(b.fields, k, table[k]))])
  {
    if k.address !in builders { NothingSeen(table, seen, k.address); }
    AddressesGrow(seen, k);
    forall a | a == k.address || a in builders
      ensures FieldsSeen(table, seen + {k}, a)
           == if k.address == a then SetField(FieldsSeen(table, seen, a), k, table[k]) else FieldsSeen(table, seen, a)
    {
      SeeKey(table, seen, k, a);
    }
  }

  lemma AllBuilt(table: StateTable, identify: Identify, builders: map<Address, Builder>)
    requires Built(table, identify, table.Keys, builders)
    ensures builders.Keys == Touched(table)
    ensures forall a :: a in builders ==>
              identify(a) == Ok(builders[a].generation) && builders[a].address == a
                  && builders[a].fields == FieldsOf(table, a)
  {
    assert AddressesOf(table.Keys) == Touched(table);
  }

  method GatherBuilders(
    table: StateTable, identify: Identify, ghost identifyKey: Key -> Result<VerifiedGeneration, ResolutionError>)
    returns (error: Option<ResolutionError>, builders: map<Address, Builder>)
    requires forall k :: identifyKey(k) == identify(k.address)
    ensures error == FirstFailure(TableKeys(table), 0, identifyKey)
    ensures error == None ==> Built(table, identify, table.Keys, builders)
  {
    error, builders := None, map[];
    var keys := TableKeys(table);
    for i := 0 to |keys|
      invariant FirstFailure(keys, 0, identifyKey) == FirstFailure(keys, i, identifyKey)
      invariant Built(table, identify, Firsts(keys, i), builders)
    {
      var key := keys[i];
      assert key in table && identifyKey(key) == identify(key.address);
      var builder: Builder;
      if key.address in builders {
        builder := builders[key.address];
      } else {
        var generation := identify(key.address);
        if generation.Err? { return Some(generation.error), map[]; }
        builder := Builder(key.address, generation.value, NO_FIELDS);
      }
      BuiltStep(table, identify, Firsts(keys, i), builders, key, builder);
      builders := builders[key.address := builder.(fields := SetField(builder.fields, key, table[key]))];
    }
    AllKeysFirst(table);
  }

  // ---- The builders' second loop ----

  method FillFields(f: Fields, recover: Recover, a: Address) returns (r: Result<Snapshot, ResolutionError>)
    ensures r == Fill(f, recover, a)
  {
    var fields := f;
    if fields.nonce.None? || fields.balance.None? || fields.codeHash.None? {
      var recovered := recover(a);
      if recovered.Err? { return Err(recovered.error); }
      var snapshot := recovered.value;
      if fields.nonce.None? { fields := fields.(nonce := Some(snapshot.nonce)); }
      if fields.balance.None? { fields := fields.(balance := Some(snapshot.balance)); }
      if fields.codeHash.None? { fields := fields.(codeHash := Some(snapshot.codeHash)); }
    }
    // InsufficientStateInformation would be reported here for a field still missing; none can be.
    if fields.nonce.None? || fields.balance.None? || fields.codeHash.None? {
      assert false;
    }
    return Ok(Snapshot(fields.nonce.value, fields.balance.value, fields.codeHash.value));
  }

  /** `m` holds the results of `f` on `seen`. */
  ghost predicate Holds<T, E>(f: Address -> Result<T, E>, seen: set<Address>, m: map<Address, T>) {
    m.Keys == seen && forall a :: a in m ==> f(a) == Ok(m[a])
  }

  lemma HoldsStep<T, E>(f: Address -> Result<T, E>, seen: set<Address>, m: map<Address, T>, a: Address, v: T)
    requires Holds(f, seen, m) && f(a) == Ok(v)
    ensures Holds(f, seen + {a}, m[a := v])
  {
  }

  lemma Collected<T, E>(addresses: set<Address>, f: Address -> Result<T, E>, m: map<Address, T>)
    requires Holds(f, addresses, m)
    ensures Collect(addresses, f) == Ok(m)
  {
    var keys := SortedAddresses(addresses);
    assert forall j :: 0 <= j < |keys| ==> keys[j] in m && f(keys[j]).Ok?;
    NoFailureMeans(keys, 0, f);
    NoFailure(addresses, f);
    assert m == map a | a in addresses :: f(a).value;
  }

  method HydrateFields(
    fields: map<Address, Fields>, generations: map<Address, VerifiedGeneration>, identify: Identify, recover: Recover,
    ghost hydrate: Address -> Result<Hydrated, ResolutionError>)
    returns (r: Result<map<Address, Hydrated>, ResolutionError>)
    requires fields.Keys == generations.Keys && forall a :: a in generations ==> identify(a) == Ok(generations[a])
    requires forall a :: a in fields ==> hydrate(a) == HydrateOne(fields[a], identify, recover, a)
    ensures r == Collect(fields.Keys, hydrate)
  {
    var hydrated: map<Address, Hydrated> := map[];
    var addresses := SortedAddresses(fields.Keys);
    for i := 0 to |addresses|
      invariant FirstFailure(addresses, 0, hydrate) == FirstFailure(addresses, i, hydrate)
      invariant Holds(hydrate, Firsts(addresses, i), hydrated)
    {
      var a := addresses[i];
      assert a in fields;
      var snapshot := FillFields(fields[a], recover, a);
      if snapshot.Err? { return Err(snapshot.error); }
      var account := Hydrated(a, snapshot.value, generations[a], AwaitingDerivation);
      HoldsStep(hydrate, Firsts(addresses, i), hydrated, a, account);
      hydrated := hydrated[a := account];
    }
    FirstsAll(addresses, fields.Keys);
    Collected(fields.Keys, hydrate, hydrated);
    return Ok(hydrated);
  }

  method HydrateAccounts(table: StateTable, gens: seq<Generation>, source: Source)
    returns (r: Result<map<Address, Hydrated>, ResolutionError>)
    ensures r == HydrateSpec(table, Identifier(gens, source), source.recover)
  {
    var identify := Identifier(gens, source);
    var error, fields, generations := GatherByAddress(table, identify, KeyIdentifier(identify));
    if error.Some? { return Err(error.value); }
    AllSeen(table, identify, fields, generations);
    r := HydrateFields(fields, generations, identify, source.recover, Hydrator(table, identify, source.recover));
  }

  method AssembleCertificates(m: map<Address, Hydrated>) returns (r: Result<map<Address, Certificate>, AssemblyError>)
    ensures r == AssembleSpec(m)
  {
    r := AssembleEntries(m, Assembler(m));
  }

  method AssembleEntries(m: map<Address, Hydrated>, ghost assembler: Address -> Result<Certificate, AssemblyError>)
    returns (r: Result<map<Address, Certificate>, AssemblyError>)
    requires forall key :: key in m ==> assembler(key) == AssembleOne(m[key], key)
    ensures r == Collect(m.Keys, assembler)
  {
    var certificates: map<Address, Certificate> := map[];
    var keys := SortedAddresses(m.Keys);
    for i := 0 to |keys|
      invariant FirstFailure(keys, 0, assembler) == FirstFailure(keys, i, assembler)
      invariant Holds(assembler, Firsts(keys, i), certificates)
    {
      var key := keys[i];
      assert key in m && assembler(key) == AssembleOne(m[key], key);
      if m[key].address != key { return Err(IdentityMismatchedKey(m[key].address, key)); }
      HoldsStep(assembler, Firsts(keys, i), certificates, key, CertificateOf(m[key]));
      certificates := certificates[key := CertificateOf(m[key])];
    }
    FirstsAll(keys, m.Keys);
    Collected(m.Keys, assembler, certificates);
    return Ok(certificates);
  }

  method CertifyBuilders(
    builders: map<Address, Builder>, identify: Identify, recover: Recover,
    ghost certify: Address -> Result<Certificate, ResolutionError>)
    returns (r: Result<map<Address, Certificate>, ResolutionError>)
    requires forall a :: a in builders ==> builders[a].address == a && identify(a) == Ok(builders[a].generation)
    requires forall a :: a in builders ==> certify(a) == BuildOne(builders[a].fields, identify, recover, a)
    ensures r == Collect(builders.Keys, certify)
  {
    var certificates: map<Address, Certificate> := map[];
    var addresses := SortedAddresses(builders.Keys);
    for i := 0 to |addresses|
      invariant FirstFailure(addresses, 0, certify) == FirstFailure(addresses, i, certify)
      invariant Holds(certify, Firsts(addresses, i), certificates)
    {
      var a := addresses[i];
      assert a in builders;
      var b := builders[a];
      var snapshot := FillFields(b.fields, recover, a);
      if snapshot.Err? { return Err(snapshot.error); }
      var s := snapshot.value;
      var certificate := Certificate(b.address, b.generation, s.nonce, s.balance, s.codeHash, AwaitingDerivation);
      HoldsStep(certify, Firsts(addresses, i), certificates, a, certificate);
      certificates := certificates[a := certificate];
    }
    FirstsAll(addresses, builders.Keys);
    Collected(builders.Keys, certify, certificates);
    return Ok(certificates);
  }

  method BuildCanonicalCertificates(table: StateTable, gens: seq<Generation>, source: Source)
    returns (r: Result<map<Address, Certificate>, ResolutionError>)
    ensures r == BuildSpec(table, Identifier(gens, source), source.recover)
  {
    var identify := Identifier(gens, source);
    var error, builders := GatherBuilders(table, identify, KeyIdentifier(identify));
    if error.Some? { return Err(error.value); }
    AllBuilt(table, identify, builders);
    r := CertifyBuilders(builders, identify, source.recover, Certifier(table, identify, source.recover));
  }

  /** The certificates in address order. */
  function ValuesOf(keys: seq<Address>, m: map<Address, Certificate>): (r: seq<Certificate>)
    requires forall a :: a in keys ==> a in m
    ensures |r| == |keys|
  {
    seq(|keys|, i requires 0 <= i < |keys| => m[keys[i]])
  }

  function Batch(m: map<Address, Certificate>): seq<Certificate> { ValuesOf(SortedAddresses(m.Keys), m) }

  /** Certificates exist exactly if every written account has an identity and, where the transaction
      did not write all its fields, a snapshot. */
  lemma BuildDecides(table: StateTable, identify: Identify, recover: Recover)
    ensures BuildSpec(table, identify, recover).Ok? <==>
              forall a :: a in Touched(table) ==> identify(a).Ok? && (Complete(FieldsOf(table, a)) || recover(a).Ok?)
  {
    NoFailureMeans(TableKeys(table), 0, KeyIdentifier(identify));
    IdentifiedKeys(table, identify);
    CollectDecides(Touched(table), Certifier(table, identify, recover));
    CertifierDecides(table, identify, recover);
  }

  lemma CertifierDecides(table: StateTable, identify: Identify, recover: Recover)
    ensures forall a :: Certifier(table, identify, recover)(a).Ok?
                   <==> identify(a).Ok? && (Complete(FieldsOf(table, a)) || recover(a).Ok?)
  {
    forall a
      ensures Certifier(table, identify, recover)(a).Ok?
           <==> identify(a).Ok? && (Complete(FieldsOf(table, a)) || recover(a).Ok?)
    {
      assert Certifier(table, identify, recover)(a) == BuildOne(FieldsOf(table, a), identify, recover, a);
    }
  }

  lemma CollectDecides<T, E>(addresses: set<Address>, f: Address -> Result<T, E>)
    ensures Collect(addresses, f).Ok? <==> forall a :: a in addresses ==> f(a).Ok?
  {
    var keys := SortedAddresses(addresses);
    NoFailureMeans(keys, 0, f);
    if Collect(addresses, f).Ok? { NoFailure(addresses, f); }
    assert forall j :: 0 <= j < |keys| ==> keys[j] in addresses;
  }

  lemma IdentifiedKeys(table: StateTable, identify: Identify)
    ensures var keys := TableKeys(table);
            (forall j :: 0 <= j < |keys| ==> KeyIdentifier(identify)(keys[j]).Ok?)
            <==> forall a :: a in Touched(table) ==> identify(a).Ok?
  {
    var keys := TableKeys(table);
    if forall j :: 0 <= j < |keys| ==> KeyIdentifier(identify)(keys[j]).Ok? {
      forall a | a in Touched(table) ensures identify(a).Ok? {
        var k :| k in table && k.address == a;
        assert k in keys;
        var j :| 0 <= j < |keys| && keys[j] == k;
        assert KeyIdentifier(identify)(keys[j]).Ok?;
      }
    } else {
      var j :| 0 <= j < |keys| && !KeyIdentifier(identify)(keys[j]).Ok?;
      assert keys[j] in table && keys[j].address in Touched(table);
    }
  }

  // ---- Agreement ----

  lemma {:induction false} SameFailure<K, T, U, E>(keys: seq<K>, i: nat, f: K -> Result<T, E>, g: K -> Result<U, E>)
    requires i <= |keys|
    requires forall k :: k in keys ==> (f(k).Err? <==> g(k).Err?) && (f(k).Err? ==> f(k).error == g(k).error)
    ensures FirstFailure(keys, i, f) == FirstFailure(keys, i, g)
    decreases |keys| - i
  {
    if i == |keys| {
    } else {
      SameFailure(keys, i + 1, f, g);
    }
  }

  lemma OnesAgree(table: StateTable, identify: Identify, recover: Recover)
    ensures forall a: Address ::
         OneAgrees(Hydrator(table, identify, recover)(a), Certifier(table, identify, recover)(a), a)
  {
  }

  /** Hydrating and then assembling is building: same certificates or same error, and assembly
      never meets an entry under the wrong key. */
  lemma BuildersAgree(table: StateTable, identify: Identify, recover: Recover)
    ensures match HydrateSpec(table, identify, recover)
            case Err(e) => BuildSpec(table, identify, recover) == Err(e)
            case Ok(m) => AssembleSpec(m).Ok? && BuildSpec(table, identify, recover) == Ok(AssembleSpec(m).value)
  {
    OnesAgree(table, identify, recover);
    CollectionsAgree(Touched(table), Hydrator(table, identify, recover), Certifier(table, identify, recover));
  }

  predicate OneAgrees(h: Result<Hydrated, ResolutionError>, c: Result<Certificate, ResolutionError>, a: Address) {
    match h
    case Err(e) => c == Err(e)
    case Ok(x) => x.address == a && c == Ok(CertificateOf(x))
  }

  lemma CollectionsAgree(
    addresses: set<Address>, hydrate: Address -> Result<Hydrated, ResolutionError>,
    certify: Address -> Result<Certificate, ResolutionError>)
    requires forall a: Address :: OneAgrees(hydrate(a), certify(a), a)
    ensures match Collect(addresses, hydrate)
            case Err(e) => Collect(addresses, certify) == Err(e)
            case Ok(m) => AssembleSpec(m).Ok? && Collect(addresses, certify) == Ok(AssembleSpec(m).value)
  {
    SameFailure(SortedAddresses(addresses), 0, hydrate, certify);
    if Collect(addresses, hydrate).Ok? {
      NoFailure(addresses, hydrate);
      var m := Collect(addresses, hydrate).value;
      assert forall a :: a in addresses ==> OneAgrees(hydrate(a), certify(a), a) && certify(a).Ok?;
      var c := map a | a in addresses :: certify(a).value;
      forall a | a in addresses ensures Assembler(m)(a) == Ok(c[a]) && certify(a) == Ok(c[a]) {
        assert OneAgrees(hydrate(a), certify(a), a);
      }
      Collected(addresses, certify, c);
      Collected(m.Keys, Assembler(m), c);
    }
  }
}
