/** Gate 2 (`runtime/verify/src/lib.rs`): an independent fold over the same trace, compared with the
    certificates field by field. */
module Gate2 {
  import opened Primitives
  import opened Cse
  import opened Commitments
  import opened StorageRoots
  import opened Certificates

  datatype AccountState = AccountState(nonce: u64, balance: Word, codeHash: Word, storage: Slots, touched: bool)

  const DEFAULT := AccountState(0, ZERO_WORD, ZERO_WORD, map[], false)

  type State = map<Address, AccountState>

  datatype FieldMismatch =
    | NonceMismatch(expectedNonce: u64, foundNonce: u64)
    | BalanceMismatch(expected: Word, found: Word)
    | CodeHashMismatch(expected: Word, found: Word)
    | StorageRootMismatch(expected: Word, foundRoot: StorageRoot)

  /** An inconsistency names the cell whose `previous_*` value was wrong. */
  datatype ReplayError =
    | TraceInconsistency(cell: Key)
    | MissingCertificate(address: Address)
    | UntouchedCertificate(address: Address)
    | CertificateMismatch(address: Address, mismatches: seq<FieldMismatch>)
    | UnresolvedStorageRoot(address: Address)

  // ---- The trace fold ----

  function AccountAt(state: State, a: Address): AccountState { if a in state then state[a] else DEFAULT }

  function SlotAt(storage: Slots, slot: Word): Word { if slot in storage then storage[slot] else ZERO_WORD }

  /** The content of a persistent cell. */
  function Current(account: AccountState, k: Key): Value {
    match k
    case BalanceKey(_) => Bytes(account.balance)
    case NonceKey(_) => Count(account.nonce)
    case CodeKey(_) => Bytes(account.codeHash)
    case StorageKey(_, slot) => Bytes(SlotAt(account.storage, slot))
    case TransientKey(_, _) => Bytes(ZERO_WORD)
  }

  function Store(account: AccountState, k: Key, v: Value): AccountState {
    match k
    case BalanceKey(_) => account.(balance := AsWord(v))
    case NonceKey(_) => account.(nonce := AsCount(v))
    case CodeKey(_) => account.(codeHash := AsWord(v))
    case StorageKey(_, slot) => account.(storage := account.storage[slot := AsWord(v)])
    case TransientKey(_, _) => account
  }

  predicate Persistent(k: Key) { !k.TransientKey? }

  function PersistentWrite(p: Payload): Option<Write> {
    if WriteOf(p).Some? && Persistent(WriteOf(p).value.key) then WriteOf(p) else None
  }

  /** The account a payload touches: by writing one of its persistent cells, or by its creation or destruction. */
  function TouchedBy(p: Payload): Option<Address> {
    if PersistentWrite(p).Some? then Some(PersistentWrite(p).value.key.address)
    else if p.ContractCreated? || p.ContractDestroyed? then Some(p.address)
    else None
  }

  function StepState(state: State, p: Payload): State {
    match TouchedBy(p)
    case None => state
    case Some(a) =>
      var account := AccountAt(state, a);
      var w := PersistentWrite(p);
      state[a := (if w.Some? then Store(account, w.value.key, w.value.after) else account).(touched := true)]
  }

  /** The first write to an untouched account may start from anything; every other one must start
      from the cell's current content. */
  function StepErrors(state: State, p: Payload): seq<ReplayError> {
    match PersistentWrite(p)
    case None => []
    case Some(w) =>
      var account := AccountAt(state, w.key.address);
      if account.touched && Current(account, w.key) != w.before then [TraceInconsistency(w.key)] else []
  }

  function StateAfter(traces: seq<Payload>): State {
    if traces == [] then map[] else StepState(StateAfter(traces[..|traces| - 1]), traces[|traces| - 1])
  }

  function TraceErrors(traces: seq<Payload>): seq<ReplayError> {
    if traces == [] then []
    else
      var seen := traces[..|traces| - 1];
      TraceErrors(seen) + StepErrors(StateAfter(seen), traces[|traces| - 1])
  }

  method ReplayStep(state: State, p: Payload) returns (state': State, errors: seq<ReplayError>)
    ensures state' == StepState(state, p) && errors == StepErrors(state, p)
  {
    state', errors := state, [];
    match p {
      case BalanceChanged(a, before, after) =>
        var account := AccountAt(state, a);
        if account.touched && account.balance != before { errors := [TraceInconsistency(BalanceKey(a))]; }
        state' := state[a := account.(balance := after, touched := true)];
      case NonceUpdated(a, before, after) =>
        var account := AccountAt(state, a);
        if account.touched && account.nonce != before { errors := [TraceInconsistency(NonceKey(a))]; }
        state' := state[a := account.(nonce := after, touched := true)];
      case CodeUpdated(a, before, after) =>
        var account := AccountAt(state, a);
        if account.touched && account.codeHash != before { errors := [TraceInconsistency(CodeKey(a))]; }
        state' := state[a := account.(codeHash := after, touched := true)];
      case StorageSlotUpdated(a, slot, before, after) =>
        var account := AccountAt(state, a);
        if account.touched && SlotAt(account.storage, slot) != before {
          errors := [TraceInconsistency(StorageKey(a, slot))];
        }
        state' := state[a := account.(storage := account.storage[slot := after], touched := true)];
      case ContractCreated(a, _) =>
        state' := state[a := AccountAt(state, a).(touched := true)];
      case ContractDestroyed(a, _) =>
        state' := state[a := AccountAt(state, a).(touched := true)];
      case _ =>
    }
  }

  method ReplayTraces(traces: seq<Payload>) returns (state: State, traceErrors: seq<ReplayError>)
    ensures state == StateAfter(traces) && traceErrors == TraceErrors(traces)
  {
    state, traceErrors := map[], [];
    for i := 0 to |traces|
      invariant state == StateAfter(traces[..i]) && traceErrors == TraceErrors(traces[..i])
    {
      assert traces[..i + 1][..i] == traces[..i];
      var next, errors := ReplayStep(state, traces[i]);
      state, traceErrors := next, traceErrors + errors;
    }
    assert traces[..|traces|] == traces;
  }

  // ---- The comparison ----

  function TouchedAddresses(state: State): set<Address> { set a | a in state && state[a].touched }

  function CertifiedAddresses(certificates: seq<Certificate>): set<Address> { set c | c in certificates :: c.address }

  function Missing(addresses: seq<Address>): seq<ReplayError> {
    seq(|addresses|, i requires 0 <= i < |addresses| => MissingCertificate(addresses[i]))
  }

  function Untouched(addresses: seq<Address>): seq<ReplayError> {
    seq(|addresses|, i requires 0 <= i < |addresses| => UntouchedCertificate(addresses[i]))
  }

  function Mismatches(hash: Hash, derived: AccountState, c: Certificate): seq<FieldMismatch> {
    (if derived.nonce != c.nonce then [NonceMismatch(derived.nonce, c.nonce)] else [])
    + (if derived.balance != c.balance then [BalanceMismatch(derived.balance, c.balance)] else [])
    + (if derived.codeHash != c.codeHash then [CodeHashMismatch(derived.codeHash, c.codeHash)] else [])
    + (if c.storageRoot.Verified? && DerivedRoot(hash, derived.storage) != c.storageRoot.root
       then [StorageRootMismatch(DerivedRoot(hash, derived.storage), c.storageRoot)] else [])
  }

  function CertificateErrors(hash: Hash, state: State, c: Certificate): seq<ReplayError> {
    if c.address !in state then []
    else
      var mismatches := Mismatches(hash, state[c.address], c);
      (if c.storageRoot.AwaitingDerivation? then [UnresolvedStorageRoot(c.address)] else [])
      + (if mismatches != [] then [CertificateMismatch(c.address, mismatches)] else [])
  }

  function AllCertificateErrors(hash: Hash, state: State, certificates: seq<Certificate>): seq<ReplayError>
    decreases |certificates|
  {
    if certificates == [] then []
    else
      var n := |certificates| - 1;
      AllCertificateErrors(hash, state, certificates[..n]) + CertificateErrors(hash, state, certificates[n])
  }

  function StateErrors(hash: Hash, state: State, certificates: seq<Certificate>): seq<ReplayError> {
    var touched, certified := TouchedAddresses(state), CertifiedAddresses(certificates);
    Missing(SortedAddresses(touched - certified)) + Untouched(SortedAddresses(certified - touched))
    + AllCertificateErrors(hash, state, certificates)
  }

  /** Everything Gate 2 reports about a batch; nothing means it verifies. */
  function Report(hash: Hash, certificates: seq<Certificate>, traces: seq<Payload>): seq<ReplayError> {
    if TraceErrors(traces) != [] then TraceErrors(traces) else StateErrors(hash, StateAfter(traces), certificates)
  }

  method CompareCertificate(hash: Hash, derived: AccountState, c: Certificate) returns (errors: seq<ReplayError>)
    ensures var mismatches := Mismatches(hash, derived, c);
            errors == (if c.storageRoot.AwaitingDerivation? then [UnresolvedStorageRoot(c.address)] else [])
                    + (if mismatches != [] then [CertificateMismatch(c.address, mismatches)] else [])
  {
    errors := [];
    var mismatches: seq<FieldMismatch> := [];
    if derived.nonce != c.nonce {
      mismatches := mismatches + [NonceMismatch(derived.nonce, c.nonce)];
    }
    if derived.balance != c.balance {
      mismatches := mismatches + [BalanceMismatch(derived.balance, c.balance)];
    }
    if derived.codeHash != c.codeHash {
      mismatches := mismatches + [CodeHashMismatch(derived.codeHash, c.codeHash)];
    }
    if c.storageRoot.AwaitingDerivation? {
      errors := [UnresolvedStorageRoot(c.address)];
    } else {
      var expectedRoot := Derive(hash, derived.storage);
      if expectedRoot != c.storageRoot.root {
        mismatches := mismatches + [StorageRootMismatch(expectedRoot, c.storageRoot)];
      }
    }
    assert mismatches == Mismatches(hash, derived, c);
    if mismatches != [] {
      errors := errors + [CertificateMismatch(c.address, mismatches)];
    }
  }

  method ReportAddresses(touched: set<Address>, certified: set<Address>) returns (errors: seq<ReplayError>)
    ensures errors == Missing(SortedAddresses(touched - certified)) + Untouched(SortedAddresses(certified - touched))
  {
    errors := [];
    var missing := SortedAddresses(touched - certified);
    for i := 0 to |missing|
      invariant errors == Missing(missing)[..i]
    {
      errors := errors + [MissingCertificate(missing[i])];
    }
    var untouched := SortedAddresses(certified - touched);
    for i := 0 to |untouched|
      invariant errors == Missing(missing) + Untouched(untouched)[..i]
    {
      errors := errors + [UntouchedCertificate(untouched[i])];
    }
  }

  method CompareCertificates(hash: Hash, state: State, certificates: seq<Certificate>)
    returns (errors: seq<ReplayError>)
    ensures errors == AllCertificateErrors(hash, state, certificates)
  {
    errors := [];
    for i := 0 to |certificates|
      invariant errors == AllCertificateErrors(hash, state, certificates[..i])
    {
      var c := certificates[i];
      assert certificates[..i + 1][..i] == certificates[..i];
      if c.address in state {
        var found := CompareCertificate(hash, state[c.address], c);
        errors := errors + found;
      }
    }
    assert certificates[..|certificates|] == certificates;
  }

  method ReplayAndVerify(hash: Hash, certificates: seq<Certificate>, traces: seq<Payload>)
    returns (r: Result<(), seq<ReplayError>>)
    ensures r == if Report(hash, certificates, traces) == [] then Ok(()) else Err(Report(hash, certificates, traces))
  {
    var state, traceErrors := ReplayTraces(traces);
    if traceErrors != [] { return Err(traceErrors); }
    var errors := ReportAddresses(TouchedAddresses(state), CertifiedAddresses(certificates));
    var found := CompareCertificates(hash, state, certificates);
    errors := errors + found;
    return if errors == [] then Ok(()) else Err(errors);
  }
}
