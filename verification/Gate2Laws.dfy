/** Gate 2 agrees with the builder: when the trace fold is silent, and when the whole check is. */
module Gate2Laws {
  import opened Primitives
  import opened Cse
  import opened Timeline
  import opened Partition
  import opened ReduceIr
  import opened Certificates
  import opened Commitments
  import opened StorageRoots
  import opened Gate2

  function Payloads(events: seq<CseEvent>): (r: seq<Payload>)
    ensures |r| == |events|
  {
    seq(|events|, i requires 0 <= i < |events| => events[i].payload)
  }

  /** The first event to touch account `a`. */
  function FirstToucher(events: seq<CseEvent>, a: Address): Option<CseEvent> {
    if events == [] then None
    else
      var n := |events| - 1;
      var earlier := FirstToucher(events[..n], a);
      if earlier.Some? then earlier else if TouchedBy(events[n].payload) == Some(a) then Some(events[n]) else None
  }

  /** The first event on `k`'s account is a write to `k` itself. */
  predicate StartsAccount(events: seq<CseEvent>, k: Key) {
    match FirstToucher(events, k.address)
    case Some(e) => WriteTo(e, k) != []
    case None => false
  }

  function LastContent(h: seq<Observed>, k: Key): Value { if h == [] then Zero(k) else h[|h| - 1].after }

  /** What Gate 2 demands of a cell's history: no gaps, and a zero start unless it opens its account. */
  predicate Sound(events: seq<CseEvent>, k: Key) {
    SoundHistory(History(events, k), StartsAccount(events, k), k)
  }

  predicate SoundHistory(h: seq<Observed>, starts: bool, k: Key) {
    Continuous(h) && StartsZero(h, starts, k)
  }

  ghost predicate AllSound(events: seq<CseEvent>) { forall k :: Persistent(k) ==> Sound(events, k) }

  // ---- What the fold's state holds ----

  lemma FoldSnoc(seen: seq<CseEvent>, e: CseEvent)
    ensures StateAfter(Payloads(seen + [e])) == StepState(StateAfter(Payloads(seen)), e.payload)
    ensures TraceErrors(Payloads(seen + [e])) == TraceErrors(Payloads(seen))
         + StepErrors(StateAfter(Payloads(seen)), e.payload)
  {
    var all := Payloads(seen + [e]);
    assert all[..|seen|] == Payloads(seen) && all[|seen|] == e.payload;
  }

  lemma ToucherSnoc(seen: seq<CseEvent>, e: CseEvent, a: Address)
    ensures FirstToucher(seen + [e], a)
         == if FirstToucher(seen, a).Some? then FirstToucher(seen, a)
            else if TouchedBy(e.payload) == Some(a) then Some(e) else None
  {
    assert (seen + [e])[..|seen|] == seen;
  }

  lemma Snoc(seen: seq<CseEvent>, e: CseEvent, k: Key, a: Address)
    ensures History(seen + [e], k) == History(seen, k) + WriteTo(e, k)
    ensures LifecycleHistory(seen + [e], a) == LifecycleHistory(seen, a) + LifecycleAt(e, a)
    ensures StateAfter(Payloads(seen + [e])) == StepState(StateAfter(Payloads(seen)), e.payload)
    ensures TraceErrors(Payloads(seen + [e])) == TraceErrors(Payloads(seen))
         + StepErrors(StateAfter(Payloads(seen)), e.payload)
    ensures FirstToucher(seen + [e], a)
         == if FirstToucher(seen, a).Some? then FirstToucher(seen, a)
            else if TouchedBy(e.payload) == Some(a) then Some(e) else None
  {
    HistorySnoc(seen, e, k, a);
    FoldSnoc(seen, e);
    ToucherSnoc(seen, e, a);
  }

  lemma Split(events: seq<CseEvent>) returns (seen: seq<CseEvent>, e: CseEvent)
    requires events != []
    ensures events == seen + [e] && |seen| < |events|
  {
    seen, e := events[..|events| - 1], events[|events| - 1];
  }

  lemma WritesPersist(e: CseEvent, k: Key)
    requires Persistent(k)
    ensures WriteTo(e, k) != [] <==> PersistentWrite(e.payload).Some? && PersistentWrite(e.payload).value.key == k
    ensures WriteTo(e, k) != [] ==>
              var w := PersistentWrite(e.payload).value;
              WriteTo(e, k) == [Observed(w.before, w.after, e.sequence)]
  {
  }

  lemma StepTracks(state: State, p: Payload, k: Key)
    requires Persistent(k)
    ensures var old', new' := AccountAt(state, k.address), AccountAt(StepState(state, p), k.address);
            var written := PersistentWrite(p).Some? && PersistentWrite(p).value.key == k;
            && Current(new', k) == (if written then PersistentWrite(p).value.after else Current(old', k))
            && (k.StorageKey? ==> (k.slot in new'.storage <==> k.slot in old'.storage || written))
  {
  }

  /** The fold's cells hold each history's last After, and zero before the first write. */
  lemma {:induction false} Tracks(events: seq<CseEvent>, k: Key)
    requires Persistent(k)
    ensures var account := AccountAt(StateAfter(Payloads(events)), k.address);
            && Current(account, k) == LastContent(History(events, k), k)
            && (k.StorageKey? ==> (k.slot in account.storage <==> History(events, k) != []))
    decreases |events|
  {
    if events == [] {
    } else {
      var seen, e := Split(events);
      Tracks(seen, k);
      Snoc(seen, e, k, k.address);
      WritesPersist(e, k);
      StepTracks(StateAfter(Payloads(seen)), e.payload, k);
      assert History(seen, k) + [] == History(seen, k);
    }
  }

  lemma {:induction false} TouchTracks(events: seq<CseEvent>, a: Address)
    ensures var state := StateAfter(Payloads(events));
            (a in state <==> FirstToucher(events, a).Some?) && (a in state ==> state[a].touched)
    decreases |events|
  {
    if events == [] {
    } else {
      var seen, e := Split(events);
      TouchTracks(seen, a);
      Snoc(seen, e, BalanceKey(a), a);
    }
  }

  lemma {:induction false} WritersTouch(events: seq<CseEvent>, k: Key)
    requires Persistent(k)
    ensures History(events, k) != [] ==> FirstToucher(events, k.address).Some?
    ensures StartsAccount(events, k) ==> History(events, k) != []
    decreases |events|
  {
    if events == [] {
    } else {
      var seen, e := Split(events);
      WritersTouch(seen, k);
      Snoc(seen, e, k, k.address);
      WritesPersist(e, k);
    }
  }

  // ---- The trace fold is silent ----

  /** The check Gate 2 makes when `e` writes `k`. */
  predicate Passes(seen: seq<CseEvent>, e: CseEvent, k: Key) {
    WriteTo(e, k) != [] && FirstToucher(seen, k.address).Some? ==>
        LastContent(History(seen, k), k) == WriteTo(e, k)[0].before
  }

  lemma StartsStep(seen: seq<CseEvent>, e: CseEvent, k: Key)
    requires Persistent(k)
    ensures StartsAccount(seen + [e], k)
         <==> StartsAccount(seen, k) || (FirstToucher(seen, k.address).None? && WriteTo(e, k) != [])
  {
    Snoc(seen, e, k, k.address);
    WritesPersist(e, k);
  }

  lemma SoundGrows(h: seq<Observed>, o: Observed, starts: bool, touched: bool, k: Key)
    requires (h != [] ==> touched) && (starts ==> h != [])
    ensures SoundHistory(h + [o], starts || !touched, k)
       <==> SoundHistory(h, starts, k) && (touched ==> LastContent(h, k) == o.before)
  {
    ContinuousSnoc(h, o);
  }

  lemma SoundStep(seen: seq<CseEvent>, e: CseEvent, k: Key)
    requires Persistent(k)
    ensures Sound(seen + [e], k) <==> Sound(seen, k) && Passes(seen, e, k)
  {
    var h := History(seen, k);
    HistorySnoc(seen, e, k, k.address);
    StartsStep(seen, e, k);
    WritersTouch(seen, k);
    if WriteTo(e, k) == [] {
      assert h + [] == h;
    } else {
      var o := WriteTo(e, k)[0];
      assert WriteTo(e, k) == [o];
      SoundGrows(h, o, StartsAccount(seen, k), FirstToucher(seen, k.address).Some?, k);
    }
  }

  lemma StepDecides(seen: seq<CseEvent>, e: CseEvent)
    ensures StepErrors(StateAfter(Payloads(seen)), e.payload) == []
       <==> forall k :: Persistent(k) ==> Passes(seen, e, k)
  {
    forall k | Persistent(k)
      ensures WriteTo(e, k) != [] <==> PersistentWrite(e.payload).Some? && PersistentWrite(e.payload).value.key == k
    {
      WritesPersist(e, k);
    }
    if PersistentWrite(e.payload).Some? {
      var k := PersistentWrite(e.payload).value.key;
      WritesPersist(e, k);
      Tracks(seen, k);
      TouchTracks(seen, k.address);
      assert StepErrors(StateAfter(Payloads(seen)), e.payload) == [] <==> Passes(seen, e, k);
    }
  }

  /** Replay reports no inconsistency exactly if every persistent cell's history is continuous and
      starts from zero unless the cell's first write is the first event on its account. */
  lemma {:induction false} TraceDecides(events: seq<CseEvent>)
    ensures TraceErrors(Payloads(events)) == [] <==> AllSound(events)
    decreases |events|
  {
    if events == [] {
    } else {
      var seen, e := Split(events);
      TraceDecides(seen);
      StepDecides(seen, e);
      Snoc(seen, e, BalanceKey(ZERO_ADDRESS), ZERO_ADDRESS);
      forall k | Persistent(k) ensures Sound(events, k) <==> Sound(seen, k) && Passes(seen, e, k) {
        SoundStep(seen, e, k);
      }
    }
  }

  ghost predicate NoTransients(events: seq<CseEvent>) { forall k :: !Persistent(k) ==> History(events, k) == [] }

  /** Every persistent cell whose first write is not its account's first event starts from zero. */
  ghost predicate ZeroStarts(events: seq<CseEvent>) {
    forall k :: Persistent(k) ==> StartsZero(History(events, k), StartsAccount(events, k), k)
  }

  predicate StartsZero(h: seq<Observed>, starts: bool, k: Key) { h != [] && !starts ==> h[0].before == Zero(k) }

  ghost predicate AllContinuous(events: seq<CseEvent>) { forall k :: Continuous(History(events, k)) }

  /** The timelines Gate 2 does not read have no gaps. */
  ghost predicate TransientsContinuous(events: seq<CseEvent>) {
    forall k :: !Persistent(k) ==> Continuous(History(events, k))
  }

  lemma TablesContinuous(m: map<Key, seq<Observed>>, events: seq<CseEvent>)
    requires StatesHold(m, events)
    ensures AllContinuous(events) <==> forall k :: k in m ==> m[k] != [] && Continuous(m[k])
  {
    forall k
      ensures k in m ==> m[k] == History(events, k) && m[k] != []
      ensures k !in m ==> Continuous(History(events, k))
    {
      assert At(m, k) == History(events, k);
    }
  }

  lemma RefundReduces(b: Bucket)
    requires ReduceTable(b.stateTables).Ok?
    ensures ReduceBucket(b).Ok? <==> b.gasRefund == None || Reduce(b.gasRefund.value).Ok?
  {
  }

  /** A bucket reduces exactly if every cell's history, and that of the gas refund, is continuous. */
  lemma BucketReduces(metadata: Provisional, events: seq<CseEvent>)
    ensures ReduceBucket(BucketOf(metadata, events)).Ok? <==> AllContinuous(events) && Continuous(RefundHistory(events))
  {
    var b := BucketOf(metadata, events);
    BucketHolds(metadata, events);
    TablesContinuous(b.stateTables, events);
    ReduceTableDecides(b.stateTables);
    if ReduceTable(b.stateTables).Ok? {
      RefundReduces(b);
      ReduceMeans(RefundHistory(events));
    }
  }

  lemma SoundIsContinuous(events: seq<CseEvent>)
    ensures AllSound(events) && TransientsContinuous(events) <==> AllContinuous(events) && ZeroStarts(events)
  {
    forall k | Persistent(k)
      ensures Sound(events, k)
           <==> Continuous(History(events, k)) && StartsZero(History(events, k), StartsAccount(events, k), k)
    {
    }
  }

  /** The builder reduces the bucket, with persistent cells written after their account's first event
      starting from zero, exactly if replay is silent and the timelines replay does not read, those
      of transient storage and of the gas refund, have no gaps either. */
  lemma TraceAgreesWithReduction(metadata: Provisional, events: seq<CseEvent>)
    ensures ReduceBucket(BucketOf(metadata, events)).Ok? && ZeroStarts(events) <==>
              && TraceErrors(Payloads(events)) == []
              && TransientsContinuous(events) && Continuous(RefundHistory(events))
  {
    TraceDecides(events);
    BucketReduces(metadata, events);
    SoundIsContinuous(events);
  }

  /** On a bucket that reduces, only the zero starts are left to decide. */
  lemma SilentIfReduced(metadata: Provisional, events: seq<CseEvent>)
    requires ReduceBucket(BucketOf(metadata, events)).Ok?
    ensures TraceErrors(Payloads(events)) == [] <==> ZeroStarts(events)
  {
    TraceDecides(events);
    BucketReduces(metadata, events);
    SoundIsContinuous(events);
  }

  // ---- The whole check is silent ----

  lemma ObservedIsTouched(e: CseEvent, a: Address)
    ensures LifecycleAt(e, a) != [] ==> TouchedBy(e.payload) == Some(a)
  {
  }

  lemma {:induction false} LifecycleTouches(events: seq<CseEvent>, a: Address)
    ensures LifecycleHistory(events, a) != [] ==> FirstToucher(events, a).Some?
    decreases |events|
  {
    if events == [] {
    } else {
      var seen, e := Split(events);
      LifecycleTouches(seen, a);
      HistorySnoc(seen, e, BalanceKey(a), a);
      ToucherSnoc(seen, e, a);
      ObservedIsTouched(e, a);
      assert LifecycleHistory(seen, a) + [] == LifecycleHistory(seen, a);
    }
  }

  /** A touched account has a written persistent cell or a lifecycle observation. */
  lemma {:induction false} ToucherWitness(events: seq<CseEvent>, a: Address) returns (k: Key)
    requires FirstToucher(events, a).Some?
    ensures k.address == a && Persistent(k)
    ensures History(events, k) != [] || LifecycleHistory(events, a) != []
    decreases |events|
  {
    var seen, e := Split(events);
    if FirstToucher(seen, a).Some? {
      Snoc(seen, e, BalanceKey(a), a);
      k := ToucherWitness(seen, a);
      Snoc(seen, e, k, a);
    } else {
      Snoc(seen, e, BalanceKey(a), a);
      k := if PersistentWrite(e.payload).Some? then PersistentWrite(e.payload).value.key else BalanceKey(a);
      Snoc(seen, e, k, a);
      WritesPersist(e, k);
    }
  }

  /** The reduced table lists the written cells with their last contents. */
  ghost predicate Tabulates(table: StateTable, events: seq<CseEvent>) {
    forall k :: (k in table <==> History(events, k) != [])
             && (k in table ==> table[k].terminal == LastContent(History(events, k), k))
  }

  lemma OutcomeTerminal(h: seq<Observed>)
    requires Reduces(h)
    ensures h != [] && Outcome(h).terminal == h[|h| - 1].after
  {
    ReduceMeans(h);
  }

  lemma ReducedEntry(m: map<Key, seq<Observed>>, k: Key)
    requires ReduceTable(m).Ok?
    ensures k in ReduceTable(m).value <==> k in m
    ensures k in m ==> Reduces(m[k]) && ReduceTable(m).value[k] == Outcome(m[k])
  {
    ReduceTableDecides(m);
  }

  /** A cell's timeline in the bucket is its history. */
  lemma Timelines(metadata: Provisional, events: seq<CseEvent>, k: Key)
    ensures var tables := BucketOf(metadata, events).stateTables;
            (k in tables <==> History(events, k) != []) && (k in tables ==> tables[k] == History(events, k))
  {
    BucketHolds(metadata, events);
    assert At(BucketOf(metadata, events).stateTables, k) == History(events, k);
  }

  lemma StateTableOf(b: Bucket)
    requires ReduceBucket(b).Ok?
    ensures ReduceTable(b.stateTables) == Ok(ReduceBucket(b).value.stateTable)
  {
  }

  lemma TableEntry(metadata: Provisional, events: seq<CseEvent>, k: Key)
    requires ReduceBucket(BucketOf(metadata, events)).Ok?
    ensures var table := ReduceBucket(BucketOf(metadata, events)).value.stateTable;
            && (k in table <==> History(events, k) != [])
            && (k in table ==> table[k].terminal == LastContent(History(events, k), k))
  {
    var b := BucketOf(metadata, events);
    Timelines(metadata, events, k);
    StateTableOf(b);
    ReducedEntry(b.stateTables, k);
    if k in b.stateTables { OutcomeTerminal(b.stateTables[k]); }
  }

  lemma ReducedTabulates(metadata: Provisional, events: seq<CseEvent>)
    requires ReduceBucket(BucketOf(metadata, events)).Ok?
    ensures var r := ReduceBucket(BucketOf(metadata, events)).value;
            && Tabulates(r.stateTable, events)
            && forall a :: a in r.lifecycle <==> LifecycleHistory(events, a) != []
  {
    forall k
      ensures var table := ReduceBucket(BucketOf(metadata, events)).value.stateTable;
              (k in table <==> History(events, k) != [])
              && (k in table ==> table[k].terminal == LastContent(History(events, k), k))
    {
      TableEntry(metadata, events, k);
    }
    BucketHolds(metadata, events);
  }

  /** One of the account's persistent cells was written, or it was created or destroyed. */
  ghost predicate Settled(events: seq<CseEvent>, a: Address) {
    LifecycleHistory(events, a) != [] || exists k :: PersistentlyWritten(events, k) && k.address == a
  }

  predicate PersistentlyWritten(events: seq<CseEvent>, k: Key) { Persistent(k) && History(events, k) != [] }

  /** The accounts the fold touches are the settled ones. */
  lemma TouchedExactly(events: seq<CseEvent>, a: Address)
    ensures a in StateAfter(Payloads(events)) <==> Settled(events, a)
  {
    TouchTracks(events, a);
    LifecycleTouches(events, a);
    if FirstToucher(events, a).Some? {
      var k := ToucherWitness(events, a);
      assert PersistentlyWritten(events, k) || LifecycleHistory(events, a) != [];
    }
    if exists k :: PersistentlyWritten(events, k) && k.address == a {
      var k :| PersistentlyWritten(events, k) && k.address == a;
      WritersTouch(events, k);
    }
  }

  /** Accounts with a persistent write have a table entry. */
  lemma WrittenIsTabled(events: seq<CseEvent>, table: StateTable, a: Address)
    requires Tabulates(table, events)
    ensures a in Certificates.Touched(table) <==> exists k :: History(events, k) != [] && k.address == a
  {
    if a in Certificates.Touched(table) {
      var k :| k in table && k.address == a;
      assert History(events, k) != [];
    }
    if exists k :: History(events, k) != [] && k.address == a {
      var k :| History(events, k) != [] && k.address == a;
      assert k in table;
    }
  }

  lemma DerivedStorage(events: seq<CseEvent>, table: StateTable, a: Address)
    requires Tabulates(table, events)
    ensures AccountAt(StateAfter(Payloads(events)), a).storage == SlotsOf(table, a)
  {
    var storage := AccountAt(StateAfter(Payloads(events)), a).storage;
    forall s: Word
      ensures s in storage <==> s in SlotsOf(table, a)
      ensures s in storage ==> storage[s] == SlotsOf(table, a)[s]
    {
      var k := StorageKey(a, s);
      Tracks(events, k);
      assert k.slot == s && k.address == a;
    }
  }

  function Or<T>(o: Option<T>, default: T): T { if o.Some? then o.value else default }

  /** The derived fields are the written ones, and zero elsewhere. */
  lemma DerivedFields(events: seq<CseEvent>, table: StateTable, a: Address)
    requires Tabulates(table, events)
    ensures var account, f := AccountAt(StateAfter(Payloads(events)), a), FieldsOf(table, a);
            && account.nonce == Or(f.nonce, 0)
            && account.balance == Or(f.balance, ZERO_WORD)
            && account.codeHash == Or(f.codeHash, ZERO_WORD)
  {
    Tracks(events, NonceKey(a));
    Tracks(events, BalanceKey(a));
    Tracks(events, CodeKey(a));
  }

  /** The snapshot source, where it is consulted, has zero for every field the transaction did not write. */
  predicate ZeroWhereUnwritten(f: Fields, recover: Recover, a: Address) {
    Complete(f) || (recover(a).Ok?
                    && (f.nonce.None? ==> recover(a).value.nonce == 0)
                    && (f.balance.None? ==> recover(a).value.balance == ZERO_WORD)
                    && (f.codeHash.None? ==> recover(a).value.codeHash == ZERO_WORD))
  }

  lemma FilledAgrees(f: Fields, recover: Recover, a: Address)
    requires Fill(f, recover, a).Ok?
    ensures var s := Fill(f, recover, a).value;
            s == Snapshot(Or(f.nonce, 0), Or(f.balance, ZERO_WORD), Or(f.codeHash, ZERO_WORD))
            <==> ZeroWhereUnwritten(f, recover, a)
  {
  }

  lemma NoMismatch(hash: Hash, derived: AccountState, c: Certificate)
    requires c.storageRoot == Verified(DerivedRoot(hash, derived.storage))
    ensures Mismatches(hash, derived, c) == []
       <==> Snapshot(c.nonce, c.balance, c.codeHash) == Snapshot(derived.nonce, derived.balance, derived.codeHash)
  {
  }

  // ---- The certificates' own errors ----

  /** Some certificate of `cs` raises `r`. */
  ghost predicate Raised(hash: Hash, state: State, cs: seq<Certificate>, r: ReplayError) {
    exists c :: c in cs && r in CertificateErrors(hash, state, c)
  }

  /** The errors reported for `cs` are those its certificates raise. */
  ghost predicate ReportsRaised(hash: Hash, state: State, cs: seq<Certificate>) {
    forall r :: r in AllCertificateErrors(hash, state, cs) <==> Raised(hash, state, cs, r)
  }

  lemma RaisedSnoc(cs: seq<Certificate>, c: Certificate, hash: Hash, state: State)
    requires ReportsRaised(hash, state, cs)
    ensures ReportsRaised(hash, state, cs + [c])
  {
    assert (cs + [c])[..|cs|] == cs;
    var own := CertificateErrors(hash, state, c);
    assert AllCertificateErrors(hash, state, cs + [c]) == AllCertificateErrors(hash, state, cs) + own;
    forall r ensures Raised(hash, state, cs + [c], r) <==> Raised(hash, state, cs, r) || r in own {
      assert forall d :: d in cs + [c] <==> d in cs || d == c;
    }
  }

  lemma NoneRaised(hash: Hash, state: State)
    ensures ReportsRaised(hash, state, [])
  {
  }

  lemma {:induction false} CertificateErrorsMean(hash: Hash, state: State, cs: seq<Certificate>)
    ensures ReportsRaised(hash, state, cs)
    decreases |cs|
  {
    if cs == [] {
      NoneRaised(hash, state);
    } else {
      CertificateErrorsMean(hash, state, cs[..|cs| - 1]);
      RaisedSnoc(cs[..|cs| - 1], cs[|cs| - 1], hash, state);
      assert cs[..|cs| - 1] + [cs[|cs| - 1]] == cs;
    }
  }

  lemma SilentCertificates(hash: Hash, state: State, cs: seq<Certificate>)
    ensures AllCertificateErrors(hash, state, cs) == []
       <==> forall c :: c in cs ==> CertificateErrors(hash, state, c) == []
  {
    CertificateErrorsMean(hash, state, cs);
    var all := AllCertificateErrors(hash, state, cs);
    if all != [] { assert Raised(hash, state, cs, all[0]); }
    forall c | c in cs && CertificateErrors(hash, state, c) != [] ensures all != [] {
      assert Raised(hash, state, cs, CertificateErrors(hash, state, c)[0]);
    }
  }

  /** What a successful build says about each certificate. */
  lemma BuiltMeans(table: StateTable, identify: Identify, recover: Recover, built: map<Address, Certificate>)
    requires BuildSpec(table, identify, recover) == Ok(built)
    ensures built.Keys == Certificates.Touched(table)
    ensures forall a :: a in built ==> IsBuilt(built[a], FieldsOf(table, a), identify, recover, a)
  {
    var certify := Certifier(table, identify, recover);
    CollectMeans(Certificates.Touched(table), certify, built);
    forall a | a in built ensures IsBuilt(built[a], FieldsOf(table, a), identify, recover, a) {
      assert certify(a) == BuildOne(FieldsOf(table, a), identify, recover, a);
    }
  }

  predicate IsBuilt(c: Certificate, f: Fields, identify: Identify, recover: Recover, a: Address) {
    && c.address == a && identify(a) == Ok(c.generation)
    && Fill(f, recover, a) == Ok(Snapshot(c.nonce, c.balance, c.codeHash))
  }

  lemma CertificateSilent(
    hash: Hash, events: seq<CseEvent>, table: StateTable, identify: Identify, recover: Recover, a: Address,
    c: Certificate)
    requires Tabulates(table, events) && a in StateAfter(Payloads(events))
    requires IsBuilt(c, FieldsOf(table, a), identify, recover, a) && c.storageRoot == Verified(Roots(hash, table)(a))
    ensures CertificateErrors(hash, StateAfter(Payloads(events)), c) == []
         <==> ZeroWhereUnwritten(FieldsOf(table, a), recover, a)
  {
    var derived := AccountAt(StateAfter(Payloads(events)), a);
    DerivedStorage(events, table, a);
    DerivedFields(events, table, a);
    FilledAgrees(FieldsOf(table, a), recover, a);
    NoMismatch(hash, derived, c);
  }

  lemma BatchMembers(m: map<Address, Certificate>)
    ensures forall a :: a in m ==> m[a] in Batch(m)
    ensures forall c :: c in Batch(m) ==> exists a :: a in m && m[a] == c
  {
    var keys := SortedAddresses(m.Keys);
    forall a | a in m ensures m[a] in Batch(m) {
      assert a in keys;
      var i :| 0 <= i < |keys| && keys[i] == a;
      assert Batch(m)[i] == m[a];
    }
    forall c | c in Batch(m) ensures exists a :: a in m && m[a] == c {
      var i :| 0 <= i < |keys| && Batch(m)[i] == c;
      assert keys[i] in m && m[keys[i]] == c;
    }
  }

  lemma SortedEmpty(s: set<Address>)
    ensures SortedAddresses(s) == [] <==> s == {}
  {
    if SortedAddresses(s) != [] { assert SortedAddresses(s)[0] in s; }
    if s != {} {
      var a :| a in s;
      assert a in SortedAddresses(s);
    }
  }

  lemma NoneMissing(touched: set<Address>, certified: set<Address>)
    ensures Gate2.Missing(SortedAddresses(touched - certified))
         + Gate2.Untouched(SortedAddresses(certified - touched)) == []
       <==> touched == certified
  {
    SortedEmpty(certified - touched);
    SortedEmpty(touched - certified);
    assert touched - certified == {} && certified - touched == {} <==> touched == certified by {
      if touched - certified == {} && certified - touched == {} {
        forall a ensures a in touched <==> a in certified {
          assert a !in touched - certified && a !in certified - touched;
        }
      }
    }
  }

  lemma RootsSet(
    table: StateTable, identify: Identify, recover: Recover, certificates: map<Address, Certificate>,
    root: Address -> Word)
    requires forall a :: a in certificates ==> IsBuilt(certificates[a], FieldsOf(table, a), identify, recover, a)
    ensures var resolved := WithRoots(certificates, root, certificates.Keys);
            && resolved.Keys == certificates.Keys
            && forall a :: a in resolved ==> IsResolved(resolved[a], FieldsOf(table, a), identify, recover, root, a)
  {
  }

  predicate IsResolved(
    c: Certificate, f: Fields, identify: Identify, recover: Recover, root: Address -> Word, a: Address)
  {
    IsBuilt(c, f, identify, recover, a) && c.storageRoot == Verified(root(a))
  }

  /** Gate 2 accepts the certificates the builder made from the same events exactly if persistent
      cells written after their account's first event start from zero, the certified accounts are
      those with a persistent write, a creation or a destruction, and the snapshot source is zero
      wherever it was used. Storage roots then always agree, for any hash. */
  lemma Gate2Accepts(
    hash: Hash, metadata: Provisional, events: seq<CseEvent>, identify: Identify, recover: Recover,
    table: StateTable, certificates: map<Address, Certificate>)
    requires ReduceBucket(BucketOf(metadata, events)).Ok?
         && table == ReduceBucket(BucketOf(metadata, events)).value.stateTable
    requires BuildSpec(table, identify, recover) == Ok(certificates)
    ensures var resolved := WithRoots(certificates, Roots(hash, table), certificates.Keys);
            Report(hash, Batch(resolved), Payloads(events)) == [] <==>
              && ZeroStarts(events)
              && (forall a :: a in Certificates.Touched(table) <==> Settled(events, a))
              && (forall a :: a in Certificates.Touched(table) ==> ZeroWhereUnwritten(FieldsOf(table, a), recover, a))
  {
    SilentIfReduced(metadata, events);
    ReducedTabulates(metadata, events);
    BuiltMeans(table, identify, recover, certificates);
    RootsSet(table, identify, recover, certificates, Roots(hash, table));
    StateVerifies(hash, events, table, identify, recover,
        WithRoots(certificates, Roots(hash, table), certificates.Keys));
  }

  lemma AddressesVerify(events: seq<CseEvent>, certified: set<Address>)
    ensures var touched := TouchedAddresses(StateAfter(Payloads(events)));
            && touched == StateAfter(Payloads(events)).Keys
            && (touched == certified <==> forall a :: a in certified <==> Settled(events, a))
  {
    var state := StateAfter(Payloads(events));
    forall a ensures a in state <==> Settled(events, a)
             ensures a in state ==> state[a].touched
    {
      TouchedExactly(events, a);
      TouchTracks(events, a);
    }
    assert TouchedAddresses(state) == state.Keys;
  }

  lemma CertificatesVerify(
    hash: Hash, events: seq<CseEvent>, table: StateTable, identify: Identify, recover: Recover,
    resolved: map<Address, Certificate>)
    requires Tabulates(table, events) && resolved.Keys <= StateAfter(Payloads(events)).Keys
    requires forall a :: a in resolved ==>
         IsResolved(resolved[a], FieldsOf(table, a), identify, recover, Roots(hash, table), a)
    ensures AllCertificateErrors(hash, StateAfter(Payloads(events)), Batch(resolved)) == []
       <==> forall a :: a in resolved ==> ZeroWhereUnwritten(FieldsOf(table, a), recover, a)
  {
    var state := StateAfter(Payloads(events));
    BatchMembers(resolved);
    SilentCertificates(hash, state, Batch(resolved));
    forall a | a in resolved
      ensures CertificateErrors(hash, state, resolved[a]) == [] <==> ZeroWhereUnwritten(FieldsOf(table, a), recover, a)
    {
      CertificateSilent(hash, events, table, identify, recover, a, resolved[a]);
    }
  }

  lemma Certifies(resolved: map<Address, Certificate>)
    requires forall a :: a in resolved ==> resolved[a].address == a
    ensures CertifiedAddresses(Batch(resolved)) == resolved.Keys
  {
    BatchMembers(resolved);
  }

  lemma StateSilent(hash: Hash, state: State, cs: seq<Certificate>)
    ensures StateErrors(hash, state, cs) == []
       <==> TouchedAddresses(state) == CertifiedAddresses(cs) && AllCertificateErrors(hash, state, cs) == []
  {
    NoneMissing(TouchedAddresses(state), CertifiedAddresses(cs));
  }

  lemma StateVerifies(
    hash: Hash, events: seq<CseEvent>, table: StateTable, identify: Identify, recover: Recover,
    resolved: map<Address, Certificate>)
    requires Tabulates(table, events)
    requires forall a :: a in resolved ==>
         IsResolved(resolved[a], FieldsOf(table, a), identify, recover, Roots(hash, table), a)
    ensures StateErrors(hash, StateAfter(Payloads(events)), Batch(resolved)) == [] <==>
              && (forall a :: a in resolved <==> Settled(events, a))
              && (forall a :: a in resolved ==> ZeroWhereUnwritten(FieldsOf(table, a), recover, a))
  {
    AddressesVerify(events, resolved.Keys);
    if resolved.Keys <= StateAfter(Payloads(events)).Keys {
      CertificatesVerify(hash, events, table, identify, recover, resolved);
    }
    Certifies(resolved);
    StateSilent(hash, StateAfter(Payloads(events)), Batch(resolved));
  }

  // ---- What each report entry means ----

  lemma MissingMeans(addresses: set<Address>)
    ensures forall r: ReplayError ::
              r in Gate2.Missing(SortedAddresses(addresses)) <==> r.MissingCertificate? && r.address in addresses
  {
    var keys := SortedAddresses(addresses);
    forall r: ReplayError | r.MissingCertificate? && r.address in addresses ensures r in Gate2.Missing(keys) {
      assert r.address in keys;
      var i :| 0 <= i < |keys| && keys[i] == r.address;
      assert Gate2.Missing(keys)[i] == r;
    }
  }

  lemma UntouchedMeans(addresses: set<Address>)
    ensures forall r: ReplayError ::
              r in Gate2.Untouched(SortedAddresses(addresses)) <==> r.UntouchedCertificate? && r.address in addresses
  {
    var keys := SortedAddresses(addresses);
    forall r: ReplayError | r.UntouchedCertificate? && r.address in addresses ensures r in Gate2.Untouched(keys) {
      assert r.address in keys;
      var i :| 0 <= i < |keys| && keys[i] == r.address;
      assert Gate2.Untouched(keys)[i] == r;
    }
  }

  /** `m` names the derived value of a field as expected, the certificate's as found, and they differ. */
  predicate Disagrees(hash: Hash, derived: AccountState, c: Certificate, m: FieldMismatch) {
    match m
    case NonceMismatch(e, f) => e == derived.nonce && f == c.nonce && e != f
    case BalanceMismatch(e, f) => e == derived.balance && f == c.balance && e != f
    case CodeHashMismatch(e, f) => e == derived.codeHash && f == c.codeHash && e != f
    case StorageRootMismatch(e, f) =>
      e == DerivedRoot(hash, derived.storage) && f == c.storageRoot && f.Verified? && f.root != e
  }

  /** `ms` lists the disagreeing fields of `c`. */
  ghost predicate Lists(hash: Hash, derived: AccountState, c: Certificate, ms: seq<FieldMismatch>) {
    forall m :: m in ms <==> Disagrees(hash, derived, c, m)
  }

  lemma MismatchesMean(hash: Hash, derived: AccountState, c: Certificate)
    ensures Lists(hash, derived, c, Mismatches(hash, derived, c))
  {
  }

  /** On a consistent trace the report lists the touched accounts without a certificate, the
      certificates of untouched accounts, the unresolved certificates and the disagreeing ones of
      touched accounts, and nothing else. A mismatch entry lists exactly the fields that disagree. */
  lemma ReportMeans(hash: Hash, certificates: seq<Certificate>, traces: seq<Payload>, r: ReplayError)
    requires TraceErrors(traces) == []
    ensures var state := StateAfter(traces);
            r in Report(hash, certificates, traces) <==>
              match r
              case TraceInconsistency(_) => false
              case MissingCertificate(a) => a in TouchedAddresses(state) && a !in CertifiedAddresses(certificates)
              case UntouchedCertificate(a) => a in CertifiedAddresses(certificates) && a !in TouchedAddresses(state)
              case UnresolvedStorageRoot(a) =>
                a in state && exists c :: c in certificates && c.address == a && c.storageRoot.AwaitingDerivation?
              case CertificateMismatch(a, ms) =>
                a in state && ms != []
                && exists c :: c in certificates && c.address == a && ms == Mismatches(hash, state[a], c)
    ensures forall derived, c :: Lists(hash, derived, c, Mismatches(hash, derived, c))
  {
    var state := StateAfter(traces);
    ReportParts(hash, state, certificates, r);
    RaisedMeans(hash, state, certificates, r);
    forall derived, c ensures Lists(hash, derived, c, Mismatches(hash, derived, c)) {
      MismatchesMean(hash, derived, c);
    }
  }

  lemma ReportParts(hash: Hash, state: State, cs: seq<Certificate>, r: ReplayError)
    ensures r in StateErrors(hash, state, cs) <==>
              || (r.MissingCertificate? && r.address in TouchedAddresses(state) - CertifiedAddresses(cs))
              || (r.UntouchedCertificate? && r.address in CertifiedAddresses(cs) - TouchedAddresses(state))
              || Raised(hash, state, cs, r)
  {
    MissingMeans(TouchedAddresses(state) - CertifiedAddresses(cs));
    UntouchedMeans(CertifiedAddresses(cs) - TouchedAddresses(state));
    CertificateErrorsMean(hash, state, cs);
  }

  lemma RaisedMeans(hash: Hash, state: State, cs: seq<Certificate>, r: ReplayError)
    ensures Raised(hash, state, cs, r) <==> exists c :: c in cs && ErrorOf(hash, state, c, r)
  {
    forall c ensures r in CertificateErrors(hash, state, c) <==> ErrorOf(hash, state, c, r) {
      ErrorsOfOne(hash, state, c, r);
    }
  }

  predicate ErrorOf(hash: Hash, state: State, c: Certificate, r: ReplayError) {
    c.address in state &&
    (match r
     case UnresolvedStorageRoot(a) => a == c.address && c.storageRoot.AwaitingDerivation?
     case CertificateMismatch(a, ms) => a == c.address && ms != [] && ms == Mismatches(hash, state[a], c)
     case _ => false)
  }

  lemma ErrorsOfOne(hash: Hash, state: State, c: Certificate, r: ReplayError)
    ensures r in CertificateErrors(hash, state, c) <==> ErrorOf(hash, state, c, r)
  {
  }

  // ---- Which cell an inconsistency names ----

  /** Event `i` writes cell `k` of an account touched before, and reports as Before something other than
      what was last written to the cell, or than zero. */
  ghost predicate Inconsistent(events: seq<CseEvent>, i: nat, k: Key) {
    && i < |events| && Persistent(k) && WriteTo(events[i], k) != []
    && Settled(events[..i], k.address)
    && WriteTo(events[i], k)[0].before != LastContent(History(events[..i], k), k)
  }

  lemma StepInconsistent(events: seq<CseEvent>, i: nat, r: ReplayError)
    requires i < |events|
    ensures r in StepErrors(StateAfter(Payloads(events[..i])), events[i].payload)
       <==> r.TraceInconsistency? && Inconsistent(events, i, r.cell)
  {
    var seen, p := events[..i], events[i].payload;
    if PersistentWrite(p).Some? {
      var k := PersistentWrite(p).value.key;
      WritesPersist(events[i], k);
      Tracks(seen, k);
      TouchTracks(seen, k.address);
      TouchedExactly(seen, k.address);
    }
    if r.TraceInconsistency? && Persistent(r.cell) { WritesPersist(events[i], r.cell); }
  }

  ghost predicate InconsistentSomewhere(events: seq<CseEvent>, k: Key) { exists i: nat :: Inconsistent(events, i, k) }

  ghost predicate ErrorsNamed(events: seq<CseEvent>) {
    forall r ::
      r in TraceErrors(Payloads(events)) <==> r.TraceInconsistency? && InconsistentSomewhere(events, r.cell)
  }

  lemma InconsistentSnoc(seen: seq<CseEvent>, e: CseEvent, k: Key)
    ensures InconsistentSomewhere(seen + [e], k)
       <==> InconsistentSomewhere(seen, k) || Inconsistent(seen + [e], |seen|, k)
  {
    var events := seen + [e];
    forall i: nat | i < |seen| ensures Inconsistent(events, i, k) <==> Inconsistent(seen, i, k) {
      assert seen[..i] == events[..i];
    }
    if InconsistentSomewhere(seen, k) {
      var i: nat :| Inconsistent(seen, i, k);
      assert Inconsistent(events, i, k);
    }
  }

  lemma ErrorsNamedSnoc(seen: seq<CseEvent>, e: CseEvent)
    requires ErrorsNamed(seen)
    ensures ErrorsNamed(seen + [e])
  {
    var events := seen + [e];
    assert events[..|seen|] == seen;
    FoldSnoc(seen, e);
    forall r
      ensures r in TraceErrors(Payloads(events)) <==> r.TraceInconsistency? && InconsistentSomewhere(events, r.cell)
    {
      StepInconsistent(events, |seen|, r);
      if r.TraceInconsistency? { InconsistentSnoc(seen, e, r.cell); }
    }
  }

  lemma NoErrorsNamed()
    ensures ErrorsNamed([])
  {
  }

  /** The trace errors are exactly the inconsistencies, each naming the cell written. */
  lemma {:induction false} InconsistenciesMean(events: seq<CseEvent>)
    ensures ErrorsNamed(events)
    decreases |events|
  {
    if events == [] {
      NoErrorsNamed();
    } else {
      InconsistenciesMean(events[..|events| - 1]);
      ErrorsNamedSnoc(events[..|events| - 1], events[|events| - 1]);
      assert events[..|events| - 1] + [events[|events| - 1]] == events;
    }
  }

  // ---- What acceptance means ----

  /** The certificate states what the replay derived. */
  predicate Matches(hash: Hash, derived: AccountState, c: Certificate) {
    && c.nonce == derived.nonce && c.balance == derived.balance && c.codeHash == derived.codeHash
    && c.storageRoot == Verified(DerivedRoot(hash, derived.storage))
  }

  lemma SilentMatches(hash: Hash, state: State, c: Certificate)
    requires c.address in state
    ensures CertificateErrors(hash, state, c) == [] <==> Matches(hash, state[c.address], c)
  {
  }

  /** Any certificates, wherever they come from, are accepted exactly if the trace is consistent, the
      certified accounts are the touched ones, and every certificate states what the replay derived. */
  lemma AcceptanceMeans(hash: Hash, certificates: seq<Certificate>, traces: seq<Payload>)
    ensures var state := StateAfter(traces);
            Report(hash, certificates, traces) == [] <==>
              && TraceErrors(traces) == []
              && CertifiedAddresses(certificates) == TouchedAddresses(state)
              && forall c :: c in certificates ==> c.address in state && Matches(hash, state[c.address], c)
  {
    var state := StateAfter(traces);
    StateSilent(hash, state, certificates);
    SilentCertificates(hash, state, certificates);
    forall c | c in certificates && c.address in state
      ensures CertificateErrors(hash, state, c) == [] <==> Matches(hash, state[c.address], c)
    {
      SilentMatches(hash, state, c);
    }
    if CertifiedAddresses(certificates) == TouchedAddresses(state) {
      forall c | c in certificates ensures c.address in state { assert c.address in CertifiedAddresses(certificates); }
    }
  }

  // ---- Where the builder and the replay disagree ----

  /** The account was written in transient storage only. */
  ghost predicate TransientOnly(events: seq<CseEvent>, a: Address) {
    !Settled(events, a) && exists k :: History(events, k) != [] && k.address == a
  }

  /** Such an account gets a certificate, which Gate 2 reports as untouched. */
  lemma TransientOnlyRejected(
    hash: Hash, metadata: Provisional, events: seq<CseEvent>, identify: Identify, recover: Recover,
    table: StateTable, certificates: map<Address, Certificate>, a: Address)
    requires ReduceBucket(BucketOf(metadata, events)).Ok?
         && table == ReduceBucket(BucketOf(metadata, events)).value.stateTable
    requires BuildSpec(table, identify, recover) == Ok(certificates) && TransientOnly(events, a)
    ensures a in certificates
    ensures var resolved := WithRoots(certificates, Roots(hash, table), certificates.Keys);
            var report := Report(hash, Batch(resolved), Payloads(events));
            report != [] && (TraceErrors(Payloads(events)) == [] ==> UntouchedCertificate(a) in report)
  {
    ReducedTabulates(metadata, events);
    BuiltMeans(table, identify, recover, certificates);
    WrittenIsTabled(events, table, a);
    RootsSet(table, identify, recover, certificates, Roots(hash, table));
    var resolved := WithRoots(certificates, Roots(hash, table), certificates.Keys);
    Certifies(resolved);
    TouchedExactly(events, a);
    if TraceErrors(Payloads(events)) == [] {
      ReportMeans(hash, Batch(resolved), Payloads(events), UntouchedCertificate(a));
    }
  }

  lemma OneEvent(e: CseEvent, k: Key, a: Address)
    ensures History([e], k) == WriteTo(e, k) && LifecycleHistory([e], a) == LifecycleAt(e, a)
         && RefundHistory([e]) == RefundAt(e)
  {
    HistorySnoc([], e, k, a);
    assert [] + [e] == [e];
  }

  lemma TransientWriteAlone(metadata: Provisional, e: CseEvent)
    requires e.payload.TransientStorageUpdated?
    ensures ReduceBucket(BucketOf(metadata, [e])).Ok? && TransientOnly([e], e.payload.address)
    ensures TraceErrors(Payloads([e])) == []
  {
    var a := e.payload.address;
    forall k ensures History([e], k) == WriteTo(e, k) && LifecycleHistory([e], a) == [] && RefundHistory([e]) == [] {
      OneEvent(e, k, a);
    }
    BucketReduces(metadata, [e]);
    assert History([e], TransientKey(a, e.payload.slot)) != [];
    SilentIfReduced(metadata, [e]);
  }

  /** The smallest such transaction: one transient write. The builder always reduces it. */
  lemma TransientWriteRejected(
    hash: Hash, metadata: Provisional, e: CseEvent, identify: Identify, recover: Recover,
    certificates: map<Address, Certificate>)
    requires e.payload.TransientStorageUpdated?
    ensures ReduceBucket(BucketOf(metadata, [e])).Ok?
    ensures var table := ReduceBucket(BucketOf(metadata, [e])).value.stateTable;
            var resolved := WithRoots(certificates, Roots(hash, table), certificates.Keys);
            BuildSpec(table, identify, recover) == Ok(certificates) ==>
              UntouchedCertificate(e.payload.address) in Report(hash, Batch(resolved), Payloads([e]))
  {
    TransientWriteAlone(metadata, e);
    var table := ReduceBucket(BucketOf(metadata, [e])).value.stateTable;
    if BuildSpec(table, identify, recover) == Ok(certificates) {
      TransientOnlyRejected(hash, metadata, [e], identify, recover, table, certificates, e.payload.address);
    }
  }

  predicate SameTransientCell(e: CseEvent, f: CseEvent) {
    && e.payload.TransientStorageUpdated? && f.payload.TransientStorageUpdated?
    && e.payload.address == f.payload.address && e.payload.slot == f.payload.slot
  }

  lemma TransientsSilent(e: CseEvent, f: CseEvent)
    requires e.payload.TransientStorageUpdated? && f.payload.TransientStorageUpdated?
    ensures TraceErrors(Payloads([e, f])) == []
  {
    FoldSnoc([], e);
    FoldSnoc([e], f);
    assert [] + [e] == [e] && [e] + [f] == [e, f];
    assert TraceErrors(Payloads([])) == [];
  }

  /** And in the other direction: the builder rejects a gap between two transient writes, which the
      replay does not see. */
  lemma TransientGapUnseen(metadata: Provisional, e: CseEvent, f: CseEvent)
    requires SameTransientCell(e, f) && e.payload.currentValue != f.payload.previousValue
    ensures TraceErrors(Payloads([e, f])) == [] && ReduceBucket(BucketOf(metadata, [e, f])).Err?
  {
    var k := TransientKey(e.payload.address, e.payload.slot);
    TransientsSilent(e, f);
    OneEvent(e, k, k.address);
    HistorySnoc([e], f, k, k.address);
    assert [e] + [f] == [e, f];
    ContinuousSnoc(WriteTo(e, k), WriteTo(f, k)[0]);
    assert !Continuous(History([e, f], k));
    BucketReduces(metadata, [e, f]);
  }
}
