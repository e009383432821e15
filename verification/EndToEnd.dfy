/** What the pipeline's end products mean: certificates are post-states, and Gate 2's verdict on an
    executed transaction is decided exactly. */
module EndToEnd {
  import opened Primitives
  import opened Emes
  import opened FrameTree
  import opened Cse
  import opened Bridge
  import opened BridgeLaws
  import opened Partition
  import opened ReduceIr
  import opened Certificates
  import opened Commitments
  import opened StorageRoots
  import opened Gate2
  import opened Gate2Laws
  import opened Pipeline
  import CertificateCodec
  import G = Gate1
  import J = Journal
  import T = Tracer

  // ---- Certificates are post-states ----

  /** The snapshot agrees with the state `w` on the account's fields that `w` defines. */
  predicate Describes(s: Snapshot, a: Address, w: J.World) {
    && (NonceKey(a) in w ==> w[NonceKey(a)] == Count(s.nonce))
    && (BalanceKey(a) in w ==> w[BalanceKey(a)] == Bytes(s.balance))
    && (CodeKey(a) in w ==> w[CodeKey(a)] == Bytes(s.codeHash))
  }

  predicate Typed(k: Key, v: Value) { k.NonceKey? <==> v.Count? }

  lemma {:induction false} LastTyped(events: seq<CseEvent>, k: Key)
    ensures Typed(k, LastContent(History(events, k), k))
    decreases |events|
  {
    if events == [] {
    } else {
      LastTyped(events[..|events| - 1], k);
    }
  }

  /** The state holds the table's terminal values where the table has entries. */
  lemma TerminalHolds(table: StateTable, events: seq<CseEvent>, w: J.World, final: J.World, k: Key)
    requires Tabulates(table, events) && Takes(table, w, final)
    ensures k in table ==> k in w && Typed(k, table[k].terminal) && final[k] == table[k].terminal
    ensures k in final && k !in table ==> k in w && final[k] == w[k]
  {
    LastTyped(events, k);
  }

  lemma FilledDescribes(
    table: StateTable, events: seq<CseEvent>, w: J.World, final: J.World, recover: Recover, a: Address)
    requires Tabulates(table, events) && Takes(table, w, final)
    requires Fill(FieldsOf(table, a), recover, a).Ok? && (recover(a).Ok? ==> Describes(recover(a).value, a, w))
    ensures Describes(Fill(FieldsOf(table, a), recover, a).value, a, final)
  {
    TerminalHolds(table, events, w, final, NonceKey(a));
    TerminalHolds(table, events, w, final, BalanceKey(a));
    TerminalHolds(table, events, w, final, CodeKey(a));
  }

  lemma SlotsDescribe(table: StateTable, events: seq<CseEvent>, w: J.World, final: J.World, a: Address, slot: Word)
    requires Tabulates(table, events) && Takes(table, w, final) && slot in SlotsOf(table, a)
    ensures StorageKey(a, slot) in final && final[StorageKey(a, slot)] == Bytes(SlotsOf(table, a)[slot])
  {
    TerminalHolds(table, events, w, final, StorageKey(a, slot));
  }

  /** With a snapshot source that returns pre-states, every certificate of an executed transaction is
      the account's post-state: nonce, balance, code hash, and every slot under its storage root. */
  lemma CertificatesArePostStates(
    f: Forest, env: Env, n: u64, first: nat, metadata: Provisional, w: J.World,
    table: StateTable, identify: Identify, recover: Recover, certificates: map<Address, Certificate>)
    requires Stampable(f, None) && J.InPlace(f) && Ends(f, w).Some?
    requires var reduced := ReduceBucket(BucketOf(metadata, TxEvents(f, env, n, first)));
             reduced.Ok? && table == reduced.value.stateTable
    requires BuildSpec(table, identify, recover) == Ok(certificates)
    requires forall a :: a in certificates && recover(a).Ok? ==> Describes(recover(a).value, a, w)
    ensures forall a ::
              a in certificates <==> exists k: Key :: k.address == a && J.Written(TxEvents(f, env, n, first), k)
    ensures forall a :: a in certificates ==>
              var c := certificates[a];
              c.address == a && Describes(Snapshot(c.nonce, c.balance, c.codeHash), a, Ends(f, w).value)
    ensures forall a, slot :: a in certificates && slot in SlotsOf(table, a) ==>
              var k := StorageKey(a, slot);
              k in Ends(f, w).value && Ends(f, w).value[k] == Bytes(SlotsOf(table, a)[slot])
  {
    var events, final := TxEvents(f, env, n, first), Ends(f, w).value;
    TxTakes(f, env, n, first, metadata, w);
    ReducedTabulates(metadata, events);
    BuiltMeans(table, identify, recover, certificates);
    forall a ensures a in certificates <==> exists k: Key :: k.address == a && J.Written(events, k) {
      WrittenAccounts(table, events, a);
    }
    forall a | a in certificates
      ensures var c := certificates[a];
              c.address == a && Describes(Snapshot(c.nonce, c.balance, c.codeHash), a, final)
    {
      FilledDescribes(table, events, w, final, recover, a);
    }
    forall a, slot | a in certificates && slot in SlotsOf(table, a)
      ensures StorageKey(a, slot) in final && final[StorageKey(a, slot)] == Bytes(SlotsOf(table, a)[slot])
    {
      SlotsDescribe(table, events, w, final, a, slot);
    }
  }

  lemma WrittenAccounts(table: StateTable, events: seq<CseEvent>, a: Address)
    requires Tabulates(table, events)
    ensures a in Certificates.Touched(table) <==> exists k: Key :: k.address == a && J.Written(events, k)
  {
    if a in Certificates.Touched(table) {
      var k :| k in table && k.address == a;
      J.HistoryNonEmpty(events, k);
    }
    if exists k: Key :: k.address == a && J.Written(events, k) {
      var k: Key :| k.address == a && J.Written(events, k);
      J.HistoryNonEmpty(events, k);
      assert k in table;
    }
  }

  // ---- Gate 2 on an executed transaction ----

  lemma {:induction false} ChangesHaveNoTransients(s: seq<CseEvent>, k: Key)
    requires AllFromChanges(s) && !Persistent(k)
    ensures History(s, k) == []
    decreases |s|
  {
    if s == [] {
    } else {
      assert FromChange(s[|s| - 1]);
      assert forall e :: e in s[..|s| - 1] ==> e in s;
      ChangesHaveNoTransients(s[..|s| - 1], k);
    }
  }

  lemma OutputQualifies(f: Forest, env: Env, n: u64, first: nat)
    requires Stampable(f, None)
    ensures NoTransients(TxEvents(f, env, n, first)) && RefundHistory(TxEvents(f, env, n, first)) == []
  {
    var events := TxEvents(f, env, n, first);
    OutputFromChanges(f, env, n);
    J.NumberedFromChanges(TopOutput(f, env, n), first);
    J.NoRefunds(events);
    forall k | !Persistent(k) ensures History(events, k) == [] {
      ChangesHaveNoTransients(events, k);
    }
  }

  /** Cells written later than their account's first event were zero before the transaction. */
  ghost predicate ZeroBefore(events: seq<CseEvent>, w: J.World) {
    forall k :: J.Written(events, k) && !StartsAccount(events, k) ==> k in w && w[k] == Zero(k)
  }

  lemma ZeroStartsExactly(events: seq<CseEvent>, w: J.World)
    requires J.Replay(events, w).Some? && NoTransients(events)
    ensures ZeroStarts(events) <==> ZeroBefore(events, w)
  {
    forall k ensures History(events, k) != [] <==> J.Written(events, k)
             ensures History(events, k) != [] ==> k in w && History(events, k)[0].before == w[k]
    {
      J.HistoryNonEmpty(events, k);
      J.HistoryBridges(events, k, w);
    }
  }

  /** Without transient writes, the accounts with a table entry all are settled. */
  lemma SettledAccounts(events: seq<CseEvent>, table: StateTable)
    requires Tabulates(table, events) && NoTransients(events)
    ensures (forall a :: a in Certificates.Touched(table) <==> Settled(events, a))
       <==> forall a :: LifecycleHistory(events, a) != [] ==> a in Certificates.Touched(table)
  {
    forall a ensures Settled(events, a) <==> a in Certificates.Touched(table) || LifecycleHistory(events, a) != [] {
      WrittenIsTabled(events, table, a);
      if exists k :: History(events, k) != [] && k.address == a {
        var k :| History(events, k) != [] && k.address == a;
        assert PersistentlyWritten(events, k);
      }
    }
  }

  /** Gate 2's verdict on the builder's own certificates for a correctly executed transaction. It
      accepts exactly if every cell written after its account's first event was zero before the
      transaction, every created or destroyed account also has a written cell, and the snapshot
      source is zero where it was used; the storage roots agree whatever the hash function. */
  lemma Gate2OnExecution(
    hash: Hash, f: Forest, env: Env, n: u64, first: nat, metadata: Provisional, w: J.World,
    table: StateTable, identify: Identify, recover: Recover, certificates: map<Address, Certificate>)
    requires Stampable(f, None) && J.InPlace(f) && Ends(f, w).Some?
    requires var reduced := ReduceBucket(BucketOf(metadata, TxEvents(f, env, n, first)));
             reduced.Ok? && table == reduced.value.stateTable
    requires BuildSpec(table, identify, recover) == Ok(certificates)
    ensures var events := TxEvents(f, env, n, first);
            var resolved := WithRoots(certificates, Roots(hash, table), certificates.Keys);
            Report(hash, Batch(resolved), Payloads(events)) == [] <==>
              && ZeroBefore(events, w)
              && (forall a :: LifecycleHistory(events, a) != [] ==> a in certificates)
              && (forall a :: a in certificates ==> ZeroWhereUnwritten(FieldsOf(table, a), recover, a))
  {
    var events := TxEvents(f, env, n, first);
    OutputQualifies(f, env, n, first);
    J.RollbackRefinement(f, env, n, first, metadata, w);
    ZeroStartsExactly(events, w);
    ReducedTabulates(metadata, events);
    SettledAccounts(events, table);
    BuiltMeans(table, identify, recover, certificates);
    Gate2Accepts(hash, metadata, events, identify, recover, table, certificates);
  }

  /** A correct execution Gate 2 rejects: an account with a non-zero nonce changes its balance first. */
  lemma EstablishedAccountRejected(a: Address, x: Word, y: Word, nonce: u64, env: Env, n: u64, first: nat)
    requires 0 < nonce < U64_MAX
    ensures var balance, count := Mutation(NO_FRAME, Balance(a, x, y)), Mutation(NO_FRAME, Nonce(a, nonce, nonce + 1));
            var f := Leaf(balance, Leaf(count, Nil));
            var w := map[BalanceKey(a) := Bytes(x), NonceKey(a) := Count(nonce)];
            && Stampable(f, None) && J.InPlace(f) && Ends(f, w).Some?
            && TraceErrors(Payloads(TxEvents(f, env, n, first))) == [TraceInconsistency(NonceKey(a))]
  {
    var balance, count := Mutation(NO_FRAME, Balance(a, x, y)), Mutation(NO_FRAME, Nonce(a, nonce, nonce + 1));
    var g := Leaf(count, Nil);
    var f := Leaf(balance, g);
    var w: J.World := map[BalanceKey(a) := Bytes(x), NonceKey(a) := Count(nonce)];
    TwoInPlace(balance, count);
    assert Flatten(g) == [count] + Flatten(Nil) == [count];
    assert Flatten(f) == [balance] + [count];
    TwoPlays(J.Machine(w, [], []), balance, count);
    var first', second := Stamp(env, n, NO_TRACE, BalanceChanged(a, x, y)),
        Stamp(env, n, NO_TRACE, NonceUpdated(a, nonce, nonce + 1));
    assert TopOutput(g, env, n) == [second] + TopOutput(Nil, env, n) == [second];
    assert TopOutput(f, env, n) == [first'] + [second];
    var traces := Payloads(TxEvents(f, env, n, first));
    assert traces == [BalanceChanged(a, x, y), NonceUpdated(a, nonce, nonce + 1)];
    TwoTraces(BalanceChanged(a, x, y), NonceUpdated(a, nonce, nonce + 1));
  }

  lemma TwoInPlace(e: Plain, g: Plain)
    ensures J.InPlace(Leaf(e, Leaf(g, Nil)))
  {
    assert FramelessAtTop(Leaf(g, Nil));
    J.TopInPlace(Leaf(e, Leaf(g, Nil)));
  }

  lemma TwoPlays(m: J.Machine, e: Body, g: Body)
    requires J.PlayStep(m, e).Some?
    ensures J.Play(m, [e] + [g]) == J.PlayStep(J.PlayStep(m, e).value, g)
  {
    J.PlayCons(m, e, [g]);
    J.PlayCons(J.PlayStep(m, e).value, g, []);
    assert [g] + [] == [g];
  }

  lemma TwoTraces(p: Payload, q: Payload)
    ensures TraceErrors([p, q]) == StepErrors(map[], p) + StepErrors(StepState(map[], p), q)
  {
    assert [p, q][..1] == [p] && [p][..0] == [];
    assert StateAfter([p]) == StepState(map[], p);
    assert TraceErrors([p]) == [] + StepErrors(map[], p) == StepErrors(map[], p);
  }

  // ---- From the hooks to the tables ----

  lemma SmallConcat(s: seq<Body>, t: seq<Body>)
    ensures T.SmallEnters(s + t) <==> T.SmallEnters(s) && T.SmallEnters(t)
  {
    assert forall e :: e in s + t <==> e in s || e in t;
  }

  lemma SmallOne(e: Body)
    ensures T.SmallEnters([e]) <==> T.SmallEnter(e)
  {
    assert e in [e];
  }

  lemma {:induction false} FlattenSmall(f: Forest)
    ensures T.SmallEnters(Flatten(f)) <==> SmallFrames(f)
  {
    match f
    case Nil =>
    case Leaf(e, rest) =>
      FlattenSmall(rest);
      SmallOne(e);
      SmallConcat([e], Flatten(rest));
    case Call(id, parent, depth, kids, reverted, rest) =>
      var enter, exit := FrameEnter(id, parent, depth), FrameExit(id, reverted);
      FlattenSmall(kids);
      FlattenSmall(rest);
      SmallOne(enter);
      SmallOne(exit);
      SmallConcat([exit], Flatten(rest));
      SmallConcat(Flatten(kids), [exit] + Flatten(rest));
      SmallConcat([enter], Flatten(kids) + ([exit] + Flatten(rest)));
  }

  /** The enter events of a block tell whether its frames fit in 32 bits. */
  lemma {:induction false} UnfoldSmall(b: Block)
    ensures T.SmallEnters(Unfold(b)) <==> BlockSmallFrames(b)
  {
    match b
    case Done =>
    case Loose(e, rest) =>
      UnfoldSmall(rest);
      SmallOne(e);
      SmallConcat([e], Unfold(rest));
    case Tx(txIndex, hash, frames, reverted, rest) =>
      FlattenSmall(frames);
      UnfoldSmall(rest);
      SmallOne(TxStart(txIndex, hash));
      SmallOne(TxEnd(reverted));
      SmallConcat([TxEnd(reverted)], Unfold(rest));
      SmallConcat(Flatten(frames), [TxEnd(reverted)] + Unfold(rest));
      SmallConcat([TxStart(txIndex, hash)], Flatten(frames) + ([TxEnd(reverted)] + Unfold(rest)));
  }

  /** A block traced by a fresh collector whose hooks were well nested, with at most 2^32 frames a
      transaction and 32-bit depths, goes through the whole pipeline: Gate 1 accepts it, translation,
      partition and reduction succeed, and the tables are the state changes of the execution the hooks
      reported. */
  lemma TracedBlockRefines(hooks: seq<T.Hook>, chainId: u64, b: Block, w: J.World)
    requires !T.Run(T.FRESH, hooks).panicked && T.Discipline(T.Before, hooks) == T.Ended && T.SmallHooks(0, hooks)
    requires Unfold(b) == Bodies(T.Run(T.FRESH, hooks).events) && Executes(b, w)
    ensures var stream := T.Run(T.FRESH, hooks).events;
            var translated := Run(Initial(chainId), 0, Bodies(stream));
            && G.Verdict(stream) == None
            && translated.Ok?
            && Parts(None, translated.value).Ok?
            && Succeeds(b, w, Parts(None, translated.value).value)
  {
    T.FreshRunDecides(hooks);
    T.RunSmall(T.Before, T.FRESH, hooks);
    UnfoldSmall(b);
    PipelineRefinesExecution(T.Run(T.FRESH, hooks).events, chainId, b, w);
  }

  /** Once storage roots are resolved every batch has a commitment. */
  lemma ResolvedBatchCommits(hash: Hash, certificates: map<Address, Certificate>, root: Address -> Word)
    ensures CertificateCodec.BatchRoot(hash, Batch(WithRoots(certificates, root, certificates.Keys))).Ok?
  {
    BatchMembers(WithRoots(certificates, root, certificates.Keys));
  }
}
