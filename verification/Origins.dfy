/** Where the bridge's output comes from: the source event of every event it emits, and the error it
    reports, both read off the input stream alone. */
module Origins {
  import opened Primitives
  import opened Emes
  import opened Cse
  import opened Bridge
  import opened Reading

  // ---- Contents ----

  /** The payload reports the change, field by field. */
  predicate Tells(p: Payload, c: Change) {
    match c
    case Balance(a, before, after) =>
      p.BalanceChanged? && p.address == a && p.previousBalance == before && p.currentBalance == after
    case Nonce(a, before, after) =>
      p.NonceUpdated? && p.address == a && p.previousNonce == before && p.currentNonce == after
    case Code(a, before, after) =>
      p.CodeUpdated? && p.address == a && p.previousCodeHash == before && p.currentCodeHash == after
    case Storage(a, slot, before, after) =>
      && p.StorageSlotUpdated? && p.address == a && p.slot == slot
      && p.previousValue == before && p.currentValue == after
    case AccountCreated(a, creator) => p.ContractCreated? && p.address == a && p.creator == creator
    case SelfDestruct(a, beneficiary) => p.ContractDestroyed? && p.address == a && p.refundTarget == beneficiary
  }

  /** No frame: the largest 32-bit number, at depth 0. */
  predicate Untraced(trace: Trace) { trace.callFrameId == 0xFFFF_FFFF && trace.callDepth == 0 }

  /** A mutation's frame coordinates: the sentinel's, or those of the innermost open frame. */
  predicate Located(trace: Trace, frameId: u64, s: seq<Body>) {
    var open := OpenFrames(s);
    if frameId == 0xFFFF_FFFF_FFFF_FFFF then Untraced(trace)
    else open != [] && trace.callFrameId == open[|open| - 1].id && trace.callDepth == open[|open| - 1].depth
  }

  /** `x` is what the bridge emits for event `i`, read in the block and transaction current there. */
  predicate ComesFrom(events: seq<Body>, i: nat, chainId: u64, x: CseEvent)
    requires i < |events|
  {
    var s := events[..i];
    && x.provisional.chainId == chainId
    && x.provisional.blockNumber == BlockNow(s)
    && match events[i]
       case TxStart(index, hash) =>
         && x.payload.BeginTransaction? && Untraced(x.trace)
         && x.provisional.txHash == hash && x.provisional.txIndex == index % 0x1_0000_0000
       case TxEnd(_) =>
         && x.payload.EndTransaction? && Untraced(x.trace)
         && x.provisional.txHash == TxNow(s).0 && x.provisional.txIndex == TxNow(s).1 % 0x1_0000_0000
       case Mutation(frameId, change) =>
         && Tells(x.payload, change) && Located(x.trace, frameId, s)
         && x.provisional.txHash == TxNow(s).0 && x.provisional.txIndex == TxNow(s).1 % 0x1_0000_0000
       case _ => false
  }

  ghost predicate Comes(events: seq<Body>, n: nat, chainId: u64, x: CseEvent)
    requires n <= |events|
  {
    exists i: nat :: i < n && ComesFrom(events, i, chainId, x)
  }

  ghost predicate AllCome(events: seq<Body>, n: nat, chainId: u64, xs: seq<CseEvent>)
    requires n <= |events|
  {
    forall x :: x in xs ==> Comes(events, n, chainId, x)
  }

  // ---- The machine's state, read off the events ----

  predicate SameFrame(buffer: FrameBuffer, frame: OpenFrame)
  {
    buffer.frameId == frame.id && buffer.depth == frame.depth
  }

  predicate SameFrames(stack: seq<FrameBuffer>, open: seq<OpenFrame>) {
    |stack| == |open| && forall i :: 0 <= i < |stack| ==> SameFrame(stack[i], open[i])
  }

  predicate Reads(st: State, s: seq<Body>, chainId: u64) {
    && st.txOpen == InTx(s)
    && SameFrames(st.stack, OpenFrames(s))
    && st.block == BlockNow(s)
    && st.env == Env(chainId, TxNow(s).0, TxNow(s).1)
  }

  lemma PushFrames(stack: seq<FrameBuffer>, events: seq<CseEvent>, open: seq<OpenFrame>)
    requires stack != [] && SameFrames(stack, open)
    ensures SameFrames(Push(stack, events), open)
  {
  }

  lemma PopFrames(st: State, reverted: bool, open: seq<OpenFrame>)
    requires st.stack != [] && SameFrames(st.stack, open)
    ensures SameFrames(Pop(st, reverted).stack, open[..|open| - 1])
  {
  }

  lemma StepReads(st: State, s: seq<Body>, chainId: u64, i: nat, e: Body)
    requires Reads(st, s, chainId) && Step(st, i, e).Ok?
    ensures Reads(Step(st, i, e).value, s + [e], chainId)
  {
    ReadNext(s, e);
    match e
    case FrameExit(_, reverted) => PopFrames(st, reverted, OpenFrames(s));
    case Mutation(frameId, change) =>
      if frameId != NO_FRAME {
        var top := st.stack[|st.stack| - 1];
        var x := Stamp(st.env, st.block, Trace(top.frameId, top.depth), PayloadOf(change));
        PushFrames(st.stack, [x], OpenFrames(s));
      }
    case _ =>
  }

  // ---- Errors ----

  /** The error event `i` raises, judged by the events before it. */
  function FaultAt(events: seq<Body>, i: nat): Option<BridgeError>
    requires i < |events|
  {
    var s := events[..i];
    var open := OpenFrames(s);
    match events[i]
    case BlockStart(_) => None
    case BlockCommit => None
    case TxStart(_, _) => if InTx(s) then Some(TransactionStartWhileOpen(i)) else None
    case TxEnd(_) =>
      if !InTx(s) then Some(EventOutsideTransaction(i))
      else if open != [] then Some(UnbalancedFrames(i)) else None
    case FrameEnter(_, _, _) => if !InTx(s) then Some(EventOutsideTransaction(i)) else None
    case FrameExit(id, _) =>
      if !InTx(s) then Some(EventOutsideTransaction(i))
      else if open == [] || open[|open| - 1].id != id then Some(UnbalancedFrames(i)) else None
    case Mutation(frameId, _) =>
      if frameId == 0xFFFF_FFFF_FFFF_FFFF then None
      else if open == [] then Some(UnbalancedFrames(0xFFFF_FFFF_FFFF_FFFF))
      else if open[|open| - 1].id > 0xFFFF_FFFF then Some(FrameIdOverflow(open[|open| - 1].id))
      else if open[|open| - 1].depth > 0xFFFF_FFFF then Some(FrameIdOverflow(open[|open| - 1].depth))
      else None
  }

  /** The first fault from position `i` on is `error`; an open transaction at the end is one, too. */
  predicate FaultsWith(events: seq<Body>, i: nat, error: BridgeError)
    requires i <= |events|
    decreases |events| - i
  {
    if i == |events| then InTx(events) && error == EventOutsideTransaction(i)
    else if FaultAt(events, i).Some? then error == FaultAt(events, i).value
    else FaultsWith(events, i + 1, error)
  }

  lemma StepFaults(st: State, events: seq<Body>, chainId: u64, i: nat)
    requires i < |events| && Reads(st, events[..i], chainId)
    ensures match FaultAt(events, i)
            case Some(error) => Step(st, i, events[i]) == Err(error)
            case None => Step(st, i, events[i]).Ok?
  {
  }

  lemma {:induction false} RunFaults(st: State, events: seq<Body>, chainId: u64, i: nat, error: BridgeError)
    requires i <= |events| && Reads(st, events[..i], chainId)
    ensures Run(st, i, events[i..]) == Err(error) <==> FaultsWith(events, i, error)
    decreases |events| - i
  {
    if i == |events| {
      assert events[..i] == events;
    } else {
      StepFaults(st, events, chainId, i);
      assert events[i..][1..] == events[i + 1..];
      if FaultAt(events, i).None? {
        StepReads(st, events[..i], chainId, i, events[i]);
        assert events[..i] + [events[i]] == events[..i + 1];
        RunFaults(Step(st, i, events[i]).value, events, chainId, i + 1, error);
      }
    }
  }

  /** Translation fails exactly with the first fault of the stream. */
  lemma TranslateFaults(events: seq<Body>, chainId: u64, error: BridgeError)
    ensures Run(Initial(chainId), 0, events) == Err(error) <==> FaultsWith(events, 0, error)
  {
    assert events[0..] == events && events[..0] == [];
    assert Reads(Initial(chainId), [], chainId);
    RunFaults(Initial(chainId), events, chainId, 0, error);
  }

  // ---- Origins ----

  ghost predicate BuffersCome(events: seq<Body>, n: nat, chainId: u64, stack: seq<FrameBuffer>)
    requires n <= |events|
  {
    forall k :: 0 <= k < |stack| ==> AllCome(events, n, chainId, stack[k].events)
  }

  ghost predicate StateComes(st: State, events: seq<Body>, n: nat, chainId: u64)
    requires n <= |events|
  {
    && AllCome(events, n, chainId, st.finalOutput)
    && AllCome(events, n, chainId, st.txOutput)
    && BuffersCome(events, n, chainId, st.stack)
  }

  lemma ComesLonger(events: seq<Body>, n: nat, chainId: u64, xs: seq<CseEvent>)
    requires n < |events| && AllCome(events, n, chainId, xs)
    ensures AllCome(events, n + 1, chainId, xs)
  {
    forall x | x in xs ensures Comes(events, n + 1, chainId, x) {
      var i: nat :| i < n && ComesFrom(events, i, chainId, x);
    }
  }

  lemma StateComesLonger(st: State, events: seq<Body>, n: nat, chainId: u64)
    requires n < |events| && StateComes(st, events, n, chainId)
    ensures StateComes(st, events, n + 1, chainId)
  {
    ComesLonger(events, n, chainId, st.finalOutput);
    ComesLonger(events, n, chainId, st.txOutput);
    forall k | 0 <= k < |st.stack| ensures AllCome(events, n + 1, chainId, st.stack[k].events) {
      ComesLonger(events, n, chainId, st.stack[k].events);
    }
  }

  lemma ComesJoin(events: seq<Body>, n: nat, chainId: u64, xs: seq<CseEvent>, ys: seq<CseEvent>)
    requires n <= |events| && AllCome(events, n, chainId, xs) && AllCome(events, n, chainId, ys)
    ensures AllCome(events, n, chainId, xs + ys)
  {
    forall x | x in xs + ys ensures Comes(events, n, chainId, x) {
      assert x in xs || x in ys;
    }
  }

  lemma ComesOne(events: seq<Body>, i: nat, chainId: u64, x: CseEvent)
    requires i < |events| && ComesFrom(events, i, chainId, x)
    ensures AllCome(events, i + 1, chainId, [x])
  {
  }

  lemma ToldByPayload(c: Change)
    ensures Tells(PayloadOf(c), c)
  {
  }

  lemma PopComes(st: State, reverted: bool, events: seq<Body>, n: nat, chainId: u64)
    requires st.stack != [] && n <= |events| && StateComes(st, events, n, chainId)
    ensures StateComes(Pop(st, reverted), events, n, chainId)
  {
    var popped, below := st.stack[|st.stack| - 1], st.stack[..|st.stack| - 1];
    assert AllCome(events, n, chainId, popped.events);
    if below != [] {
      assert AllCome(events, n, chainId, below[|below| - 1].events);
      ComesJoin(events, n, chainId, below[|below| - 1].events, popped.events);
    } else {
      ComesJoin(events, n, chainId, st.txOutput, popped.events);
    }
  }

  lemma AppendComes(st: State, events: seq<Body>, chainId: u64, i: nat)
    requires i < |events| && events[i].Mutation? && Reads(st, events[..i], chainId)
    requires StateComes(st, events, i + 1, chainId) && Step(st, i, events[i]).Ok?
    ensures StateComes(Step(st, i, events[i]).value, events, i + 1, chainId)
  {
    var Mutation(frameId, change) := events[i];
    ToldByPayload(change);
    if frameId == NO_FRAME {
      var x := Stamp(st.env, st.block, NO_TRACE, PayloadOf(change));
      ComesOne(events, i, chainId, x);
      ComesJoin(events, i + 1, chainId, st.txOutput, [x]);
    } else {
      var top := st.stack[|st.stack| - 1];
      var x := Stamp(st.env, st.block, Trace(top.frameId, top.depth), PayloadOf(change));
      ComesOne(events, i, chainId, x);
      ComesJoin(events, i + 1, chainId, top.events, [x]);
    }
  }

  lemma StepComes(st: State, events: seq<Body>, chainId: u64, i: nat)
    requires i < |events| && Reads(st, events[..i], chainId)
    requires StateComes(st, events, i, chainId) && Step(st, i, events[i]).Ok?
    ensures StateComes(Step(st, i, events[i]).value, events, i + 1, chainId)
  {
    StateComesLonger(st, events, i, chainId);
    match events[i]
    case TxStart(txIndex, hash) =>
      ComesOne(events, i, chainId, Stamp(Env(st.env.chainId, hash, txIndex), st.block, NO_TRACE, BeginTransaction));
    case TxEnd(_) =>
      var x := Stamp(st.env, st.block, NO_TRACE, EndTransaction);
      ComesOne(events, i, chainId, x);
      ComesJoin(events, i + 1, chainId, st.txOutput, [x]);
      ComesJoin(events, i + 1, chainId, st.finalOutput, st.txOutput + [x]);
    case FrameExit(_, reverted) => PopComes(st, reverted, events, i + 1, chainId);
    case Mutation(_, _) => AppendComes(st, events, chainId, i);
    case _ =>
  }

  /** An event's origin does not depend on its sequence number. */
  lemma RenumberedComes(events: seq<Body>, chainId: u64, xs: seq<CseEvent>)
    requires AllCome(events, |events|, chainId, xs)
    ensures AllCome(events, |events|, chainId, Renumber(xs))
  {
    var ys := Renumber(xs);
    forall y | y in ys ensures Comes(events, |events|, chainId, y) {
      var k :| 0 <= k < |ys| && ys[k] == y;
      assert xs[k] in xs;
      var i: nat :| i < |events| && ComesFrom(events, i, chainId, xs[k]);
      assert ComesFrom(events, i, chainId, y);
    }
  }

  lemma {:induction false} RunComes(st: State, events: seq<Body>, chainId: u64, i: nat)
    requires i <= |events| && Reads(st, events[..i], chainId) && StateComes(st, events, i, chainId)
    requires Run(st, i, events[i..]).Ok?
    ensures AllCome(events, |events|, chainId, Run(st, i, events[i..]).value)
    decreases |events| - i
  {
    if i == |events| {
      RenumberedComes(events, chainId, st.finalOutput);
    } else {
      assert events[i..][1..] == events[i + 1..];
      StepReads(st, events[..i], chainId, i, events[i]);
      StepComes(st, events, chainId, i);
      assert events[..i] + [events[i]] == events[..i + 1];
      RunComes(Step(st, i, events[i]).value, events, chainId, i + 1);
    }
  }

  /** Every event of a translation comes from one event of the stream: it reports that event's own
      fields, in its frame, block and transaction. */
  lemma TranslateComes(events: seq<Body>, chainId: u64)
    requires Run(Initial(chainId), 0, events).Ok?
    ensures forall x :: x in Run(Initial(chainId), 0, events).value ==>
              exists i: nat :: i < |events| && ComesFrom(events, i, chainId, x)
  {
    assert events[0..] == events && events[..0] == [];
    assert Reads(Initial(chainId), [], chainId);
    RunComes(Initial(chainId), events, chainId, 0);
    forall x | x in Run(Initial(chainId), 0, events).value
      ensures exists i: nat :: i < |events| && ComesFrom(events, i, chainId, x)
    {
      assert Comes(events, |events|, chainId, x);
    }
  }
}
