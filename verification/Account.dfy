/** What a fresh collector has recorded after a list of hooks, told from the hooks alone. */
module Account {
  import opened Primitives
  import opened Emes
  import opened Tracer

  function Last(hooks: seq<Hook>): Hook
    requires hooks != []
  {
    hooks[|hooks| - 1]
  }

  function Init(hooks: seq<Hook>): (r: seq<Hook>)
    requires hooks != []
    ensures |r| < |hooks|
  {
    hooks[..|hooks| - 1]
  }

  /** How many frames the transaction has entered. */
  function Entered(hooks: seq<Hook>): u64
    decreases |hooks|
  {
    if hooks == [] || Last(hooks).OnTxStart? then 0
    else if Last(hooks).OnEnter? then (Entered(Init(hooks)) + 1) % 0x1_0000_0000_0000_0000
    else Entered(Init(hooks))
  }

  /** The numbers of the open frames, outermost first. */
  function OpenIds(hooks: seq<Hook>): seq<u64>
    decreases |hooks|
  {
    if hooks == [] then []
    else
      var before := OpenIds(Init(hooks));
      match Last(hooks)
      case OnTxStart(_) => []
      case OnTxEnd(_) => []
      case OnEnter(_) => before + [Entered(Init(hooks))]
      case OnExit(_) => if before == [] then [] else before[..|before| - 1]
      case _ => before
  }

  /** The innermost open frame, or the sentinel. */
  function Inner(hooks: seq<Hook>): u64 {
    var open := OpenIds(hooks);
    if open == [] then NO_FRAME else open[|open| - 1]
  }

  /** Hook `h` names an account that self-destructs in `frame`. */
  predicate Condemns(before: seq<Hook>, h: Hook, frame: u64) {
    h.OnCodeChange? && h.selfDestruct && Inner(before) == frame
  }

  /** Hook `h` settles whatever self-destruct is waiting in `frame`. */
  predicate Settles(before: seq<Hook>, h: Hook, frame: u64) {
    h.OnTxEnd? || (h.OnBalanceChange? && h.selfDestruct && Inner(before) == frame)
  }

  /** The account waiting to self-destruct in `frame`; see `WaitingMeans`. */
  function Waiting(hooks: seq<Hook>, frame: u64): Option<Address>
    decreases |hooks|
  {
    if hooks == [] || Settles(Init(hooks), Last(hooks), frame) then None
    else if Condemns(Init(hooks), Last(hooks), frame) then Some(Last(hooks).address)
    else Waiting(Init(hooks), frame)
  }

  /** The events hook `h` makes the collector record after `before`. */
  function Reports(before: seq<Hook>, h: Hook): seq<Body> {
    var frame := Inner(before);
    match h
    case OnBlockStart(number) => [BlockStart(number)]
    case OnBlockEnd => [BlockCommit]
    case OnTxStart(hash) => [TxStart(0, hash)]
    case OnTxEnd(failed) => [TxEnd(failed)]
    case OnEnter(depth) => [FrameEnter(Entered(before), frame, depth % 0x1_0000_0000_0000_0000)]
    case OnExit(reverted) => if OpenIds(before) == [] then [] else [FrameExit(frame, reverted)]
    case OnBalanceChange(a, old', new', selfDestruct) =>
      var waiting := Waiting(before, frame);
      [Mutation(frame, Balance(a, old', new'))]
        + (if selfDestruct && waiting.Some? then [Mutation(frame, SelfDestruct(waiting.value, a))] else [])
    case OnNonceChange(a, old', new') => [Mutation(frame, Nonce(a, old', new'))]
    case OnCodeChange(a, old', new', _) => [Mutation(frame, Code(a, old', new'))]
    case OnStorageChange(a, slot, old', new') => [Mutation(frame, Storage(a, slot, old', new'))]
  }

  /** The events since the latest block start, hook by hook. */
  function Story(hooks: seq<Hook>): seq<Body>
    decreases |hooks|
  {
    if hooks == [] then []
    else (if Last(hooks).OnBlockStart? then [] else Story(Init(hooks))) + Reports(Init(hooks), Last(hooks))
  }

  /** How many events all hooks together have recorded. */
  function Count(hooks: seq<Hook>): nat
    decreases |hooks|
  {
    if hooks == [] then 0 else Count(Init(hooks)) + |Reports(Init(hooks), Last(hooks))|
  }

  /** The problems logged since the latest block start: their code, frame and event count. */
  function Problems(hooks: seq<Hook>): seq<(ErrorCode, u64, nat)>
    decreases |hooks|
  {
    if hooks == [] || Last(hooks).OnBlockStart? then []
    else
      var before := Init(hooks);
      Problems(before)
        + (if Last(hooks).OnTxEnd? && OpenIds(before) != [] then [(UnexpectedExit, Inner(before), Count(hooks))]
           else if Last(hooks).OnExit? && OpenIds(before) == [] then [(EmptyFrameStack, NO_FRAME, Count(hooks))]
           else [])
  }

  // ---- The account waiting to self-destruct ----

  predicate CondemnedAt(hooks: seq<Hook>, frame: u64, i: nat) {
    i < |hooks| && Condemns(hooks[..i], hooks[i], frame)
  }

  predicate QuietAt(hooks: seq<Hook>, frame: u64, j: nat) {
    j < |hooks| ==> !Condemns(hooks[..j], hooks[j], frame) && !Settles(hooks[..j], hooks[j], frame)
  }

  /** Hook `i` condemned an account in `frame`, and nothing has settled or replaced it since. */
  ghost predicate WaitingSince(hooks: seq<Hook>, frame: u64, i: nat) {
    CondemnedAt(hooks, frame, i) && forall j :: i < j < |hooks| ==> QuietAt(hooks, frame, j)
  }

  lemma SameBefore(before: seq<Hook>, h: Hook, frame: u64, i: nat)
    requires i < |before|
    ensures CondemnedAt(before + [h], frame, i) <==> CondemnedAt(before, frame, i)
    ensures QuietAt(before + [h], frame, i) <==> QuietAt(before, frame, i)
  {
    assert (before + [h])[..i] == before[..i];
  }

  lemma WaitingLonger(before: seq<Hook>, h: Hook, frame: u64, i: nat)
    requires i < |before|
    ensures WaitingSince(before + [h], frame, i) <==>
              WaitingSince(before, frame, i) && !Condemns(before, h, frame) && !Settles(before, h, frame)
  {
    var hooks := before + [h];
    assert hooks[..|before|] == before;
    SameBefore(before, h, frame, i);
    forall j | i < j < |before| ensures QuietAt(hooks, frame, j) <==> QuietAt(before, frame, j) {
      SameBefore(before, h, frame, j);
    }
    assert QuietAt(hooks, frame, |before|) <==> !Condemns(before, h, frame) && !Settles(before, h, frame);
  }

  lemma WaitingHere(before: seq<Hook>, h: Hook, frame: u64)
    ensures WaitingSince(before + [h], frame, |before|) <==> Condemns(before, h, frame)
  {
    assert (before + [h])[..|before|] == before;
  }

  /** An account waits in `frame` exactly if the latest hook that could condemn or settle there
      condemned it. */
  lemma {:induction false} WaitingMeans(hooks: seq<Hook>, frame: u64, a: Address)
    ensures Waiting(hooks, frame) == Some(a) <==>
              exists i: nat :: WaitingSince(hooks, frame, i) && hooks[i].address == a
    decreases |hooks|
  {
    if hooks == [] {
    } else {
      var before, h := Init(hooks), Last(hooks);
      assert before + [h] == hooks;
      WaitingMeans(before, frame, a);
      WaitingNext(before, h, frame, a);
    }
  }

  lemma WaitingNext(before: seq<Hook>, h: Hook, frame: u64, a: Address)
    requires Waiting(before, frame) == Some(a) <==>
               exists i: nat :: WaitingSince(before, frame, i) && before[i].address == a
    ensures Waiting(before + [h], frame) == Some(a) <==>
              exists i: nat :: WaitingSince(before + [h], frame, i) && (before + [h])[i].address == a
  {
    var hooks := before + [h];
    assert Init(hooks) == before && Last(hooks) == h;
    WaitingHere(before, h, frame);
    forall i: nat | i < |before|
      ensures WaitingSince(hooks, frame, i) <==>
                WaitingSince(before, frame, i) && !Condemns(before, h, frame) && !Settles(before, h, frame)
    {
      WaitingLonger(before, h, frame, i);
    }
    if Condemns(before, h, frame) {
      assert WaitingSince(hooks, frame, |before|);
      forall i: nat | WaitingSince(hooks, frame, i) ensures i == |before| {
        assert i <= |before|;
      }
    } else if !Settles(before, h, frame) {
      forall i: nat | WaitingSince(hooks, frame, i) ensures i < |before| && hooks[i] == before[i] {
        assert i != |before|;
      }
      if Waiting(before, frame) == Some(a) {
        var i: nat :| WaitingSince(before, frame, i) && before[i].address == a;
        assert WaitingSince(hooks, frame, i) && hooks[i] == before[i];
      }
    } else {
      forall i: nat ensures !WaitingSince(hooks, frame, i) {
        assert i == |before| || i < |before| || !CondemnedAt(hooks, frame, i);
      }
    }
  }

  // ---- The collector keeps this account ----

  function Ids(stack: seq<FrameCtx>): (r: seq<u64>)
    ensures |r| == |stack|
  {
    seq(|stack|, i requires 0 <= i < |stack| => stack[i].frameId)
  }

  predicate StackTold(s: Snapshot, hooks: seq<Hook>) {
    s.nextFrameId == Entered(hooks) && Ids(s.frameStack) == OpenIds(hooks)
  }

  /** The events recorded, numbered up to the count of all events so far. */
  predicate EventsTold(s: Snapshot, hooks: seq<Hook>) {
    && s.globalSequence == Count(hooks)
    && Bodies(s.events) == Story(hooks)
    && |s.events| <= Count(hooks)
    && forall i :: 0 <= i < |s.events| ==> s.events[i].sequence == Count(hooks) - |s.events| + i
  }

  predicate SameLog(log: seq<TracerError>, problems: seq<(ErrorCode, u64, nat)>) {
    && |log| == |problems|
    && forall i :: 0 <= i < |log| ==> (log[i].code, log[i].frameId, log[i].sequence) == problems[i]
  }

  predicate LogTold(s: Snapshot, hooks: seq<Hook>) { SameLog(s.errorLog, Problems(hooks)) }

  ghost predicate PendingTold(s: Snapshot, hooks: seq<Hook>) {
    forall frame :: (if frame in s.pending then Some(s.pending[frame]) else None) == Waiting(hooks, frame)
  }

  ghost predicate Told(s: Snapshot, hooks: seq<Hook>) {
    StackTold(s, hooks) && EventsTold(s, hooks) && LogTold(s, hooks) && PendingTold(s, hooks)
  }

  lemma OneMore(hooks: seq<Hook>, h: Hook)
    ensures Init(hooks + [h]) == hooks && Last(hooks + [h]) == h
  {
  }

  lemma InnerTold(s: Snapshot, hooks: seq<Hook>)
    requires StackTold(s, hooks)
    ensures CurrentFrame(s.frameStack) == Inner(hooks)
    ensures s.frameStack == [] <==> OpenIds(hooks) == []
  {
    if s.frameStack != [] { assert Ids(s.frameStack)[|s.frameStack| - 1] == CurrentFrame(s.frameStack); }
  }

  lemma StackNext(s: Snapshot, hooks: seq<Hook>, h: Hook)
    requires StackTold(s, hooks) && !s.panicked && !Fire(s, h).panicked
    ensures StackTold(Fire(s, h), hooks + [h])
  {
    OneMore(hooks, h);
    InnerTold(s, hooks);
    var t := Fire(s, h);
    match h
    case OnEnter(_) => assert Ids(t.frameStack) == Ids(s.frameStack) + [s.nextFrameId];
    case OnExit(_) =>
      if s.frameStack != [] { assert Ids(t.frameStack) == Ids(s.frameStack)[..|s.frameStack| - 1]; }
    case OnTxStart(_) => assert Ids(t.frameStack) == [];
    case OnTxEnd(_) => assert Ids(t.frameStack) == [];
    case _ =>
  }

  lemma PendingNext(s: Snapshot, hooks: seq<Hook>, h: Hook)
    requires StackTold(s, hooks) && PendingTold(s, hooks) && !s.panicked && !Fire(s, h).panicked
    ensures PendingTold(Fire(s, h), hooks + [h])
  {
    OneMore(hooks, h);
    InnerTold(s, hooks);
    var t, own := Fire(s, h), CurrentFrame(s.frameStack);
    assert (if own in s.pending then Some(s.pending[own]) else None) == Waiting(hooks, own);
    forall frame ensures (if frame in t.pending then Some(t.pending[frame]) else None) == Waiting(hooks + [h], frame) {
      assert (if frame in s.pending then Some(s.pending[frame]) else None) == Waiting(hooks, frame);
    }
  }

  /** What is recorded of `body`. */
  lemma EmitTold(s: Snapshot, body: Body, told: seq<Body>, n: nat)
    requires !s.panicked && !Emit(s, body).panicked && s.globalSequence == n && |s.events| <= n
    requires Bodies(s.events) == told && forall i :: 0 <= i < |s.events| ==> s.events[i].sequence == n - |s.events| + i
    ensures var t := Emit(s, body);
            && t.globalSequence == n + 1 && |t.events| <= n + 1 && Bodies(t.events) == told + [body]
            && forall i :: 0 <= i < |t.events| ==> t.events[i].sequence == n + 1 - |t.events| + i
  {
    assert Bodies(Emit(s, body).events) == Bodies(s.events) + [body];
  }

  lemma EventsNext(s: Snapshot, hooks: seq<Hook>, h: Hook)
    requires StackTold(s, hooks) && EventsTold(s, hooks) && PendingTold(s, hooks)
    requires !s.panicked && !Fire(s, h).panicked
    ensures EventsTold(Fire(s, h), hooks + [h])
  {
    OneMore(hooks, h);
    InnerTold(s, hooks);
    var frame, told, n := CurrentFrame(s.frameStack), Story(hooks), Count(hooks);
    assert Reports(hooks, h) == [] ==> told + Reports(hooks, h) == told;
    match h
    case OnBlockStart(number) => EmitTold(s.(events := [], errorLog := []), BlockStart(number), [], n);
    case OnBlockEnd => EmitTold(s, BlockCommit, told, n);
    case OnTxStart(hash) => EmitTold(s.(nextFrameId := 0, frameStack := []), TxStart(0, hash), told, n);
    case OnTxEnd(failed) => EmitTold(s, TxEnd(failed), told, n);
    case OnEnter(depth) =>
      var fc := FrameCtx(s.nextFrameId, frame, ToU64(depth));
      EmitTold(s.(frameStack := s.frameStack + [fc], nextFrameId := ToU64(s.nextFrameId + 1)),
               FrameEnter(fc.frameId, fc.parentFrameId, fc.depth), told, n);
    case OnExit(reverted) =>
      if s.frameStack != [] {
        EmitTold(s.(frameStack := s.frameStack[..|s.frameStack| - 1]), FrameExit(frame, reverted), told, n);
      }
    case _ => MutationTold(s, hooks, h);
  }

  lemma BalanceTold(s: Snapshot, hooks: seq<Hook>, h: Hook)
    requires StackTold(s, hooks) && EventsTold(s, hooks) && PendingTold(s, hooks) && h.OnBalanceChange?
    requires !s.panicked && !Fire(s, h).panicked
    ensures EventsTold(Fire(s, h), hooks + [h])
  {
    OneMore(hooks, h);
    InnerTold(s, hooks);
    var frame, told, n := CurrentFrame(s.frameStack), Story(hooks), Count(hooks);
    var first := Mutation(frame, Balance(h.address, h.before, h.after));
    var t := Emit(s, first);
    EmitTold(s, first, told, n);
    assert (if frame in s.pending then Some(s.pending[frame]) else None) == Waiting(hooks, frame);
    if h.selfDestruct && frame in t.pending {
      var second := Mutation(frame, SelfDestruct(t.pending[frame], h.address));
      EmitTold(t, second, told + [first], n + 1);
      Associate(told, [first], [second]);
    } else {
      assert [first] + [] == [first];
    }
  }

  lemma MutationTold(s: Snapshot, hooks: seq<Hook>, h: Hook)
    requires StackTold(s, hooks) && EventsTold(s, hooks) && PendingTold(s, hooks) && IsMutationHook(h)
    requires !s.panicked && !Fire(s, h).panicked
    ensures EventsTold(Fire(s, h), hooks + [h])
  {
    OneMore(hooks, h);
    InnerTold(s, hooks);
    var frame, told, n := CurrentFrame(s.frameStack), Story(hooks), Count(hooks);
    match h
    case OnBalanceChange(_, _, _, _) => BalanceTold(s, hooks, h);
    case OnNonceChange(a, old', new') => EmitTold(s, Mutation(frame, Nonce(a, old', new')), told, n);
    case OnCodeChange(a, old', new', _) => EmitTold(s, Mutation(frame, Code(a, old', new')), told, n);
    case OnStorageChange(a, slot, old', new') => EmitTold(s, Mutation(frame, Storage(a, slot, old', new')), told, n);
  }

  lemma SameLogSnoc(log: seq<TracerError>, problems: seq<(ErrorCode, u64, nat)>, e: TracerError)
    requires SameLog(log, problems)
    ensures SameLog(log + [e], problems + [(e.code, e.frameId, e.sequence)])
  {
  }

  lemma LogNext(s: Snapshot, hooks: seq<Hook>, h: Hook)
    requires !s.panicked && !Fire(s, h).panicked
    requires StackTold(s, hooks) && LogTold(s, hooks) && EventsTold(Fire(s, h), hooks + [h])
    ensures LogTold(Fire(s, h), hooks + [h])
  {
    OneMore(hooks, h);
    InnerTold(s, hooks);
    var t, problems := Fire(s, h), Problems(hooks);
    if h.OnBlockStart? {
    } else if h.OnTxEnd? && s.frameStack != [] {
      SameLogSnoc(s.errorLog, problems, TracerError(UnexpectedExit, CurrentFrame(s.frameStack), t.globalSequence));
    } else if h.OnExit? && s.frameStack == [] {
      SameLogSnoc(s.errorLog, problems, TracerError(EmptyFrameStack, NO_FRAME, t.globalSequence));
    } else {
      assert problems + [] == problems;
      SameLogKept(s, h);
    }
  }

  lemma SameLogKept(s: Snapshot, h: Hook)
    requires !s.panicked && !Fire(s, h).panicked && !h.OnBlockStart?
    requires (h.OnTxEnd? ==> s.frameStack == []) && (h.OnExit? ==> s.frameStack != [])
    ensures Fire(s, h).errorLog == s.errorLog
  {
  }

  lemma {:induction false} RunSnoc(s: Snapshot, hooks: seq<Hook>, h: Hook)
    ensures Run(s, hooks + [h]) == if Run(s, hooks).panicked then Run(s, hooks) else Fire(Run(s, hooks), h)
    decreases |hooks|
  {
    if hooks == [] {
      assert (hooks + [h])[1..] == [];
    } else if !s.panicked {
      assert (hooks + [h])[1..] == hooks[1..] + [h];
      RunSnoc(Fire(s, hooks[0]), hooks[1..], h);
    }
  }

  /** However a fresh collector is driven, its events, their numbers, its log, its open frames and the
      self-destructs it is waiting to report are those told from the hooks. */
  lemma {:induction false} RunTold(hooks: seq<Hook>)
    requires !Run(FRESH, hooks).panicked
    ensures Told(Run(FRESH, hooks), hooks)
    decreases |hooks|
  {
    if hooks == [] {
    } else {
      var before, h := Init(hooks), Last(hooks);
      assert before + [h] == hooks;
      RunSnoc(FRESH, before, h);
      RunTold(before);
      var s := Run(FRESH, before);
      StackNext(s, before, h);
      EventsNext(s, before, h);
      LogNext(s, before, h);
      PendingNext(s, before, h);
    }
  }

  // ---- Overflow ----

  /** The innermost frame open when hook `h` emits: a frame entered is, a frame left is not. */
  function EmittingFrame(hooks: seq<Hook>, h: Hook): u64 {
    if h.OnTxEnd? then Inner(hooks) else Inner(hooks + [h])
  }

  /** `s` aborts on `h` exactly if the events told cannot be numbered in 64 bits, logging the overflow
      with the frame open there and restarting the counter. */
  predicate AbortsRightly(s: Snapshot, hooks: seq<Hook>, h: Hook)
    requires !s.panicked
  {
    var t := Fire(s, h);
    && (t.panicked <==> U64_MAX < Count(hooks) + |Reports(hooks, h)|)
    && (t.panicked ==>
          && t.globalSequence == 0 && t.errorLog != []
          && t.errorLog[|t.errorLog| - 1] == TracerError(SequenceOverflow, EmittingFrame(hooks, h), 0))
  }

  lemma EmitAborts(s: Snapshot, body: Body)
    requires !s.panicked
    ensures var t := Emit(s, body);
            && (t.panicked <==> s.globalSequence == U64_MAX)
            && (t.panicked ==>
                  && t.globalSequence == 0 && t.errorLog != []
                  && t.errorLog[|t.errorLog| - 1] == TracerError(SequenceOverflow, CurrentFrame(s.frameStack), 0))
            && (!t.panicked ==> t.globalSequence == s.globalSequence + 1 && t.frameStack == s.frameStack)
  {
  }

  lemma BalanceAborts(s: Snapshot, hooks: seq<Hook>, h: Hook)
    requires !s.panicked && Told(s, hooks) && h.OnBalanceChange?
    ensures AbortsRightly(s, hooks, h)
  {
    OneMore(hooks, h);
    InnerTold(s, hooks);
    var frame := Inner(hooks);
    assert (if frame in s.pending then Some(s.pending[frame]) else None) == Waiting(hooks, frame);
    var first := Mutation(frame, Balance(h.address, h.before, h.after));
    EmitAborts(s, first);
    var t := Emit(s, first);
    if !t.panicked && h.selfDestruct && frame in t.pending {
      EmitAborts(t, Mutation(frame, SelfDestruct(t.pending[frame], h.address)));
    }
  }

  lemma MutationAborts(s: Snapshot, hooks: seq<Hook>, h: Hook)
    requires !s.panicked && Told(s, hooks) && IsMutationHook(h) && !h.OnBalanceChange?
    ensures AbortsRightly(s, hooks, h)
  {
    OneMore(hooks, h);
    InnerTold(s, hooks);
    var frame := Inner(hooks);
    match h
    case OnNonceChange(a, old', new') => EmitAborts(s, Mutation(frame, Nonce(a, old', new')));
    case OnCodeChange(a, old', new', _) => EmitAborts(s, Mutation(frame, Code(a, old', new')));
    case OnStorageChange(a, slot, old', new') => EmitAborts(s, Mutation(frame, Storage(a, slot, old', new')));
  }

  lemma EnterAborts(s: Snapshot, hooks: seq<Hook>, h: Hook)
    requires !s.panicked && Told(s, hooks) && h.OnEnter?
    ensures AbortsRightly(s, hooks, h)
  {
    OneMore(hooks, h);
    InnerTold(s, hooks);
    var fc := FrameCtx(s.nextFrameId, CurrentFrame(s.frameStack), ToU64(h.depth));
    EmitAborts(s.(frameStack := s.frameStack + [fc], nextFrameId := ToU64(s.nextFrameId + 1)),
               FrameEnter(fc.frameId, fc.parentFrameId, fc.depth));
  }

  lemma ExitAborts(s: Snapshot, hooks: seq<Hook>, h: Hook)
    requires !s.panicked && Told(s, hooks) && h.OnExit?
    ensures AbortsRightly(s, hooks, h)
  {
    OneMore(hooks, h);
    InnerTold(s, hooks);
    if s.frameStack != [] {
      var below := s.(frameStack := s.frameStack[..|s.frameStack| - 1]);
      EmitAborts(below, FrameExit(CurrentFrame(s.frameStack), h.reverted));
      InnerLeft(s, hooks, h);
    }
  }

  lemma InnerLeft(s: Snapshot, hooks: seq<Hook>, h: Hook)
    requires StackTold(s, hooks) && h.OnExit? && s.frameStack != []
    ensures CurrentFrame(s.frameStack[..|s.frameStack| - 1]) == Inner(hooks + [h])
  {
    OneMore(hooks, h);
    var stack := s.frameStack[..|s.frameStack| - 1];
    assert Ids(stack) == Ids(s.frameStack)[..|stack|] == OpenIds(hooks + [h]);
    if stack != [] { assert Ids(stack)[|stack| - 1] == CurrentFrame(stack); }
  }

  lemma BoundaryAborts(s: Snapshot, hooks: seq<Hook>, h: Hook)
    requires !s.panicked && Told(s, hooks) && !IsMutationHook(h) && !h.OnEnter? && !h.OnExit?
    ensures AbortsRightly(s, hooks, h)
  {
    OneMore(hooks, h);
    InnerTold(s, hooks);
  }

  /** A collector that has not aborted aborts exactly on the hook whose events no longer can be numbered in
      64 bits; it logs the overflow with the frame open there, and its counter restarts. */
  lemma OverflowTold(hooks: seq<Hook>, h: Hook)
    requires !Run(FRESH, hooks).panicked
    ensures AbortsRightly(Run(FRESH, hooks), hooks, h)
  {
    var s := Run(FRESH, hooks);
    RunTold(hooks);
    if h.OnBalanceChange? {
      BalanceAborts(s, hooks, h);
    } else if IsMutationHook(h) {
      MutationAborts(s, hooks, h);
    } else if h.OnEnter? {
      EnterAborts(s, hooks, h);
    } else if h.OnExit? {
      ExitAborts(s, hooks, h);
    } else {
      BoundaryAborts(s, hooks, h);
    }
  }
}
