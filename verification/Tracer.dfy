/** The hook-driven collector of `tracer/kaysentinel_tracer.go`, and what Gate 1 makes of its output. */
module Tracer {
  import opened Primitives
  import opened Emes
  import G = Gate1

  datatype FrameCtx = FrameCtx(frameId: u64, parentFrameId: u64, depth: u64)

  datatype ErrorCode = EmptyFrameStack | UnexpectedExit | SequenceOverflow

  datatype TracerError = TracerError(code: ErrorCode, frameId: u64, sequence: u64)

  /** One call of a tracing hook, with the arguments the collector reads. */
  datatype Hook =
    | OnBlockStart(number: u64)
    | OnBlockEnd
    | OnTxStart(hash: Word)
    | OnTxEnd(failed: bool)
    | OnEnter(depth: int)
    | OnExit(reverted: bool)
    | OnBalanceChange(address: Address, before: Word, after: Word, selfDestruct: bool)
    | OnNonceChange(address: Address, nonceBefore: u64, nonceAfter: u64)
    | OnCodeChange(address: Address, before: Word, after: Word, selfDestruct: bool)
    | OnStorageChange(address: Address, slot: Word, before: Word, after: Word)

  /** The collector's fields, and whether it has aborted on sequence overflow. */
  datatype Snapshot = Snapshot(
    globalSequence: u64, nextFrameId: u64, frameStack: seq<FrameCtx>, events: seq<Event>,
    errorLog: seq<TracerError>, pending: map<u64, Address>, panicked: bool)

  const FRESH := Snapshot(0, 0, [], [], [], map[], false)

  function CurrentFrame(stack: seq<FrameCtx>): u64 {
    if stack == [] then NO_FRAME else stack[|stack| - 1].frameId
  }

  /** Go's `uint64(depth)`. */
  function ToU64(n: int): u64 { n % (U64_MAX + 1) }

  function Log(s: Snapshot, code: ErrorCode, frameId: u64): Snapshot {
    s.(errorLog := s.errorLog + [TracerError(code, frameId, s.globalSequence)])
  }

  function Emit(s: Snapshot, body: Body): Snapshot {
    if s.globalSequence == U64_MAX then
      Log(s.(globalSequence := 0), SequenceOverflow, CurrentFrame(s.frameStack)).(panicked := true)
    else s.(globalSequence := s.globalSequence + 1, events := s.events + [Event(s.globalSequence, body)])
  }

  function Fire(s: Snapshot, h: Hook): Snapshot
    requires !s.panicked
  {
    var frame := CurrentFrame(s.frameStack);
    match h
    case OnBlockStart(number) => Emit(s.(events := [], errorLog := []), BlockStart(number))
    case OnBlockEnd => Emit(s, BlockCommit)
    case OnTxStart(hash) => Emit(s.(nextFrameId := 0, frameStack := []), TxStart(0, hash))
    case OnTxEnd(failed) =>
      var t := Emit(s, TxEnd(failed));
      if t.panicked then t
      else (if t.frameStack != [] then Log(t, UnexpectedExit, frame) else t).(frameStack := [], pending := map[])
    case OnEnter(depth) =>
      var fc := FrameCtx(s.nextFrameId, frame, ToU64(depth));
      Emit(s.(frameStack := s.frameStack + [fc], nextFrameId := ToU64(s.nextFrameId + 1)),
           FrameEnter(fc.frameId, fc.parentFrameId, fc.depth))
    case OnExit(reverted) =>
      if s.frameStack == [] then Log(s, EmptyFrameStack, NO_FRAME)
      else Emit(s.(frameStack := s.frameStack[..|s.frameStack| - 1]), FrameExit(frame, reverted))
    case OnBalanceChange(address, before, after, selfDestruct) =>
      var t := Emit(s, Mutation(frame, Balance(address, before, after)));
      if t.panicked || !selfDestruct || frame !in t.pending then t
      else
        var u := Emit(t, Mutation(frame, SelfDestruct(t.pending[frame], address)));
        if u.panicked then u else u.(pending := u.pending - {frame})
    case OnNonceChange(address, before, after) => Emit(s, Mutation(frame, Nonce(address, before, after)))
    case OnCodeChange(address, before, after, selfDestruct) =>
      var t := Emit(s, Mutation(frame, Code(address, before, after)));
      if t.panicked || !selfDestruct then t else t.(pending := t.pending[frame := address])
    case OnStorageChange(address, slot, before, after) =>
      Emit(s, Mutation(frame, Storage(address, slot, before, after)))
  }

  /** The state after a list of hooks; a collector that has panicked receives no more of them. */
  function Run(s: Snapshot, hooks: seq<Hook>): Snapshot
    decreases |hooks|
  {
    if hooks == [] || s.panicked then s else Run(Fire(s, hooks[0]), hooks[1..])
  }

  class Tracer {
    var globalSequence: u64
    var nextFrameId: u64
    var frameStack: seq<FrameCtx>
    var events: seq<Event>
    var errorLog: seq<TracerError>
    var pendingSelfDestruct: map<u64, Address>
    var panicked: bool

    ghost function State(): Snapshot
      reads this
    {
      Snapshot(globalSequence, nextFrameId, frameStack, events, errorLog, pendingSelfDestruct, panicked)
    }

    constructor ()
      ensures State() == FRESH
    {
      globalSequence, nextFrameId, frameStack, events, errorLog := 0, 0, [], [], [];
      pendingSelfDestruct, panicked := map[], false;
    }

    method LogError(code: ErrorCode, frameId: u64)
      modifies this`errorLog
      ensures State() == Log(old(State()), code, frameId)
    {
      errorLog := errorLog + [TracerError(code, frameId, globalSequence)];
    }

    /** Stamps and appends an event, or aborts when the counter wraps. */
    method EmitEvent(body: Body)
      requires !panicked
      modifies this`globalSequence, this`events, this`errorLog, this`panicked
      ensures State() == Emit(old(State()), body)
    {
      var e := Event(globalSequence, body);
      globalSequence := ToU64(globalSequence + 1);
      if globalSequence == 0 {
        LogError(SequenceOverflow, CurrentFrame(frameStack));
        panicked := true;
        return;
      }
      events := events + [e];
    }

    method OnBlockStart(number: u64)
      requires !panicked
      modifies this
      ensures State() == Fire(old(State()), Hook.OnBlockStart(number))
    {
      events, errorLog := [], [];
      EmitEvent(BlockStart(number));
    }

    method OnBlockEnd()
      requires !panicked
      modifies this
      ensures State() == Fire(old(State()), Hook.OnBlockEnd)
    {
      EmitEvent(BlockCommit);
    }

    method OnTxStart(hash: Word)
      requires !panicked
      modifies this
      ensures State() == Fire(old(State()), Hook.OnTxStart(hash))
    {
      nextFrameId, frameStack := 0, [];
      EmitEvent(TxStart(0, hash));
    }

    /** `receiptFailed` is None when the receipt is nil. */
    method OnTxEnd(receiptFailed: Option<bool>, err: bool)
      requires !panicked
      modifies this
      ensures State() == Fire(old(State()), Hook.OnTxEnd(err || receiptFailed == Some(true)))
    {
      var reverted := err || (receiptFailed.Some? && receiptFailed.value);
      EmitEvent(TxEnd(reverted));
      if panicked { return; }
      if |frameStack| != 0 {
        LogError(UnexpectedExit, CurrentFrame(frameStack));
      }
      frameStack, pendingSelfDestruct := [], map[];
    }

    method OnEnter(depth: int)
      requires !panicked
      modifies this
      ensures State() == Fire(old(State()), Hook.OnEnter(depth))
    {
      var fc := FrameCtx(nextFrameId, CurrentFrame(frameStack), ToU64(depth));
      frameStack := frameStack + [fc];
      nextFrameId := ToU64(nextFrameId + 1);
      EmitEvent(FrameEnter(fc.frameId, fc.parentFrameId, fc.depth));
    }

    method OnExit(reverted: bool)
      requires !panicked
      modifies this
      ensures State() == Fire(old(State()), Hook.OnExit(reverted))
    {
      if |frameStack| == 0 {
        LogError(EmptyFrameStack, NO_FRAME);
        return;
      }
      var fc := frameStack[|frameStack| - 1];
      frameStack := frameStack[..|frameStack| - 1];
      EmitEvent(FrameExit(fc.frameId, reverted));
    }

    method OnBalanceChange(address: Address, before: Word, after: Word, selfDestruct: bool)
      requires !panicked
      modifies this
      ensures State() == Fire(old(State()), Hook.OnBalanceChange(address, before, after, selfDestruct))
    {
      var frameId := CurrentFrame(frameStack);
      EmitEvent(Mutation(frameId, Balance(address, before, after)));
      if panicked { return; }
      if selfDestruct && frameId in pendingSelfDestruct {
        EmitEvent(Mutation(frameId, SelfDestruct(pendingSelfDestruct[frameId], address)));
        if panicked { return; }
        pendingSelfDestruct := pendingSelfDestruct - {frameId};
      }
    }

    method OnNonceChangeV2(address: Address, before: u64, after: u64)
      requires !panicked
      modifies this
      ensures State() == Fire(old(State()), Hook.OnNonceChange(address, before, after))
    {
      EmitEvent(Mutation(CurrentFrame(frameStack), Nonce(address, before, after)));
    }

    method OnCodeChangeV2(address: Address, before: Word, after: Word, selfDestruct: bool)
      requires !panicked
      modifies this
      ensures State() == Fire(old(State()), Hook.OnCodeChange(address, before, after, selfDestruct))
    {
      var frameId := CurrentFrame(frameStack);
      EmitEvent(Mutation(frameId, Code(address, before, after)));
      if panicked { return; }
      if selfDestruct {
        pendingSelfDestruct := pendingSelfDestruct[frameId := address];
      }
    }

    method OnStorageChange(address: Address, slot: Word, before: Word, after: Word)
      requires !panicked
      modifies this
      ensures State() == Fire(old(State()), Hook.OnStorageChange(address, slot, before, after))
    {
      EmitEvent(Mutation(CurrentFrame(frameStack), Storage(address, slot, before, after)));
    }
  }

  // ---- The hook discipline under which one block is traced ----

  datatype Phase = Before | InBlock | InTx(depth: nat, roots: nat, rootReverted: bool) | Ended | Broken

  predicate IsMutationHook(h: Hook) {
    h.OnBalanceChange? || h.OnNonceChange? || h.OnCodeChange? || h.OnStorageChange?
  }

  /** One block of complete transactions, each with balanced frames, at most one root frame and
      the root frame's outcome. An unmatched exit is harmless only before the block starts,
      because starting the block clears the error log. */
  function Next(p: Phase, h: Hook): Phase {
    match p
    case Before => if h.OnBlockStart? then InBlock else if h.OnExit? then Before else Broken
    case InBlock =>
      if h.OnBlockEnd? then Ended
      else if h.OnTxStart? then InTx(0, 0, false)
      else if IsMutationHook(h) then InBlock
      else Broken
    case InTx(depth, roots, rootReverted) =>
      if h.OnEnter? then InTx(depth + 1, if depth == 0 then roots + 1 else roots, rootReverted)
      else if h.OnExit? && 0 < depth then InTx(depth - 1, roots, if depth == 1 then h.reverted else rootReverted)
      else if h.OnTxEnd? && depth == 0 && roots <= 1 && (roots == 1 ==> h.failed == rootReverted) then InBlock
      else if IsMutationHook(h) then p
      else Broken
    case Ended => Broken
    case Broken => Broken
  }

  function Discipline(p: Phase, hooks: seq<Hook>): Phase
    decreases |hooks|
  {
    if hooks == [] then p else Discipline(Next(p, hooks[0]), hooks[1..])
  }

  // ---- What every step keeps ----

  function Ids(stack: seq<FrameCtx>): (r: seq<u64>)
    ensures |r| == |stack| && G.Top(r) == CurrentFrame(stack)
  {
    seq(|stack|, i requires 0 <= i < |stack| => stack[i].frameId)
  }

  /** Where the Gate 1 automaton stands after the events collected so far. */
  function Progress(s: Snapshot): G.Mode { G.Follow(G.Start, Bodies(s.events)) }

  predicate Numbered(s: Snapshot) {
    |s.events| == s.globalSequence && forall i :: 0 <= i < |s.events| ==> s.events[i].sequence == i
  }

  predicate Clean(s: Snapshot) {
    s.errorLog == [] && s.events != [] && Numbered(s) && G.TagsFollow(G.Start, Bodies(s.events))
  }

  /** Gate 1 will not accept these events, whatever is appended, or the log stays non-empty. */
  predicate Doomed(s: Snapshot) {
    0 < s.globalSequence && s.events != [] &&
    (s.errorLog != [] || Progress(s) == G.Rejected || s.events[0].sequence != 0)
  }

  predicate Inv(p: Phase, s: Snapshot) {
    !s.panicked &&
    match p
    case Before => s.globalSequence == 0 && s.events == [] && s.frameStack == []
    case InBlock =>
      Clean(s) && s.frameStack == [] && Progress(s).Open? && !Progress(s).st.txOpen && Progress(s).st.stack == []
    case InTx(depth, roots, rootReverted) =>
      && Clean(s) && |s.frameStack| == depth
      && Progress(s) == G.Open(G.State(true, Ids(s.frameStack), roots, rootReverted))
    case Ended => Clean(s) && s.frameStack == [] && Progress(s) == G.Committed
    case Broken => Doomed(s)
  }

  /** Emitting advances the automaton by the event's body and keeps sequence numbers and tags. */
  lemma EmitAdvances(s: Snapshot, body: Body)
    requires !Emit(s, body).panicked && !s.panicked
    ensures Progress(Emit(s, body)) == G.Advance(Progress(s), body)
    ensures Numbered(s) ==> Numbered(Emit(s, body))
    ensures G.TagsFollow(G.Start, Bodies(s.events)) && (body.Mutation? ==> body.frameId == G.OpenFrame(Progress(s)))
            ==> G.TagsFollow(G.Start, Bodies(Emit(s, body).events))
    ensures Emit(s, body).events != []
    ensures s.events != [] ==> Emit(s, body).events[0] == s.events[0]
  {
    var t := Emit(s, body);
    assert Bodies(t.events) == Bodies(s.events) + [body];
    G.FollowSnoc(G.Start, Bodies(s.events), body);
    G.TagsSnoc(G.Start, Bodies(s.events), body);
  }

  lemma DoomedStays(s: Snapshot, body: Body)
    requires Doomed(s) && !s.panicked && !Emit(s, body).panicked
    ensures Doomed(Emit(s, body))
  {
    EmitAdvances(s, body);
  }

  lemma BrokenStep(s: Snapshot, h: Hook)
    requires Inv(Broken, s) && !Fire(s, h).panicked
    ensures Inv(Broken, Fire(s, h))
  {
    var frame := CurrentFrame(s.frameStack);
    match h
    case OnBlockStart(_) =>
    case OnBlockEnd => DoomedStays(s, BlockCommit);
    case OnTxStart(hash) => DoomedStays(s.(nextFrameId := 0, frameStack := []), TxStart(0, hash));
    case OnTxEnd(failed) => DoomedStays(s, TxEnd(failed));
    case OnEnter(depth) =>
      var fc := FrameCtx(s.nextFrameId, frame, ToU64(depth));
      DoomedStays(s.(frameStack := s.frameStack + [fc], nextFrameId := ToU64(s.nextFrameId + 1)),
                  FrameEnter(fc.frameId, fc.parentFrameId, fc.depth));
    case OnExit(reverted) =>
      if s.frameStack != [] {
        DoomedStays(s.(frameStack := s.frameStack[..|s.frameStack| - 1]), FrameExit(frame, reverted));
      }
    case OnBalanceChange(address, before, after, selfDestruct) =>
      var t := Emit(s, Mutation(frame, Balance(address, before, after)));
      DoomedStays(s, Mutation(frame, Balance(address, before, after)));
      if selfDestruct && frame in t.pending {
        DoomedStays(t, Mutation(frame, SelfDestruct(t.pending[frame], address)));
      }
    case OnNonceChange(address, before, after) => DoomedStays(s, Mutation(frame, Nonce(address, before, after)));
    case OnCodeChange(address, before, after, _) => DoomedStays(s, Mutation(frame, Code(address, before, after)));
    case OnStorageChange(address, slot, before, after) =>
      DoomedStays(s, Mutation(frame, Storage(address, slot, before, after)));
  }

  lemma MutationAdvances(m: G.Mode, frameId: u64, change: Change)
    ensures G.Advance(m, Mutation(frameId, change)) == if m.Open? then m else G.Rejected
  {
  }

  /** A mutation hook moves the automaton only if it was not open. */
  lemma MutationStep(p: Phase, s: Snapshot, h: Hook)
    requires Inv(p, s) && (p.InBlock? || p.InTx?) && IsMutationHook(h) && !Fire(s, h).panicked
    ensures Inv(p, Fire(s, h))
  {
    var frame := CurrentFrame(s.frameStack);
    assert frame == G.OpenFrame(Progress(s));
    forall c: Change ensures G.Advance(Progress(s), Mutation(frame, c)) == Progress(s) {
      MutationAdvances(Progress(s), frame, c);
    }
    match h
    case OnBalanceChange(address, before, after, selfDestruct) =>
      var t := Emit(s, Mutation(frame, Balance(address, before, after)));
      EmitAdvances(s, Mutation(frame, Balance(address, before, after)));
      if selfDestruct && frame in t.pending {
        EmitAdvances(t, Mutation(frame, SelfDestruct(t.pending[frame], address)));
      }
    case OnNonceChange(address, before, after) => EmitAdvances(s, Mutation(frame, Nonce(address, before, after)));
    case OnCodeChange(address, before, after, _) => EmitAdvances(s, Mutation(frame, Code(address, before, after)));
    case OnStorageChange(address, slot, before, after) =>
      EmitAdvances(s, Mutation(frame, Storage(address, slot, before, after)));
  }

  /** A mutation hook dooms a block that has not started or has ended. */
  lemma StrayMutation(p: Phase, s: Snapshot, h: Hook)
    requires Inv(p, s) && (p.Before? || p.Ended?) && IsMutationHook(h) && !Fire(s, h).panicked
    ensures Doomed(Fire(s, h))
  {
    var frame := CurrentFrame(s.frameStack);
    match h
    case OnBalanceChange(address, before, after, selfDestruct) =>
      var t := Emit(s, Mutation(frame, Balance(address, before, after)));
      EmitAdvances(s, Mutation(frame, Balance(address, before, after)));
      if selfDestruct && frame in t.pending {
        EmitAdvances(t, Mutation(frame, SelfDestruct(t.pending[frame], address)));
      }
    case OnNonceChange(address, before, after) => EmitAdvances(s, Mutation(frame, Nonce(address, before, after)));
    case OnCodeChange(address, before, after, _) => EmitAdvances(s, Mutation(frame, Code(address, before, after)));
    case OnStorageChange(address, slot, before, after) =>
      EmitAdvances(s, Mutation(frame, Storage(address, slot, before, after)));
  }

  lemma EnterStep(p: Phase, s: Snapshot, depth: int)
    requires Inv(p, s) && !p.Broken? && !Fire(s, OnEnter(depth)).panicked
    ensures Inv(Next(p, OnEnter(depth)), Fire(s, OnEnter(depth)))
  {
    var fc := FrameCtx(s.nextFrameId, CurrentFrame(s.frameStack), ToU64(depth));
    var t := s.(frameStack := s.frameStack + [fc], nextFrameId := ToU64(s.nextFrameId + 1));
    EmitAdvances(t, FrameEnter(fc.frameId, fc.parentFrameId, fc.depth));
    assert Ids(t.frameStack) == Ids(s.frameStack) + [fc.frameId];
  }

  lemma ExitStep(p: Phase, s: Snapshot, reverted: bool)
    requires Inv(p, s) && !p.Broken? && !Fire(s, OnExit(reverted)).panicked
    ensures Inv(Next(p, OnExit(reverted)), Fire(s, OnExit(reverted)))
  {
    if s.frameStack != [] {
      var t := s.(frameStack := s.frameStack[..|s.frameStack| - 1]);
      EmitAdvances(t, FrameExit(CurrentFrame(s.frameStack), reverted));
      assert Ids(t.frameStack) == Ids(s.frameStack)[..|s.frameStack| - 1];
    }
  }

  lemma BoundaryStep(p: Phase, s: Snapshot, h: Hook)
    requires Inv(p, s) && !p.Broken? && !Fire(s, h).panicked
    requires h.OnBlockStart? || h.OnBlockEnd? || h.OnTxStart? || h.OnTxEnd?
    ensures Inv(Next(p, h), Fire(s, h))
  {
    match h
    case OnBlockStart(number) => EmitAdvances(s.(events := [], errorLog := []), BlockStart(number));
    case OnBlockEnd => EmitAdvances(s, BlockCommit);
    case OnTxStart(hash) =>
      EmitAdvances(s.(nextFrameId := 0, frameStack := []), TxStart(0, hash));
      assert Ids([]) == [];
    case OnTxEnd(failed) => TxEndStep(p, s, failed);
  }

  lemma TxEndStep(p: Phase, s: Snapshot, failed: bool)
    requires Inv(p, s) && !p.Broken? && !Fire(s, OnTxEnd(failed)).panicked
    ensures Inv(Next(p, OnTxEnd(failed)), Fire(s, OnTxEnd(failed)))
  {
    var t := Emit(s, TxEnd(failed));
    EmitAdvances(s, TxEnd(failed));
    if Next(p, OnTxEnd(failed)).InBlock? {
      assert Progress(t) == G.Open(Progress(s).st.(txOpen := false));
    } else {
      assert Progress(t) == G.Rejected;
    }
  }

  lemma HookStep(p: Phase, s: Snapshot, h: Hook)
    requires Inv(p, s) && !Fire(s, h).panicked
    ensures Inv(Next(p, h), Fire(s, h))
  {
    if p.Broken? { BrokenStep(s, h); }
    else if IsMutationHook(h) {
      if p.InBlock? || p.InTx? { MutationStep(p, s, h); } else { StrayMutation(p, s, h); }
    }
    else if h.OnEnter? { EnterStep(p, s, h.depth); }
    else if h.OnExit? { ExitStep(p, s, h.reverted); }
    else { BoundaryStep(p, s, h); }
  }

  lemma {:induction false} RunKeeps(p: Phase, s: Snapshot, hooks: seq<Hook>)
    requires Inv(p, s) && !Run(s, hooks).panicked
    ensures Inv(Discipline(p, hooks), Run(s, hooks))
    decreases |hooks|
  {
    if hooks == [] {
    } else {
      HookStep(p, s, hooks[0]);
      RunKeeps(Next(p, hooks[0]), Fire(s, hooks[0]), hooks[1..]);
    }
  }

  // ---- Frame numbers ----

  predicate EntersBelow(s: seq<Event>, n: nat) { forall e :: e in s && e.body.FrameEnter? ==> e.body.frameId < n }

  /** Frame numbers never catch up with the event counter, so none is the sentinel. */
  predicate NumbersBelow(s: Snapshot) {
    && s.nextFrameId <= s.globalSequence
    && (forall fc :: fc in s.frameStack ==> fc.frameId < s.nextFrameId)
    && EntersBelow(s.events, s.globalSequence)
  }

  lemma EmitBelow(s: Snapshot, body: Body)
    requires NumbersBelow(s) && !body.FrameEnter? && !s.panicked && !Emit(s, body).panicked
    ensures NumbersBelow(Emit(s, body))
  {
    assert forall e :: e in Emit(s, body).events ==> e in s.events || e == Event(s.globalSequence, body);
  }

  lemma EnterBelow(s: Snapshot, depth: int)
    requires NumbersBelow(s) && !s.panicked && !Fire(s, OnEnter(depth)).panicked
    ensures NumbersBelow(Fire(s, OnEnter(depth)))
  {
    var fc := FrameCtx(s.nextFrameId, CurrentFrame(s.frameStack), ToU64(depth));
    var t := Fire(s, OnEnter(depth));
    assert t.events == s.events + [Event(s.globalSequence, FrameEnter(fc.frameId, fc.parentFrameId, fc.depth))];
    assert forall c :: c in t.frameStack ==> c in s.frameStack || c == fc;
  }

  lemma MutationBelow(s: Snapshot, h: Hook)
    requires NumbersBelow(s) && IsMutationHook(h) && !s.panicked && !Fire(s, h).panicked
    ensures NumbersBelow(Fire(s, h))
  {
    var frame := CurrentFrame(s.frameStack);
    match h
    case OnBalanceChange(address, before, after, selfDestruct) =>
      var t := Emit(s, Mutation(frame, Balance(address, before, after)));
      EmitBelow(s, Mutation(frame, Balance(address, before, after)));
      if selfDestruct && frame in t.pending {
        EmitBelow(t, Mutation(frame, SelfDestruct(t.pending[frame], address)));
      }
    case OnNonceChange(address, before, after) => EmitBelow(s, Mutation(frame, Nonce(address, before, after)));
    case OnCodeChange(address, before, after, _) => EmitBelow(s, Mutation(frame, Code(address, before, after)));
    case OnStorageChange(address, slot, before, after) =>
      EmitBelow(s, Mutation(frame, Storage(address, slot, before, after)));
  }

  lemma BelowStep(s: Snapshot, h: Hook)
    requires NumbersBelow(s) && !s.panicked && !Fire(s, h).panicked
    ensures NumbersBelow(Fire(s, h))
  {
    if IsMutationHook(h) {
      MutationBelow(s, h);
    } else if h.OnEnter? {
      EnterBelow(s, h.depth);
    } else {
      BoundaryBelow(s, h);
    }
  }

  lemma BoundaryBelow(s: Snapshot, h: Hook)
    requires NumbersBelow(s) && !IsMutationHook(h) && !h.OnEnter? && !s.panicked && !Fire(s, h).panicked
    ensures NumbersBelow(Fire(s, h))
  {
    match h
    case OnBlockStart(number) => EmitBelow(s.(events := [], errorLog := []), BlockStart(number));
    case OnBlockEnd => EmitBelow(s, BlockCommit);
    case OnTxStart(hash) => EmitBelow(s.(nextFrameId := 0, frameStack := []), TxStart(0, hash));
    case OnTxEnd(failed) => EmitBelow(s, TxEnd(failed));
    case OnExit(reverted) =>
      if s.frameStack != [] {
        var t := s.(frameStack := s.frameStack[..|s.frameStack| - 1]);
        assert forall fc :: fc in t.frameStack ==> fc in s.frameStack;
        EmitBelow(t, FrameExit(CurrentFrame(s.frameStack), reverted));
      }
  }

  lemma {:induction false} RunBelow(s: Snapshot, hooks: seq<Hook>)
    requires NumbersBelow(s) && !s.panicked && !Run(s, hooks).panicked
    ensures NumbersBelow(Run(s, hooks))
    decreases |hooks|
  {
    if hooks == [] {
    } else {
      BelowStep(s, hooks[0]);
      RunBelow(Fire(s, hooks[0]), hooks[1..]);
    }
  }

  /** However a fresh collector is driven, the tag it gives a mutation is the sentinel exactly if it
      has no open frame. */
  lemma SentinelMeansNoFrame(hooks: seq<Hook>)
    requires !Run(FRESH, hooks).panicked
    ensures CurrentFrame(Run(FRESH, hooks).frameStack) == NO_FRAME <==> Run(FRESH, hooks).frameStack == []
  {
    RunBelow(FRESH, hooks);
  }

  /** A fresh collector's events pass Gate 1 with an empty error log exactly when the hooks
      followed the discipline. Then every mutation is tagged with its innermost open frame, and with
      the sentinel exactly if no frame is open. */
  lemma FreshRunDecides(hooks: seq<Hook>)
    requires !Run(FRESH, hooks).panicked
    ensures var s := Run(FRESH, hooks);
            && (G.Verdict(s.events) == None && s.errorLog == [] <==> Discipline(Before, hooks) == Ended)
            && (Discipline(Before, hooks) == Ended ==>
                  G.TagsFollow(G.Start, Bodies(s.events)) && G.SentinelOutside(G.Start, Bodies(s.events)))
  {
    var s := Run(FRESH, hooks);
    RunKeeps(Before, FRESH, hooks);
    G.VerdictIsFollow(s.events);
    RunBelow(FRESH, hooks);
    if Discipline(Before, hooks) == Ended {
      forall e | e in Bodies(s.events) && e.FrameEnter? ensures e.frameId != NO_FRAME {
        var i :| 0 <= i < |s.events| && Bodies(s.events)[i] == e;
        assert s.events[i] in s.events;
      }
      G.TagsTellFrames(G.Start, Bodies(s.events));
    }
  }

  // ---- Frames that fit in 32 bits ----

  predicate SmallEnter(e: Body) { e.FrameEnter? ==> e.frameId <= U32_MAX && e.depth <= U32_MAX }

  predicate SmallEnters(s: seq<Body>) { forall e :: e in s ==> SmallEnter(e) }

  /** The number the collector gives the next frame after hook `h`. */
  function NextId(next: u64, h: Hook): u64 {
    if h.OnTxStart? then 0 else if h.OnEnter? then ToU64(next + 1) else next
  }

  predicate SmallHook(next: u64, h: Hook) { h.OnEnter? ==> next <= U32_MAX && ToU64(h.depth) <= U32_MAX }

  /** At most 2^32 frames a transaction, at depths of 32 bits. */
  predicate SmallHooks(next: u64, hooks: seq<Hook>)
    decreases |hooks|
  {
    hooks == [] || (SmallHook(next, hooks[0]) && SmallHooks(NextId(next, hooks[0]), hooks[1..]))
  }

  lemma {:induction false} FewHooksSmall(next: u64, hooks: seq<Hook>)
    requires next + |hooks| <= U32_MAX + 1
    requires forall h :: h in hooks && h.OnEnter? ==> 0 <= h.depth <= U32_MAX
    ensures SmallHooks(next, hooks)
    decreases |hooks|
  {
    if hooks == [] {
    } else {
      assert hooks[0] in hooks && forall h :: h in hooks[1..] ==> h in hooks;
      FewHooksSmall(NextId(next, hooks[0]), hooks[1..]);
    }
  }

  lemma EmitSmall(s: Snapshot, body: Body)
    requires !s.panicked && !Emit(s, body).panicked
    ensures SmallEnters(Bodies(Emit(s, body).events)) <==> SmallEnters(Bodies(s.events)) && SmallEnter(body)
  {
    assert Bodies(Emit(s, body).events) == Bodies(s.events) + [body];
    assert forall e :: e in Bodies(s.events) + [body] <==> e in Bodies(s.events) || e == body;
  }

  /** What one hook of a disciplined run adds. */
  predicate AddsEnter(s: Snapshot, h: Hook)
    requires !s.panicked
  {
    && (SmallEnters(Bodies(Fire(s, h).events)) <==> SmallEnters(Bodies(s.events)) && SmallHook(s.nextFrameId, h))
    && Fire(s, h).nextFrameId == NextId(s.nextFrameId, h)
  }

  lemma MutationSmall(s: Snapshot, h: Hook)
    requires IsMutationHook(h) && !s.panicked && !Fire(s, h).panicked
    ensures AddsEnter(s, h)
  {
    var frame := CurrentFrame(s.frameStack);
    match h
    case OnBalanceChange(address, before, after, selfDestruct) =>
      var t := Emit(s, Mutation(frame, Balance(address, before, after)));
      EmitSmall(s, Mutation(frame, Balance(address, before, after)));
      if selfDestruct && frame in t.pending {
        EmitSmall(t, Mutation(frame, SelfDestruct(t.pending[frame], address)));
      }
    case OnNonceChange(address, before, after) => EmitSmall(s, Mutation(frame, Nonce(address, before, after)));
    case OnCodeChange(address, before, after, _) => EmitSmall(s, Mutation(frame, Code(address, before, after)));
    case OnStorageChange(address, slot, before, after) =>
      EmitSmall(s, Mutation(frame, Storage(address, slot, before, after)));
  }

  lemma SmallStep(p: Phase, s: Snapshot, h: Hook)
    requires Inv(p, s) && !Next(p, h).Broken? && !Fire(s, h).panicked
    ensures AddsEnter(s, h)
  {
    var frame := CurrentFrame(s.frameStack);
    if IsMutationHook(h) {
      MutationSmall(s, h);
    } else {
      match h
      case OnBlockStart(number) => EmitSmall(s.(events := [], errorLog := []), BlockStart(number));
      case OnBlockEnd => EmitSmall(s, BlockCommit);
      case OnTxStart(hash) => EmitSmall(s.(nextFrameId := 0, frameStack := []), TxStart(0, hash));
      case OnTxEnd(failed) => EmitSmall(s, TxEnd(failed));
      case OnEnter(depth) =>
        var fc := FrameCtx(s.nextFrameId, frame, ToU64(depth));
        EmitSmall(s.(frameStack := s.frameStack + [fc], nextFrameId := ToU64(s.nextFrameId + 1)),
                  FrameEnter(fc.frameId, fc.parentFrameId, fc.depth));
      case OnExit(reverted) =>
        if s.frameStack != [] {
          EmitSmall(s.(frameStack := s.frameStack[..|s.frameStack| - 1]), FrameExit(frame, reverted));
        }
    }
  }

  lemma {:induction false} BrokenStays(hooks: seq<Hook>)
    ensures Discipline(Broken, hooks) == Broken
    decreases |hooks|
  {
    if hooks == [] {
    } else {
      BrokenStays(hooks[1..]);
    }
  }

  /** The frames of a disciplined run fit in 32 bits exactly if its hooks say so. */
  lemma {:induction false} RunSmall(p: Phase, s: Snapshot, hooks: seq<Hook>)
    requires Inv(p, s) && !Run(s, hooks).panicked && !Discipline(p, hooks).Broken?
    ensures SmallEnters(Bodies(Run(s, hooks).events))
         <==> SmallEnters(Bodies(s.events)) && SmallHooks(s.nextFrameId, hooks)
    decreases |hooks|
  {
    if hooks == [] {
    } else {
      if Next(p, hooks[0]).Broken? { BrokenStays(hooks[1..]); }
      SmallStep(p, s, hooks[0]);
      HookStep(p, s, hooks[0]);
      RunSmall(Next(p, hooks[0]), Fire(s, hooks[0]), hooks[1..]);
    }
  }

  /** The collected events begin with a block that did not start at sequence 0. */
  predicate Late(s: Snapshot) {
    0 < s.globalSequence && s.events != [] && s.events[0].sequence != 0
  }

  lemma LateStep(s: Snapshot, h: Hook)
    requires Late(s) && !s.panicked && !Fire(s, h).panicked
    ensures Late(Fire(s, h))
  {
    forall t: Snapshot, b: Body | !Emit(t, b).panicked && (Late(t) || (0 < t.globalSequence && t.events == []))
      ensures Late(Emit(t, b))
    {
    }
  }

  lemma {:induction false} LateForever(s: Snapshot, hooks: seq<Hook>)
    requires Late(s) && !s.panicked && !Run(s, hooks).panicked
    ensures Late(Run(s, hooks))
    decreases |hooks|
  {
    if hooks == [] {
    } else {
      LateStep(s, hooks[0]);
      LateForever(Fire(s, hooks[0]), hooks[1..]);
    }
  }

  /** Once a collector has emitted anything, no later block of its can pass: starting a block does
      not reset the counter, and Gate 1 wants sequence 0. */
  lemma SecondBlockRejected(s: Snapshot, number: u64, hooks: seq<Hook>)
    requires 0 < s.globalSequence && !s.panicked && !Fire(s, OnBlockStart(number)).panicked
    requires !Run(Fire(s, OnBlockStart(number)), hooks).panicked
    ensures G.Verdict(Run(Fire(s, OnBlockStart(number)), hooks).events) == Some(G.Gate1Error(0, G.BlockEncapsulation))
  {
    LateForever(Fire(s, OnBlockStart(number)), hooks);
  }

  /** Overflow needs a full counter, and each hook emits at most two events. */
  lemma {:induction false} PanicNeedsFullCounter(s: Snapshot, hooks: seq<Hook>)
    requires !s.panicked && Run(s, hooks).panicked
    ensures U64_MAX < s.globalSequence + 2 * |hooks|
    decreases |hooks|
  {
    assert hooks != [];
    var t := Fire(s, hooks[0]);
    if !t.panicked {
      assert t.globalSequence <= s.globalSequence + 2;
      PanicNeedsFullCounter(t, hooks[1..]);
    }
  }
}
