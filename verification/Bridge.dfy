/** The bridge (`runtime/bridge/src/translate.rs`): frame buffers that merge on commit and are
    discarded on revert, and the recursive meaning of the frame structure they compute. */
module Bridge {
  import opened Primitives
  import opened Emes
  import opened FrameTree
  import opened Cse

  datatype BridgeError =
    | UnbalancedFrames(at: nat)
    | TransactionStartWhileOpen(at: nat)
    | EventOutsideTransaction(at: nat)
    | FrameIdOverflow(value: u64)

  /** `usize::MAX`, the position reported for a tagged mutation met outside every frame. */
  const NOWHERE: nat := U64_MAX

  datatype FrameBuffer = FrameBuffer(frameId: u64, depth: u64, events: seq<CseEvent>)

  function PayloadOf(c: Change): Payload {
    match c
    case Balance(a, before, after) => BalanceChanged(a, before, after)
    case Nonce(a, before, after) => NonceUpdated(a, before, after)
    case Code(a, before, after) => CodeUpdated(a, before, after)
    case Storage(a, slot, before, after) => StorageSlotUpdated(a, slot, before, after)
    case AccountCreated(a, creator) => ContractCreated(a, creator)
    case SelfDestruct(a, beneficiary) => ContractDestroyed(a, beneficiary)
  }

  /** What every event of a transaction is stamped with; the block number can still change. */
  datatype Env = Env(chainId: u64, txHash: Word, txIndex: u64)

  function Stamp(env: Env, block: u64, trace: Trace, p: Payload): CseEvent {
    CseEvent(0, Provisional(env.chainId, block, env.txHash, env.txIndex % (U32_MAX + 1)), trace, p)
  }

  /** Dense sequence numbers, counting from `k`. */
  function NumberFrom(s: seq<CseEvent>, k: nat): (r: seq<CseEvent>)
    ensures |r| == |s| && forall i :: 0 <= i < |s| ==> r[i] == s[i].(sequence := k + i)
  {
    seq(|s|, i requires 0 <= i < |s| => s[i].(sequence := k + i))
  }

  function Renumber(s: seq<CseEvent>): seq<CseEvent> { NumberFrom(s, 0) }

  // ---- The machine ----

  datatype State = State(
    txOpen: bool, txOutput: seq<CseEvent>, stack: seq<FrameBuffer>, finalOutput: seq<CseEvent>, block: u64, env: Env)

  function Initial(chainId: u64): State { State(false, [], [], [], 0, Env(chainId, ZERO_WORD, 0)) }

  function Push(stack: seq<FrameBuffer>, events: seq<CseEvent>): seq<FrameBuffer>
    requires stack != []
  {
    var top := stack[|stack| - 1];
    stack[|stack| - 1 := top.(events := top.events + events)]
  }

  function Append(st: State, frameId: u64, c: Change): Result<State, BridgeError> {
    if frameId == NO_FRAME then
      Ok(st.(txOutput := st.txOutput + [Stamp(st.env, st.block, NO_TRACE, PayloadOf(c))]))
    else if st.stack == [] then Err(UnbalancedFrames(NOWHERE))
    else
      var top := st.stack[|st.stack| - 1];
      if top.frameId > U32_MAX then Err(FrameIdOverflow(top.frameId))
      else if top.depth > U32_MAX then Err(FrameIdOverflow(top.depth))
      else Ok(st.(stack := Push(st.stack, [Stamp(st.env, st.block, Trace(top.frameId, top.depth), PayloadOf(c))])))
  }

  /** Closing a frame: drop its buffer, or hand it to the parent frame or the transaction. */
  function Pop(st: State, reverted: bool): State
    requires st.stack != []
  {
    var popped, below := st.stack[|st.stack| - 1], st.stack[..|st.stack| - 1];
    if reverted then st.(stack := below)
    else if below != [] then st.(stack := Push(below, popped.events))
    else st.(stack := below, txOutput := st.txOutput + popped.events)
  }

  function Step(st: State, i: nat, e: Body): Result<State, BridgeError> {
    match e
    case BlockStart(number) => Ok(st.(block := number))
    case BlockCommit => Ok(st)
    case TxStart(txIndex, hash) =>
      if st.txOpen then Err(TransactionStartWhileOpen(i))
      else
        var env := Env(st.env.chainId, hash, txIndex);
        Ok(st.(txOpen := true, env := env, stack := [], txOutput := [Stamp(env, st.block, NO_TRACE, BeginTransaction)]))
    case TxEnd(_) =>
      if !st.txOpen then Err(EventOutsideTransaction(i))
      else if st.stack != [] then Err(UnbalancedFrames(i))
      else
        Ok(st.(txOpen := false, txOutput := [],
               finalOutput := st.finalOutput + (st.txOutput + [Stamp(st.env, st.block, NO_TRACE, EndTransaction)])))
    case FrameEnter(id, _, depth) =>
      if !st.txOpen then Err(EventOutsideTransaction(i))
      else Ok(st.(stack := st.stack + [FrameBuffer(id, depth, [])]))
    case FrameExit(id, reverted) =>
      if !st.txOpen then Err(EventOutsideTransaction(i))
      else if st.stack == [] || st.stack[|st.stack| - 1].frameId != id then Err(UnbalancedFrames(i))
      else Ok(Pop(st, reverted))
    case Mutation(frameId, change) => Append(st, frameId, change)
  }

  /** The result of translating `s`, the events from position `i` on, from state `st`. */
  function Run(st: State, i: nat, s: seq<Body>): Result<seq<CseEvent>, BridgeError>
    decreases |s|
  {
    if s == [] then if st.txOpen then Err(EventOutsideTransaction(i)) else Ok(Renumber(st.finalOutput))
    else
      match Step(st, i, s[0])
      case Err(error) => Err(error)
      case Ok(next) => Run(next, i + 1, s[1..])
  }

  method AppendMutation(
    txOutput: seq<CseEvent>, stack: seq<FrameBuffer>, frameId: u64, env: Env, block: u64, payload: Payload)
    returns (error: Option<BridgeError>, txOutput': seq<CseEvent>, stack': seq<FrameBuffer>)
    ensures forall st: State, c: Change ::
      st.txOutput == txOutput && st.stack == stack && st.env == env && st.block == block && PayloadOf(c) == payload ==>
      Append(st, frameId, c)
          == (if error.Some? then Err(error.value) else Ok(st.(txOutput := txOutput', stack := stack')))
  {
    error, txOutput', stack' := None, txOutput, stack;
    var trace := NO_TRACE;
    if frameId != NO_FRAME && stack != [] {
      var top := stack[|stack| - 1];
      if top.frameId > U32_MAX { error := Some(FrameIdOverflow(top.frameId)); return; }
      if top.depth > U32_MAX { error := Some(FrameIdOverflow(top.depth)); return; }
      trace := Trace(top.frameId, top.depth);
    }
    var event := Stamp(env, block, trace, payload);
    if frameId == NO_FRAME {
      txOutput' := txOutput + [event];
    } else if stack != [] {
      stack' := Push(stack, [event]);
    } else {
      error := Some(UnbalancedFrames(NOWHERE));
    }
  }

  method Translate(events: seq<Body>, chainId: u64) returns (r: Result<seq<CseEvent>, BridgeError>)
    ensures r == Run(Initial(chainId), 0, events)
  {
    var finalOutput: seq<CseEvent> := [];
    var txOpen := false;
    var txOutput: seq<CseEvent> := [];
    var frameStack: seq<FrameBuffer> := [];
    var block: u64 := 0;
    var env := Env(chainId, ZERO_WORD, 0);

    for i := 0 to |events|
      invariant env.chainId == chainId
      invariant Run(State(txOpen, txOutput, frameStack, finalOutput, block, env), i, events[i..])
             == Run(Initial(chainId), 0, events)
    {
      ghost var here := State(txOpen, txOutput, frameStack, finalOutput, block, env);
      assert events[i..][0] == events[i] && events[i..][1..] == events[i + 1..];
      match events[i] {
        case BlockStart(number) => block := number;
        case BlockCommit =>
        case TxStart(txIndex, hash) =>
          if txOpen { return Err(TransactionStartWhileOpen(i)); }
          txOpen := true;
          env := Env(chainId, hash, txIndex);
          txOutput, frameStack := [], [];
          txOutput := txOutput + [Stamp(env, block, NO_TRACE, BeginTransaction)];
          assert txOutput == [Stamp(env, block, NO_TRACE, BeginTransaction)];
        case TxEnd(_) =>
          if !txOpen { return Err(EventOutsideTransaction(i)); }
          if frameStack != [] { return Err(UnbalancedFrames(i)); }
          txOutput := txOutput + [Stamp(env, block, NO_TRACE, EndTransaction)];
          finalOutput, txOutput := finalOutput + txOutput, [];
          txOpen := false;
        case FrameEnter(id, _, depth) =>
          if !txOpen { return Err(EventOutsideTransaction(i)); }
          frameStack := frameStack + [FrameBuffer(id, depth, [])];
        case FrameExit(id, reverted) =>
          if !txOpen { return Err(EventOutsideTransaction(i)); }
          if frameStack == [] { return Err(UnbalancedFrames(i)); }
          var popped := frameStack[|frameStack| - 1];
          frameStack := frameStack[..|frameStack| - 1];
          if popped.frameId != id { return Err(UnbalancedFrames(i)); }
          if !reverted {
            if frameStack != [] {
              frameStack := Push(frameStack, popped.events);
            } else {
              txOutput := txOutput + popped.events;
            }
          }
        case Mutation(frameId, change) =>
          var error;
          error, txOutput, frameStack := AppendMutation(txOutput, frameStack, frameId, env, block, PayloadOf(change));
          if error.Some? { return Err(error.value); }
      }
      assert Step(here, i, events[i]) == Ok(State(txOpen, txOutput, frameStack, finalOutput, block, env));
    }

    if txOpen { return Err(EventOutsideTransaction(|events|)); }

    ghost var unnumbered := finalOutput;
    for k := 0 to |finalOutput|
      invariant |finalOutput| == |unnumbered|
      invariant forall j :: 0 <= j < k ==> finalOutput[j] == unnumbered[j].(sequence := j)
      invariant forall j :: k <= j < |finalOutput| ==> finalOutput[j] == unnumbered[j]
    {
      finalOutput := finalOutput[k := finalOutput[k].(sequence := k)];
    }
    assert finalOutput == Renumber(unnumbered);
    return Ok(finalOutput);
  }

  // ---- The meaning of a frame structure ----

  datatype Frame = Frame(id: u64, depth: u64)

  predicate Frameless(e: Body) { e.Mutation? && e.frameId == NO_FRAME }

  predicate Framed(e: Body) { e.Mutation? && e.frameId != NO_FRAME }

  predicate Fits(top: Option<Frame>) { top.Some? && top.value.id <= U32_MAX && top.value.depth <= U32_MAX }

  /** Tagged mutations occur only inside a frame, and that frame's coordinates fit in 32 bits. */
  predicate Stampable(f: Forest, top: Option<Frame>) {
    match f
    case Nil => true
    case Leaf(e, rest) => (Framed(e) ==> Fits(top)) && Stampable(rest, top)
    case Call(id, _, depth, kids, _, rest) => Stampable(kids, Some(Frame(id, depth))) && Stampable(rest, top)
  }

  predicate BlockStampable(b: Block) {
    match b
    case Done => true
    case Loose(e, rest) => !Framed(e) && BlockStampable(rest)
    case Tx(_, _, frames, _, rest) => Stampable(frames, None) && BlockStampable(rest)
  }

  function BlockNumber(e: Body, n: u64): u64 { if e.BlockStart? then e.number else n }

  function BlockAfter(f: Forest, n: u64): u64 {
    match f
    case Nil => n
    case Leaf(e, rest) => BlockAfter(rest, BlockNumber(e, n))
    case Call(_, _, _, kids, _, rest) => BlockAfter(rest, BlockAfter(kids, n))
  }

  /** The mutations of `f` outside every frame's buffer, at any depth. */
  function Hoisted(f: Forest, env: Env, n: u64): seq<CseEvent> {
    match f
    case Nil => []
    case Leaf(e, rest) =>
      (if Frameless(e) then [Stamp(env, n, NO_TRACE, PayloadOf(e.change))] else [])
          + Hoisted(rest, env, BlockNumber(e, n))
    case Call(_, _, _, kids, _, rest) => Hoisted(kids, env, n) + Hoisted(rest, env, BlockAfter(kids, n))
  }

  /** What `f`, sitting in frame `top`, leaves in that frame's buffer. */
  function Buffered(f: Forest, env: Env, n: u64, top: Frame): seq<CseEvent>
    requires Stampable(f, Some(top))
  {
    match f
    case Nil => []
    case Leaf(e, rest) =>
      (if Framed(e) then [Stamp(env, n, Trace(top.id, top.depth), PayloadOf(e.change))] else [])
        + Buffered(rest, env, BlockNumber(e, n), top)
    case Call(id, _, depth, kids, reverted, rest) =>
      (if reverted then [] else Buffered(kids, env, n, Frame(id, depth)))
          + Buffered(rest, env, BlockAfter(kids, n), top)
  }

  /** What the frames of a transaction contribute to its output. */
  function TopOutput(f: Forest, env: Env, n: u64): seq<CseEvent>
    requires Stampable(f, None)
  {
    match f
    case Nil => []
    case Leaf(e, rest) =>
      (if Frameless(e) then [Stamp(env, n, NO_TRACE, PayloadOf(e.change))] else [])
          + TopOutput(rest, env, BlockNumber(e, n))
    case Call(id, _, depth, kids, reverted, rest) =>
      Hoisted(kids, env, n) + (if reverted then [] else Buffered(kids, env, n, Frame(id, depth)))
        + TopOutput(rest, env, BlockAfter(kids, n))
  }

  function TxOutput(env: Env, n: u64, f: Forest): seq<CseEvent>
    requires Stampable(f, None)
  {
    [Stamp(env, n, NO_TRACE, BeginTransaction)] + TopOutput(f, env, n)
      + [Stamp(env, BlockAfter(f, n), NO_TRACE, EndTransaction)]
  }

  function BlockOutput(b: Block, chainId: u64, n: u64): seq<CseEvent>
    requires BlockStampable(b)
  {
    match b
    case Done => []
    case Loose(e, rest) => BlockOutput(rest, chainId, BlockNumber(e, n))
    case Tx(txIndex, hash, frames, _, rest) =>
      TxOutput(Env(chainId, hash, txIndex), n, frames) + BlockOutput(rest, chainId, BlockAfter(frames, n))
  }

  // ---- The machine computes the meaning ----

  function TopFrame(stack: seq<FrameBuffer>): Option<Frame> {
    if stack == [] then None else Some(Frame(stack[|stack| - 1].frameId, stack[|stack| - 1].depth))
  }

  /** The machine state after all of `f`. */
  function Absorb(st: State, f: Forest): State
    requires Stampable(f, TopFrame(st.stack))
  {
    var n := BlockAfter(f, st.block);
    if st.stack == [] then st.(block := n, txOutput := st.txOutput + TopOutput(f, st.env, st.block))
    else
      st.(block := n, txOutput := st.txOutput + Hoisted(f, st.env, st.block),
          stack := Push(st.stack, Buffered(f, st.env, st.block, TopFrame(st.stack).value)))
  }

  lemma RunCons(st: State, i: nat, e: Body, t: seq<Body>)
    ensures Run(st, i, [e] + t)
         == (if Step(st, i, e).Err? then Err(Step(st, i, e).error) else Run(Step(st, i, e).value, i + 1, t))
  {
    assert ([e] + t)[1..] == t;
  }

  function Entered(st: State, id: u64, depth: u64): State {
    st.(stack := st.stack + [FrameBuffer(id, depth, [])])
  }

  lemma PushLaws(stack: seq<FrameBuffer>, a: seq<CseEvent>, b: seq<CseEvent>)
    requires stack != []
    ensures Push(Push(stack, a), b) == Push(stack, a + b)
    ensures Push(stack, []) == stack
    ensures Push(stack, a) != [] && TopFrame(Push(stack, a)) == TopFrame(stack)
    ensures Push(stack, a)[..|stack| - 1] == stack[..|stack| - 1]
    ensures Push(stack, a)[|stack| - 1].events == stack[|stack| - 1].events + a
  {
    Associate(stack[|stack| - 1].events, a, b);
    assert stack[|stack| - 1].events + [] == stack[|stack| - 1].events;
  }

  lemma AbsorbLeaf(st: State, i: nat, e: Plain, rest: Forest)
    ensures Step(st, i, e).Ok? <==> (Framed(e) ==> Fits(TopFrame(st.stack)))
    ensures Step(st, i, e).Ok? ==>
            var next := Step(st, i, e).value;
            && next.txOpen == st.txOpen && TopFrame(next.stack) == TopFrame(st.stack)
            && (Stampable(rest, TopFrame(st.stack)) ==> Absorb(next, rest) == Absorb(st, Leaf(e, rest)))
  {
    if Step(st, i, e).Ok? && Stampable(rest, TopFrame(st.stack)) {
      var n := BlockNumber(e, st.block);
      var top := TopFrame(st.stack);
      if Frameless(e) {
        var x := [Stamp(st.env, st.block, NO_TRACE, PayloadOf(e.change))];
        Associate(st.txOutput, x, if top.None? then TopOutput(rest, st.env, n) else Hoisted(rest, st.env, n));
        if top.Some? { assert [] + Buffered(rest, st.env, n, top.value) == Buffered(rest, st.env, n, top.value); }
      } else {
        if top.None? {
          assert [] + TopOutput(rest, st.env, n) == TopOutput(rest, st.env, n);
        } else {
          assert [] + Hoisted(rest, st.env, n) == Hoisted(rest, st.env, n);
          if Framed(e) {
            PushLaws(st.stack, [Stamp(st.env, n, Trace(top.value.id, top.value.depth), PayloadOf(e.change))],
                     Buffered(rest, st.env, n, top.value));
          } else {
            assert [] + Buffered(rest, st.env, n, top.value) == Buffered(rest, st.env, n, top.value);
          }
        }
      }
    }
  }

  /** Closing the frame just absorbed, in terms of the state it was opened in. */
  lemma AbsorbKids(st: State, id: u64, depth: u64, kids: Forest, reverted: bool)
    requires st.txOpen && Stampable(kids, Some(Frame(id, depth)))
    ensures TopFrame(Entered(st, id, depth).stack) == Some(Frame(id, depth))
    ensures var closed := Absorb(Entered(st, id, depth), kids);
            var kept := if reverted then [] else Buffered(kids, st.env, st.block, Frame(id, depth));
            var hoisted := st.txOutput + Hoisted(kids, st.env, st.block);
            var n := BlockAfter(kids, st.block);
            && closed.txOpen && closed.stack != [] && closed.stack[|closed.stack| - 1].frameId == id
            && Pop(closed, reverted) == (
              if st.stack == [] then st.(block := n, txOutput := hoisted + kept)
              else st.(block := n, txOutput := hoisted, stack := Push(st.stack, kept)))
  {
    var entered := Entered(st, id, depth);
    var kept := Buffered(kids, st.env, st.block, Frame(id, depth));
    PushLaws(entered.stack, kept, []);
    assert entered.stack[..|st.stack|] == st.stack;
    assert [] + kept == kept;
    if st.stack != [] { PushLaws(st.stack, kept, []); }
    assert (st.txOutput + Hoisted(kids, st.env, st.block)) + [] == st.txOutput + Hoisted(kids, st.env, st.block);
  }

  lemma AbsorbCall(st: State, id: u64, parent: u64, depth: u64, kids: Forest, reverted: bool, rest: Forest)
    requires st.txOpen && Stampable(Call(id, parent, depth, kids, reverted, rest), TopFrame(st.stack))
    ensures TopFrame(Entered(st, id, depth).stack) == Some(Frame(id, depth))
    ensures var closed := Absorb(Entered(st, id, depth), kids);
            && closed.txOpen && closed.stack != [] && closed.stack[|closed.stack| - 1].frameId == id
            && Pop(closed, reverted).txOpen && TopFrame(Pop(closed, reverted).stack) == TopFrame(st.stack)
            && Absorb(Pop(closed, reverted), rest) == Absorb(st, Call(id, parent, depth, kids, reverted, rest))
  {
    AbsorbKids(st, id, depth, kids, reverted);
    var kept := if reverted then [] else Buffered(kids, st.env, st.block, Frame(id, depth));
    var hoisted := Hoisted(kids, st.env, st.block);
    var n := BlockAfter(kids, st.block);
    if st.stack == [] {
      var after := TopOutput(rest, st.env, n);
      Associate(st.txOutput, hoisted, kept);
      Associate(st.txOutput, hoisted + kept, after);
    } else {
      var top := TopFrame(st.stack).value;
      Associate(st.txOutput, hoisted, Hoisted(rest, st.env, n));
      PushLaws(st.stack, kept, Buffered(rest, st.env, n, top));
    }
  }

  /** Reading `f` takes the machine to `Absorb(st, f)`, or fails if some mutation of `f` cannot be stamped. */
  predicate Reads(st: State, i: nat, f: Forest, t: seq<Body>) {
    if Stampable(f, TopFrame(st.stack)) then Run(st, i, Flatten(f) + t) == Run(Absorb(st, f), i + |Flatten(f)|, t)
    else Run(st, i, Flatten(f) + t).Err?
  }

  lemma {:induction false} RunForest(st: State, i: nat, f: Forest, t: seq<Body>)
    requires st.txOpen
    ensures Reads(st, i, f, t)
    decreases f
  {
    match f
    case Nil =>
      assert Flatten(f) + t == t;
      AbsorbNil(st);
    case Leaf(e, rest) =>
      AbsorbLeaf(st, i, e, rest);
      Associate([e], Flatten(rest), t);
      RunCons(st, i, e, Flatten(rest) + t);
      if Step(st, i, e).Ok? { RunForest(Step(st, i, e).value, i + 1, rest, t); }
    case Call(id, parent, depth, kids, reverted, rest) => RunCall(st, i, f, t);
  }

  lemma AbsorbNil(st: State)
    ensures Absorb(st, Nil) == st
  {
    assert st.txOutput + [] == st.txOutput;
    if st.stack != [] { PushLaws(st.stack, [], []); }
  }

  /** Opening a frame, reading `inner`, and closing the frame. */
  lemma RunBracket(
    st: State, i: nat, enter: Body, exit: Body, inner: seq<Body>, after: seq<Body>, closed: State, j: nat)
    requires st.txOpen && enter.FrameEnter? && exit.FrameExit?
    requires closed.txOpen && closed.stack != [] && closed.stack[|closed.stack| - 1].frameId == exit.frameId
    requires Run(Entered(st, enter.frameId, enter.depth), i + 1, inner + ([exit] + after))
         == Run(closed, j, [exit] + after)
    ensures Run(st, i, [enter] + (inner + ([exit] + after))) == Run(Pop(closed, exit.reverted), j + 1, after)
  {
    RunCons(st, i, enter, inner + ([exit] + after));
    RunCons(closed, j, exit, after);
  }

  /** Where the machine stands after reading the kids of a call. */
  function Filled(st: State, f: Forest): State
    requires st.txOpen && f.Call? && Stampable(f.kids, Some(Frame(f.id, f.depth)))
  {
    Absorb(Entered(st, f.id, f.depth), f.kids)
  }

  /** What is left to read after the kids of a call. */
  function Closing(f: Forest, t: seq<Body>): seq<Body>
    requires f.Call?
  {
    [FrameExit(f.id, f.reverted)] + (Flatten(f.rest) + t)
  }

  lemma CallFlattens(f: Forest, t: seq<Body>)
    requires f.Call?
    ensures Flatten(f) + t == [FrameEnter(f.id, f.parent, f.depth)] + (Flatten(f.kids) + Closing(f, t))
  {
    Regroup(FrameEnter(f.id, f.parent, f.depth), Flatten(f.kids), FrameExit(f.id, f.reverted), Flatten(f.rest), t);
  }

  lemma CallFails(st: State, i: nat, f: Forest, t: seq<Body>)
    requires st.txOpen && f.Call? && !Stampable(f.kids, Some(Frame(f.id, f.depth)))
    requires Reads(Entered(st, f.id, f.depth), i + 1, f.kids, Closing(f, t))
    ensures Reads(st, i, f, t)
  {
    CallFlattens(f, t);
    RunCons(st, i, FrameEnter(f.id, f.parent, f.depth), Flatten(f.kids) + Closing(f, t));
  }

  lemma CallCloses(st: State, i: nat, f: Forest, t: seq<Body>)
    requires st.txOpen && f.Call? && Stampable(f.kids, Some(Frame(f.id, f.depth)))
    requires Reads(Entered(st, f.id, f.depth), i + 1, f.kids, Closing(f, t))
    ensures Filled(st, f).stack != []
    ensures Run(st, i, Flatten(f) + t)
         == Run(Pop(Filled(st, f), f.reverted), i + 2 + |Flatten(f.kids)|, Flatten(f.rest) + t)
  {
    var enter, exit := FrameEnter(f.id, f.parent, f.depth), FrameExit(f.id, f.reverted);
    CallFlattens(f, t);
    AbsorbKids(st, f.id, f.depth, f.kids, f.reverted);
    RunBracket(st, i, enter, exit, Flatten(f.kids), Flatten(f.rest) + t, Filled(st, f), i + 1 + |Flatten(f.kids)|);
  }

  lemma {:induction false} RunCall(st: State, i: nat, f: Forest, t: seq<Body>)
    requires st.txOpen && f.Call?
    ensures Reads(st, i, f, t)
    decreases f, 0
  {
    RunForest(Entered(st, f.id, f.depth), i + 1, f.kids, Closing(f, t));
    if !Stampable(f.kids, Some(Frame(f.id, f.depth))) {
      CallFails(st, i, f, t);
    } else {
      CallCloses(st, i, f, t);
      PopKeepsTop(st, f.id, f.depth, f.kids, f.reverted);
      var next, j := Pop(Filled(st, f), f.reverted), i + 2 + |Flatten(f.kids)|;
      RunForest(next, j, f.rest, t);
      CallReads(st, i, f, t, next, j);
    }
  }

  lemma CallReads(st: State, i: nat, f: Forest, t: seq<Body>, next: State, j: nat)
    requires st.txOpen && f.Call? && Stampable(f.kids, Some(Frame(f.id, f.depth)))
    requires Run(st, i, Flatten(f) + t) == Run(next, j, Flatten(f.rest) + t)
    requires TopFrame(next.stack) == TopFrame(st.stack) && Reads(next, j, f.rest, t)
    requires j == i + 2 + |Flatten(f.kids)|
    requires Filled(st, f).stack != [] && next == Pop(Filled(st, f), f.reverted)
    ensures Reads(st, i, f, t)
  {
    if Stampable(f.rest, TopFrame(st.stack)) {
      AbsorbCall(st, f.id, f.parent, f.depth, f.kids, f.reverted, f.rest);
    }
  }

  lemma PopKeepsTop(st: State, id: u64, depth: u64, kids: Forest, reverted: bool)
    requires st.txOpen && Stampable(kids, Some(Frame(id, depth)))
    ensures var closed := Absorb(Entered(st, id, depth), kids);
            && closed.stack != [] && Pop(closed, reverted).txOpen && |Pop(closed, reverted).stack| == |st.stack|
            && TopFrame(Pop(closed, reverted).stack) == TopFrame(st.stack)
  {
    AbsorbKids(st, id, depth, kids, reverted);
    if st.stack != [] {
      PushLaws(st.stack, if reverted then [] else Buffered(kids, st.env, st.block, Frame(id, depth)), []);
    }
  }

  /** A suffix translated without error inside a frame or transaction closes it. */
  predicate Closes(st: State, t: seq<Body>) {
    t != [] && (if st.stack == [] then t[0].TxEnd?
                else t[0].FrameExit? && t[0].frameId == st.stack[|st.stack| - 1].frameId)
  }

  lemma {:induction false} ForestSound(st: State, i: nat, s: seq<Body>)
    requires st.txOpen && Run(st, i, s).Ok?
    ensures Closes(st, ParseForest(s).1)
    decreases |s|, 1
  {
    assert s != [];
    if IsPlain(s[0]) {
      AbsorbLeaf(st, i, s[0], Nil);
      ForestSound(Step(st, i, s[0]).value, i + 1, s[1..]);
    } else if s[0].FrameEnter? {
      CallSound(st, i, s);
    }
  }

  lemma {:induction false} CallSound(st: State, i: nat, s: seq<Body>)
    requires st.txOpen && s != [] && s[0].FrameEnter? && Run(st, i, s).Ok?
    ensures Closes(st, ParseForest(s).1)
    decreases |s|, 0
  {
    var enter := s[0];
    var entered := Entered(st, enter.frameId, enter.depth);
    ForestSound(entered, i + 1, s[1..]);
    ParseForestSound(s[1..]);
    var (kids, t) := ParseForest(s[1..]);
    var exit, after := t[0], t[1..];
    RunForest(entered, i + 1, kids, t);
    assert s == [enter] + s[1..] && t == [exit] + after;
    CallRuns(st, i, enter, exit, kids, after);
    var next := Pop(Absorb(entered, kids), exit.reverted);
    ForestSound(next, i + 2 + |Flatten(kids)|, after);
    ParseCall(enter.frameId, enter.parentId, enter.depth, kids, exit.reverted, s[1..], after);
    assert exit == FrameExit(enter.frameId, exit.reverted);
  }

  lemma KidsStampable(st: State, i: nat, enter: Body, kids: Forest, t: seq<Body>)
    requires st.txOpen && enter.FrameEnter?
    requires Reads(Entered(st, enter.frameId, enter.depth), i + 1, kids, t)
    requires Run(st, i, [enter] + (Flatten(kids) + t)).Ok?
    ensures Stampable(kids, Some(Frame(enter.frameId, enter.depth)))
  {
    RunCons(st, i, enter, Flatten(kids) + t);
  }

  lemma CallRuns(st: State, i: nat, enter: Body, exit: Body, kids: Forest, after: seq<Body>)
    requires st.txOpen && enter.FrameEnter? && exit.FrameExit? && exit.frameId == enter.frameId
    requires Reads(Entered(st, enter.frameId, enter.depth), i + 1, kids, [exit] + after)
    requires Run(st, i, [enter] + (Flatten(kids) + ([exit] + after))).Ok?
    ensures Stampable(kids, Some(Frame(enter.frameId, enter.depth)))
    ensures var closed := Absorb(Entered(st, enter.frameId, enter.depth), kids);
            && closed.stack != [] && Pop(closed, exit.reverted).txOpen
            && TopFrame(Pop(closed, exit.reverted).stack) == TopFrame(st.stack)
            && Run(Pop(closed, exit.reverted), i + 2 + |Flatten(kids)|, after).Ok?
  {
    KidsStampable(st, i, enter, kids, [exit] + after);
    AbsorbKids(st, enter.frameId, enter.depth, kids, exit.reverted);
    PopKeepsTop(st, enter.frameId, enter.depth, kids, exit.reverted);
    RunBracket(st, i, enter, exit, Flatten(kids), after,
               Absorb(Entered(st, enter.frameId, enter.depth), kids), i + 1 + |Flatten(kids)|);
  }

  // ---- Whole streams ----

  predicate Closed(st: State) { !st.txOpen && st.stack == [] }

  lemma {:induction false} RunBlock(st: State, i: nat, b: Block)
    requires Closed(st)
    ensures if BlockStampable(b)
            then Run(st, i, Unfold(b)) == Ok(Renumber(st.finalOutput + BlockOutput(b, st.env.chainId, st.block)))
            else Run(st, i, Unfold(b)).Err?
    decreases b
  {
    match b
    case Done => assert st.finalOutput + [] == st.finalOutput;
    case Loose(e, rest) =>
      RunCons(st, i, e, Unfold(rest));
      if Step(st, i, e).Ok? { RunBlock(Step(st, i, e).value, i + 1, rest); }
    case Tx(_, _, _, _, _) => RunTx(st, i, b);
  }

  lemma {:induction false} RunTx(st: State, i: nat, b: Block)
    requires Closed(st) && b.Tx?
    ensures if BlockStampable(b)
            then Run(st, i, Unfold(b)) == Ok(Renumber(st.finalOutput + BlockOutput(b, st.env.chainId, st.block)))
            else Run(st, i, Unfold(b)).Err?
    decreases b, 0
  {
    var Tx(txIndex, hash, frames, reverted, rest) := b;
    var tail := [TxEnd(reverted)] + Unfold(rest);
    RunCons(st, i, TxStart(txIndex, hash), Flatten(frames) + tail);
    var open := Step(st, i, TxStart(txIndex, hash)).value;
    RunForest(open, i + 1, frames, tail);
    assert TopFrame(open.stack) == None;
    if Stampable(frames, None) {
      var j := i + 1 + |Flatten(frames)|;
      var full := Absorb(open, frames);
      RunCons(full, j, TxEnd(reverted), Unfold(rest));
      var next := Step(full, j, TxEnd(reverted)).value;
      RunBlock(next, j + 1, rest);
      if BlockStampable(rest) {
        Associate(st.finalOutput, TxOutput(open.env, st.block, frames), BlockOutput(rest, st.env.chainId, next.block));
      }
    }
  }

  lemma {:induction false} BlockSound(st: State, i: nat, s: seq<Body>)
    requires Closed(st) && Run(st, i, s).Ok?
    ensures Parse(s).Some?
    decreases |s|
  {
    if s == [] {
    } else if IsPlain(s[0]) {
      BlockSound(Step(st, i, s[0]).value, i + 1, s[1..]);
    } else {
      assert s[0].TxStart?;
      var open := Step(st, i, s[0]).value;
      ForestSound(open, i + 1, s[1..]);
      ParseForestSound(s[1..]);
      var (frames, t) := ParseForest(s[1..]);
      RunForest(open, i + 1, frames, t);
      var j := i + 1 + |Flatten(frames)|;
      assert t == [TxEnd(t[0].reverted)] + t[1..];
      RunCons(Absorb(open, frames), j, TxEnd(t[0].reverted), t[1..]);
      BlockSound(Step(Absorb(open, frames), j, t[0]).value, j + 1, t[1..]);
    }
  }

  /** `translate` succeeds exactly on well-nested streams whose tagged mutations sit in frames
      with 32-bit coordinates, and then its output is the meaning of the structure, renumbered. */
  lemma TranslateDecides(events: seq<Body>, chainId: u64)
    ensures Run(Initial(chainId), 0, events).Ok? <==> exists b :: Unfold(b) == events && BlockStampable(b)
    ensures forall b :: Unfold(b) == events && BlockStampable(b) ==>
              Run(Initial(chainId), 0, events) == Ok(Renumber(BlockOutput(b, chainId, 0)))
  {
    forall b | Unfold(b) == events
      ensures if BlockStampable(b) then Run(Initial(chainId), 0, events) == Ok(Renumber(BlockOutput(b, chainId, 0)))
              else Run(Initial(chainId), 0, events).Err?
    {
      RunBlock(Initial(chainId), 0, b);
      if BlockStampable(b) { assert [] + BlockOutput(b, chainId, 0) == BlockOutput(b, chainId, 0); }
    }
    if Run(Initial(chainId), 0, events).Ok? {
      BlockSound(Initial(chainId), 0, events);
      ParseSound(events);
    }
  }
}
