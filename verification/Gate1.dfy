/** Gate 1: the one-pass structural recogniser of `validation/gate1.go`, and the grammar it decides. */
module Gate1 {
  import opened Primitives
  import opened Emes
  import opened FrameTree

  datatype Rule =
    | BlockEncapsulation
    | SequenceMonotonic
    | TxEncapsulation
    | FrameBalance
    | FrameTopology
    | T1Consistency

  datatype Gate1Error = Gate1Error(index: int, rule: Rule)

  // ---- The grammar ----

  /** Every leaf is a mutation and every call names the frame it is opened in. */
  predicate Nested(f: Forest, parent: u64) {
    match f
    case Nil => true
    case Leaf(e, rest) => e.Mutation? && Nested(rest, parent)
    case Call(id, p, _, kids, _, rest) => p == parent && Nested(kids, id) && Nested(rest, parent)
  }

  function Roots(f: Forest): nat {
    match f
    case Nil => 0
    case Leaf(_, rest) => Roots(rest)
    case Call(_, _, _, _, _, rest) => 1 + Roots(rest)
  }

  /** The Reverted flag of the last frame at the top of `f`, or `flag` if there is none. */
  function LastFlag(f: Forest, flag: bool): bool {
    match f
    case Nil => flag
    case Leaf(_, rest) => LastFlag(rest, flag)
    case Call(_, _, _, _, reverted, rest) => LastFlag(rest, reverted)
  }

  /** Invariant T1: at most one root frame, and the transaction reports that frame's outcome. */
  predicate T1(f: Forest, reverted: bool) {
    Roots(f) <= 1 && (Roots(f) == 1 ==> reverted == LastFlag(f, false))
  }

  /** Stray mutations and transactions, closed by the only BlockCommit. */
  predicate Interior(b: Block) {
    match b
    case Done => false
    case Loose(e, rest) => if rest.Done? then e.BlockCommit? else e.Mutation? && Interior(rest)
    case Tx(_, _, frames, reverted, rest) => Nested(frames, NO_FRAME) && T1(frames, reverted) && Interior(rest)
  }

  predicate BlockWord(b: Block) {
    b.Loose? && b.event.BlockStart? && Interior(b.rest)
  }

  /** Sequence numbers strictly increase over `stream[i-1..]`. */
  predicate Increases(stream: seq<Event>, i: nat) {
    forall k :: 0 < k < |stream| && i <= k ==> stream[k - 1].sequence < stream[k].sequence
  }

  ghost predicate Conforms(stream: seq<Event>) {
    && stream != [] && stream[0].sequence == 0
    && Increases(stream, 0)
    && exists b :: Unfold(b) == Bodies(stream) && BlockWord(b)
  }

  // ---- The recogniser ----

  datatype State = State(txOpen: bool, stack: seq<u64>, roots: nat, rootReverted: bool)

  const INITIAL := State(false, [], 0, false)

  function Top(stack: seq<u64>): u64 { if stack == [] then NO_FRAME else stack[|stack| - 1] }

  function Step(st: State, e: Body, first: bool, last: bool): Result<State, Rule> {
    match e
    case BlockStart(_) => if !first then Err(BlockEncapsulation) else Ok(st)
    case BlockCommit =>
      if !last then Err(BlockEncapsulation) else if st.txOpen then Err(TxEncapsulation) else Ok(st)
    case TxStart(_, _) => if st.txOpen then Err(TxEncapsulation) else Ok(State(true, [], 0, false))
    case TxEnd(reverted) =>
      if !st.txOpen then Err(TxEncapsulation)
      else if st.stack != [] then Err(FrameBalance)
      else if st.roots > 1 || (st.roots == 1 && reverted != st.rootReverted) then Err(T1Consistency)
      else Ok(st.(txOpen := false))
    case FrameEnter(id, parent, _) =>
      if !st.txOpen then Err(TxEncapsulation)
      else if parent != Top(st.stack) then Err(FrameTopology)
      else Ok(st.(stack := st.stack + [id], roots := if st.stack == [] then st.roots + 1 else st.roots))
    case FrameExit(id, reverted) =>
      if !st.txOpen then Err(TxEncapsulation)
      else if st.stack == [] || Top(st.stack) != id then Err(FrameBalance)
      else Ok(st.(stack := st.stack[..|st.stack| - 1],
                  rootReverted := if |st.stack| == 1 then reverted else st.rootReverted))
    case Mutation(_, _) => Ok(st)
  }

  /** The verdict on `stream[i..]` when the scan reaches position `i` in state `st`. */
  function Scan(stream: seq<Event>, i: nat, st: State): Option<Gate1Error>
    requires i <= |stream|
    decreases |stream| - i
  {
    if i == |stream| then if st.txOpen then Some(Gate1Error(i - 1, TxEncapsulation)) else None
    else if 0 < i && stream[i].sequence <= stream[i - 1].sequence then Some(Gate1Error(i, SequenceMonotonic))
    else
      match Step(st, stream[i].body, i == 0, i == |stream| - 1)
      case Err(rule) => Some(Gate1Error(i, rule))
      case Ok(next) => Scan(stream, i + 1, next)
  }

  function Verdict(stream: seq<Event>): Option<Gate1Error> {
    if stream == [] then Some(Gate1Error(-1, BlockEncapsulation))
    else if !stream[0].body.BlockStart? || stream[0].sequence != 0 then Some(Gate1Error(0, BlockEncapsulation))
    else if !stream[|stream| - 1].body.BlockCommit? then Some(Gate1Error(|stream| - 1, BlockEncapsulation))
    else Scan(stream, 0, INITIAL)
  }

  method VerifyGate1Invariants(stream: seq<Event>) returns (err: Option<Gate1Error>)
    ensures err == Verdict(stream)
    ensures err == None <==> Conforms(stream)
  {
    VerdictDecides(stream);
    if |stream| == 0 {
      return Some(Gate1Error(-1, BlockEncapsulation));
    }
    var first := stream[0];
    if !first.body.BlockStart? {
      return Some(Gate1Error(0, BlockEncapsulation));
    }
    if first.sequence != 0 {
      return Some(Gate1Error(0, BlockEncapsulation));
    }
    if !stream[|stream| - 1].body.BlockCommit? {
      return Some(Gate1Error(|stream| - 1, BlockEncapsulation));
    }

    var prevSeq, seqInitialized, txOpen := 0, false, false;
    var frameStack: seq<u64> := [];
    var rootFrameCount, rootFrameReverted := 0, false;

    for i := 0 to |stream|
      invariant seqInitialized == (0 < i)
      invariant 0 < i ==> prevSeq == stream[i - 1].sequence
      invariant rootFrameCount >= 0
      invariant i == |stream| ==> !txOpen
      invariant Scan(stream, i, State(txOpen, frameStack, rootFrameCount, rootFrameReverted)) == Verdict(stream)
    {
      var sequence := stream[i].sequence;
      if seqInitialized && sequence <= prevSeq {
        return Some(Gate1Error(i, SequenceMonotonic));
      }
      prevSeq, seqInitialized := sequence, true;

      match stream[i].body {
        case BlockStart(_) =>
          if i != 0 { return Some(Gate1Error(i, BlockEncapsulation)); }
        case BlockCommit =>
          if i != |stream| - 1 { return Some(Gate1Error(i, BlockEncapsulation)); }
          if txOpen { return Some(Gate1Error(i, TxEncapsulation)); }
        case TxStart(_, _) =>
          if txOpen { return Some(Gate1Error(i, TxEncapsulation)); }
          txOpen, frameStack := true, [];
          rootFrameCount, rootFrameReverted := 0, false;
        case TxEnd(reverted) =>
          if !txOpen { return Some(Gate1Error(i, TxEncapsulation)); }
          if |frameStack| != 0 { return Some(Gate1Error(i, FrameBalance)); }
          if rootFrameCount > 1 { return Some(Gate1Error(i, T1Consistency)); }
          if rootFrameCount == 1 && reverted != rootFrameReverted { return Some(Gate1Error(i, T1Consistency)); }
          txOpen := false;
        case FrameEnter(id, parent, _) =>
          if !txOpen { return Some(Gate1Error(i, TxEncapsulation)); }
          if |frameStack| == 0 {
            if parent != NO_FRAME { return Some(Gate1Error(i, FrameTopology)); }
            rootFrameCount := rootFrameCount + 1;
          } else if parent != frameStack[|frameStack| - 1] {
            return Some(Gate1Error(i, FrameTopology));
          }
          frameStack := frameStack + [id];
        case FrameExit(id, reverted) =>
          if !txOpen { return Some(Gate1Error(i, TxEncapsulation)); }
          if |frameStack| == 0 { return Some(Gate1Error(i, FrameBalance)); }
          if frameStack[|frameStack| - 1] != id { return Some(Gate1Error(i, FrameBalance)); }
          if |frameStack| == 1 { rootFrameReverted := reverted; }
          frameStack := frameStack[..|frameStack| - 1];
        case Mutation(_, _) =>
      }
    }

    // The missing-TransactionEnd error would be reported here for an open transaction; none can be:
    // the last event is a BlockCommit, and a BlockCommit inside a transaction was rejected above.
    assert !txOpen;
    return None;
  }

  // ---- The recogniser as a pushdown automaton over event bodies ----

  datatype Mode = Start | Open(st: State) | Committed | Rejected

  function Advance(m: Mode, e: Body): Mode {
    match m
    case Start => if e.BlockStart? then Open(INITIAL) else Rejected
    case Open(st) =>
      if e.BlockCommit? then if st.txOpen then Rejected else Committed
      else
        var step := Step(st, e, false, false);
        if step.Ok? then Open(step.value) else Rejected
    case Committed => Rejected
    case Rejected => Rejected
  }

  function Follow(m: Mode, s: seq<Body>): Mode
    decreases |s|
  {
    if s == [] then m else Follow(Advance(m, s[0]), s[1..])
  }

  lemma {:induction false} FollowRejected(s: seq<Body>)
    ensures Follow(Rejected, s) == Rejected
    decreases |s|
  {
    if s == [] {
    } else {
      FollowRejected(s[1..]);
    }
  }

  lemma FollowCommitted(s: seq<Body>)
    ensures Follow(Committed, s) == Committed <==> s == []
  {
    if s != [] { FollowRejected(s[1..]); }
  }

  lemma FollowCons(m: Mode, e: Body, t: seq<Body>)
    ensures Follow(m, [e] + t) == Follow(Advance(m, e), t)
  {
    assert ([e] + t)[1..] == t;
  }

  lemma {:induction false} FollowSnoc(m: Mode, s: seq<Body>, e: Body)
    ensures Follow(m, s + [e]) == Advance(Follow(m, s), e)
    decreases |s|
  {
    if s == [] {
      assert (s + [e])[1..] == [];
    } else {
      assert (s + [e])[1..] == s[1..] + [e];
      FollowSnoc(Advance(m, s[0]), s[1..], e);
    }
  }

  lemma {:induction false} ScanIsFollow(stream: seq<Event>, i: nat, st: State)
    requires 0 < i < |stream| && stream[|stream| - 1].body.BlockCommit?
    ensures Scan(stream, i, st) == None <==> Increases(stream, i) && Follow(Open(st), Bodies(stream)[i..]) == Committed
    decreases |stream| - i
  {
    var e, t := stream[i].body, Bodies(stream)[i + 1..];
    assert Bodies(stream)[i..] == [e] + t;
    FollowCons(Open(st), e, t);
    FollowRejected(t);
    assert Increases(stream, i) <==> stream[i - 1].sequence < stream[i].sequence && Increases(stream, i + 1);
    if i + 1 == |stream| {
      assert t == [];
    } else if e.BlockCommit? {
      FollowCommitted(t);
    } else if Step(st, e, false, false).Ok? {
      ScanIsFollow(stream, i + 1, Step(st, e, false, false).value);
    }
  }

  /** Gate 1 is the sequence check together with the automaton. */
  lemma VerdictIsFollow(stream: seq<Event>)
    ensures Verdict(stream) == None <==>
            && stream != [] && stream[0].sequence == 0 && Increases(stream, 0)
            && Follow(Start, Bodies(stream)) == Committed
  {
    var s := Bodies(stream);
    if stream != [] {
      FollowRejected(s[1..]);
      FollowSnoc(Start, s[..|s| - 1], s[|s| - 1]);
      assert s[..|s| - 1] + [s[|s| - 1]] == s;
      if stream[|stream| - 1].body.BlockCommit? && 1 < |stream| {
        ScanIsFollow(stream, 1, INITIAL);
        assert Increases(stream, 0) <==> Increases(stream, 1);
      }
    }
  }

  // ---- Automaton and grammar agree ----

  /** The state after the frames of `f` have opened and closed. */
  function After(st: State, f: Forest): State {
    if st.stack != [] then st
    else st.(roots := st.roots + Roots(f), rootReverted := LastFlag(f, st.rootReverted))
  }

  function Entered(st: State, id: u64): State {
    st.(stack := st.stack + [id], roots := if st.stack == [] then st.roots + 1 else st.roots)
  }

  /** The state once a frame opened in `st` has closed again. */
  function Exited(st: State, reverted: bool): State {
    if st.stack != [] then st else st.(roots := st.roots + 1, rootReverted := reverted)
  }

  lemma EnterStep(st: State, id: u64, depth: u64)
    requires st.txOpen
    ensures Advance(Open(st), FrameEnter(id, Top(st.stack), depth)) == Open(Entered(st, id))
    ensures Top(Entered(st, id).stack) == id
  {
  }

  lemma ExitStep(st: State, id: u64, reverted: bool)
    requires st.txOpen
    ensures Advance(Open(Entered(st, id)), FrameExit(id, reverted)) == Open(Exited(st, reverted))
  {
    assert Entered(st, id).stack[..|st.stack|] == st.stack;
  }

  lemma FollowCall(st: State, id: u64, depth: u64, reverted: bool, inner: seq<Body>, after: seq<Body>)
    requires st.txOpen
    requires var tail := [FrameExit(id, reverted)] + after;
             Follow(Open(Entered(st, id)), inner + tail) == Follow(Open(Entered(st, id)), tail)
    ensures Follow(Open(st), [FrameEnter(id, Top(st.stack), depth)] + (inner + ([FrameExit(id, reverted)] + after)))
         == Follow(Open(Exited(st, reverted)), after)
  {
    var tail := [FrameExit(id, reverted)] + after;
    FollowCons(Open(st), FrameEnter(id, Top(st.stack), depth), inner + tail);
    EnterStep(st, id, depth);
    FollowCons(Open(Entered(st, id)), FrameExit(id, reverted), after);
    ExitStep(st, id, reverted);
  }

  lemma AfterCall(st: State, id: u64, parent: u64, depth: u64, kids: Forest, reverted: bool, rest: Forest)
    ensures After(Entered(st, id), kids) == Entered(st, id)
    ensures After(Exited(st, reverted), rest) == After(st, Call(id, parent, depth, kids, reverted, rest))
    ensures Exited(st, reverted).stack == st.stack && Exited(st, reverted).txOpen == st.txOpen
  {
  }

  lemma {:induction false} FollowForest(st: State, f: Forest, t: seq<Body>)
    requires st.txOpen && Nested(f, Top(st.stack))
    ensures Follow(Open(st), Flatten(f) + t) == Follow(Open(After(st, f)), t)
    decreases f
  {
    match f
    case Nil => assert Flatten(f) + t == t;
    case Leaf(e, rest) =>
      Associate([e], Flatten(rest), t);
      FollowCons(Open(st), e, Flatten(rest) + t);
      FollowForest(st, rest, t);
      assert After(st, f) == After(st, rest);
    case Call(id, parent, depth, kids, reverted, rest) =>
      var after := Flatten(rest) + t;
      AfterCall(st, id, parent, depth, kids, reverted, rest);
      EnterStep(st, id, depth);
      FollowForest(Entered(st, id), kids, [FrameExit(id, reverted)] + after);
      FollowForest(Exited(st, reverted), rest, t);
      FollowCall(st, id, depth, reverted, Flatten(kids), after);
      Regroup(FrameEnter(id, parent, depth), Flatten(kids), FrameExit(id, reverted), Flatten(rest), t);
  }

  /** What the parser of forests finds in a suffix the automaton accepts. */
  predicate Splits(st: State, s: seq<Body>) {
    var (f, t) := ParseForest(s);
    && Nested(f, Top(st.stack))
    && t != []
    && (if st.stack == [] then t[0].TxEnd? else t[0].FrameExit? && t[0].frameId == Top(st.stack))
    && Follow(Open(st), s) == Follow(Open(After(st, f)), t)
  }

  lemma {:induction false} ForestSound(st: State, s: seq<Body>)
    requires st.txOpen && Follow(Open(st), s) == Committed
    ensures Splits(st, s)
    decreases |s|, 1
  {
    assert s != [];
    FollowRejected(s[1..]);
    if s[0].Mutation? {
      ForestSound(st, s[1..]);
    } else if s[0].FrameEnter? {
      CallSound(st, s);
    }
  }

  lemma {:induction false} CallSound(st: State, s: seq<Body>)
    requires st.txOpen && s != [] && s[0].FrameEnter? && Follow(Open(st), s) == Committed
    ensures Splits(st, s)
    decreases |s|, 0
  {
    FollowRejected(s[1..]);
    var id := s[0].frameId;
    assert s[0].parentId == Top(st.stack);
    EnterStep(st, id, s[0].depth);
    ForestSound(Entered(st, id), s[1..]);
    var t := ParseForest(s[1..]).1;
    ExitStep(st, id, t[0].reverted);
    assert t[0] == FrameExit(id, t[0].reverted);
    assert Follow(Open(st), s) == Follow(Open(Exited(st, t[0].reverted)), t[1..]);
    ForestSound(Exited(st, t[0].reverted), t[1..]);
    CallSplits(st, s, t);
  }

  lemma CallSplits(st: State, s: seq<Body>, t: seq<Body>)
    requires s != [] && s[0].FrameEnter? && s[0].parentId == Top(st.stack)
    requires ParseForest(s[1..]).1 == t && Nested(ParseForest(s[1..]).0, s[0].frameId)
    requires t != [] && t[0].FrameExit? && t[0].frameId == s[0].frameId
    requires Splits(Exited(st, t[0].reverted), t[1..])
    requires Follow(Open(st), s) == Follow(Open(Exited(st, t[0].reverted)), t[1..])
    ensures Splits(st, s)
  {
    var (kids, _) := ParseForest(s[1..]);
    var (rest, u) := ParseForest(t[1..]);
    var f := Call(s[0].frameId, s[0].parentId, s[0].depth, kids, t[0].reverted, rest);
    assert ParseForest(s) == (f, u);
    assert After(Exited(st, t[0].reverted), rest) == After(st, f);
  }

  lemma {:induction false} InteriorAccepted(st: State, b: Block)
    requires !st.txOpen && Interior(b)
    ensures Follow(Open(st), Unfold(b)) == Committed
    decreases b
  {
    match b
    case Loose(e, rest) =>
      FollowCons(Open(st), e, Unfold(rest));
      if !rest.Done? { InteriorAccepted(st, rest); }
    case Tx(txIndex, hash, frames, reverted, rest) =>
      var tail := [TxEnd(reverted)] + Unfold(rest);
      var open := State(true, [], 0, false);
      FollowCons(Open(st), TxStart(txIndex, hash), Flatten(frames) + tail);
      FollowForest(open, frames, tail);
      FollowCons(Open(After(open, frames)), TxEnd(reverted), Unfold(rest));
      InteriorAccepted(After(open, frames).(txOpen := false), rest);
  }

  lemma {:induction false} AcceptedInterior(st: State, s: seq<Body>)
    requires !st.txOpen && Follow(Open(st), s) == Committed
    ensures Parse(s).Some? && Interior(Parse(s).value)
    decreases |s|, 1
  {
    FollowRejected(s[1..]);
    if s[0].Mutation? {
      AcceptedInterior(st, s[1..]);
      assert s[1..] != [];
      ParseSound(s[1..]);
    } else if s[0].TxStart? {
      AcceptedTx(st, s);
    } else {
      FollowCommitted(s[1..]);
    }
  }

  lemma {:induction false} AcceptedTx(st: State, s: seq<Body>)
    requires !st.txOpen && s != [] && s[0].TxStart? && Follow(Open(st), s) == Committed
    ensures Parse(s).Some? && Interior(Parse(s).value)
    decreases |s|, 0
  {
    var open := State(true, [], 0, false);
    assert Advance(Open(st), s[0]) == Open(open);
    ForestSound(open, s[1..]);
    var (frames, t) := ParseForest(s[1..]);
    assert Follow(Open(After(open, frames)), t) == Committed;
    assert t == [TxEnd(t[0].reverted)] + t[1..];
    EndSound(After(open, frames), t[0].reverted, t[1..]);
    AcceptedInterior(After(open, frames).(txOpen := false), t[1..]);
    TxParses(s, frames, t);
  }

  lemma TxParses(s: seq<Body>, frames: Forest, t: seq<Body>)
    requires s != [] && s[0].TxStart? && ParseForest(s[1..]) == (frames, t)
    requires t != [] && t[0].TxEnd? && Nested(frames, NO_FRAME) && T1(frames, t[0].reverted)
    requires Parse(t[1..]).Some? && Interior(Parse(t[1..]).value)
    ensures Parse(s).Some? && Interior(Parse(s).value)
  {
    assert Parse(s) == Some(Tx(s[0].txIndex, s[0].hash, frames, t[0].reverted, Parse(t[1..]).value));
  }

  lemma EndSound(st: State, reverted: bool, t: seq<Body>)
    requires st.txOpen && st.stack == []
    requires Follow(Open(st), [TxEnd(reverted)] + t) == Committed
    ensures st.roots <= 1 && (st.roots == 1 ==> reverted == st.rootReverted)
    ensures Follow(Open(st.(txOpen := false)), t) == Committed
  {
    FollowCons(Open(st), TxEnd(reverted), t);
    FollowRejected(t);
  }

  /** The automaton accepts exactly the words of the grammar. */
  lemma FollowDecides(s: seq<Body>)
    ensures Follow(Start, s) == Committed <==> exists b :: Unfold(b) == s && BlockWord(b)
  {
    if Follow(Start, s) == Committed {
      FollowRejected(s[1..]);
      AcceptedInterior(INITIAL, s[1..]);
      ParseSound(s);
      assert BlockWord(Parse(s).value);
    }
    if exists b :: Unfold(b) == s && BlockWord(b) {
      var b :| Unfold(b) == s && BlockWord(b);
      InteriorAccepted(INITIAL, b.rest);
      FollowCons(Start, b.event, Unfold(b.rest));
    }
  }

  /** Gate 1 accepts exactly the streams of the grammar. */
  lemma VerdictDecides(stream: seq<Event>)
    ensures Verdict(stream) == None <==> Conforms(stream)
  {
    VerdictIsFollow(stream);
    FollowDecides(Bodies(stream));
  }

  /** The state in which the loop ends, unless it returns an error on the way. */
  function Exit(stream: seq<Event>, i: nat, st: State): Option<State>
    requires i <= |stream|
    decreases |stream| - i
  {
    if i == |stream| then Some(st)
    else if 0 < i && stream[i].sequence <= stream[i - 1].sequence then None
    else
      match Step(st, stream[i].body, i == 0, i == |stream| - 1)
      case Err(_) => None
      case Ok(next) => Exit(stream, i + 1, next)
  }

  /** On a stream that ends with BlockCommit the loop never ends inside a transaction, from whatever
      state it starts, so the check after it never fires: the verdict is the loop's own. */
  lemma {:induction false} FinalCheckUnreachable(stream: seq<Event>, i: nat, st: State)
    requires i < |stream| && stream[|stream| - 1].body.BlockCommit?
    ensures Exit(stream, i, st).Some? ==> !Exit(stream, i, st).value.txOpen
    ensures Scan(stream, i, st) == None <==> Exit(stream, i, st).Some?
    decreases |stream| - i
  {
    var next := Step(st, stream[i].body, i == 0, i == |stream| - 1);
    if i + 1 < |stream| && next.Ok? {
      FinalCheckUnreachable(stream, i + 1, next.value);
    }
  }

  // ---- Tags ----

  /** Every mutation of `f` carries the identifier of its innermost open frame. */
  predicate Tagged(f: Forest, current: u64) {
    match f
    case Nil => true
    case Leaf(e, rest) => (e.Mutation? ==> e.frameId == current) && Tagged(rest, current)
    case Call(id, _, _, kids, _, rest) => Tagged(kids, id) && Tagged(rest, current)
  }

  predicate BlockTagged(b: Block) {
    match b
    case Done => true
    case Loose(e, rest) => (e.Mutation? ==> e.frameId == NO_FRAME) && BlockTagged(rest)
    case Tx(_, _, frames, _, rest) => Tagged(frames, NO_FRAME) && BlockTagged(rest)
  }

  function OpenFrame(m: Mode): u64 { if m.Open? then Top(m.st.stack) else NO_FRAME }

  /** The same, read off the automaton: each mutation carries the top of the stack it is met with. */
  predicate TagsFollow(m: Mode, s: seq<Body>)
    decreases |s|
  {
    s == [] || ((s[0].Mutation? ==> s[0].frameId == OpenFrame(m)) && TagsFollow(Advance(m, s[0]), s[1..]))
  }

  predicate InFrame(m: Mode) { m.Open? && m.st.stack != [] }

  /** A mutation carries the sentinel exactly where no frame is open. */
  predicate SentinelOutside(m: Mode, s: seq<Body>)
    decreases |s|
  {
    || s == []
    || ((s[0].Mutation? ==> (s[0].frameId == NO_FRAME <==> !InFrame(m))) && SentinelOutside(Advance(m, s[0]), s[1..]))
  }

  predicate NoSentinelFrame(s: seq<Body>) { forall e :: e in s && e.FrameEnter? ==> e.frameId != NO_FRAME }

  /** Tags that name the open frame tell whether one is open, if no frame is numbered like the sentinel. */
  lemma {:induction false} TagsTellFrames(m: Mode, s: seq<Body>)
    requires TagsFollow(m, s) && NoSentinelFrame(s) && (m.Open? ==> NO_FRAME !in m.st.stack)
    ensures SentinelOutside(m, s)
    decreases |s|
  {
    if s == [] {
    } else {
      assert s[0] in s && forall e :: e in s[1..] ==> e in s;
      TagsTellFrames(Advance(m, s[0]), s[1..]);
    }
  }

  lemma {:induction false} TagsSnoc(m: Mode, s: seq<Body>, e: Body)
    ensures TagsFollow(m, s + [e]) <==> TagsFollow(m, s) && (e.Mutation? ==> e.frameId == OpenFrame(Follow(m, s)))
    decreases |s|
  {
    if s == [] {
      assert (s + [e])[1..] == [];
    } else {
      assert (s + [e])[1..] == s[1..] + [e];
      TagsSnoc(Advance(m, s[0]), s[1..], e);
    }
  }

  lemma TagsCons(m: Mode, e: Body, t: seq<Body>)
    ensures TagsFollow(m, [e] + t) <==> (e.Mutation? ==> e.frameId == OpenFrame(m)) && TagsFollow(Advance(m, e), t)
  {
    assert ([e] + t)[1..] == t;
  }

  lemma TagsCall(st: State, id: u64, depth: u64, reverted: bool, inner: seq<Body>, after: seq<Body>, inside: bool)
    requires st.txOpen
    requires var tail := [FrameExit(id, reverted)] + after;
             TagsFollow(Open(Entered(st, id)), inner + tail) <==> inside && TagsFollow(Open(Entered(st, id)), tail)
    ensures TagsFollow(Open(st), [FrameEnter(id, Top(st.stack), depth)] + (inner + ([FrameExit(id, reverted)] + after)))
       <==> inside && TagsFollow(Open(Exited(st, reverted)), after)
  {
    var tail := [FrameExit(id, reverted)] + after;
    TagsCons(Open(st), FrameEnter(id, Top(st.stack), depth), inner + tail);
    EnterStep(st, id, depth);
    TagsCons(Open(Entered(st, id)), FrameExit(id, reverted), after);
    ExitStep(st, id, reverted);
  }

  /** The tags in `f`, met in state `st`, are its own affair; what follows sees the state after it. */
  predicate TagsSplit(st: State, f: Forest, t: seq<Body>)
    requires st.txOpen && Nested(f, Top(st.stack))
  {
    TagsFollow(Open(st), Flatten(f) + t) <==> Tagged(f, Top(st.stack)) && TagsFollow(Open(After(st, f)), t)
  }

  lemma TagsLeafSplit(st: State, e: Plain, rest: Forest, t: seq<Body>)
    requires st.txOpen && Nested(Leaf(e, rest), Top(st.stack)) && TagsSplit(st, rest, t)
    ensures TagsSplit(st, Leaf(e, rest), t)
  {
    Associate([e], Flatten(rest), t);
    TagsCons(Open(st), e, Flatten(rest) + t);
    assert After(st, Leaf(e, rest)) == After(st, rest);
  }

  lemma TagsCallSplit(st: State, f: Forest, t: seq<Body>)
    requires st.txOpen && f.Call? && Nested(f, Top(st.stack))
    requires Nested(f.kids, Top(Entered(st, f.id).stack)) && Nested(f.rest, Top(Exited(st, f.reverted).stack))
    requires TagsSplit(Entered(st, f.id), f.kids, [FrameExit(f.id, f.reverted)] + (Flatten(f.rest) + t))
    requires TagsSplit(Exited(st, f.reverted), f.rest, t)
    ensures TagsSplit(st, f, t)
  {
    var Call(id, parent, depth, kids, reverted, rest) := f;
    var after := Flatten(rest) + t;
    AfterCall(st, id, parent, depth, kids, reverted, rest);
    EnterStep(st, id, depth);
    TagsCall(st, id, depth, reverted, Flatten(kids), after, Tagged(kids, id));
    Regroup(FrameEnter(id, parent, depth), Flatten(kids), FrameExit(id, reverted), Flatten(rest), t);
  }

  lemma {:induction false} TagsForest(st: State, f: Forest, t: seq<Body>)
    requires st.txOpen && Nested(f, Top(st.stack))
    ensures TagsSplit(st, f, t)
    decreases f
  {
    match f
    case Nil =>
      assert Flatten(f) + t == t;
    case Leaf(e, rest) =>
      TagsForest(st, rest, t);
      TagsLeafSplit(st, e, rest, t);
    case Call(id, parent, depth, kids, reverted, rest) =>
      EnterStep(st, id, depth);
      TagsForest(Entered(st, id), kids, [FrameExit(id, reverted)] + (Flatten(rest) + t));
      TagsForest(Exited(st, reverted), rest, t);
      TagsCallSplit(st, f, t);
  }

  lemma {:induction false} TagsInterior(st: State, b: Block)
    requires !st.txOpen && st.stack == [] && Interior(b)
    ensures TagsFollow(Open(st), Unfold(b)) <==> BlockTagged(b)
    decreases b
  {
    match b
    case Loose(e, rest) =>
      TagsCons(Open(st), e, Unfold(rest));
      if !rest.Done? { TagsInterior(st, rest); }
    case Tx(txIndex, hash, frames, reverted, rest) =>
      var tail := [TxEnd(reverted)] + Unfold(rest);
      var open := State(true, [], 0, false);
      TagsCons(Open(st), TxStart(txIndex, hash), Flatten(frames) + tail);
      TagsForest(open, frames, tail);
      TagsCons(Open(After(open, frames)), TxEnd(reverted), Unfold(rest));
      TagsInterior(After(open, frames).(txOpen := false), rest);
  }

  /** Reading the tags off the automaton or off the structure is the same thing. */
  lemma TagsAgree(b: Block)
    requires BlockWord(b)
    ensures TagsFollow(Start, Unfold(b)) <==> BlockTagged(b)
  {
    TagsCons(Start, b.event, Unfold(b.rest));
    TagsInterior(INITIAL, b.rest);
  }
}
