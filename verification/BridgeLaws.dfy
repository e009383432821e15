/** What the bridge's output means: input order, survival, and the shape later stages rely on. */
module BridgeLaws {
  import opened Primitives
  import opened Emes
  import opened FrameTree
  import opened Cse
  import opened Bridge
  import G = Gate1

  // ---- Survival in input order ----

  function TraceOf(e: Body, top: Option<Frame>): Trace
    requires Framed(e) ==> Fits(top)
  {
    if Framed(e) then Trace(top.value.id, top.value.depth) else NO_TRACE
  }

  /** In input order, the mutations of `f` that are frameless or have no reverted frame around
      them; `alive` tells whether the frames around `f` itself all commit. */
  function Survivors(f: Forest, env: Env, n: u64, top: Option<Frame>, alive: bool): seq<CseEvent>
    requires Stampable(f, top)
  {
    match f
    case Nil => []
    case Leaf(e, rest) =>
      (if Frameless(e) || (Framed(e) && alive) then [Stamp(env, n, TraceOf(e, top), PayloadOf(e.change))] else [])
        + Survivors(rest, env, BlockNumber(e, n), top, alive)
    case Call(id, _, depth, kids, reverted, rest) =>
      Survivors(kids, env, n, Some(Frame(id, depth)), alive && !reverted)
        + Survivors(rest, env, BlockAfter(kids, n), top, alive)
  }

  predicate NoFrameless(f: Forest) {
    match f
    case Nil => true
    case Leaf(e, rest) => !Frameless(e) && NoFrameless(rest)
    case Call(_, _, _, kids, _, rest) => NoFrameless(kids) && NoFrameless(rest)
  }

  /** Frameless mutations occur only where no frame is open. */
  predicate FramelessAtTop(f: Forest) {
    match f
    case Nil => true
    case Leaf(_, rest) => FramelessAtTop(rest)
    case Call(_, _, _, kids, _, rest) => NoFrameless(kids) && FramelessAtTop(rest)
  }

  lemma {:induction false} InsideInOrder(f: Forest, env: Env, n: u64, top: Frame, alive: bool)
    requires Stampable(f, Some(top)) && NoFrameless(f)
    ensures Hoisted(f, env, n) == []
    ensures Survivors(f, env, n, Some(top), alive) == if alive then Buffered(f, env, n, top) else []
    decreases f
  {
    match f
    case Nil =>
    case Leaf(e, rest) => InsideInOrder(rest, env, BlockNumber(e, n), top, alive);
    case Call(id, _, depth, kids, reverted, rest) =>
      InsideInOrder(kids, env, n, Frame(id, depth), alive && !reverted);
      InsideInOrder(rest, env, BlockAfter(kids, n), top, alive);
  }

  lemma MergeCounts<T>(s1: seq<T>, s2: seq<T>, h1: seq<T>, h2: seq<T>, b1: seq<T>, b2: seq<T>)
    requires multiset(s1) == multiset(h1) + multiset(b1) && multiset(s2) == multiset(h2) + multiset(b2)
    ensures multiset(s1 + s2) == multiset(h1 + h2) + multiset(b1 + b2)
  {
  }

  lemma {:induction false} InsideSameEvents(f: Forest, env: Env, n: u64, top: Frame, alive: bool)
    requires Stampable(f, Some(top))
    ensures multiset(Survivors(f, env, n, Some(top), alive))
         == multiset(Hoisted(f, env, n)) + multiset(if alive then Buffered(f, env, n, top) else [])
    decreases f
  {
    match f
    case Nil =>
    case Leaf(e, rest) =>
      var m := BlockNumber(e, n);
      InsideSameEvents(rest, env, m, top, alive);
      MergeCounts(
        if Frameless(e) || (Framed(e) && alive)
        then [Stamp(env, n, TraceOf(e, Some(top)), PayloadOf(e.change))] else [],
        Survivors(rest, env, m, Some(top), alive),
        if Frameless(e) then [Stamp(env, n, NO_TRACE, PayloadOf(e.change))] else [], Hoisted(rest, env, m),
        if Framed(e) && alive then [Stamp(env, n, Trace(top.id, top.depth), PayloadOf(e.change))] else [],
        if alive then Buffered(rest, env, m, top) else []);
    case Call(id, _, depth, kids, reverted, rest) =>
      var m := BlockAfter(kids, n);
      InsideSameEvents(kids, env, n, Frame(id, depth), alive && !reverted);
      InsideSameEvents(rest, env, m, top, alive);
      MergeCounts(
        Survivors(kids, env, n, Some(Frame(id, depth)), alive && !reverted), Survivors(rest, env, m, Some(top), alive),
        Hoisted(kids, env, n), Hoisted(rest, env, m),
        if alive && !reverted then Buffered(kids, env, n, Frame(id, depth)) else [],
        if alive then Buffered(rest, env, m, top) else []);
  }

  /** Wherever frameless mutations occur, the output holds exactly the survivors, each as often. */
  lemma {:induction false} OutputSameEvents(f: Forest, env: Env, n: u64)
    requires Stampable(f, None)
    ensures multiset(TopOutput(f, env, n)) == multiset(Survivors(f, env, n, None, true))
    decreases f
  {
    match f
    case Nil =>
    case Leaf(e, rest) => OutputSameEvents(rest, env, BlockNumber(e, n));
    case Call(id, _, depth, kids, reverted, rest) =>
      InsideSameEvents(kids, env, n, Frame(id, depth), !reverted);
      OutputSameEvents(rest, env, BlockAfter(kids, n));
  }

  // ---- Exactly when input order is kept ----

  /** Some mutation of `f` reaches the buffer of the frame `f` sits in. */
  predicate Leaves(f: Forest, alive: bool) {
    match f
    case Nil => false
    case Leaf(e, rest) => (Framed(e) && alive) || Leaves(rest, alive)
    case Call(_, _, _, kids, reverted, rest) => Leaves(kids, alive && !reverted) || Leaves(rest, alive)
  }

  /** A frameless mutation of `f` comes after a surviving framed one, of `f` or (`seen`) of its frame
      before `f`. */
  predicate Overtakes(f: Forest, alive: bool, seen: bool) {
    match f
    case Nil => false
    case Leaf(e, rest) => (Frameless(e) && seen) || Overtakes(rest, alive, seen || (Framed(e) && alive))
    case Call(_, _, _, kids, reverted, rest) =>
      Overtakes(kids, alive && !reverted, seen) || Overtakes(rest, alive, seen || Leaves(kids, alive && !reverted))
  }

  /** This happens inside one of the root frames of `f`. */
  predicate OvertakesTop(f: Forest) {
    match f
    case Nil => false
    case Leaf(_, rest) => OvertakesTop(rest)
    case Call(_, _, _, kids, reverted, rest) => Overtakes(kids, !reverted, false) || OvertakesTop(rest)
  }

  /** No frame has the coordinates that mark frameless events, so the two kinds can be told apart. */
  predicate Distinct(f: Forest) {
    match f
    case Nil => true
    case Leaf(_, rest) => Distinct(rest)
    case Call(id, _, depth, kids, _, rest) => Frame(id, depth) != UNMARKED && Distinct(kids) && Distinct(rest)
  }

  const UNMARKED := Frame(NO_TRACE.callFrameId, NO_TRACE.callDepth)

  lemma {:induction false} NothingOvertakes(f: Forest, alive: bool)
    ensures Overtakes(f, alive, true) <==> !NoFrameless(f)
    ensures NoFrameless(f) ==> !Overtakes(f, alive, false)
  {
    match f
    case Nil =>
    case Leaf(_, rest) => NothingOvertakes(rest, alive);
    case Call(_, _, _, kids, reverted, rest) =>
      NothingOvertakes(kids, alive && !reverted);
      NothingOvertakes(rest, alive);
  }

  lemma {:induction false} NothingLeft(f: Forest, env: Env, n: u64, top: Frame, alive: bool)
    requires Stampable(f, Some(top)) && !Leaves(f, alive)
    ensures Kept(f, env, n, top, alive) == []
  {
    match f
    case Nil =>
    case Leaf(e, rest) => NothingLeft(rest, env, BlockNumber(e, n), top, alive);
    case Call(id, _, depth, kids, reverted, rest) =>
      NothingLeft(kids, env, n, Frame(id, depth), alive && !reverted);
      NothingLeft(rest, env, BlockAfter(kids, n), top, alive);
  }

  /** What `f` leaves in its frame's buffer, if the frames around it commit. */
  function Kept(f: Forest, env: Env, n: u64, top: Frame, alive: bool): seq<CseEvent>
    requires Stampable(f, Some(top))
  {
    if alive then Buffered(f, env, n, top) else []
  }

  /** Once something has reached the buffer, what follows has no frameless mutation. */
  lemma AfterLeaving(rest: Forest, env: Env, n: u64, top: Frame, alive: bool)
    requires Stampable(rest, Some(top)) && !Overtakes(rest, alive, true)
    ensures Hoisted(rest, env, n) == []
    ensures Survivors(rest, env, n, Some(top), alive) == Kept(rest, env, n, top, alive)
  {
    NothingOvertakes(rest, alive);
    InsideInOrder(rest, env, n, top, alive);
  }

  /** Where nothing overtakes, the hoisted mutations come first in input order too. */
  lemma {:induction false} InsideKeepsOrder(f: Forest, env: Env, n: u64, top: Frame, alive: bool)
    requires Stampable(f, Some(top)) && !Overtakes(f, alive, false)
    ensures Survivors(f, env, n, Some(top), alive) == Hoisted(f, env, n) + Kept(f, env, n, top, alive)
    decreases f
  {
    match f
    case Nil =>
    case Leaf(e, rest) =>
      var m := BlockNumber(e, n);
      if Framed(e) && alive {
        AfterLeaving(rest, env, m, top, alive);
      } else {
        InsideKeepsOrder(rest, env, m, top, alive);
      }
    case Call(id, _, depth, kids, reverted, rest) =>
      InsideKeepsOrder(kids, env, n, Frame(id, depth), alive && !reverted);
      if Leaves(kids, alive && !reverted) {
        AfterLeaving(rest, env, BlockAfter(kids, n), top, alive);
      } else {
        NothingLeft(kids, env, n, Frame(id, depth), alive && !reverted);
        InsideKeepsOrder(rest, env, BlockAfter(kids, n), top, alive);
      }
  }

  predicate Unmarked(e: CseEvent) { e.trace == NO_TRACE }

  /** A frameless event at `j` comes after a framed one at `i`. */
  predicate Late(s: seq<CseEvent>, i: nat, j: nat) { i < j < |s| && !Unmarked(s[i]) && Unmarked(s[j]) }

  lemma {:induction false} SurvivingFrameless(f: Forest, env: Env, n: u64, top: Option<Frame>, alive: bool)
    returns (j: nat)
    requires Stampable(f, top) && !NoFrameless(f)
    ensures j < |Survivors(f, env, n, top, alive)| && Unmarked(Survivors(f, env, n, top, alive)[j])
    decreases f
  {
    match f {
      case Leaf(e, rest) =>
        if Frameless(e) {
          j := 0;
        } else {
          j := SurvivingFrameless(rest, env, BlockNumber(e, n), top, alive);
          if Framed(e) && alive { j := j + 1; }
        }
      case Call(id, _, depth, kids, reverted, rest) =>
        if NoFrameless(kids) {
          j := SurvivingFrameless(rest, env, BlockAfter(kids, n), top, alive);
          j := j + |Survivors(kids, env, n, Some(Frame(id, depth)), alive && !reverted)|;
        } else {
          j := SurvivingFrameless(kids, env, n, Some(Frame(id, depth)), alive && !reverted);
        }
    }
  }

  lemma {:induction false} SurvivingFramed(f: Forest, env: Env, n: u64, top: Frame, alive: bool) returns (i: nat)
    requires Stampable(f, Some(top)) && Leaves(f, alive) && Distinct(f) && top != UNMARKED
    ensures i < |Survivors(f, env, n, Some(top), alive)| && !Unmarked(Survivors(f, env, n, Some(top), alive)[i])
    decreases f
  {
    match f {
      case Leaf(e, rest) =>
        if Framed(e) && alive {
          i := 0;
        } else {
          i := SurvivingFramed(rest, env, BlockNumber(e, n), top, alive);
          if Frameless(e) { i := i + 1; }
        }
      case Call(id, _, depth, kids, reverted, rest) =>
        if Leaves(kids, alive && !reverted) {
          i := SurvivingFramed(kids, env, n, Frame(id, depth), alive && !reverted);
        } else {
          i := SurvivingFramed(rest, env, BlockAfter(kids, n), top, alive);
          i := i + |Survivors(kids, env, n, Some(Frame(id, depth)), alive && !reverted)|;
        }
    }
  }

  lemma {:induction false} OvertakenIsLate(f: Forest, env: Env, n: u64, top: Frame, alive: bool)
    returns (i: nat, j: nat)
    requires Stampable(f, Some(top)) && Overtakes(f, alive, false) && Distinct(f) && top != UNMARKED
    ensures Late(Survivors(f, env, n, Some(top), alive), i, j)
    decreases f
  {
    match f {
      case Leaf(e, rest) =>
        var m := BlockNumber(e, n);
        if Framed(e) && alive {
          NothingOvertakes(rest, alive);
          j := SurvivingFrameless(rest, env, m, Some(top), alive);
          i, j := 0, j + 1;
        } else {
          i, j := OvertakenIsLate(rest, env, m, top, alive);
          if Frameless(e) { i, j := i + 1, j + 1; }
        }
      case Call(id, _, depth, kids, reverted, rest) =>
        var m, inner, survives := BlockAfter(kids, n), Frame(id, depth), alive && !reverted;
        var before := |Survivors(kids, env, n, Some(inner), survives)|;
        if Overtakes(kids, survives, false) {
          i, j := OvertakenIsLate(kids, env, n, inner, survives);
        } else if Leaves(kids, survives) {
          NothingOvertakes(rest, alive);
          i := SurvivingFramed(kids, env, n, inner, survives);
          j := SurvivingFrameless(rest, env, m, Some(top), alive);
          j := j + before;
        } else {
          i, j := OvertakenIsLate(rest, env, m, top, alive);
          i, j := i + before, j + before;
        }
    }
  }

  /** The bridge's own order is never late: hoisted events are frameless, buffered ones are not. */
  lemma {:induction false} InsideMarks(f: Forest, env: Env, n: u64, top: Frame)
    requires Stampable(f, Some(top))
    ensures forall e :: e in Hoisted(f, env, n) ==> Unmarked(e)
    ensures Distinct(f) && top != UNMARKED ==> forall e :: e in Buffered(f, env, n, top) ==> !Unmarked(e)
    decreases f
  {
    match f
    case Nil =>
    case Leaf(e, rest) => InsideMarks(rest, env, BlockNumber(e, n), top);
    case Call(id, _, depth, kids, _, rest) =>
      InsideMarks(kids, env, n, Frame(id, depth));
      InsideMarks(rest, env, BlockAfter(kids, n), top);
  }

  lemma NeverLate(h: seq<CseEvent>, b: seq<CseEvent>, i: nat, j: nat)
    requires (forall e :: e in h ==> Unmarked(e)) && (forall e :: e in b ==> !Unmarked(e))
    ensures !Late(h + b, i, j)
  {
    if i < j < |h + b| && j >= |h| {
      assert (h + b)[j] == b[j - |h|];
    }
  }

  /** Inside one root frame: order is kept exactly if nothing overtakes. */
  lemma InsideOrder(f: Forest, env: Env, n: u64, top: Frame, alive: bool)
    requires Stampable(f, Some(top))
    ensures var bridge := Hoisted(f, env, n) + Kept(f, env, n, top, alive);
            && |Survivors(f, env, n, Some(top), alive)| == |bridge|
            && (!Overtakes(f, alive, false) ==> Survivors(f, env, n, Some(top), alive) == bridge)
            && (Distinct(f) && top != UNMARKED && Overtakes(f, alive, false) ==>
                Survivors(f, env, n, Some(top), alive) != bridge)
  {
    InsideSameEvents(f, env, n, top, alive);
    SameCount(Survivors(f, env, n, Some(top), alive), Hoisted(f, env, n), Kept(f, env, n, top, alive));
    if !Overtakes(f, alive, false) {
      InsideKeepsOrder(f, env, n, top, alive);
    } else if Distinct(f) && top != UNMARKED {
      var i, j := OvertakenIsLate(f, env, n, top, alive);
      InsideMarks(f, env, n, top);
      NeverLate(Hoisted(f, env, n), Kept(f, env, n, top, alive), i, j);
    }
  }

  lemma SameCount<T>(s: seq<T>, a: seq<T>, b: seq<T>)
    requires multiset(s) == multiset(a) + multiset(b)
    ensures |s| == |a + b|
  {
    assert |multiset(s)| == |s| && |multiset(a)| == |a| && |multiset(b)| == |b|;
  }

  lemma SplitEqual<T>(a: seq<T>, b: seq<T>, c: seq<T>, d: seq<T>)
    requires |a| == |c|
    ensures a + b == c + d <==> a == c && b == d
  {
    if a + b == c + d {
      assert a == (a + b)[..|a|] && c == (c + d)[..|c|];
      assert b == (a + b)[|a|..] && d == (c + d)[|c|..];
    }
  }

  /** A transaction's output is its survivors in input order if no frameless mutation follows a
      surviving framed one inside a root frame; and only if, where the two kinds can be told apart. */
  lemma {:induction false} OrderKeptExactly(f: Forest, env: Env, n: u64)
    requires Stampable(f, None)
    ensures |TopOutput(f, env, n)| == |Survivors(f, env, n, None, true)|
    ensures !OvertakesTop(f) ==> TopOutput(f, env, n) == Survivors(f, env, n, None, true)
    ensures Distinct(f) ==> (TopOutput(f, env, n) == Survivors(f, env, n, None, true) <==> !OvertakesTop(f))
    decreases f
  {
    match f
    case Nil =>
    case Leaf(e, rest) =>
      OrderKeptExactly(rest, env, BlockNumber(e, n));
      var x := if Frameless(e) then [Stamp(env, n, NO_TRACE, PayloadOf(e.change))] else [];
      SplitEqual(x, TopOutput(rest, env, BlockNumber(e, n)), x, Survivors(rest, env, BlockNumber(e, n), None, true));
    case Call(id, _, depth, kids, reverted, rest) =>
      var m, inner := BlockAfter(kids, n), Frame(id, depth);
      OrderKeptExactly(rest, env, m);
      InsideOrder(kids, env, n, inner, !reverted);
      SplitEqual(Hoisted(kids, env, n) + Kept(kids, env, n, inner, !reverted), TopOutput(rest, env, m),
                 Survivors(kids, env, n, Some(inner), !reverted), Survivors(rest, env, m, None, true));
  }

  lemma {:induction false} TopNothingOvertakes(f: Forest)
    requires FramelessAtTop(f)
    ensures !OvertakesTop(f)
  {
    match f
    case Nil =>
    case Leaf(_, rest) => TopNothingOvertakes(rest);
    case Call(_, _, _, kids, reverted, rest) =>
      NothingOvertakes(kids, !reverted);
      TopNothingOvertakes(rest);
  }

  /** A frameless mutation inside a committed frame overtakes the mutations already buffered there. */
  lemma FramelessOvertakes(env: Env, n: u64, first: Change, second: Change)
    ensures var f := Call(0, NO_FRAME, 0, Leaf(Mutation(0, first), Leaf(Mutation(NO_FRAME, second), Nil)), false, Nil);
            && Stampable(f, None)
            && TopOutput(f, env, n)
               == [Stamp(env, n, NO_TRACE, PayloadOf(second)), Stamp(env, n, Trace(0, 0), PayloadOf(first))]
            && Survivors(f, env, n, None, true)
               == [Stamp(env, n, Trace(0, 0), PayloadOf(first)), Stamp(env, n, NO_TRACE, PayloadOf(second))]
  {
    var inner := Leaf(Mutation(NO_FRAME, second), Nil);
    var kids := Leaf(Mutation(0, first), inner);
    assert Stampable(inner, Some(Frame(0, 0))) && Stampable(kids, Some(Frame(0, 0)));
    assert Hoisted(inner, env, n) == [Stamp(env, n, NO_TRACE, PayloadOf(second))];
    assert Buffered(inner, env, n, Frame(0, 0)) == [];
    assert Survivors(inner, env, n, Some(Frame(0, 0)), true) == [Stamp(env, n, NO_TRACE, PayloadOf(second))];
    assert Hoisted(kids, env, n) == Hoisted(inner, env, n);
    assert Buffered(kids, env, n, Frame(0, 0)) == [Stamp(env, n, Trace(0, 0), PayloadOf(first))];
  }

  // ---- Whole blocks ----

  predicate BlockFramelessAtTop(b: Block) {
    match b
    case Done => true
    case Loose(_, rest) => BlockFramelessAtTop(rest)
    case Tx(_, _, frames, _, rest) => FramelessAtTop(frames) && BlockFramelessAtTop(rest)
  }

  /** Each transaction as Begin, its survivors in input order, End. */
  function BlockSurvivors(b: Block, chainId: u64, n: u64): seq<CseEvent>
    requires BlockStampable(b)
  {
    match b
    case Done => []
    case Loose(e, rest) => BlockSurvivors(rest, chainId, BlockNumber(e, n))
    case Tx(txIndex, hash, frames, _, rest) =>
      var env := Env(chainId, hash, txIndex);
      [Stamp(env, n, NO_TRACE, BeginTransaction)] + Survivors(frames, env, n, None, true)
        + [Stamp(env, BlockAfter(frames, n), NO_TRACE, EndTransaction)]
        + BlockSurvivors(rest, chainId, BlockAfter(frames, n))
  }

  predicate BlockOvertakes(b: Block) {
    match b
    case Done => false
    case Loose(_, rest) => BlockOvertakes(rest)
    case Tx(_, _, frames, _, rest) => OvertakesTop(frames) || BlockOvertakes(rest)
  }

  predicate BlockDistinct(b: Block) {
    match b
    case Done => true
    case Loose(_, rest) => BlockDistinct(rest)
    case Tx(_, _, frames, _, rest) => Distinct(frames) && BlockDistinct(rest)
  }

  predicate Bracketed(
    begin: CseEvent, end: CseEvent, x: seq<CseEvent>, y: seq<CseEvent>, after: seq<CseEvent>, after': seq<CseEvent>)
  {
    [begin] + x + [end] + after == [begin] + y + [end] + after' <==> x == y && after == after'
  }

  lemma BracketsSplit(
    begin: CseEvent, end: CseEvent, x: seq<CseEvent>, y: seq<CseEvent>, after: seq<CseEvent>, after': seq<CseEvent>)
    requires |x| == |y|
    ensures Bracketed(begin, end, x, y, after, after')
  {
    SplitEqual([begin] + x + [end], after, [begin] + y + [end], after');
    SplitEqual([begin] + x, [end], [begin] + y, [end]);
    SplitEqual([begin], x, [begin], y);
  }

  lemma {:induction false} BlockOrderKeptExactly(b: Block, chainId: u64, n: u64)
    requires BlockStampable(b)
    ensures !BlockOvertakes(b) ==> BlockOutput(b, chainId, n) == BlockSurvivors(b, chainId, n)
    ensures BlockDistinct(b) ==> (BlockOutput(b, chainId, n) == BlockSurvivors(b, chainId, n) <==> !BlockOvertakes(b))
  {
    match b
    case Done =>
    case Loose(e, rest) => BlockOrderKeptExactly(rest, chainId, BlockNumber(e, n));
    case Tx(txIndex, hash, frames, _, rest) =>
      var env, m := Env(chainId, hash, txIndex), BlockAfter(frames, n);
      OrderKeptExactly(frames, env, n);
      BlockOrderKeptExactly(rest, chainId, m);
      BracketsSplit(Stamp(env, n, NO_TRACE, BeginTransaction), Stamp(env, m, NO_TRACE, EndTransaction),
                    TopOutput(frames, env, n), Survivors(frames, env, n, None, true),
                    BlockOutput(rest, chainId, m), BlockSurvivors(rest, chainId, m));
  }

  lemma {:induction false} BlockNothingOvertakes(b: Block)
    requires BlockFramelessAtTop(b)
    ensures !BlockOvertakes(b)
  {
    match b
    case Done =>
    case Loose(_, rest) => BlockNothingOvertakes(rest);
    case Tx(_, _, frames, _, rest) =>
      TopNothingOvertakes(frames);
      BlockNothingOvertakes(rest);
  }

  predicate Unnumbered(s: seq<CseEvent>) { forall e :: e in s ==> e.sequence == 0 }

  lemma {:induction false} SurvivorsUnnumbered(f: Forest, env: Env, n: u64, top: Option<Frame>, alive: bool)
    requires Stampable(f, top)
    ensures Unnumbered(Survivors(f, env, n, top, alive))
    decreases f
  {
    match f
    case Nil =>
    case Leaf(e, rest) => SurvivorsUnnumbered(rest, env, BlockNumber(e, n), top, alive);
    case Call(id, _, depth, kids, reverted, rest) =>
      SurvivorsUnnumbered(kids, env, n, Some(Frame(id, depth)), alive && !reverted);
      SurvivorsUnnumbered(rest, env, BlockAfter(kids, n), top, alive);
  }

  lemma OutputUnnumbered(f: Forest, env: Env, n: u64)
    requires Stampable(f, None)
    ensures Unnumbered(TopOutput(f, env, n))
  {
    OutputSameEvents(f, env, n);
    SurvivorsUnnumbered(f, env, n, None, true);
    forall e | e in TopOutput(f, env, n) ensures e.sequence == 0 {
      assert e in multiset(Survivors(f, env, n, None, true));
    }
  }

  lemma {:induction false} BlockUnnumbered(b: Block, chainId: u64, n: u64)
    requires BlockStampable(b)
    ensures Unnumbered(BlockOutput(b, chainId, n)) && Unnumbered(BlockSurvivors(b, chainId, n))
  {
    match b
    case Done =>
    case Loose(e, rest) => BlockUnnumbered(rest, chainId, BlockNumber(e, n));
    case Tx(txIndex, hash, frames, _, rest) =>
      var env := Env(chainId, hash, txIndex);
      OutputUnnumbered(frames, env, n);
      SurvivorsUnnumbered(frames, env, n, None, true);
      BlockUnnumbered(rest, chainId, BlockAfter(frames, n));
  }

  lemma RenumberInjective(x: seq<CseEvent>, y: seq<CseEvent>)
    requires Unnumbered(x) && Unnumbered(y) && Renumber(x) == Renumber(y)
    ensures x == y
  {
    forall i | 0 <= i < |x| ensures x[i] == y[i] {
      assert Renumber(x)[i].(sequence := 0) == Renumber(y)[i].(sequence := 0);
      assert x[i] in x && y[i] in y;
    }
  }

  /** A successful translation keeps exactly the transactions' survivors, in input order if no
      frameless mutation follows a surviving framed one inside a root frame; and only if, where the
      two kinds can be told apart. */
  lemma TranslateIsSurvival(events: seq<Body>, chainId: u64, b: Block)
    requires Unfold(b) == events && Run(Initial(chainId), 0, events).Ok?
    ensures BlockStampable(b)
    ensures var output := Run(Initial(chainId), 0, events).value;
            && output == Renumber(BlockOutput(b, chainId, 0))
            && (!BlockOvertakes(b) ==> output == Renumber(BlockSurvivors(b, chainId, 0)))
            && (BlockDistinct(b) ==> (output == Renumber(BlockSurvivors(b, chainId, 0)) <==> !BlockOvertakes(b)))
  {
    RunBlock(Initial(chainId), 0, b);
    TranslateDecides(events, chainId);
    BlockOrderKeptExactly(b, chainId, 0);
    BlockUnnumbered(b, chainId, 0);
    var output, survivors := BlockOutput(b, chainId, 0), BlockSurvivors(b, chainId, 0);
    if Renumber(output) == Renumber(survivors) {
      RenumberInjective(output, survivors);
    }
  }

  // ---- Gate 1 and tags make the bridge total ----

  predicate SmallFrames(f: Forest) {
    match f
    case Nil => true
    case Leaf(_, rest) => SmallFrames(rest)
    case Call(id, _, depth, kids, _, rest) =>
      id <= U32_MAX && depth <= U32_MAX && SmallFrames(kids) && SmallFrames(rest)
  }

  predicate BlockSmallFrames(b: Block) {
    match b
    case Done => true
    case Loose(_, rest) => BlockSmallFrames(rest)
    case Tx(_, _, frames, _, rest) => SmallFrames(frames) && BlockSmallFrames(rest)
  }

  lemma {:induction false} TaggedInside(f: Forest, top: Frame)
    requires G.Tagged(f, top.id) && SmallFrames(f) && Fits(Some(top))
    ensures Stampable(f, Some(top)) && NoFrameless(f)
    decreases f
  {
    match f
    case Nil =>
    case Leaf(_, rest) => TaggedInside(rest, top);
    case Call(id, _, depth, kids, _, rest) =>
      TaggedInside(kids, Frame(id, depth));
      TaggedInside(rest, top);
  }

  lemma {:induction false} TaggedTop(f: Forest)
    requires G.Tagged(f, NO_FRAME) && SmallFrames(f)
    ensures Stampable(f, None) && FramelessAtTop(f)
    decreases f
  {
    match f
    case Nil =>
    case Leaf(_, rest) => TaggedTop(rest);
    case Call(id, _, depth, kids, _, rest) =>
      TaggedInside(kids, Frame(id, depth));
      TaggedTop(rest);
  }

  lemma {:induction false} TaggedBlock(b: Block)
    requires G.BlockTagged(b) && BlockSmallFrames(b)
    ensures BlockStampable(b) && BlockFramelessAtTop(b)
  {
    match b
    case Done =>
    case Loose(_, rest) => TaggedBlock(rest);
    case Tx(_, _, frames, _, rest) =>
      TaggedTop(frames);
      TaggedBlock(rest);
  }

  /** On a stream Gate 1 accepts, the only way the bridge can fail is to meet a mutation it cannot
      stamp: tagged outside every frame, or in a frame whose coordinates exceed 32 bits. */
  lemma Gate1LeavesOnlyStamping(stream: seq<Event>, chainId: u64)
    requires G.Verdict(stream) == None
    ensures exists b :: Unfold(b) == Bodies(stream) && G.BlockWord(b) &&
              (Run(Initial(chainId), 0, Bodies(stream)).Ok? <==> BlockStampable(b))
  {
    G.VerdictDecides(stream);
    var b :| Unfold(b) == Bodies(stream) && G.BlockWord(b);
    RunBlock(Initial(chainId), 0, b);
  }

  /** Gate 1, tags that name the innermost open frame and 32-bit frames make the bridge total,
      and its output is the survivors of every transaction in input order. */
  lemma Gate1MakesBridgeTotal(stream: seq<Event>, chainId: u64, b: Block)
    requires G.Verdict(stream) == None && G.TagsFollow(G.Start, Bodies(stream))
    requires Unfold(b) == Bodies(stream) && BlockSmallFrames(b)
    ensures BlockStampable(b)
    ensures Run(Initial(chainId), 0, Bodies(stream)) == Ok(Renumber(BlockSurvivors(b, chainId, 0)))
  {
    G.VerdictDecides(stream);
    var word :| Unfold(word) == Bodies(stream) && G.BlockWord(word);
    ParseDecides(Bodies(stream), b);
    ParseDecides(Bodies(stream), word);
    G.TagsAgree(b);
    TaggedBlock(b);
    RunBlock(Initial(chainId), 0, b);
    BlockNothingOvertakes(b);
    TranslateIsSurvival(Bodies(stream), chainId, b);
  }

  // ---- The shape later stages rely on ----

  /** Begin and End alternate, and everything else lies between a Begin and its End. */
  predicate Enveloped(inTx: bool, s: seq<CseEvent>)
    decreases |s|
  {
    if s == [] then !inTx
    else if s[0].payload.BeginTransaction? then !inTx && Enveloped(true, s[1..])
    else if s[0].payload.EndTransaction? then inTx && Enveloped(false, s[1..])
    else inTx && Enveloped(true, s[1..])
  }

  /** The bridge never produces boundary, transient, log, refund or access-list payloads. */
  ghost predicate FromChange(e: CseEvent) { exists c :: e.payload == PayloadOf(c) }

  ghost predicate AllFromChanges(s: seq<CseEvent>) { forall i :: 0 <= i < |s| ==> FromChange(s[i]) }

  lemma StampFromChange(env: Env, n: u64, trace: Trace, c: Change)
    ensures FromChange(Stamp(env, n, trace, PayloadOf(c)))
  {
  }

  lemma {:induction false} InsideFromChanges(f: Forest, env: Env, n: u64, top: Frame)
    ensures AllFromChanges(Hoisted(f, env, n))
    ensures Stampable(f, Some(top)) ==> AllFromChanges(Buffered(f, env, n, top))
    decreases f
  {
    match f
    case Nil =>
    case Leaf(e, rest) =>
      InsideFromChanges(rest, env, BlockNumber(e, n), top);
      if e.Mutation? {
        StampFromChange(env, n, NO_TRACE, e.change);
        if Fits(Some(top)) { StampFromChange(env, n, Trace(top.id, top.depth), e.change); }
      }
    case Call(id, _, depth, kids, _, rest) =>
      InsideFromChanges(kids, env, n, Frame(id, depth));
      InsideFromChanges(rest, env, BlockAfter(kids, n), top);
  }

  lemma {:induction false} OutputFromChanges(f: Forest, env: Env, n: u64)
    requires Stampable(f, None)
    ensures AllFromChanges(TopOutput(f, env, n))
    decreases f
  {
    match f
    case Nil =>
    case Leaf(e, rest) =>
      OutputFromChanges(rest, env, BlockNumber(e, n));
      if e.Mutation? { StampFromChange(env, n, NO_TRACE, e.change); }
    case Call(id, _, depth, kids, _, rest) =>
      InsideFromChanges(kids, env, n, Frame(id, depth));
      OutputFromChanges(rest, env, BlockAfter(kids, n));
  }

  lemma EnvelopedCons(inTx: bool, e: CseEvent, t: seq<CseEvent>)
    ensures Enveloped(inTx, [e] + t) <==>
            if e.payload.BeginTransaction? then !inTx && Enveloped(true, t)
            else if e.payload.EndTransaction? then inTx && Enveloped(false, t)
            else inTx && Enveloped(true, t)
  {
    assert ([e] + t)[1..] == t;
  }

  lemma {:induction false} EnvelopedInside(s: seq<CseEvent>, t: seq<CseEvent>)
    requires AllFromChanges(s)
    ensures Enveloped(true, s + t) <==> Enveloped(true, t)
    decreases |s|
  {
    if s == [] {
      assert s + t == t;
    } else {
      assert FromChange(s[0]);
      Associate([s[0]], s[1..], t);
      assert [s[0]] + s[1..] == s;
      EnvelopedCons(true, s[0], s[1..] + t);
      EnvelopedInside(s[1..], t);
    }
  }

  lemma {:induction false} OutputEnveloped(b: Block, chainId: u64, n: u64)
    requires BlockStampable(b)
    ensures Enveloped(false, BlockOutput(b, chainId, n))
    decreases b
  {
    match b
    case Done =>
    case Loose(e, rest) => OutputEnveloped(rest, chainId, BlockNumber(e, n));
    case Tx(txIndex, hash, frames, _, rest) =>
      var env := Env(chainId, hash, txIndex);
      var begin := Stamp(env, n, NO_TRACE, BeginTransaction);
      var end := Stamp(env, BlockAfter(frames, n), NO_TRACE, EndTransaction);
      var after := BlockOutput(rest, chainId, BlockAfter(frames, n));
      OutputEnveloped(rest, chainId, BlockAfter(frames, n));
      OutputFromChanges(frames, env, n);
      Regroup(begin, TopOutput(frames, env, n), end, [], after);
      assert [end] + ([] + after) == [end] + after && [end] + [] == [end];
      assert [begin] + TopOutput(frames, env, n) + [end] == [begin] + (TopOutput(frames, env, n) + [end]);
      EnvelopedCons(false, begin, TopOutput(frames, env, n) + ([end] + after));
      EnvelopedInside(TopOutput(frames, env, n), [end] + after);
      EnvelopedCons(true, end, after);
  }

  /** Numbering does not touch payloads. */
  lemma {:induction false} NumberingKeepsEnvelope(inTx: bool, s: seq<CseEvent>, k: nat)
    ensures Enveloped(inTx, NumberFrom(s, k)) <==> Enveloped(inTx, s)
    decreases |s|
  {
    if s == [] {
    } else {
      assert NumberFrom(s, k) == [s[0].(sequence := k)] + NumberFrom(s[1..], k + 1);
      EnvelopedCons(inTx, s[0].(sequence := k), NumberFrom(s[1..], k + 1));
      var inner := s[0].payload.BeginTransaction? || !s[0].payload.EndTransaction?;
      NumberingKeepsEnvelope(inner, s[1..], k + 1);
    }
  }

  predicate AllValid(s: seq<CseEvent>) { forall i :: 0 <= i < |s| ==> Validate(s[i]) == None }

  lemma CheckCons(c: Cursor, e: CseEvent, t: seq<CseEvent>)
    ensures CheckAll(c, [e] + t)
         == (if Check(c, e).Err? then Err(Check(c, e).error) else CheckAll(Check(c, e).value, t))
  {
    assert ([e] + t)[1..] == t;
  }

  /** A densely numbered, enveloped stream passes the validator iff every payload is valid alone. */
  lemma {:induction false} ValidatorAcceptsEnvelopes(inTx: bool, s: seq<CseEvent>, k: nat)
    requires Enveloped(inTx, s)
    ensures CheckAll(Cursor(k, inTx), NumberFrom(s, k)).Ok? <==> AllValid(s)
    decreases |s|
  {
    if s == [] {
    } else {
      var e := s[0].(sequence := k);
      assert NumberFrom(s, k) == [e] + NumberFrom(s[1..], k + 1);
      CheckCons(Cursor(k, inTx), e, NumberFrom(s[1..], k + 1));
      assert Validate(e) == Validate(s[0]);
      assert AllValid(s) <==> Validate(s[0]) == None && AllValid(s[1..]);
      var inner := s[0].payload.BeginTransaction? || !s[0].payload.EndTransaction?;
      ValidatorAcceptsEnvelopes(inner, s[1..], k + 1);
    }
  }

  /** Every successful translation is densely numbered and enveloped, so a reset validator
      accepts it exactly when no payload is a no-op balance or storage change or a deployment to
      the null address. */
  lemma TranslateWellFormed(events: seq<Body>, chainId: u64)
    requires Run(Initial(chainId), 0, events).Ok?
    ensures var out := Run(Initial(chainId), 0, events).value;
            && (forall i :: 0 <= i < |out| ==> out[i].sequence == i)
            && Enveloped(false, out)
            && (CheckAll(RESET, out).Ok? <==> AllValid(out))
  {
    TranslateDecides(events, chainId);
    var b :| Unfold(b) == events && BlockStampable(b);
    var s := BlockOutput(b, chainId, 0);
    OutputEnveloped(b, chainId, 0);
    NumberingKeepsEnvelope(false, s, 0);
    ValidatorAcceptsEnvelopes(false, s, 0);
    assert forall i :: 0 <= i < |s| ==> Validate(Renumber(s)[i]) == Validate(s[i]);
  }
}
