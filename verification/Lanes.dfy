/** The bridge's output seen one table entry at a time: order is kept there more often than overall. */
module Lanes {
  import opened Primitives
  import opened Emes
  import opened FrameTree
  import opened Cse
  import opened Bridge
  import opened BridgeLaws
  import opened Partition

  /** A mutation that the partition records in `lane`. */
  predicate Records(e: Body, lane: Lane)
    requires e.Mutation?
  {
    PayloadEnters(PayloadOf(e.change), lane)
  }

  predicate PayloadEnters(p: Payload, lane: Lane) {
    match lane
    case CellLane(k) => WriteOf(p).Some? && WriteOf(p).value.key == k
    case LifecycleLane(a) => (p.ContractCreated? || p.ContractDestroyed?) && p.address == a
    case LogLane(a) => p.LogEmitted? && p.address == a
    case RefundLane => p.GasRefundChanged?
  }

  lemma EntersByPayload(e: CseEvent, lane: Lane)
    ensures Enters(e, lane) <==> PayloadEnters(e.payload, lane)
  {
  }

  /** `f` without the mutations recorded elsewhere. */
  function Only(f: Forest, lane: Lane): Forest {
    match f
    case Nil => Nil
    case Leaf(e, rest) => if e.Mutation? && !Records(e, lane) then Only(rest, lane) else Leaf(e, Only(rest, lane))
    case Call(id, parent, depth, kids, reverted, rest) =>
      Call(id, parent, depth, Only(kids, lane), reverted, Only(rest, lane))
  }

  lemma {:induction false} OnlyStampable(f: Forest, lane: Lane, top: Option<Frame>)
    requires Stampable(f, top)
    ensures Stampable(Only(f, lane), top)
    decreases f
  {
    match f
    case Nil =>
    case Leaf(_, rest) => OnlyStampable(rest, lane, top);
    case Call(id, _, depth, kids, _, rest) =>
      OnlyStampable(kids, lane, Some(Frame(id, depth)));
      OnlyStampable(rest, lane, top);
  }

  lemma {:induction false} OnlyBlock(f: Forest, lane: Lane, n: u64)
    ensures BlockAfter(Only(f, lane), n) == BlockAfter(f, n)
    decreases f
  {
    match f
    case Nil =>
    case Leaf(e, rest) => OnlyBlock(rest, lane, BlockNumber(e, n));
    case Call(_, _, _, kids, _, rest) =>
      OnlyBlock(kids, lane, n);
      OnlyBlock(rest, lane, BlockAfter(kids, n));
  }

  lemma {:induction false} OnlyDistinct(f: Forest, lane: Lane)
    ensures Distinct(Only(f, lane)) <==> Distinct(f)
  {
    match f
    case Nil =>
    case Leaf(_, rest) => OnlyDistinct(rest, lane);
    case Call(_, _, _, kids, _, rest) =>
      OnlyDistinct(kids, lane);
      OnlyDistinct(rest, lane);
  }

  lemma InLaneOne(e: CseEvent, lane: Lane)
    ensures InLane([e], lane) == if PayloadEnters(e.payload, lane) then [e] else []
  {
    EntersByPayload(e, lane);
    InLaneSnoc([], e, lane);
    assert [] + [e] == [e];
  }

  /** What an optional event in front of a list adds to its lane. */
  lemma InLaneFirst(first: seq<CseEvent>, rest: seq<CseEvent>, lane: Lane)
    requires |first| <= 1
    ensures InLane(first + rest, lane)
         == (if first != [] && PayloadEnters(first[0].payload, lane) then first else []) + InLane(rest, lane)
  {
    InLaneConcat(first, rest, lane);
    if first != [] {
      assert first == [first[0]];
      InLaneOne(first[0], lane);
    }
  }

  lemma {:induction false} OnlyHoisted(f: Forest, lane: Lane, env: Env, n: u64)
    ensures Hoisted(Only(f, lane), env, n) == InLane(Hoisted(f, env, n), lane)
    decreases f
  {
    match f
    case Nil =>
    case Leaf(e, rest) =>
      var m := BlockNumber(e, n);
      OnlyHoisted(rest, lane, env, m);
      InLaneFirst(if Frameless(e) then [Stamp(env, n, NO_TRACE, PayloadOf(e.change))] else [],
                  Hoisted(rest, env, m), lane);
    case Call(_, _, _, kids, _, rest) =>
      var m := BlockAfter(kids, n);
      OnlyHoisted(kids, lane, env, n);
      OnlyHoisted(rest, lane, env, m);
      OnlyBlock(kids, lane, n);
      InLaneConcat(Hoisted(kids, env, n), Hoisted(rest, env, m), lane);
  }

  /** `g`, which is `f` seen in `lane`, leaves there what `f` does. */
  ghost predicate BuffersLane(f: Forest, g: Forest, lane: Lane, env: Env, n: u64, top: Frame) {
    && Stampable(f, Some(top)) && Stampable(g, Some(top))
    && Buffered(g, env, n, top) == InLane(Buffered(f, env, n, top), lane)
  }

  lemma {:induction false} OnlyBuffered(f: Forest, lane: Lane, env: Env, n: u64, top: Frame)
    requires Stampable(f, Some(top))
    ensures BuffersLane(f, Only(f, lane), lane, env, n, top)
    decreases f
  {
    OnlyStampable(f, lane, Some(top));
    match f
    case Nil =>
    case Leaf(e, rest) =>
      var m := BlockNumber(e, n);
      OnlyBuffered(rest, lane, env, m, top);
      InLaneFirst(if Framed(e) then [Stamp(env, n, Trace(top.id, top.depth), PayloadOf(e.change))] else [],
                  Buffered(rest, env, m, top), lane);
    case Call(id, _, depth, kids, reverted, rest) =>
      var m, inner := BlockAfter(kids, n), Frame(id, depth);
      OnlyBuffered(kids, lane, env, n, inner);
      OnlyBuffered(rest, lane, env, m, top);
      OnlyBlock(kids, lane, n);
      InLaneConcat(if reverted then [] else Buffered(kids, env, n, inner), Buffered(rest, env, m, top), lane);
  }

  lemma {:induction false} OnlyOutput(f: Forest, lane: Lane, env: Env, n: u64)
    requires Stampable(f, None)
    ensures Stampable(Only(f, lane), None) && TopOutput(Only(f, lane), env, n) == InLane(TopOutput(f, env, n), lane)
    decreases f
  {
    OnlyStampable(f, lane, None);
    match f
    case Nil =>
    case Leaf(e, rest) =>
      var m := BlockNumber(e, n);
      OnlyOutput(rest, lane, env, m);
      InLaneFirst(if Frameless(e) then [Stamp(env, n, NO_TRACE, PayloadOf(e.change))] else [],
                  TopOutput(rest, env, m), lane);
    case Call(id, _, depth, kids, reverted, rest) =>
      var m, inner := BlockAfter(kids, n), Frame(id, depth);
      OnlyHoisted(kids, lane, env, n);
      OnlyBuffered(kids, lane, env, n, inner);
      OnlyOutput(rest, lane, env, m);
      OnlyBlock(kids, lane, n);
      var kept := if reverted then [] else Buffered(kids, env, n, inner);
      InLaneConcat(Hoisted(kids, env, n) + kept, TopOutput(rest, env, m), lane);
      InLaneConcat(Hoisted(kids, env, n), kept, lane);
  }

  lemma {:induction false} OnlySurvivors(f: Forest, lane: Lane, env: Env, n: u64, top: Option<Frame>, alive: bool)
    requires Stampable(f, top)
    ensures Stampable(Only(f, lane), top)
    ensures Survivors(Only(f, lane), env, n, top, alive) == InLane(Survivors(f, env, n, top, alive), lane)
    decreases f
  {
    OnlyStampable(f, lane, top);
    match f
    case Nil =>
    case Leaf(e, rest) =>
      var m := BlockNumber(e, n);
      OnlySurvivors(rest, lane, env, m, top, alive);
      InLaneFirst(if Frameless(e) || (Framed(e) && alive)
                  then [Stamp(env, n, TraceOf(e, top), PayloadOf(e.change))] else [],
                  Survivors(rest, env, m, top, alive), lane);
    case Call(id, _, depth, kids, reverted, rest) =>
      OnlySurvivors(kids, lane, env, n, Some(Frame(id, depth)), alive && !reverted);
      OnlySurvivors(rest, lane, env, BlockAfter(kids, n), top, alive);
      OnlyBlock(kids, lane, n);
      InLaneConcat(Survivors(kids, env, n, Some(Frame(id, depth)), alive && !reverted),
                   Survivors(rest, env, BlockAfter(kids, n), top, alive), lane);
  }

  /** The output has the survivors of one lane in input order unless a frameless mutation overtakes a
      framed one in that lane; and if frames can be told from frameless events, exactly then. */
  lemma LaneKeptExactly(f: Forest, lane: Lane, env: Env, n: u64)
    requires Stampable(f, None)
    ensures !OvertakesTop(Only(f, lane)) ==>
              InLane(TopOutput(f, env, n), lane) == InLane(Survivors(f, env, n, None, true), lane)
    ensures Distinct(f) ==>
              (InLane(TopOutput(f, env, n), lane) == InLane(Survivors(f, env, n, None, true), lane)
               <==> !OvertakesTop(Only(f, lane)))
  {
    OnlyOutput(f, lane, env, n);
    OnlySurvivors(f, lane, env, n, None, true);
    OnlyDistinct(f, lane);
    OrderKeptExactly(Only(f, lane), env, n);
  }

  /** Overtaking between lanes is harmless: if it happens within none, the output is recorded in the
      same bucket as the survivors in input order. */
  lemma HarmlessOvertaking(f: Forest, env: Env, n: u64, metadata: Provisional)
    requires Stampable(f, None) && forall lane :: !OvertakesTop(Only(f, lane))
    ensures BucketOf(metadata, TopOutput(f, env, n)) == BucketOf(metadata, Survivors(f, env, n, None, true))
  {
    forall lane ensures InLane(TopOutput(f, env, n), lane) == InLane(Survivors(f, env, n, None, true), lane) {
      LaneKeptExactly(f, lane, env, n);
    }
    InterleavingInvariance(metadata, TopOutput(f, env, n), Survivors(f, env, n, None, true));
  }

  lemma {:induction false} OnlyNoFrameless(f: Forest, lane: Lane)
    requires NoFrameless(f)
    ensures NoFrameless(Only(f, lane))
  {
    match f
    case Nil =>
    case Leaf(_, rest) => OnlyNoFrameless(rest, lane);
    case Call(_, _, _, kids, _, rest) =>
      OnlyNoFrameless(kids, lane);
      OnlyNoFrameless(rest, lane);
  }

  lemma {:induction false} OnlyFramelessAtTop(f: Forest, lane: Lane)
    requires FramelessAtTop(f)
    ensures FramelessAtTop(Only(f, lane))
  {
    match f
    case Nil =>
    case Leaf(_, rest) => OnlyFramelessAtTop(rest, lane);
    case Call(_, _, _, kids, _, rest) =>
      OnlyNoFrameless(kids, lane);
      OnlyFramelessAtTop(rest, lane);
  }
}
