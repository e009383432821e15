/** What an event stream says at a position, read off the events before it. */
module Reading {
  import opened Primitives
  import opened Emes

  datatype OpenFrame = OpenFrame(id: u64, depth: u64)

  function Last(s: seq<Body>): Body
    requires s != []
  {
    s[|s| - 1]
  }

  function Init(s: seq<Body>): (r: seq<Body>)
    requires s != []
    ensures |r| < |s|
  {
    s[..|s| - 1]
  }

  /** The latest transaction boundary opened a transaction. */
  predicate InTx(s: seq<Body>)
    decreases |s|
  {
    s != [] && (Last(s).TxStart? || (!Last(s).TxEnd? && InTx(Init(s))))
  }

  /** The frames entered and not left since the transaction started, outermost first. */
  function OpenFrames(s: seq<Body>): seq<OpenFrame>
    decreases |s|
  {
    if s == [] then []
    else
      var before := OpenFrames(Init(s));
      match Last(s)
      case TxStart(_, _) => []
      case FrameEnter(id, _, depth) => before + [OpenFrame(id, depth)]
      case FrameExit(_, _) => if before == [] then [] else before[..|before| - 1]
      case _ => before
  }

  /** The innermost open frame's identifier. */
  function InnerId(s: seq<Body>): u64 {
    var open := OpenFrames(s);
    if open == [] then NO_FRAME else open[|open| - 1].id
  }

  /** The number of the latest block start. */
  function BlockNow(s: seq<Body>): u64
    decreases |s|
  {
    if s == [] then 0 else if Last(s).BlockStart? then Last(s).number else BlockNow(Init(s))
  }

  /** The hash and the index of the latest transaction. */
  function TxNow(s: seq<Body>): (Word, u64)
    decreases |s|
  {
    if s == [] then (ZERO_WORD, 0) else if Last(s).TxStart? then (Last(s).hash, Last(s).txIndex) else TxNow(Init(s))
  }

  /** The root frames entered since the transaction started. */
  function RootsNow(s: seq<Body>): nat
    decreases |s|
  {
    if s == [] || Last(s).TxStart? then 0
    else RootsNow(Init(s)) + if Last(s).FrameEnter? && OpenFrames(Init(s)) == [] then 1 else 0
  }

  /** The Reverted flag of the latest root frame left since the transaction started. */
  predicate RootReverted(s: seq<Body>)
    decreases |s|
  {
    s != [] && !Last(s).TxStart? &&
    (if Last(s).FrameExit? && |OpenFrames(Init(s))| == 1 then Last(s).reverted else RootReverted(Init(s)))
  }

  /** One more event. */
  lemma ReadNext(s: seq<Body>, e: Body)
    ensures Init(s + [e]) == s && Last(s + [e]) == e
  {
  }
}
