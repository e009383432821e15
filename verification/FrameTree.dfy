/** The nesting structure of an event stream: call frames inside transactions inside a block.
    `Flatten` and `Unfold` write a structure out as events; `ParseForest` and `Parse` read it back. */
module FrameTree {
  import opened Primitives
  import opened Emes

  /** A run of sibling events and balanced call frames. */
  datatype Forest =
    | Nil
    | Leaf(event: Plain, rest: Forest)
    | Call(id: u64, parent: u64, depth: u64, kids: Forest, reverted: bool, rest: Forest)

  /** A whole stream: loose events and complete transactions. */
  datatype Block =
    | Done
    | Loose(event: Plain, rest: Block)
    | Tx(txIndex: u64, hash: Word, frames: Forest, reverted: bool, rest: Block)

  function Flatten(f: Forest): seq<Body> {
    match f
    case Nil => []
    case Leaf(e, rest) => [e] + Flatten(rest)
    case Call(id, parent, depth, kids, reverted, rest) =>
      [FrameEnter(id, parent, depth)] + (Flatten(kids) + ([FrameExit(id, reverted)] + Flatten(rest)))
  }

  function Unfold(b: Block): seq<Body> {
    match b
    case Done => []
    case Loose(e, rest) => [e] + Unfold(rest)
    case Tx(txIndex, hash, frames, reverted, rest) =>
      [TxStart(txIndex, hash)] + (Flatten(frames) + ([TxEnd(reverted)] + Unfold(rest)))
  }

  predicate IsPlain(b: Body) { b.BlockStart? || b.BlockCommit? || b.Mutation? }

  /** The longest forest `s` begins with, and what is left of `s` after it. */
  function ParseForest(s: seq<Body>): (r: (Forest, seq<Body>))
    ensures |r.1| <= |s|
    decreases |s|
  {
    if s == [] then (Nil, s)
    else if IsPlain(s[0]) then
      var (rest, t) := ParseForest(s[1..]);
      (Leaf(s[0], rest), t)
    else if s[0].FrameEnter? then
      var (kids, t) := ParseForest(s[1..]);
      if t != [] && t[0].FrameExit? && t[0].frameId == s[0].frameId then
        var (rest, u) := ParseForest(t[1..]);
        (Call(s[0].frameId, s[0].parentId, s[0].depth, kids, t[0].reverted, rest), u)
      else (Nil, s)
    else (Nil, s)
  }

  function Parse(s: seq<Body>): Option<Block>
    decreases |s|
  {
    if s == [] then Some(Done)
    else if IsPlain(s[0]) then
      match Parse(s[1..])
      case Some(rest) => Some(Loose(s[0], rest))
      case None => None
    else if s[0].TxStart? then
      var (frames, t) := ParseForest(s[1..]);
      if t != [] && t[0].TxEnd? then
        match Parse(t[1..])
        case Some(rest) => Some(Tx(s[0].txIndex, s[0].hash, frames, t[0].reverted, rest))
        case None => None
      else None
    else None
  }

  lemma Regroup<T>(x: T, inner: seq<T>, y: T, after: seq<T>, rest: seq<T>)
    ensures [x] + (inner + ([y] + (after + rest))) == ([x] + (inner + ([y] + after))) + rest
  {
  }

  lemma LeafFlattens(s: seq<Body>, rest: Forest, t: seq<Body>)
    requires s != [] && IsPlain(s[0]) && s[1..] == Flatten(rest) + t
    ensures s == Flatten(Leaf(s[0], rest)) + t
  {
    assert s == [s[0]] + s[1..];
    Associate([s[0]], Flatten(rest), t);
  }

  lemma CallFlattens(s: seq<Body>, kids: Forest, t: seq<Body>, rest: Forest, u: seq<Body>)
    requires s != [] && s[0].FrameEnter? && s[1..] == Flatten(kids) + t
    requires t != [] && t[0] == FrameExit(s[0].frameId, t[0].FrameExit? && t[0].reverted)
    requires t[1..] == Flatten(rest) + u
    ensures s == Flatten(Call(s[0].frameId, s[0].parentId, s[0].depth, kids, t[0].reverted, rest)) + u
  {
    assert s == [s[0]] + s[1..] && t == [t[0]] + t[1..];
    Regroup(s[0], Flatten(kids), t[0], Flatten(rest), u);
  }

  lemma {:induction false} ParseForestSound(s: seq<Body>)
    ensures s == Flatten(ParseForest(s).0) + ParseForest(s).1
    decreases |s|
  {
    if s == [] {
    } else if IsPlain(s[0]) {
      ParseForestSound(s[1..]);
      var (rest, t) := ParseForest(s[1..]);
      LeafFlattens(s, rest, t);
    } else if s[0].FrameEnter? {
      ParseForestSound(s[1..]);
      var (kids, t) := ParseForest(s[1..]);
      if t != [] && t[0].FrameExit? && t[0].frameId == s[0].frameId {
        ParseForestSound(t[1..]);
        var (rest, u) := ParseForest(t[1..]);
        CallFlattens(s, kids, t, rest, u);
      } else {
        assert Flatten(Nil) + s == s;
      }
    } else {
      assert Flatten(Nil) + s == s;
    }
  }

  /** What can follow a forest without extending it. */
  predicate Stops(t: seq<Body>) { t == [] || t[0].FrameExit? || t[0].TxStart? || t[0].TxEnd? }

  lemma ParseLeaf(e: Plain, u: seq<Body>)
    ensures ParseForest([e] + u) == (Leaf(e, ParseForest(u).0), ParseForest(u).1)
  {
    assert ([e] + u)[1..] == u;
  }

  lemma ParseCall(id: u64, parent: u64, depth: u64, kids: Forest, reverted: bool, u: seq<Body>, after: seq<Body>)
    requires ParseForest(u) == (kids, [FrameExit(id, reverted)] + after)
    ensures ParseForest([FrameEnter(id, parent, depth)] + u)
         == (Call(id, parent, depth, kids, reverted, ParseForest(after).0), ParseForest(after).1)
  {
    assert ([FrameEnter(id, parent, depth)] + u)[1..] == u;
    assert ([FrameExit(id, reverted)] + after)[1..] == after;
  }

  lemma {:induction false} ParseForestComplete(f: Forest, t: seq<Body>)
    requires Stops(t)
    ensures ParseForest(Flatten(f) + t) == (f, t)
    decreases f
  {
    match f
    case Nil => assert Flatten(f) + t == t;
    case Leaf(e, rest) =>
      ParseForestComplete(rest, t);
      Associate([e], Flatten(rest), t);
      ParseLeaf(e, Flatten(rest) + t);
    case Call(id, parent, depth, kids, reverted, rest) =>
      var after := Flatten(rest) + t;
      var tail := [FrameExit(id, reverted)] + after;
      ParseForestComplete(kids, tail);
      ParseForestComplete(rest, t);
      ParseCall(id, parent, depth, kids, reverted, Flatten(kids) + tail, after);
      Regroup(FrameEnter(id, parent, depth), Flatten(kids), FrameExit(id, reverted), Flatten(rest), t);
  }

  lemma {:induction false} ParseSound(s: seq<Body>)
    requires Parse(s).Some?
    ensures Unfold(Parse(s).value) == s
    decreases |s|
  {
    if s == [] {
    } else if IsPlain(s[0]) {
      ParseSound(s[1..]);
    } else {
      ParseForestSound(s[1..]);
      var (frames, t) := ParseForest(s[1..]);
      ParseSound(t[1..]);
      assert s == [s[0]] + (Flatten(frames) + ([t[0]] + t[1..]));
    }
  }

  lemma {:induction false} ParseComplete(b: Block)
    ensures Parse(Unfold(b)) == Some(b)
  {
    var s := Unfold(b);
    match b
    case Done =>
    case Loose(e, rest) =>
      assert s[1..] == Unfold(rest);
      ParseComplete(rest);
    case Tx(txIndex, hash, frames, reverted, rest) =>
      var tail := [TxEnd(reverted)] + Unfold(rest);
      assert s[1..] == Flatten(frames) + tail;
      assert tail[1..] == Unfold(rest);
      ParseForestComplete(frames, tail);
      ParseComplete(rest);
  }

  /** A stream has at most one structure, and `Parse` finds it exactly when there is one. */
  lemma ParseDecides(s: seq<Body>, b: Block)
    ensures Parse(s) == Some(b) <==> Unfold(b) == s
  {
    ParseComplete(b);
    if Parse(s) == Some(b) { ParseSound(s); }
  }
}
