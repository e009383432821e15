/** Which error the recogniser and the bridge report, and where, read off the stream alone. */
module Faults {
  import opened Primitives
  import opened Emes
  import opened Reading
  import opened Gate1

  // ---- Gate 1 ----

  /** The rule event `i` breaks, judged by the events before it. */
  predicate Breaks(stream: seq<Event>, i: nat, rule: Rule)
    requires i < |stream|
  {
    var s, e := Bodies(stream)[..i], stream[i].body;
    match rule
    case SequenceMonotonic => 0 < i && stream[i].sequence <= stream[i - 1].sequence
    case BlockEncapsulation => (e.BlockStart? && i != 0) || (e.BlockCommit? && i != |stream| - 1)
    case TxEncapsulation =>
      if InTx(s) then e.TxStart? || e.BlockCommit? else e.TxEnd? || e.FrameEnter? || e.FrameExit?
    case FrameBalance =>
      (e.TxEnd? && OpenFrames(s) != []) || (e.FrameExit? && (OpenFrames(s) == [] || e.frameId != InnerId(s)))
    case FrameTopology => e.FrameEnter? && e.parentId != InnerId(s)
    case T1Consistency => e.TxEnd? && (1 < RootsNow(s) || (RootsNow(s) == 1 && e.reverted != RootReverted(s)))
  }

  /** Where an event breaks several rules, the one reported. */
  function Precedence(rule: Rule): nat {
    match rule
    case SequenceMonotonic => 0
    case BlockEncapsulation => 1
    case TxEncapsulation => 2
    case FrameBalance => 3
    case FrameTopology => 4
    case T1Consistency => 5
  }

  predicate Lawful(stream: seq<Event>, i: nat)
    requires i < |stream|
  {
    forall r: Rule :: !Breaks(stream, i, r)
  }

  /** `rule` is the first in precedence of those event `i` breaks. */
  predicate BreaksFirst(stream: seq<Event>, i: nat, rule: Rule)
    requires i < |stream|
  {
    Breaks(stream, i, rule) && forall r: Rule :: Breaks(stream, i, r) ==> Precedence(rule) <= Precedence(r)
  }

  /** `err` names the first unlawful event from position `i` on, and the rule it breaks first. */
  predicate Names(stream: seq<Event>, i: nat, err: Gate1Error) {
    && i <= err.index < |stream|
    && BreaksFirst(stream, err.index, err.rule)
    && forall j :: i <= j < err.index ==> Lawful(stream, j)
  }

  function Ids(open: seq<OpenFrame>): (r: seq<u64>)
    ensures |r| == |open|
  {
    seq(|open|, i requires 0 <= i < |open| => open[i].id)
  }

  /** The recogniser's state, read off the events. */
  function StateAt(s: seq<Body>): State { State(InTx(s), Ids(OpenFrames(s)), RootsNow(s), RootReverted(s)) }

  lemma IdsOfInner(s: seq<Body>)
    ensures Top(Ids(OpenFrames(s))) == InnerId(s)
  {
  }

  lemma StepKeepsReading(s: seq<Body>, e: Body, first: bool, last: bool)
    requires Step(StateAt(s), e, first, last).Ok?
    ensures Step(StateAt(s), e, first, last).value == StateAt(s + [e])
  {
    ReadNext(s, e);
    IdsOfInner(s);
    var before, after := OpenFrames(s), OpenFrames(s + [e]);
    match e
    case FrameEnter(id, _, depth) =>
      assert after == before + [OpenFrame(id, depth)];
      assert Ids(after) == Ids(before) + [id];
    case FrameExit(_, _) =>
      assert before != [];
      assert Ids(after) == Ids(before)[..|before| - 1];
    case TxStart(_, _) =>
      assert Ids(after) == [];
    case _ =>
      assert Ids(after) == Ids(before);
  }

  /** A step fails exactly on an unlawful event, with the rule it breaks first. */
  lemma StepNames(stream: seq<Event>, i: nat)
    requires i < |stream|
    ensures var step := Step(StateAt(Bodies(stream)[..i]), stream[i].body, i == 0, i == |stream| - 1);
            if Breaks(stream, i, SequenceMonotonic) then BreaksFirst(stream, i, SequenceMonotonic)
            else if step.Err? then BreaksFirst(stream, i, step.error) else Lawful(stream, i)
  {
    IdsOfInner(Bodies(stream)[..i]);
  }

  lemma OneName(stream: seq<Event>, i: nat, r: Rule, q: Rule)
    requires i < |stream| && BreaksFirst(stream, i, r) && BreaksFirst(stream, i, q)
    ensures r == q
  {
  }

  lemma NamesHere(stream: seq<Event>, i: nat, rule: Rule, err: Gate1Error)
    requires i < |stream| && BreaksFirst(stream, i, rule)
    ensures Names(stream, i, err) <==> err == Gate1Error(i, rule)
  {
    assert Names(stream, i, err) && i < err.index ==> Lawful(stream, i);
    if Names(stream, i, err) && err.index == i { OneName(stream, i, rule, err.rule); }
  }

  lemma NamesLater(stream: seq<Event>, i: nat, err: Gate1Error)
    requires i < |stream| && Lawful(stream, i)
    ensures Names(stream, i, err) <==> Names(stream, i + 1, err)
  {
    assert forall r: Rule :: !Breaks(stream, i, r);
  }

  lemma {:induction false} ScanNames(stream: seq<Event>, i: nat, err: Gate1Error)
    requires i <= |stream| && stream != [] && stream[|stream| - 1].body.BlockCommit?
    requires i == |stream| ==> !InTx(Bodies(stream))
    ensures Scan(stream, i, StateAt(Bodies(stream)[..i])) == Some(err) <==> Names(stream, i, err)
    decreases |stream| - i
  {
    var bodies := Bodies(stream);
    var s := bodies[..i];
    if i == |stream| {
      assert s == bodies;
    } else {
      StepNames(stream, i);
      var step := Step(StateAt(s), stream[i].body, i == 0, i == |stream| - 1);
      if Breaks(stream, i, SequenceMonotonic) {
        NamesHere(stream, i, SequenceMonotonic, err);
      } else if step.Err? {
        NamesHere(stream, i, step.error, err);
      } else {
        NamesLater(stream, i, err);
        StepKeepsReading(s, stream[i].body, i == 0, i == |stream| - 1);
        assert bodies[..i + 1] == s + [stream[i].body];
        if i + 1 == |stream| {
          ReadNext(s, stream[i].body);
          assert bodies == s + [stream[i].body];
        }
        ScanNames(stream, i + 1, err);
      }
    }
  }

  /** Gate 1 reports the first event that breaks a rule, and the first rule in precedence it breaks;
      before that, a stream that is empty or does not run from a BlockStart numbered 0 to a BlockCommit. */
  lemma VerdictNames(stream: seq<Event>, err: Gate1Error)
    ensures Verdict(stream) == Some(err) <==>
              if stream == [] then err == Gate1Error(-1, BlockEncapsulation)
              else if !stream[0].body.BlockStart? || stream[0].sequence != 0
              then err == Gate1Error(0, BlockEncapsulation)
              else if !stream[|stream| - 1].body.BlockCommit? then err == Gate1Error(|stream| - 1, BlockEncapsulation)
              else Names(stream, 0, err)
  {
    if stream != [] && stream[|stream| - 1].body.BlockCommit? {
      assert Bodies(stream)[..0] == [];
      assert StateAt([]) == INITIAL;
      ScanNames(stream, 0, err);
    }
  }
}
