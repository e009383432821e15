/** The creations and destructions a transaction's output reports are those its frames leave. */
module Lifespans {
  import opened Primitives
  import opened Emes
  import opened FrameTree
  import opened Cse
  import opened Bridge
  import opened BridgeLaws
  import opened Partition
  import opened Lanes
  import opened Origins

  predicate IsLife(e: Body, a: Address) {
    e.Mutation? && (e.change.AccountCreated? || e.change.SelfDestruct?) && e.change.address == a
  }

  /** The creations and destructions of `a` that are frameless or have no reverted frame around them. */
  function Lives(f: Forest, a: Address, alive: bool): seq<Change> {
    match f
    case Nil => []
    case Leaf(e, rest) =>
      (if IsLife(e, a) && (e.frameId == NO_FRAME || alive) then [e.change] else []) + Lives(rest, a, alive)
    case Call(_, _, _, kids, reverted, rest) => Lives(kids, a, alive && !reverted) + Lives(rest, a, alive)
  }

  /** The observations report the changes one by one, with their creators and beneficiaries. */
  predicate Told(h: seq<ObservedLifecycle>, changes: seq<Change>) {
    |h| == |changes| && forall i :: 0 <= i < |h| ==> Tells(h[i].payload, changes[i])
  }

  lemma {:induction false} LifecycleConcat(s: seq<CseEvent>, t: seq<CseEvent>, a: Address)
    ensures LifecycleHistory(s + t, a) == LifecycleHistory(s, a) + LifecycleHistory(t, a)
    decreases |t|
  {
    if t == [] {
      assert s + t == s;
    } else {
      var init, last := t[..|t| - 1], t[|t| - 1];
      assert s + t == (s + init) + [last] && t == init + [last];
      LifecycleConcat(s, init, a);
      HistorySnoc(s + init, last, BalanceKey(a), a);
      HistorySnoc(init, last, BalanceKey(a), a);
      Associate(LifecycleHistory(s, a), LifecycleHistory(init, a), LifecycleAt(last, a));
    }
  }

  lemma ToldJoin(g: seq<ObservedLifecycle>, h: seq<ObservedLifecycle>, x: seq<Change>, y: seq<Change>)
    requires Told(g, x) && Told(h, y)
    ensures Told(g + h, x + y)
  {
  }

  lemma LeafTells(e: Body, x: CseEvent, a: Address)
    requires e.Mutation? && x.payload == PayloadOf(e.change)
    ensures Told(LifecycleHistory([x], a), if IsLife(e, a) then [e.change] else [])
  {
    ToldByPayload(e.change);
    HistorySnoc([], x, BalanceKey(a), a);
    assert [] + [x] == [x];
    assert LifecycleHistory([x], a) == LifecycleAt(x, a);
  }

  lemma {:induction false} SurvivorsTell(f: Forest, env: Env, n: u64, top: Option<Frame>, alive: bool, a: Address)
    requires Stampable(f, top)
    ensures Told(LifecycleHistory(Survivors(f, env, n, top, alive), a), Lives(f, a, alive))
    decreases f
  {
    match f
    case Nil =>
    case Leaf(e, rest) =>
      var m := BlockNumber(e, n);
      SurvivorsTell(rest, env, m, top, alive, a);
      if Frameless(e) || (Framed(e) && alive) {
        var x := Stamp(env, n, TraceOf(e, top), PayloadOf(e.change));
        LeafTells(e, x, a);
        LifecycleConcat([x], Survivors(rest, env, m, top, alive), a);
        ToldJoin(LifecycleHistory([x], a), LifecycleHistory(Survivors(rest, env, m, top, alive), a),
                 if IsLife(e, a) then [e.change] else [], Lives(rest, a, alive));
      } else {
        assert [] + Survivors(rest, env, m, top, alive) == Survivors(rest, env, m, top, alive);
        assert [] + Lives(rest, a, alive) == Lives(rest, a, alive);
      }
    case Call(id, _, depth, kids, reverted, rest) =>
      var m, inner := BlockAfter(kids, n), Some(Frame(id, depth));
      SurvivorsTell(kids, env, n, inner, alive && !reverted, a);
      SurvivorsTell(rest, env, m, top, alive, a);
      LifecycleConcat(Survivors(kids, env, n, inner, alive && !reverted), Survivors(rest, env, m, top, alive), a);
      ToldJoin(LifecycleHistory(Survivors(kids, env, n, inner, alive && !reverted), a),
               LifecycleHistory(Survivors(rest, env, m, top, alive), a),
               Lives(kids, a, alive && !reverted), Lives(rest, a, alive));
  }

  lemma {:induction false} NumberedTell(s: seq<CseEvent>, k: nat, a: Address, changes: seq<Change>)
    requires Told(LifecycleHistory(s, a), changes)
    ensures Told(LifecycleHistory(NumberFrom(s, k), a), changes)
    decreases |s|
  {
    if s == [] {
    } else {
      var n := |s| - 1;
      var own := LifecycleAt(s[n], a);
      assert NumberFrom(s, k)[..n] == NumberFrom(s[..n], k);
      NumberedTell(s[..n], k, a, changes[..|changes| - |own|]);
    }
  }

  /** A transaction's lifecycle observations at an address are its surviving creations and destructions
      there, in input order, unless a frameless one overtakes a framed one. */
  lemma OutputTells(f: Forest, env: Env, n: u64, first: nat, a: Address)
    requires Stampable(f, None) && !OvertakesTop(Only(f, LifecycleLane(a)))
    ensures Told(LifecycleHistory(NumberFrom(TopOutput(f, env, n), first), a), Lives(f, a, true))
  {
    var output, survivors := TopOutput(f, env, n), Survivors(f, env, n, None, true);
    LaneKeptExactly(f, LifecycleLane(a), env, n);
    HistoriesByLane(output);
    HistoriesByLane(survivors);
    SurvivorsTell(f, env, n, None, true, a);
    NumberedTell(output, first, a, Lives(f, a, true));
  }
}
