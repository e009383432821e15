/** Execution with rollback: a journaled state machine reads the same event stream as the bridge,
    undoing a reverted frame's writes in reverse order. The bridge's output reproduces it. */
module Journal {
  import opened Primitives
  import opened Emes
  import opened FrameTree
  import opened Cse
  import opened Bridge
  import opened BridgeLaws
  import opened Timeline
  import opened Partition
  import opened Lanes
  import opened ReduceIr

  type World = map<Key, Value>

  /** What to restore: a cell and its content before the write. */
  datatype Entry = Entry(key: Key, before: Value)

  datatype Machine = Machine(world: World, journal: seq<Entry>, marks: seq<nat>)

  function Undo(w: World, entries: seq<Entry>): World
    decreases |entries|
  {
    if entries == [] then w
    else
      var last := entries[|entries| - 1];
      Undo(w[last.key := last.before], entries[..|entries| - 1])
  }

  /** A write is possible only where Before is the cell's current content. */
  function Apply(w: World, write: Write): Option<World> {
    if write.key in w && w[write.key] == write.before then Some(w[write.key := write.after]) else None
  }

  /** The cell a reported change writes, with the contents it reports before and after. */
  function Effect(c: Change): Option<Write> {
    match c
    case Balance(a, before, after) => Some(Write(BalanceKey(a), Bytes(before), Bytes(after)))
    case Nonce(a, before, after) => Some(Write(NonceKey(a), Count(before), Count(after)))
    case Code(a, before, after) => Some(Write(CodeKey(a), Bytes(before), Bytes(after)))
    case Storage(a, slot, before, after) => Some(Write(StorageKey(a, slot), Bytes(before), Bytes(after)))
    case AccountCreated(_, _) => None
    case SelfDestruct(_, _) => None
  }

  /** The bridge's payload for a change writes what the change reports. */
  lemma PayloadHasEffect(c: Change)
    ensures WriteOf(PayloadOf(c)) == Effect(c)
  {
  }

  function PlayStep(m: Machine, e: Body): Option<Machine> {
    match e
    case Mutation(_, change) =>
      (match Effect(change)
       case None => Some(m)
       case Some(write) =>
         var next := Apply(m.world, write);
         if next.None? then None
         else Some(m.(world := next.value, journal := m.journal + [Entry(write.key, write.before)])))
    case FrameEnter(_, _, _) => Some(m.(marks := m.marks + [|m.journal|]))
    case FrameExit(_, reverted) =>
      if m.marks == [] || |m.journal| < m.marks[|m.marks| - 1] then None
      else
        var mark, marks := m.marks[|m.marks| - 1], m.marks[..|m.marks| - 1];
        if reverted then Some(Machine(Undo(m.world, m.journal[mark..]), m.journal[..mark], marks))
        else Some(m.(marks := marks))
    case BlockStart(_) => Some(m)
    case BlockCommit => Some(m)
    case TxStart(_, _) => None
    case TxEnd(_) => None
  }

  function Play(m: Machine, s: seq<Body>): Option<Machine>
    decreases |s|
  {
    if s == [] then Some(m)
    else
      var next := PlayStep(m, s[0]);
      if next.None? then None else Play(next.value, s[1..])
  }

  // ---- Rollback as forgetting ----

  function ChangeWrite(e: Body): Option<Write> { if e.Mutation? then Effect(e.change) else None }

  /** The state after `f`, when a reverted frame simply leaves the state it was entered in. */
  function Outcome(f: Forest, w: World): Option<World> {
    match f
    case Nil => Some(w)
    case Leaf(e, rest) =>
      if ChangeWrite(e).None? then Outcome(rest, w)
      else
        var next := Apply(w, ChangeWrite(e).value);
        if next.None? then None else Outcome(rest, next.value)
    case Call(_, _, _, kids, reverted, rest) =>
      var inner := Outcome(kids, w);
      if inner.None? then None else Outcome(rest, if reverted then w else inner.value)
  }

  /** What `f` leaves in the journal. */
  function Entries(f: Forest): seq<Entry> {
    match f
    case Nil => []
    case Leaf(e, rest) =>
      (if ChangeWrite(e).Some? then [Entry(ChangeWrite(e).value.key, ChangeWrite(e).value.before)] else [])
          + Entries(rest)
    case Call(_, _, _, kids, reverted, rest) => (if reverted then [] else Entries(kids)) + Entries(rest)
  }

  lemma {:induction false} UndoConcat(w: World, a: seq<Entry>, b: seq<Entry>)
    ensures Undo(w, a + b) == Undo(Undo(w, b), a)
    decreases |b|
  {
    if b == [] {
      assert a + b == a;
    } else {
      var n, last := |b| - 1, b[|b| - 1];
      assert (a + b)[..|a| + n] == a + b[..n];
      UndoConcat(w[last.key := last.before], a, b[..n]);
    }
  }

  /** Undoing what `f` left in the journal restores the state `f` started from. */
  lemma {:induction false} UndoRestores(f: Forest, w: World)
    requires Outcome(f, w).Some?
    ensures Undo(Outcome(f, w).value, Entries(f)) == w
    decreases f
  {
    match f
    case Nil =>
    case Leaf(e, rest) =>
      if ChangeWrite(e).None? {
        UndoRestores(rest, w);
        assert [] + Entries(rest) == Entries(rest);
      } else {
        var write := ChangeWrite(e).value;
        var next := w[write.key := write.after];
        var entry := Entry(write.key, write.before);
        UndoRestores(rest, next);
        UndoConcat(Outcome(rest, next).value, [entry], Entries(rest));
        assert [entry][..0] == [];
        assert next[write.key := write.before] == w;
      }
    case Call(_, _, _, kids, reverted, rest) =>
      var inner := Outcome(kids, w).value;
      UndoRestores(kids, w);
      var kept := if reverted then [] else Entries(kids);
      var next := if reverted then w else inner;
      UndoRestores(rest, next);
      UndoConcat(Outcome(rest, next).value, kept, Entries(rest));
  }

  lemma PlayCons(m: Machine, e: Body, t: seq<Body>)
    ensures Play(m, [e] + t) == if PlayStep(m, e).None? then None else Play(PlayStep(m, e).value, t)
  {
    assert ([e] + t)[1..] == t;
  }

  function Settled(m: Machine, f: Forest): Machine
    requires Outcome(f, m.world).Some?
  {
    m.(world := Outcome(f, m.world).value, journal := m.journal + Entries(f))
  }

  /** Closing a frame around `kids`. */
  lemma ExitPlays(m: Machine, kids: Forest, id: u64, reverted: bool)
    requires Outcome(kids, m.world).Some?
    ensures var inside := Settled(m.(marks := m.marks + [|m.journal|]), kids);
            PlayStep(inside, FrameExit(id, reverted)) == Some(if reverted then m else Settled(m, kids))
  {
    UndoRestores(kids, m.world);
    var journal := m.journal + Entries(kids);
    assert journal[|m.journal|..] == Entries(kids) && journal[..|m.journal|] == m.journal;
    assert (m.marks + [|m.journal|])[..|m.marks|] == m.marks;
  }

  /** The journaled machine computes the forgetful meaning, and stops exactly where that does. */
  lemma {:induction false} PlayForest(m: Machine, f: Forest, t: seq<Body>)
    ensures Play(m, Flatten(f) + t) == if Outcome(f, m.world).None? then None else Play(Settled(m, f), t)
    decreases f
  {
    match f
    case Nil =>
      assert Flatten(f) + t == t && m.journal + [] == m.journal;
    case Leaf(e, rest) =>
      Associate([e], Flatten(rest), t);
      PlayCons(m, e, Flatten(rest) + t);
      if PlayStep(m, e).Some? {
        var next := PlayStep(m, e).value;
        PlayForest(next, rest, t);
        if ChangeWrite(e).Some? {
          Associate(m.journal, [Entry(ChangeWrite(e).value.key, ChangeWrite(e).value.before)], Entries(rest));
        } else {
          assert [] + Entries(rest) == Entries(rest);
        }
      }
    case Call(id, parent, depth, kids, reverted, rest) =>
      var after := Flatten(rest) + t;
      var entered := m.(marks := m.marks + [|m.journal|]);
      Regroup(FrameEnter(id, parent, depth), Flatten(kids), FrameExit(id, reverted), Flatten(rest), t);
      PlayCons(m, FrameEnter(id, parent, depth), Flatten(kids) + ([FrameExit(id, reverted)] + after));
      PlayForest(entered, kids, [FrameExit(id, reverted)] + after);
      if Outcome(kids, m.world).Some? {
        ExitPlays(m, kids, id, reverted);
        PlayCons(Settled(entered, kids), FrameExit(id, reverted), after);
        PlayForest(if reverted then m else Settled(m, kids), rest, t);
        Associate(m.journal, if reverted then [] else Entries(kids), Entries(rest));
        assert m.journal + [] == m.journal;
      }
  }

  // ---- The bridge's output replays to the same state ----

  /** Applying the writes of `events` in order. */
  function Replay(events: seq<CseEvent>, w: World): Option<World> {
    if events == [] then Some(w)
    else
      var before := Replay(events[..|events| - 1], w);
      if before.None? then None
      else
        match WriteOf(events[|events| - 1].payload)
        case None => before
        case Some(write) => Apply(before.value, write)
  }

  lemma ReplayOne(e: CseEvent, w: World)
    ensures Replay([e], w) == match WriteOf(e.payload) case None => Some(w) case Some(write) => Apply(w, write)
  {
    assert [e][..0] == [];
  }

  lemma {:induction false} ReplayConcat(a: seq<CseEvent>, b: seq<CseEvent>, w: World)
    ensures Replay(a + b, w) == if Replay(a, w).None? then None else Replay(b, Replay(a, w).value)
    decreases |b|
  {
    if b == [] {
      assert a + b == a;
    } else {
      var n := |b| - 1;
      assert (a + b)[..|a| + n] == a + b[..n];
      ReplayConcat(a, b[..n], w);
    }
  }

  predicate FramelessWrite(e: Body) { Frameless(e) && ChangeWrite(e).Some? }

  predicate NoFramelessWrite(f: Forest) {
    match f
    case Nil => true
    case Leaf(e, rest) => !FramelessWrite(e) && NoFramelessWrite(rest)
    case Call(_, _, _, kids, _, rest) => NoFramelessWrite(kids) && NoFramelessWrite(rest)
  }

  /** No frameless write inside a reverted frame, where the bridge would keep it. */
  predicate NoneEscapes(f: Forest) {
    match f
    case Nil => true
    case Leaf(_, rest) => NoneEscapes(rest)
    case Call(_, _, _, kids, reverted, rest) =>
      (if reverted then NoFramelessWrite(kids) else NoneEscapes(kids)) && NoneEscapes(rest)
  }

  /** What survives of a reverted frame changes nothing. */
  lemma {:induction false} EscapedReplay(f: Forest, env: Env, n: u64, top: Frame, w: World)
    requires Stampable(f, Some(top)) && NoFramelessWrite(f)
    ensures Replay(Survivors(f, env, n, Some(top), false), w) == Some(w)
    decreases f
  {
    match f
    case Nil =>
    case Leaf(e, rest) =>
      var m := BlockNumber(e, n);
      EscapedReplay(rest, env, m, top, w);
      if Frameless(e) {
        var x := Stamp(env, n, NO_TRACE, PayloadOf(e.change));
        PayloadHasEffect(e.change);
        ReplayOne(x, w);
        ReplayConcat([x], Survivors(rest, env, m, Some(top), false), w);
      } else {
        assert [] + Survivors(rest, env, m, Some(top), false) == Survivors(rest, env, m, Some(top), false);
      }
    case Call(id, _, depth, kids, reverted, rest) =>
      var m, inner := BlockAfter(kids, n), Frame(id, depth);
      EscapedReplay(kids, env, n, inner, w);
      EscapedReplay(rest, env, m, top, w);
      ReplayConcat(Survivors(kids, env, n, Some(inner), false), Survivors(rest, env, m, Some(top), false), w);
  }

  /** Where no frameless write escapes a reverted frame, the survivors take the state to the
      rolled-back outcome. */
  lemma {:induction false} SurvivorsReplay(f: Forest, env: Env, n: u64, top: Option<Frame>, w: World)
    requires Stampable(f, top) && NoneEscapes(f) && Outcome(f, w).Some?
    ensures Replay(Survivors(f, env, n, top, true), w) == Outcome(f, w)
    decreases f
  {
    match f
    case Nil =>
    case Leaf(e, rest) =>
      LeafReplays(e, env, n, top, w);
      var m, next := BlockNumber(e, n), if ChangeWrite(e).None? then w else Apply(w, ChangeWrite(e).value).value;
      SurvivorsReplay(rest, env, m, top, next);
      ReplayConcat(Stamped(e, env, n, top), Survivors(rest, env, m, top, true), w);
    case Call(id, _, depth, kids, reverted, rest) =>
      var m, inner := BlockAfter(kids, n), Frame(id, depth);
      if reverted {
        EscapedReplay(kids, env, n, inner, w);
      } else {
        SurvivorsReplay(kids, env, n, Some(inner), w);
      }
      SurvivorsReplay(rest, env, m, top, if reverted then w else Outcome(kids, w).value);
      ReplayConcat(Survivors(kids, env, n, Some(inner), !reverted), Survivors(rest, env, m, top, true), w);
  }

  /** What a committed mutation contributes to the survivors. */
  function Stamped(e: Body, env: Env, n: u64, top: Option<Frame>): seq<CseEvent>
    requires Framed(e) ==> Fits(top)
  {
    if Frameless(e) || Framed(e) then [Stamp(env, n, TraceOf(e, top), PayloadOf(e.change))] else []
  }

  lemma LeafReplays(e: Body, env: Env, n: u64, top: Option<Frame>, w: World)
    requires Framed(e) ==> Fits(top)
    ensures Replay(Stamped(e, env, n, top), w)
         == if ChangeWrite(e).None? then Some(w) else Apply(w, ChangeWrite(e).value)
  {
    if Frameless(e) || Framed(e) {
      PayloadHasEffect(e.change);
      ReplayOne(Stamp(env, n, TraceOf(e, top), PayloadOf(e.change)), w);
    }
  }

  lemma {:induction false} ReplayReadsPayloads(a: seq<CseEvent>, b: seq<CseEvent>, w: World)
    requires |a| == |b| && forall i :: 0 <= i < |a| ==> a[i].payload == b[i].payload
    ensures Replay(a, w) == Replay(b, w)
  {
    if a == [] {
    } else {
      ReplayReadsPayloads(a[..|a| - 1], b[..|b| - 1], w);
    }
  }

  // ---- The tables of a replayable stream ----

  /** How a key's history relates to the states around the stream. */
  ghost predicate Bridges(h: seq<Observed>, k: Key, w: World, after: World) {
    && Continuous(h)
    && (k in w <==> k in after)
    && (h == [] ==> k in w ==> after[k] == w[k])
    && (h != [] ==> k in w && h[0].before == w[k] && h[|h| - 1].after == after[k])
  }

  lemma {:induction false} HistoryBridges(events: seq<CseEvent>, k: Key, w: World)
    requires Replay(events, w).Some?
    ensures Bridges(History(events, k), k, w, Replay(events, w).value)
  {
    if events == [] {
    } else {
      var n := |events| - 1;
      HistoryBridges(events[..n], k, w);
      HistoryGrows(History(events[..n], k), events[n], k, w, Replay(events[..n], w).value);
    }
  }

  lemma HistoryGrows(h: seq<Observed>, e: CseEvent, k: Key, w: World, now: World)
    requires Bridges(h, k, w, now)
    requires WriteOf(e.payload).Some? ==> Apply(now, WriteOf(e.payload).value).Some?
    ensures Bridges(h + WriteTo(e, k), k, w,
                    if WriteOf(e.payload).None? then now else Apply(now, WriteOf(e.payload).value).value)
  {
    if WriteTo(e, k) == [] {
      assert h + [] == h;
    } else {
      assert (h + WriteTo(e, k))[..|h|] == h;
    }
  }

  // ---- Replaying cell by cell ----

  /** A cell's history can be applied from state `w`. */
  predicate Applies(h: seq<Observed>, k: Key, w: World) { h == [] || (k in w && h[0].before == w[k] && Continuous(h)) }

  ghost predicate AllApply(events: seq<CseEvent>, w: World) { forall k :: Applies(History(events, k), k, w) }

  lemma AppliesSnoc(h: seq<Observed>, o: Observed, k: Key, w: World)
    ensures Applies(h + [o], k, w) ==> Applies(h, k, w)
  {
    ContinuousSnoc(h, o);
    if h != [] { assert (h + [o])[0] == h[0]; }
  }

  lemma AppliesNext(h: seq<Observed>, o: Observed, k: Key, w: World, now: World)
    requires Bridges(h, k, w, now)
    ensures Applies(h + [o], k, w) <==> k in now && now[k] == o.before
  {
    ContinuousSnoc(h, o);
    if h != [] { assert (h + [o])[0] == h[0]; }
  }

  /** One more event can be applied exactly if its cell's history can. */
  lemma ApplyNext(seen: seq<CseEvent>, e: CseEvent, w: World)
    requires Replay(seen, w).Some? && AllApply(seen, w)
    ensures (WriteOf(e.payload).None? || Apply(Replay(seen, w).value, WriteOf(e.payload).value).Some?)
         <==> AllApply(seen + [e], w)
  {
    forall k
      ensures History(seen + [e], k) == History(seen, k) + WriteTo(e, k) && History(seen, k) + [] == History(seen, k)
    {
      HistorySnoc(seen, e, k, k.address);
    }
    if WriteOf(e.payload).Some? {
      var write := WriteOf(e.payload).value;
      HistoryBridges(seen, write.key, w);
      var o := Observed(write.before, write.after, e.sequence);
      AppliesNext(History(seen, write.key), o, write.key, w, Replay(seen, w).value);
    }
  }

  lemma PrefixApplies(seen: seq<CseEvent>, e: CseEvent, w: World)
    requires AllApply(seen + [e], w)
    ensures AllApply(seen, w)
  {
    forall k ensures Applies(History(seen, k), k, w) {
      HistorySnoc(seen, e, k, k.address);
      if WriteTo(e, k) == [] {
        assert History(seen, k) + [] == History(seen, k);
      } else {
        assert WriteTo(e, k) == [WriteTo(e, k)[0]];
        AppliesSnoc(History(seen, k), WriteTo(e, k)[0], k, w);
      }
    }
  }

  /** A stream can be applied exactly if every cell's history can, whatever the order between cells. */
  lemma {:induction false} ReplayDecides(events: seq<CseEvent>, w: World)
    ensures Replay(events, w).Some? <==> AllApply(events, w)
  {
    if events == [] {
    } else {
      var seen, e := events[..|events| - 1], events[|events| - 1];
      assert seen + [e] == events;
      ReplayDecides(seen, w);
      if Replay(seen, w).Some? {
        ApplyNext(seen, e, w);
      } else if AllApply(events, w) {
        PrefixApplies(seen, e, w);
      }
    }
  }

  lemma SameHistoriesReplay(a: seq<CseEvent>, b: seq<CseEvent>, w: World)
    requires forall k :: History(a, k) == History(b, k)
    ensures Replay(a, w) == Replay(b, w)
  {
    ReplayDecides(a, w);
    ReplayDecides(b, w);
    if Replay(a, w).Some? {
      var x, y := Replay(a, w).value, Replay(b, w).value;
      forall k ensures (k in x <==> k in y) && (k in x ==> x[k] == y[k]) {
        HistoryBridges(a, k, w);
        HistoryBridges(b, k, w);
      }
      assert x == y;
    }
  }

  /** The bridge keeps the writes of the committed frames, and in each cell their order. */
  ghost predicate InPlace(f: Forest) { NoneEscapes(f) && forall k :: !OvertakesTop(Only(f, CellLane(k))) }

  lemma {:induction false} NoFramelessNoWrite(f: Forest)
    requires NoFrameless(f)
    ensures NoFramelessWrite(f) && NoneEscapes(f)
  {
    match f
    case Nil =>
    case Leaf(_, rest) => NoFramelessNoWrite(rest);
    case Call(_, _, _, kids, _, rest) =>
      NoFramelessNoWrite(kids);
      NoFramelessNoWrite(rest);
  }

  lemma {:induction false} TopNoneEscapes(f: Forest)
    requires FramelessAtTop(f)
    ensures NoneEscapes(f)
  {
    match f
    case Nil =>
    case Leaf(_, rest) => TopNoneEscapes(rest);
    case Call(_, _, _, kids, _, rest) =>
      NoFramelessNoWrite(kids);
      TopNoneEscapes(rest);
  }

  lemma TopInPlace(f: Forest)
    requires FramelessAtTop(f)
    ensures InPlace(f)
  {
    TopNoneEscapes(f);
    forall k ensures !OvertakesTop(Only(f, CellLane(k))) {
      OnlyFramelessAtTop(f, CellLane(k));
      TopNothingOvertakes(Only(f, CellLane(k)));
    }
  }

  /** Applying a transaction's output in order yields the state the rolled-back execution ends in. */
  lemma OutputReplays(f: Forest, env: Env, n: u64, w: World)
    requires Stampable(f, None) && InPlace(f) && Outcome(f, w).Some?
    ensures Replay(TopOutput(f, env, n), w) == Outcome(f, w)
  {
    var output, survivors := TopOutput(f, env, n), Survivors(f, env, n, None, true);
    HistoriesByLane(output);
    HistoriesByLane(survivors);
    forall k ensures History(output, k) == History(survivors, k) {
      LaneKeptExactly(f, CellLane(k), env, n);
    }
    SameHistoriesReplay(output, survivors, w);
    SurvivorsReplay(f, env, n, None, w);
  }

  /** A stream whose every Before is the current content partitions into tables that all reduce:
      a key is listed iff it was written, from its content before to its content after. */
  lemma ReplayableReduces(metadata: Provisional, events: seq<CseEvent>, w: World)
    requires Replay(events, w).Some? && RefundHistory(events) == []
    ensures var b, after := BucketOf(metadata, events), Replay(events, w).value;
            && ReduceBucket(b).Ok?
            && (forall k :: k in ReduceBucket(b).value.stateTable <==> History(events, k) != [])
            && (forall k :: k in ReduceBucket(b).value.stateTable ==>
                  var t := ReduceBucket(b).value.stateTable[k];
                  k in w && k in after && t.initial == w[k] && t.terminal == after[k])
            && (forall k :: k in w && k !in ReduceBucket(b).value.stateTable ==> k in after && after[k] == w[k])
  {
    var b, after := BucketOf(metadata, events), Replay(events, w).value;
    BucketHolds(metadata, events);
    forall k ensures Bridges(History(events, k), k, w, after) { HistoryBridges(events, k, w); }
    ReduceTableDecides(b.stateTables);
    forall k | k in b.stateTables
      ensures b.stateTables[k] == History(events, k) && b.stateTables[k] != [] && Continuous(b.stateTables[k])
    {
      assert At(b.stateTables, k) == History(events, k);
    }
    forall k | k in b.stateTables
      ensures ReduceIr.Outcome(b.stateTables[k]).initial == w[k]
           && ReduceIr.Outcome(b.stateTables[k]).terminal == after[k]
    {
      ReduceMeans(b.stateTables[k]);
      assert Bridges(History(events, k), k, w, after);
    }
  }

  lemma {:induction false} NoRefunds(s: seq<CseEvent>)
    requires AllFromChanges(s)
    ensures RefundHistory(s) == []
  {
    if s == [] {
    } else {
      assert FromChange(s[|s| - 1]);
      assert forall e :: e in s[..|s| - 1] ==> e in s;
      NoRefunds(s[..|s| - 1]);
    }
  }

  /** Some event of `s` writes `k`. */
  predicate Written(s: seq<CseEvent>, k: Key) { exists e :: e in s && WriteTo(e, k) != [] }

  lemma WrittenSnoc(s: seq<CseEvent>, e: CseEvent, k: Key)
    ensures Written(s + [e], k) <==> Written(s, k) || WriteTo(e, k) != []
  {
    forall x ensures x in s + [e] <==> x in s || x == e {
    }
  }

  lemma {:induction false} HistoryNonEmpty(s: seq<CseEvent>, k: Key)
    ensures History(s, k) != [] <==> Written(s, k)
  {
    if s == [] {
    } else {
      HistoryNonEmpty(s[..|s| - 1], k);
      assert s == s[..|s| - 1] + [s[|s| - 1]];
      WrittenSnoc(s[..|s| - 1], s[|s| - 1], k);
    }
  }

  lemma NumberedFromChanges(s: seq<CseEvent>, k: nat)
    requires AllFromChanges(s)
    ensures AllFromChanges(NumberFrom(s, k))
  {
    forall i | 0 <= i < |s| ensures FromChange(NumberFrom(s, k)[i]) { assert FromChange(s[i]); }
  }

  /** Take a transaction whose mutations all record, as Before, the current content of a journaled
      machine that undoes reverted frames. Let no frameless write sit in a reverted frame, or overtake
      a surviving framed write to the same cell in its root frame. Then the bridge's output for it
      partitions and reduces without error; a key is in the table iff one of its writes survived; and
      every key's terminal value is its content in the machine's final state, its initial value the
      content in the first, keys outside the table being unchanged. */
  lemma RollbackRefinement(f: Forest, env: Env, n: u64, first: nat, metadata: Provisional, w: World)
    requires Stampable(f, None) && InPlace(f)
    requires Play(Machine(w, [], []), Flatten(f)).Some?
    ensures var events := NumberFrom(TopOutput(f, env, n), first);
            var final := Play(Machine(w, [], []), Flatten(f)).value.world;
            var reduced := ReduceBucket(BucketOf(metadata, events));
            && Replay(events, w) == Some(final)
            && reduced.Ok?
            && (forall k :: k in reduced.value.stateTable <==> Written(events, k))
            && (forall k :: k in reduced.value.stateTable ==>
                  var t := reduced.value.stateTable[k];
                  k in w && k in final && t.initial == w[k] && t.terminal == final[k])
            && (forall k :: k in w && k !in reduced.value.stateTable ==> k in final && final[k] == w[k])
  {
    var m := Machine(w, [], []);
    assert Flatten(f) + [] == Flatten(f);
    PlayForest(m, f, []);
    var final := Outcome(f, w).value;
    var output := TopOutput(f, env, n);
    var events := NumberFrom(output, first);
    OutputReplays(f, env, n, w);
    ReplayReadsPayloads(output, events, w);
    OutputFromChanges(f, env, n);
    NumberedFromChanges(output, first);
    NoRefunds(events);
    ReplayableReduces(metadata, events, w);
    forall k ensures History(events, k) != [] <==> Written(events, k) {
      HistoryNonEmpty(events, k);
    }
  }
}
