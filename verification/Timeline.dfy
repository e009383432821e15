/** Per-key histories and their reduction (`ir/timeline.rs`). */
module Timeline {
  import opened Primitives
  import opened Cse

  datatype Observed = Observed(before: Value, after: Value, eventId: nat)

  datatype Reduced = Reduced(initial: Value, terminal: Value, provenance: set<nat>)

  datatype TimelineError = EmptyTimeline | DiscontinuousLineage(previousEvent: nat, currentEvent: nat)

  /** Every observation starts from where the one before it ended; see `ContinuousMeans`. */
  predicate Continuous(h: seq<Observed>) {
    |h| < 2 || (h[|h| - 2].after == h[|h| - 1].before && Continuous(h[..|h| - 1]))
  }

  lemma ContinuousSnoc(h: seq<Observed>, o: Observed)
    ensures Continuous(h + [o]) <==> Continuous(h) && (h != [] ==> h[|h| - 1].after == o.before)
  {
    assert (h + [o])[..|h|] == h;
  }

  function EventIds(h: seq<Observed>): set<nat> {
    if h == [] then {} else EventIds(h[..|h| - 1]) + {h[|h| - 1].eventId}
  }

  /** The first position whose observation does not start where its predecessor ended. */
  function FirstBreak(h: seq<Observed>): (i: nat)
    requires !Continuous(h)
    ensures 0 < i < |h| && h[i - 1].after != h[i].before && Continuous(h[..i])
  {
    if Continuous(h[..|h| - 1]) then |h| - 1
    else
      var i := FirstBreak(h[..|h| - 1]);
      assert h[..|h| - 1][..i] == h[..i];
      i
  }

  lemma {:induction false} ContinuousMeans(h: seq<Observed>)
    ensures Continuous(h) <==> forall i :: 0 < i < |h| ==> h[i - 1].after == h[i].before
  {
    if 2 <= |h| {
      ContinuousMeans(h[..|h| - 1]);
    }
  }

  lemma {:induction false} EventIdsMeans(h: seq<Observed>)
    ensures EventIds(h) == set o | o in h :: o.eventId
  {
    if h == [] {
    } else {
      EventIdsMeans(h[..|h| - 1]);
      assert h == h[..|h| - 1] + [h[|h| - 1]];
    }
  }

  /** The reduction, one observation at a time. */
  function Reduce(h: seq<Observed>): Result<Reduced, TimelineError> {
    if h == [] then Err(EmptyTimeline)
    else
      var n := |h| - 1;
      var last := h[n];
      if n == 0 then Ok(Reduced(last.before, last.after, {last.eventId}))
      else
        match Reduce(h[..n])
        case Err(e) => Err(e)
        case Ok(t) =>
          if t.terminal != last.before then Err(DiscontinuousLineage(h[n - 1].eventId, last.eventId))
          else Ok(Reduced(t.initial, last.after, t.provenance + {last.eventId}))
  }

  /** What a reduction means: first Before, last After and all event ids of a continuous timeline,
      or the two events around the first break. */
  lemma {:induction false} ReduceMeans(h: seq<Observed>)
    ensures Reduce(h) ==
      if h == [] then Err(EmptyTimeline)
      else if Continuous(h) then Ok(Reduced(h[0].before, h[|h| - 1].after, EventIds(h)))
      else Err(DiscontinuousLineage(h[FirstBreak(h) - 1].eventId, h[FirstBreak(h)].eventId))
  {
    if |h| == 1 {
      assert EventIds(h) == {} + {h[0].eventId} == {h[0].eventId};
    } else if 1 < |h| {
      ReduceMeans(h[..|h| - 1]);
    }
  }

  method ReduceTimeline(history: seq<Observed>) returns (r: Result<Reduced, TimelineError>)
    ensures r == Reduce(history)
  {
    if |history| == 0 {
      return Err(EmptyTimeline);
    }
    var initial, currentAfter, lastEventId := history[0].before, history[0].after, history[0].eventId;
    var provenance := {lastEventId};
    assert history[..1] == [history[0]];
    for i := 1 to |history|
      invariant Reduce(history[..i]) == Ok(Reduced(initial, currentAfter, provenance))
      invariant lastEventId == history[i - 1].eventId
    {
      var observation := history[i];
      assert history[..i + 1][..i] == history[..i];
      if observation.before != currentAfter {
        ErrorSticks(history, i + 1);
        return Err(DiscontinuousLineage(lastEventId, observation.eventId));
      }
      currentAfter, lastEventId := observation.after, observation.eventId;
      provenance := provenance + {observation.eventId};
    }
    assert history[..|history|] == history;
    return Ok(Reduced(initial, currentAfter, provenance));
  }

  lemma {:induction false} ErrorSticks(h: seq<Observed>, n: nat)
    requires n <= |h| && 0 < n && Reduce(h[..n]).Err?
    ensures Reduce(h) == Reduce(h[..n])
  {
    if n < |h| {
      assert h[..|h| - 1][..n] == h[..n];
      ErrorSticks(h[..|h| - 1], n);
    } else {
      assert h[..n] == h;
    }
  }

  /** Reducing a concatenation is composing the reductions of its parts. */
  lemma {:induction false} ReduceComposes(a: seq<Observed>, b: seq<Observed>)
    requires a != [] && b != []
    ensures Reduce(a + b) ==
      if Reduce(a).Err? then Reduce(a)
      else if Reduce(a).value.terminal != b[0].before then Err(DiscontinuousLineage(a[|a| - 1].eventId, b[0].eventId))
      else if Reduce(b).Err? then Reduce(b)
      else Ok(Reduced(Reduce(a).value.initial, Reduce(b).value.terminal,
                      Reduce(a).value.provenance + Reduce(b).value.provenance))
  {
    var n := |b| - 1;
    assert (a + b)[..|a| + n] == a + b[..n];
    if n == 0 {
      assert a + b[..0] == a;
    } else {
      ReduceComposes(a, b[..n]);
      assert (a + b)[|a| + n - 1] == b[n - 1] && (a + b)[|a| + n] == b[n];
      if Reduce(a).Ok? && Reduce(b[..n]).Ok? {
        var p, q := Reduce(a).value.provenance, Reduce(b[..n]).value.provenance;
        assert (p + q) + {b[n].eventId} == p + (q + {b[n].eventId});
      }
    }
  }
}
