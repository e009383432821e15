/** Which error the validator and the partition report on a stream of canonical events, and where, read
    off the stream alone. */
module StreamFaults {
  import opened Primitives
  import opened Cse
  import opened Partition

  /** The latest boundary of `s` began a transaction. */
  predicate Inside(s: seq<CseEvent>)
    decreases |s|
  {
    s != [] &&
    var last := s[|s| - 1].payload;
    last.BeginTransaction? || (!last.EndTransaction? && Inside(s[..|s| - 1]))
  }

  lemma InsideNext(s: seq<CseEvent>, e: CseEvent)
    ensures Inside(s + [e]) <==> e.payload.BeginTransaction? || (!e.payload.EndTransaction? && Inside(s))
  {
    assert (s + [e])[..|s|] == s;
  }

  // ---- Partition ----

  /** The error event `i` raises. */
  function PartFault(s: seq<CseEvent>, i: nat): Option<BuilderError>
    requires i < |s|
  {
    if Inside(s[..i]) then if s[i].payload.BeginTransaction? then Some(DuplicateTransactionBoundary) else None
    else if s[i].payload.BeginTransaction? then None
    else if s[i].payload.EndTransaction? then Some(UnexpectedTransactionBoundary)
    else Some(EventOutsideTransaction)
  }

  /** The first error from position `i` on; a transaction left open at the end is one, too. */
  predicate PartsFault(s: seq<CseEvent>, i: nat, error: BuilderError)
    requires i <= |s|
    decreases |s| - i
  {
    if i == |s| then Inside(s) && error == UnexpectedTransactionBoundary
    else if PartFault(s, i).Some? then error == PartFault(s, i).value
    else PartsFault(s, i + 1, error)
  }

  lemma {:induction false} PartsFaultFrom(current: Option<Bucket>, s: seq<CseEvent>, i: nat, error: BuilderError)
    requires i <= |s| && (current.Some? <==> Inside(s[..i]))
    ensures Parts(current, s[i..]) == Err(error) <==> PartsFault(s, i, error)
    decreases |s| - i
  {
    if i == |s| {
      assert s[..i] == s;
    } else {
      var e, t := s[i], s[i + 1..];
      assert s[i..] == [e] + t && s[..i + 1] == s[..i] + [e];
      PartsCons(current, e, t);
      InsideNext(s[..i], e);
      if PartFault(s, i).None? {
        var next := if e.payload.BeginTransaction? then Some(EmptyBucket(e.provisional))
                    else if e.payload.EndTransaction? then None else Some(Record(current.value, e));
        PartsFaultFrom(next, s, i + 1, error);
      }
    }
  }

  /** Partitioning fails exactly with the first misplaced event's error, or with an unexpected boundary
      if the stream ends inside a transaction. */
  lemma PartsFails(s: seq<CseEvent>, error: BuilderError)
    ensures Parts(None, s) == Err(error) <==> PartsFault(s, 0, error)
  {
    assert s[0..] == s && s[..0] == [];
    PartsFaultFrom(None, s, 0, error);
  }

  // ---- The validator ----

  /** What is wrong with the payload alone. */
  function PayloadFaultOf(p: Payload): Option<PayloadFault> {
    if p.BalanceChanged? && p.previousBalance == p.currentBalance then Some(NoOpBalance)
    else if p.StorageSlotUpdated? && p.previousValue == p.currentValue then Some(NoOpStorage)
    else if p.ContractCreated? && p.address == ZERO_ADDRESS then Some(NullDeployment)
    else None
  }

  function BoundaryFaultAt(s: seq<CseEvent>, i: nat): Option<BoundaryFault>
    requires i < |s|
  {
    if Inside(s[..i]) then if s[i].payload.BeginTransaction? then Some(NestedBegin) else None
    else if s[i].payload.BeginTransaction? then None
    else if s[i].payload.EndTransaction? then Some(EndWithoutBegin)
    else Some(OutsideEnvelope)
  }

  /** The error event `i` raises in a stream validated from the start: its payload's before its number's
      before its place's. */
  function CheckFault(s: seq<CseEvent>, i: nat): Option<ValidationError>
    requires i < |s|
  {
    if PayloadFaultOf(s[i].payload).Some? then Some(InvalidPayloadState(PayloadFaultOf(s[i].payload).value))
    else if s[i].sequence != i then Some(SequenceBreakage(i, s[i].sequence))
    else if BoundaryFaultAt(s, i).Some? then Some(InvalidBoundaryCondition(BoundaryFaultAt(s, i).value))
    else None
  }

  /** Event `i` is the first to raise an error, and raises `error`. */
  predicate FirstCheckFault(s: seq<CseEvent>, i: nat, error: ValidationError) {
    i < |s| && CheckFault(s, i) == Some(error) && forall j :: 0 <= j < i ==> CheckFault(s, j) == None
  }

  lemma CheckReads(s: seq<CseEvent>, i: nat)
    requires i < |s|
    ensures match CheckFault(s, i)
            case Some(error) => Check(Cursor(i, Inside(s[..i])), s[i]) == Err(error)
            case None => Check(Cursor(i, Inside(s[..i])), s[i]) == Ok(Cursor(i + 1, Inside(s[..i + 1])))
  {
    assert s[..i + 1] == s[..i] + [s[i]];
    InsideNext(s[..i], s[i]);
  }

  lemma {:induction false} CheckAllReads(s: seq<CseEvent>, i: nat, error: ValidationError)
    requires i <= |s| && forall j :: 0 <= j < i ==> CheckFault(s, j) == None
    ensures CheckAll(Cursor(i, Inside(s[..i])), s[i..]) == Err(error) <==> exists k: nat :: FirstCheckFault(s, k, error)
    decreases |s| - i
  {
    if i == |s| {
      assert s[i..] == [];
    } else {
      CheckReads(s, i);
      assert s[i..][1..] == s[i + 1..];
      if CheckFault(s, i).Some? {
        OnlyFirst(s, i, error);
      } else {
        CheckAllReads(s, i + 1, error);
      }
    }
  }

  lemma OnlyFirst(s: seq<CseEvent>, i: nat, error: ValidationError)
    requires i < |s| && CheckFault(s, i).Some? && forall j :: 0 <= j < i ==> CheckFault(s, j) == None
    ensures CheckFault(s, i) == Some(error) <==> exists k: nat :: FirstCheckFault(s, k, error)
  {
    forall k: nat | FirstCheckFault(s, k, error) ensures k == i {
      assert !(k < i) && !(i < k);
    }
    if CheckFault(s, i) == Some(error) { assert FirstCheckFault(s, i, error); }
  }

  /** A reset validator rejects a stream exactly with its first faulty event's error. */
  lemma ValidatorNames(s: seq<CseEvent>, error: ValidationError)
    ensures CheckAll(RESET, s) == Err(error) <==> exists k: nat :: FirstCheckFault(s, k, error)
  {
    assert s[0..] == s && s[..0] == [];
    CheckAllReads(s, 0, error);
  }

  // ---- What a lifecycle observation records ----

  /** Event `i` creates or destroys `a`, and `o` records it with its number and coordinates. */
  predicate Observes(s: seq<CseEvent>, i: nat, a: Address, o: ObservedLifecycle) {
    && i < |s| && (s[i].payload.ContractCreated? || s[i].payload.ContractDestroyed?) && s[i].payload.address == a
    && o.payload == s[i].payload && o.eventId == s[i].sequence
    && o.provenance.traceOrdinal == s[i].sequence && o.provenance.txIndex == s[i].provisional.txIndex
    && o.provenance.frameId == s[i].trace.callFrameId && o.provenance.callDepth == s[i].trace.callDepth
    && o.provenance.frameOrdinal == 0
  }

  lemma {:induction false} ObservationsMean(s: seq<CseEvent>, a: Address, o: ObservedLifecycle)
    ensures o in LifecycleHistory(s, a) <==> exists i: nat :: Observes(s, i, a, o)
    decreases |s|
  {
    if s == [] {
    } else {
      var n := |s| - 1;
      ObservationsMean(s[..n], a, o);
      assert o in LifecycleAt(s[n], a) <==> Observes(s, n, a, o);
      forall i: nat ensures Observes(s, i, a, o) <==> Observes(s[..n], i, a, o) || (i == n && Observes(s, n, a, o)) {
      }
    }
  }
}
