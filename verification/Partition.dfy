/** Splitting a CSE stream into per-transaction tables (`runtime/builder/src/partition.rs`). */
module Partition {
  import opened Primitives
  import opened Cse
  import opened Timeline
  import opened BridgeLaws

  /** The coordinate of a lifecycle observation; only `traceOrdinal` takes part in comparisons. */
  datatype Provenance = Provenance(traceOrdinal: nat, txIndex: nat, frameId: nat, callDepth: nat, frameOrdinal: nat)

  /** The payload is a ContractCreated or a ContractDestroyed. */
  datatype ObservedLifecycle = ObservedLifecycle(payload: Payload, eventId: nat, provenance: Provenance)

  datatype ObservedLog = ObservedLog(payload: Payload, eventId: nat)

  datatype Bucket = Bucket(
    metadata: Provisional,
    stateTables: map<Key, seq<Observed>>,
    lifecycle: map<Address, seq<ObservedLifecycle>>,
    logs: map<Address, seq<ObservedLog>>,
    gasRefund: Option<seq<Observed>>)

  datatype BuilderError =
    | EventOutsideTransaction
    | UnexpectedTransactionBoundary
    | DuplicateTransactionBoundary
    | TimelineFailure(timelineError: TimelineError)

  function ProvenanceFrom(e: CseEvent): Provenance {
    Provenance(e.sequence, e.provisional.txIndex, e.trace.callFrameId, e.trace.callDepth, 0)
  }

  function At<K, V>(m: map<K, seq<V>>, k: K): seq<V> { if k in m then m[k] else [] }

  /** `entry(k).or_insert_with(Vec::new).push(v)`. */
  function PushAt<K, V>(m: map<K, seq<V>>, k: K, v: V): map<K, seq<V>> { m[k := At(m, k) + [v]] }

  function EmptyBucket(metadata: Provisional): Bucket { Bucket(metadata, map[], map[], map[], None) }

  function Record(b: Bucket, e: CseEvent): Bucket {
    match WriteOf(e.payload)
    case Some(w) => b.(stateTables := PushAt(b.stateTables, w.key, Observed(w.before, w.after, e.sequence)))
    case None =>
      match e.payload
      case ContractCreated(a, _) =>
        b.(lifecycle := PushAt(b.lifecycle, a, ObservedLifecycle(e.payload, e.sequence, ProvenanceFrom(e))))
      case ContractDestroyed(a, _) =>
        b.(lifecycle := PushAt(b.lifecycle, a, ObservedLifecycle(e.payload, e.sequence, ProvenanceFrom(e))))
      case LogEmitted(a, _, _) => b.(logs := PushAt(b.logs, a, ObservedLog(e.payload, e.sequence)))
      case GasRefundChanged(before, after) =>
        var h := if b.gasRefund.Some? then b.gasRefund.value else [];
        b.(gasRefund := Some(h + [Observed(Count(before), Count(after), e.sequence)]))
      case _ => b
  }

  function Prepend<T, E>(done: seq<T>, r: Result<seq<T>, E>): Result<seq<T>, E> {
    if r.Ok? then Ok(done + r.value) else r
  }

  /** The buckets of `events`, starting inside the bucket `current` if there is one. */
  function Parts(current: Option<Bucket>, events: seq<CseEvent>): Result<seq<Bucket>, BuilderError>
    decreases |events|
  {
    if events == [] then if current.Some? then Err(UnexpectedTransactionBoundary) else Ok([])
    else
      match events[0].payload
      case BeginTransaction =>
        if current.Some? then Err(DuplicateTransactionBoundary)
        else Parts(Some(EmptyBucket(events[0].provisional)), events[1..])
      case EndTransaction =>
        if current.None? then Err(UnexpectedTransactionBoundary)
        else Prepend([current.value], Parts(None, events[1..]))
      case _ =>
        if current.None? then Err(EventOutsideTransaction)
        else Parts(Some(Record(current.value, events[0])), events[1..])
  }

  method Process(events: seq<CseEvent>) returns (r: Result<seq<Bucket>, BuilderError>)
    ensures r == Parts(None, events)
  {
    var buckets: seq<Bucket> := [];
    var current: Option<Bucket> := None;
    Associates([], [], Parts(None, events));
    assert events[0..] == events;
    for i := 0 to |events|
      invariant Parts(None, events) == Prepend(buckets, Parts(current, events[i..]))
    {
      var e := events[i];
      assert events[i..][0] == e && events[i..][1..] == events[i + 1..];
      match e.payload {
        case BeginTransaction =>
          if current.Some? { return Err(DuplicateTransactionBoundary); }
          current := Some(EmptyBucket(e.provisional));
        case EndTransaction =>
          if current.None? { return Err(UnexpectedTransactionBoundary); }
          Associates(buckets, [current.value], Parts(None, events[i + 1..]));
          buckets, current := buckets + [current.value], None;
        case _ =>
          if current.None? { return Err(EventOutsideTransaction); }
          current := Some(RecordEvent(current.value, e));
      }
    }
    if current.Some? { return Err(UnexpectedTransactionBoundary); }
    assert buckets + [] == buckets;
    return Ok(buckets);
  }

  /** The inner match of the loop, payload by payload. */
  function RecordEvent(b: Bucket, e: CseEvent): (r: Bucket)
    ensures r == Record(b, e)
  {
    match e.payload
    case BalanceChanged(a, before, after) =>
      b.(stateTables := PushAt(b.stateTables, BalanceKey(a), Observed(Bytes(before), Bytes(after), e.sequence)))
    case NonceUpdated(a, before, after) =>
      b.(stateTables := PushAt(b.stateTables, NonceKey(a), Observed(Count(before), Count(after), e.sequence)))
    case CodeUpdated(a, before, after) =>
      b.(stateTables := PushAt(b.stateTables, CodeKey(a), Observed(Bytes(before), Bytes(after), e.sequence)))
    case StorageSlotUpdated(a, slot, before, after) =>
      b.(stateTables := PushAt(b.stateTables, StorageKey(a, slot), Observed(Bytes(before), Bytes(after), e.sequence)))
    case TransientStorageUpdated(a, slot, before, after) =>
      b.(stateTables := PushAt(b.stateTables, TransientKey(a, slot), Observed(Bytes(before), Bytes(after), e.sequence)))
    case ContractCreated(a, _) =>
      b.(lifecycle := PushAt(b.lifecycle, a, ObservedLifecycle(e.payload, e.sequence, ProvenanceFrom(e))))
    case ContractDestroyed(a, _) =>
      b.(lifecycle := PushAt(b.lifecycle, a, ObservedLifecycle(e.payload, e.sequence, ProvenanceFrom(e))))
    case LogEmitted(a, _, _) => b.(logs := PushAt(b.logs, a, ObservedLog(e.payload, e.sequence)))
    case GasRefundChanged(before, after) =>
      var timeline := if b.gasRefund == None then [] else b.gasRefund.value;
      b.(gasRefund := Some(timeline + [Observed(Count(before), Count(after), e.sequence)]))
    case _ => b
  }

  lemma Associates<T, E>(a: seq<T>, b: seq<T>, r: Result<seq<T>, E>)
    ensures Prepend(a, Prepend(b, r)) == Prepend(a + b, r)
    ensures Prepend([], r) == r
  {
    if r.Ok? {
      Associate(a, b, r.value);
      assert [] + r.value == r.value;
    }
  }

  // ---- What a bucket holds ----

  function BucketOf(metadata: Provisional, events: seq<CseEvent>): Bucket {
    if events == [] then EmptyBucket(metadata)
    else Record(BucketOf(metadata, events[..|events| - 1]), events[|events| - 1])
  }

  function WriteTo(e: CseEvent, k: Key): seq<Observed> {
    match WriteOf(e.payload)
    case Some(w) => if w.key == k then [Observed(w.before, w.after, e.sequence)] else []
    case None => []
  }

  /** The writes to `k`, in stream order. */
  function History(events: seq<CseEvent>, k: Key): seq<Observed> {
    if events == [] then [] else History(events[..|events| - 1], k) + WriteTo(events[|events| - 1], k)
  }

  function LifecycleAt(e: CseEvent, a: Address): seq<ObservedLifecycle> {
    if (e.payload.ContractCreated? || e.payload.ContractDestroyed?) && e.payload.address == a
    then [ObservedLifecycle(e.payload, e.sequence, ProvenanceFrom(e))] else []
  }

  function LifecycleHistory(events: seq<CseEvent>, a: Address): seq<ObservedLifecycle> {
    if events == [] then [] else LifecycleHistory(events[..|events| - 1], a) + LifecycleAt(events[|events| - 1], a)
  }

  function LogAt(e: CseEvent, a: Address): seq<ObservedLog> {
    if e.payload.LogEmitted? && e.payload.address == a then [ObservedLog(e.payload, e.sequence)] else []
  }

  function LogHistory(events: seq<CseEvent>, a: Address): seq<ObservedLog> {
    if events == [] then [] else LogHistory(events[..|events| - 1], a) + LogAt(events[|events| - 1], a)
  }

  function RefundAt(e: CseEvent): seq<Observed> {
    match e.payload
    case GasRefundChanged(before, after) => [Observed(Count(before), Count(after), e.sequence)]
    case _ => []
  }

  function RefundHistory(events: seq<CseEvent>): seq<Observed> {
    if events == [] then [] else RefundHistory(events[..|events| - 1]) + RefundAt(events[|events| - 1])
  }

  /** Each table lists exactly the keys with a non-empty history, and that history. */
  ghost predicate StatesHold(m: map<Key, seq<Observed>>, events: seq<CseEvent>) {
    forall k :: At(m, k) == History(events, k) && (k in m <==> History(events, k) != [])
  }

  ghost predicate LifecycleHolds(m: map<Address, seq<ObservedLifecycle>>, events: seq<CseEvent>) {
    forall a :: At(m, a) == LifecycleHistory(events, a) && (a in m <==> LifecycleHistory(events, a) != [])
  }

  ghost predicate LogsHold(m: map<Address, seq<ObservedLog>>, events: seq<CseEvent>) {
    forall a :: At(m, a) == LogHistory(events, a) && (a in m <==> LogHistory(events, a) != [])
  }

  /** The gas refund is absent exactly if there is nothing to record. */
  predicate RefundHolds(refund: Option<seq<Observed>>, h: seq<Observed>) { refund == if h == [] then None else Some(h) }

  ghost predicate Holds(b: Bucket, metadata: Provisional, events: seq<CseEvent>) {
    && b.metadata == metadata
    && StatesHold(b.stateTables, events)
    && LifecycleHolds(b.lifecycle, events)
    && LogsHold(b.logs, events)
    && RefundHolds(b.gasRefund, RefundHistory(events))
  }

  ghost predicate Grows<K(!new), V(!new)>(m: map<K, seq<V>>, n: map<K, seq<V>>, added: K -> seq<V>) {
    forall k :: At(n, k) == At(m, k) + added(k) && (k in n <==> k in m || added(k) != [])
  }

  lemma PushGrows<K(!new), V(!new)>(m: map<K, seq<V>>, k: K, v: V, added: K -> seq<V>)
    requires forall o :: added(o) == if o == k then [v] else []
    ensures Grows(m, PushAt(m, k, v), added)
  {
    forall o ensures At(PushAt(m, k, v), o) == At(m, o) + added(o) {
      assert At(m, o) + [] == At(m, o);
    }
  }

  lemma SameGrows<K(!new), V(!new)>(m: map<K, seq<V>>, added: K -> seq<V>)
    requires forall o :: added(o) == []
    ensures Grows(m, m, added)
  {
    forall o ensures At(m, o) == At(m, o) + added(o) {
      assert At(m, o) + [] == At(m, o);
    }
  }

  /** Recording one event adds its own observations to each table and nothing else. */
  lemma RecordGrows(b: Bucket, e: CseEvent)
    ensures Grows(b.stateTables, Record(b, e).stateTables, (k: Key) => WriteTo(e, k))
    ensures Grows(b.lifecycle, Record(b, e).lifecycle, (a: Address) => LifecycleAt(e, a))
    ensures Grows(b.logs, Record(b, e).logs, (a: Address) => LogAt(e, a))
  {
    var p := e.payload;
    if WriteOf(p).Some? {
      var w := WriteOf(p).value;
      PushGrows(b.stateTables, w.key, Observed(w.before, w.after, e.sequence), (k: Key) => WriteTo(e, k));
    } else {
      SameGrows(b.stateTables, (k: Key) => WriteTo(e, k));
    }
    if p.ContractCreated? || p.ContractDestroyed? {
      var o := ObservedLifecycle(p, e.sequence, ProvenanceFrom(e));
      PushGrows(b.lifecycle, p.address, o, (a: Address) => LifecycleAt(e, a));
    } else {
      SameGrows(b.lifecycle, (a: Address) => LifecycleAt(e, a));
    }
    if p.LogEmitted? {
      PushGrows(b.logs, p.address, ObservedLog(p, e.sequence), (a: Address) => LogAt(e, a));
    } else {
      SameGrows(b.logs, (a: Address) => LogAt(e, a));
    }
  }

  lemma HistorySnoc(seen: seq<CseEvent>, e: CseEvent, k: Key, a: Address)
    ensures History(seen + [e], k) == History(seen, k) + WriteTo(e, k)
    ensures LifecycleHistory(seen + [e], a) == LifecycleHistory(seen, a) + LifecycleAt(e, a)
    ensures LogHistory(seen + [e], a) == LogHistory(seen, a) + LogAt(e, a)
    ensures RefundHistory(seen + [e]) == RefundHistory(seen) + RefundAt(e)
  {
    assert (seen + [e])[..|seen|] == seen;
  }

  lemma {:induction false} BucketHolds(metadata: Provisional, events: seq<CseEvent>)
    ensures Holds(BucketOf(metadata, events), metadata, events)
  {
    if events == [] {
    } else {
      var seen, e := events[..|events| - 1], events[|events| - 1];
      var b := BucketOf(metadata, seen);
      BucketHolds(metadata, seen);
      assert seen + [e] == events;
      RecordGrows(b, e);
      StatesGrow(b.stateTables, Record(b, e).stateTables, seen, e);
      LifecycleGrows(b.lifecycle, Record(b, e).lifecycle, seen, e);
      LogsGrow(b.logs, Record(b, e).logs, seen, e);
      RefundGrows(b, seen, e);
    }
  }

  lemma StatesGrow(m: map<Key, seq<Observed>>, n: map<Key, seq<Observed>>, seen: seq<CseEvent>, e: CseEvent)
    requires StatesHold(m, seen) && Grows(m, n, (k: Key) => WriteTo(e, k))
    ensures StatesHold(n, seen + [e])
  {
    forall k ensures At(n, k) == History(seen + [e], k) && (k in n <==> History(seen + [e], k) != []) {
      HistorySnoc(seen, e, k, ZERO_ADDRESS);
    }
  }

  lemma LifecycleGrows(
    m: map<Address, seq<ObservedLifecycle>>, n: map<Address, seq<ObservedLifecycle>>, seen: seq<CseEvent>, e: CseEvent)
    requires LifecycleHolds(m, seen) && Grows(m, n, (a: Address) => LifecycleAt(e, a))
    ensures LifecycleHolds(n, seen + [e])
  {
    forall a: Address
      ensures At(n, a) == LifecycleHistory(seen + [e], a) && (a in n <==> LifecycleHistory(seen + [e], a) != [])
    {
      HistorySnoc(seen, e, BalanceKey(a), a);
    }
  }

  lemma LogsGrow(m: map<Address, seq<ObservedLog>>, n: map<Address, seq<ObservedLog>>, seen: seq<CseEvent>, e: CseEvent)
    requires LogsHold(m, seen) && Grows(m, n, (a: Address) => LogAt(e, a))
    ensures LogsHold(n, seen + [e])
  {
    forall a: Address ensures At(n, a) == LogHistory(seen + [e], a) && (a in n <==> LogHistory(seen + [e], a) != []) {
      HistorySnoc(seen, e, BalanceKey(a), a);
    }
  }

  lemma RefundRecorded(b: Bucket, h: seq<Observed>, e: CseEvent)
    requires RefundHolds(b.gasRefund, h)
    ensures RefundHolds(Record(b, e).gasRefund, h + RefundAt(e))
  {
    assert h + [] == h;
  }

  lemma RefundGrows(b: Bucket, seen: seq<CseEvent>, e: CseEvent)
    requires RefundHolds(b.gasRefund, RefundHistory(seen))
    ensures RefundHolds(Record(b, e).gasRefund, RefundHistory(seen + [e]))
  {
    RefundRecorded(b, RefundHistory(seen), e);
    HistorySnoc(seen, e, BalanceKey(ZERO_ADDRESS), ZERO_ADDRESS);
  }

  lemma SameTable<K(!new), V>(m: map<K, seq<V>>, n: map<K, seq<V>>)
    requires forall k :: At(m, k) == At(n, k) && (k in m <==> At(m, k) != []) && (k in n <==> At(n, k) != [])
    ensures m == n
  {
    forall k ensures k in m <==> k in n {
      assert At(m, k) == At(n, k);
    }
    forall k | k in m ensures m[k] == n[k] {
      assert At(m, k) == At(n, k);
    }
  }

  lemma HistoriesDetermineBucket(metadata: Provisional, a: seq<CseEvent>, b: seq<CseEvent>)
    requires forall k :: History(a, k) == History(b, k)
    requires forall x :: LifecycleHistory(a, x) == LifecycleHistory(b, x)
    requires forall x :: LogHistory(a, x) == LogHistory(b, x)
    requires RefundHistory(a) == RefundHistory(b)
    ensures BucketOf(metadata, a) == BucketOf(metadata, b)
  {
    BucketHolds(metadata, a);
    BucketHolds(metadata, b);
    var m, n := BucketOf(metadata, a), BucketOf(metadata, b);
    SameTable(m.stateTables, n.stateTables);
    SameTable(m.lifecycle, n.lifecycle);
    SameTable(m.logs, n.logs);
  }

  // ---- Reordering ----

  /** A table entry that events are recorded in. */
  datatype Lane = CellLane(key: Key) | LifecycleLane(address: Address) | LogLane(address: Address) | RefundLane

  predicate Enters(e: CseEvent, lane: Lane) {
    match lane
    case CellLane(k) => WriteTo(e, k) != []
    case LifecycleLane(a) => LifecycleAt(e, a) != []
    case LogLane(a) => LogAt(e, a) != []
    case RefundLane => RefundAt(e) != []
  }

  function Entering(e: CseEvent, lane: Lane): seq<CseEvent> { if Enters(e, lane) then [e] else [] }

  /** The events recorded in `lane`, in stream order. */
  function InLane(s: seq<CseEvent>, lane: Lane): seq<CseEvent> {
    if s == [] then [] else InLane(s[..|s| - 1], lane) + Entering(s[|s| - 1], lane)
  }

  lemma InLaneSnoc(s: seq<CseEvent>, e: CseEvent, lane: Lane)
    ensures InLane(s + [e], lane) == InLane(s, lane) + Entering(e, lane)
  {
    assert (s + [e])[..|s|] == s;
  }

  lemma {:induction false} InLaneConcat(s: seq<CseEvent>, t: seq<CseEvent>, lane: Lane)
    ensures InLane(s + t, lane) == InLane(s, lane) + InLane(t, lane)
    decreases |t|
  {
    if t == [] {
      assert s + t == s;
    } else {
      var init, last := t[..|t| - 1], t[|t| - 1];
      assert s + t == (s + init) + [last];
      InLaneSnoc(s + init, last, lane);
      InLaneConcat(s, init, lane);
    }
  }

  lemma CellStep(seen: seq<CseEvent>, kept: seq<CseEvent>, e: CseEvent, entering: seq<CseEvent>, k: Key)
    requires History(seen, k) == History(kept, k)
    requires entering == [e] || (entering == [] && WriteTo(e, k) == [])
    ensures History(seen + [e], k) == History(kept + entering, k)
  {
    HistorySnoc(seen, e, k, k.address);
    if entering == [] {
      assert kept + entering == kept && History(seen, k) + [] == History(seen, k);
    } else {
      HistorySnoc(kept, e, k, k.address);
    }
  }

  lemma CellInLaneStep(seen: seq<CseEvent>, e: CseEvent, k: Key)
    requires History(seen, k) == History(InLane(seen, CellLane(k)), k)
    ensures History(seen + [e], k) == History(InLane(seen + [e], CellLane(k)), k)
  {
    CellStep(seen, InLane(seen, CellLane(k)), e, Entering(e, CellLane(k)), k);
    InLaneSnoc(seen, e, CellLane(k));
  }

  lemma LifecycleStep(seen: seq<CseEvent>, kept: seq<CseEvent>, e: CseEvent, entering: seq<CseEvent>, a: Address)
    requires LifecycleHistory(seen, a) == LifecycleHistory(kept, a)
    requires entering == [e] || (entering == [] && LifecycleAt(e, a) == [])
    ensures LifecycleHistory(seen + [e], a) == LifecycleHistory(kept + entering, a)
  {
    HistorySnoc(seen, e, BalanceKey(a), a);
    if entering == [] {
      assert kept + entering == kept && LifecycleHistory(seen, a) + [] == LifecycleHistory(seen, a);
    } else {
      HistorySnoc(kept, e, BalanceKey(a), a);
    }
  }

  lemma LifecycleInLaneStep(seen: seq<CseEvent>, e: CseEvent, a: Address)
    requires LifecycleHistory(seen, a) == LifecycleHistory(InLane(seen, LifecycleLane(a)), a)
    ensures LifecycleHistory(seen + [e], a) == LifecycleHistory(InLane(seen + [e], LifecycleLane(a)), a)
  {
    LifecycleStep(seen, InLane(seen, LifecycleLane(a)), e, Entering(e, LifecycleLane(a)), a);
    InLaneSnoc(seen, e, LifecycleLane(a));
  }

  lemma LogStep(seen: seq<CseEvent>, kept: seq<CseEvent>, e: CseEvent, entering: seq<CseEvent>, a: Address)
    requires LogHistory(seen, a) == LogHistory(kept, a)
    requires entering == [e] || (entering == [] && LogAt(e, a) == [])
    ensures LogHistory(seen + [e], a) == LogHistory(kept + entering, a)
  {
    HistorySnoc(seen, e, BalanceKey(a), a);
    if entering == [] {
      assert kept + entering == kept && LogHistory(seen, a) + [] == LogHistory(seen, a);
    } else {
      HistorySnoc(kept, e, BalanceKey(a), a);
    }
  }

  lemma LogInLaneStep(seen: seq<CseEvent>, e: CseEvent, a: Address)
    requires LogHistory(seen, a) == LogHistory(InLane(seen, LogLane(a)), a)
    ensures LogHistory(seen + [e], a) == LogHistory(InLane(seen + [e], LogLane(a)), a)
  {
    LogStep(seen, InLane(seen, LogLane(a)), e, Entering(e, LogLane(a)), a);
    InLaneSnoc(seen, e, LogLane(a));
  }

  lemma RefundStep(seen: seq<CseEvent>, kept: seq<CseEvent>, e: CseEvent, entering: seq<CseEvent>)
    requires RefundHistory(seen) == RefundHistory(kept)
    requires entering == [e] || (entering == [] && RefundAt(e) == [])
    ensures RefundHistory(seen + [e]) == RefundHistory(kept + entering)
  {
    HistorySnoc(seen, e, BalanceKey(ZERO_ADDRESS), ZERO_ADDRESS);
    if entering == [] {
      assert kept + entering == kept && RefundHistory(seen) + [] == RefundHistory(seen);
    } else {
      HistorySnoc(kept, e, BalanceKey(ZERO_ADDRESS), ZERO_ADDRESS);
    }
  }

  lemma RefundInLaneStep(seen: seq<CseEvent>, e: CseEvent)
    requires RefundHistory(seen) == RefundHistory(InLane(seen, RefundLane))
    ensures RefundHistory(seen + [e]) == RefundHistory(InLane(seen + [e], RefundLane))
  {
    RefundStep(seen, InLane(seen, RefundLane), e, Entering(e, RefundLane));
    InLaneSnoc(seen, e, RefundLane);
  }

  /** Every history is the history of its lane's own events. */
  ghost predicate LanesDecide(s: seq<CseEvent>) {
    && (forall k :: History(s, k) == History(InLane(s, CellLane(k)), k))
    && (forall a :: LifecycleHistory(s, a) == LifecycleHistory(InLane(s, LifecycleLane(a)), a))
    && (forall a :: LogHistory(s, a) == LogHistory(InLane(s, LogLane(a)), a))
    && RefundHistory(s) == RefundHistory(InLane(s, RefundLane))
  }

  lemma NoEventsNoHistories()
    ensures LanesDecide([])
  {
  }

  lemma LanesDecideStep(seen: seq<CseEvent>, e: CseEvent)
    requires LanesDecide(seen)
    ensures LanesDecide(seen + [e])
  {
    forall k ensures History(seen + [e], k) == History(InLane(seen + [e], CellLane(k)), k) {
      CellInLaneStep(seen, e, k);
    }
    forall a ensures LifecycleHistory(seen + [e], a) == LifecycleHistory(InLane(seen + [e], LifecycleLane(a)), a) {
      LifecycleInLaneStep(seen, e, a);
    }
    forall a ensures LogHistory(seen + [e], a) == LogHistory(InLane(seen + [e], LogLane(a)), a) {
      LogInLaneStep(seen, e, a);
    }
    RefundInLaneStep(seen, e);
  }

  lemma {:induction false} HistoriesByLane(s: seq<CseEvent>)
    ensures LanesDecide(s)
  {
    if s == [] {
      NoEventsNoHistories();
    } else {
      HistoriesByLane(s[..|s| - 1]);
      LanesDecideStep(s[..|s| - 1], s[|s| - 1]);
      assert s[..|s| - 1] + [s[|s| - 1]] == s;
    }
  }

  /** `b` reorders the recorded events of `a`, keeping their order within each lane. */
  ghost predicate SameLanes(a: seq<CseEvent>, b: seq<CseEvent>) { forall lane :: InLane(a, lane) == InLane(b, lane) }

  /** Reordering events across state cells, lifecycle addresses, log addresses and the gas refund is
      invisible in the bucket. */
  lemma InterleavingInvariance(metadata: Provisional, a: seq<CseEvent>, b: seq<CseEvent>)
    requires SameLanes(a, b)
    ensures BucketOf(metadata, a) == BucketOf(metadata, b)
  {
    HistoriesByLane(a);
    HistoriesByLane(b);
    assert forall lane :: InLane(a, lane) == InLane(b, lane);
    HistoriesDetermineBucket(metadata, a, b);
  }

  /** The two events are not recorded in one lane. */
  ghost predicate Independent(e: CseEvent, f: CseEvent) { forall lane :: !Enters(e, lane) || !Enters(f, lane) }

  /** `b` is `a` with two neighbouring independent events exchanged. */
  ghost predicate Swapped(a: seq<CseEvent>, b: seq<CseEvent>) {
    exists i :: 0 <= i && i + 1 < |a| && SwappedAt(a, b, i)
  }

  ghost predicate SwappedAt(a: seq<CseEvent>, b: seq<CseEvent>, i: nat)
    requires i + 1 < |a|
  {
    Independent(a[i], a[i + 1]) && b == a[..i] + ([a[i + 1]] + ([a[i]] + a[i + 2..]))
  }

  lemma InLanePair(e: CseEvent, f: CseEvent, q: seq<CseEvent>, lane: Lane)
    ensures InLane([e] + ([f] + q), lane) == Entering(e, lane) + (Entering(f, lane) + InLane(q, lane))
  {
    InLaneConcat([e], [f] + q, lane);
    InLaneConcat([f], q, lane);
    InLaneSnoc([], e, lane);
    InLaneSnoc([], f, lane);
    assert [] + [e] == [e] && [] + [f] == [f];
  }

  lemma OneEmpty<T>(x: seq<T>, y: seq<T>, q: seq<T>)
    requires x == [] || y == []
    ensures x + (y + q) == y + (x + q)
  {
  }

  lemma SwapKeepsLane(p: seq<CseEvent>, e: CseEvent, f: CseEvent, q: seq<CseEvent>, lane: Lane)
    requires Independent(e, f)
    ensures InLane(p + ([e] + ([f] + q)), lane) == InLane(p + ([f] + ([e] + q)), lane)
  {
    InLaneConcat(p, [e] + ([f] + q), lane);
    InLaneConcat(p, [f] + ([e] + q), lane);
    InLanePair(e, f, q, lane);
    InLanePair(f, e, q, lane);
    OneEmpty(Entering(e, lane), Entering(f, lane), InLane(q, lane));
  }

  lemma SwapKeepsLanes(a: seq<CseEvent>, b: seq<CseEvent>)
    requires Swapped(a, b)
    ensures SameLanes(a, b)
  {
    var i :| 0 <= i && i + 1 < |a| && SwappedAt(a, b, i);
    assert a == a[..i] + ([a[i]] + ([a[i + 1]] + a[i + 2..]));
    forall lane ensures InLane(a, lane) == InLane(b, lane) {
      SwapKeepsLane(a[..i], a[i], a[i + 1], a[i + 2..], lane);
    }
  }

  /** Each stream of the list is the one before it after one exchange. */
  ghost predicate Exchanges(path: seq<seq<CseEvent>>) { forall j :: 0 < j < |path| ==> Swapped(path[j - 1], path[j]) }

  /** Any number of exchanges of neighbouring independent events leaves the bucket as it is. */
  lemma {:induction false} ExchangesKeepBucket(metadata: Provisional, path: seq<seq<CseEvent>>)
    requires path != [] && Exchanges(path)
    ensures SameLanes(path[0], path[|path| - 1])
    ensures BucketOf(metadata, path[0]) == BucketOf(metadata, path[|path| - 1])
  {
    var n := |path| - 1;
    if n == 0 {
    } else {
      ExchangesKeepBucket(metadata, path[..n]);
      SwapKeepsLanes(path[n - 1], path[n]);
      InterleavingInvariance(metadata, path[n - 1], path[n]);
    }
  }

  // ---- Buckets of enveloped streams ----

  predicate NoBoundary(s: seq<CseEvent>) { forall i :: 0 <= i < |s| ==> !IsBoundary(s[i].payload) }

  lemma PartsCons(current: Option<Bucket>, e: CseEvent, t: seq<CseEvent>)
    ensures Parts(current, [e] + t) ==
      if e.payload.BeginTransaction? then
        if current.Some? then Err(DuplicateTransactionBoundary) else Parts(Some(EmptyBucket(e.provisional)), t)
      else if e.payload.EndTransaction? then
        if current.None? then Err(UnexpectedTransactionBoundary) else Prepend([current.value], Parts(None, t))
      else if current.None? then Err(EventOutsideTransaction)
      else Parts(Some(Record(current.value, e)), t)
  {
    assert ([e] + t)[1..] == t;
  }

  lemma {:induction false} PartsInside(metadata: Provisional, seen: seq<CseEvent>, s: seq<CseEvent>, t: seq<CseEvent>)
    requires NoBoundary(s)
    ensures Parts(Some(BucketOf(metadata, seen)), s + t) == Parts(Some(BucketOf(metadata, seen + s)), t)
    decreases |s|
  {
    if s == [] {
      assert s + t == t && seen + s == seen;
    } else {
      var next := seen + [s[0]];
      assert s == [s[0]] + s[1..];
      Associate([s[0]], s[1..], t);
      PartsCons(Some(BucketOf(metadata, seen)), s[0], s[1..] + t);
      assert next[..|next| - 1] == seen;
      PartsInside(metadata, next, s[1..], t);
      Associate(seen, [s[0]], s[1..]);
    }
  }

  /** One transaction at the head of a stream is one bucket, holding that transaction's histories. */
  lemma PartsTransaction(begin: CseEvent, s: seq<CseEvent>, end: CseEvent, t: seq<CseEvent>)
    requires begin.payload.BeginTransaction? && end.payload.EndTransaction? && NoBoundary(s)
    ensures Parts(None, [begin] + (s + ([end] + t))) == Prepend([BucketOf(begin.provisional, s)], Parts(None, t))
  {
    PartsCons(None, begin, s + ([end] + t));
    PartsInside(begin.provisional, [], s, [end] + t);
    assert [] + s == s;
    PartsCons(Some(BucketOf(begin.provisional, s)), end, t);
  }

  function Begins(s: seq<CseEvent>): nat {
    if s == [] then 0 else (if s[0].payload.BeginTransaction? then 1 else 0) + Begins(s[1..])
  }

  /** Partitioning succeeds exactly on enveloped streams, with one bucket per Begin. */
  lemma {:induction false} PartsDecides(current: Option<Bucket>, s: seq<CseEvent>)
    ensures Parts(current, s).Ok? <==> Enveloped(current.Some?, s)
    ensures Parts(current, s).Ok? ==> |Parts(current, s).value| == Begins(s) + (if current.Some? then 1 else 0)
    decreases |s|
  {
    if s == [] {
    } else {
      match s[0].payload
      case BeginTransaction => PartsDecides(Some(EmptyBucket(s[0].provisional)), s[1..]);
      case EndTransaction => PartsDecides(None, s[1..]);
      case _ => if current.Some? { PartsDecides(Some(Record(current.value, s[0])), s[1..]); }
    }
  }
}
