/** Reducing every timeline of every bucket (`runtime/builder/src/reduce.rs`). */
module ReduceIr {
  import opened Primitives
  import opened Ordered
  import opened Cse
  import opened Keys
  import opened Timeline
  import opened Partition

  datatype ReducedBucket = ReducedBucket(
    metadata: Provisional,
    stateTable: map<Key, Reduced>,
    lifecycle: map<Address, seq<ObservedLifecycle>>,
    logs: map<Address, seq<ObservedLog>>,
    gasRefund: Option<Reduced>)

  /** A table's keys in iteration order. */
  function TableKeys<V>(m: map<Key, V>): (r: seq<Key>)
    ensures forall k :: k in r <==> k in m
  {
    KeyOrder();
    Ordered.Keys(KeyLess, m.Keys)
  }

  predicate Reduces(h: seq<Observed>) { Reduce(h).Ok? }

  function Outcome(h: seq<Observed>): Reduced
    requires Reduces(h)
  {
    Reduce(h).value
  }

  function Failure(h: seq<Observed>): TimelineError
    requires !Reduces(h)
  {
    Reduce(h).error
  }

  /** The error of the first key of `keys[i..]` whose timeline does not reduce. */
  function FirstError(keys: seq<Key>, i: nat, m: map<Key, seq<Observed>>): (r: Option<TimelineError>)
    requires i <= |keys| && forall j :: 0 <= j < |keys| ==> keys[j] in m
    ensures r == None <==> forall j :: i <= j < |keys| ==> Reduces(m[keys[j]])
    decreases |keys| - i
  {
    if i == |keys| then None
    else if Reduces(m[keys[i]]) then FirstError(keys, i + 1, m)
    else Some(Failure(m[keys[i]]))
  }

  function ReduceTable(m: map<Key, seq<Observed>>): Result<map<Key, Reduced>, TimelineError> {
    var keys := TableKeys(m);
    match FirstError(keys, 0, m)
    case Some(e) => Err(e)
    case None =>
      assert forall k :: k in m ==> k in keys && Reduces(m[k]);
      Ok(map k | k in m :: Outcome(m[k]))
  }

  function ReduceBucket(b: Bucket): Result<ReducedBucket, BuilderError> {
    match ReduceTable(b.stateTables)
    case Err(e) => Err(TimelineFailure(e))
    case Ok(table) =>
      if b.gasRefund.None? then Ok(ReducedBucket(b.metadata, table, b.lifecycle, b.logs, None))
      else
        match Reduce(b.gasRefund.value)
        case Err(e) => Err(TimelineFailure(e))
        case Ok(t) => Ok(ReducedBucket(b.metadata, table, b.lifecycle, b.logs, Some(t)))
  }

  function ReduceAll(raw: seq<Bucket>): Result<seq<ReducedBucket>, BuilderError> {
    if raw == [] then Ok([])
    else
      match ReduceBucket(raw[0])
      case Err(e) => Err(e)
      case Ok(r) => Prepend([r], ReduceAll(raw[1..]))
  }

  method ReduceOne(h: seq<Observed>) returns (r: Result<Reduced, TimelineError>)
    ensures r == if Reduces(h) then Ok(Outcome(h)) else Err(Failure(h))
  {
    r := ReduceTimeline(h);
  }

  lemma NoError(m: map<Key, seq<Observed>>, keys: seq<Key>)
    requires forall k :: k in keys ==> k in m && Reduces(m[k])
    ensures FirstError(keys, 0, m) == None
  {
    assert forall j :: 0 <= j < |keys| ==> keys[j] in keys;
  }

  lemma TableReduced(m: map<Key, seq<Observed>>, t: map<Key, Reduced>)
    requires t.Keys == m.Keys
    requires forall k :: k in m ==> Reduces(m[k]) && t[k] == Outcome(m[k])
    ensures ReduceTable(m) == Ok(t)
  {
    NoError(m, TableKeys(m));
    assert t == map k | k in m :: Outcome(m[k]);
  }

  method ProcessTable(m: map<Key, seq<Observed>>) returns (r: Result<map<Key, Reduced>, TimelineError>)
    ensures r == ReduceTable(m)
  {
    var reducedTable: map<Key, Reduced> := map[];
    var keys := TableKeys(m);
    for i := 0 to |keys|
      invariant FirstError(keys, 0, m) == FirstError(keys, i, m)
      invariant forall k :: k in reducedTable ==> k in m && Reduces(m[k]) && reducedTable[k] == Outcome(m[k])
      invariant forall j :: 0 <= j < i ==> keys[j] in reducedTable
    {
      var key := keys[i];
      var reduced := ReduceOne(m[key]);
      if reduced.Err? {
        assert FirstError(keys, i, m) == Some(reduced.error);
        return Err(reduced.error);
      }
      assert FirstError(keys, i, m) == FirstError(keys, i + 1, m);
      reducedTable := reducedTable[key := reduced.value];
    }
    assert reducedTable.Keys == m.Keys by {
      forall k | k in m ensures k in reducedTable { assert k in keys; }
    }
    TableReduced(m, reducedTable);
    return Ok(reducedTable);
  }

  method ProcessBucket(bucket: Bucket) returns (r: Result<ReducedBucket, BuilderError>)
    ensures r == ReduceBucket(bucket)
  {
    var table := ProcessTable(bucket.stateTables);
    if table.Err? { return Err(TimelineFailure(table.error)); }
    var gasRefund: Option<Reduced> := None;
    if bucket.gasRefund.Some? {
      var reduced := ReduceTimeline(bucket.gasRefund.value);
      if reduced.Err? { return Err(TimelineFailure(reduced.error)); }
      gasRefund := Some(reduced.value);
    }
    return Ok(ReducedBucket(bucket.metadata, table.value, bucket.lifecycle, bucket.logs, gasRefund));
  }

  method Process(raw: seq<Bucket>) returns (r: Result<seq<ReducedBucket>, BuilderError>)
    ensures r == ReduceAll(raw)
  {
    var reducedBuckets: seq<ReducedBucket> := [];
    Associates([], [], ReduceAll(raw));
    assert raw[0..] == raw;
    for i := 0 to |raw|
      invariant ReduceAll(raw) == Prepend(reducedBuckets, ReduceAll(raw[i..]))
    {
      assert raw[i..][0] == raw[i] && raw[i..][1..] == raw[i + 1..];
      var bucket := ProcessBucket(raw[i]);
      if bucket.Err? { return Err(bucket.error); }
      Associates(reducedBuckets, [bucket.value], ReduceAll(raw[i + 1..]));
      reducedBuckets := reducedBuckets + [bucket.value];
    }
    assert reducedBuckets + [] == reducedBuckets;
    return Ok(reducedBuckets);
  }

  /** A table reduces iff all its timelines do, and then keeps its keys. */
  lemma ReduceTableDecides(m: map<Key, seq<Observed>>)
    ensures ReduceTable(m).Ok? <==> forall k :: k in m ==> m[k] != [] && Continuous(m[k])
    ensures ReduceTable(m).Ok? ==>
              && ReduceTable(m).value.Keys == m.Keys
              && forall k :: k in m ==> Reduces(m[k]) && ReduceTable(m).value[k] == Outcome(m[k])
  {
    forall k | k in m ensures Reduces(m[k]) <==> m[k] != [] && Continuous(m[k]) {
      ReduceMeans(m[k]);
    }
    var keys := TableKeys(m);
    assert forall k :: k in m ==> k in keys;
    assert (forall k :: k in m ==> Reduces(m[k])) <==> forall j :: 0 <= j < |keys| ==> Reduces(m[keys[j]]);
  }
}
