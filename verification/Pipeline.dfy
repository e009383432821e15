/** The stages composed: what a block's event stream becomes after the bridge, the partition, the
    reduction, lifecycle resolution and certification. */
module Pipeline {
  import opened Primitives
  import opened Emes
  import opened FrameTree
  import opened Cse
  import opened Bridge
  import opened BridgeLaws
  import opened Timeline
  import opened Partition
  import opened ReduceIr
  import opened Lifecycle
  import G = Gate1
  import J = Journal
  import Canonicalize

  // ---- Buckets of a translated block ----

  /** The mutations of a transaction, numbered as they are in the block's output. */
  function TxEvents(f: Forest, env: Env, n: u64, first: nat): seq<CseEvent>
    requires Stampable(f, None)
  {
    NumberFrom(TopOutput(f, env, n), first)
  }

  /** The bucket of the transaction `b` begins with; `first` is the sequence number of its Begin. */
  function TxBucket(b: Block, chainId: u64, n: u64, first: nat): Bucket
    requires b.Tx? && Stampable(b.frames, None)
  {
    var env := Env(chainId, b.hash, b.txIndex);
    BucketOf(Stamp(env, n, NO_TRACE, BeginTransaction).provisional, TxEvents(b.frames, env, n, first + 1))
  }

  /** The next sequence number after that transaction. */
  function After(b: Block, chainId: u64, n: u64, first: nat): nat
    requires b.Tx? && Stampable(b.frames, None)
  {
    first + |TopOutput(b.frames, Env(chainId, b.hash, b.txIndex), n)| + 2
  }

  /** One bucket for each transaction of `b`. */
  function BlockBuckets(b: Block, chainId: u64, n: u64, first: nat): seq<Bucket>
    requires BlockStampable(b)
  {
    match b
    case Done => []
    case Loose(e, rest) => BlockBuckets(rest, chainId, BlockNumber(e, n), first)
    case Tx(_, _, frames, _, rest) =>
      [TxBucket(b, chainId, n, first)] + BlockBuckets(rest, chainId, BlockAfter(frames, n), After(b, chainId, n, first))
  }

  lemma NumberedTx(begin: CseEvent, s: seq<CseEvent>, end: CseEvent, after: seq<CseEvent>, k: nat)
    ensures NumberFrom(([begin] + s + [end]) + after, k)
         == [begin.(sequence := k)]
            + (NumberFrom(s, k + 1) + ([end.(sequence := k + 1 + |s|)] + NumberFrom(after, k + |s| + 2)))
  {
  }

  lemma ChangesHaveNoBoundary(s: seq<CseEvent>, k: nat)
    requires AllFromChanges(s)
    ensures NoBoundary(NumberFrom(s, k))
  {
    forall i | 0 <= i < |s| ensures !IsBoundary(NumberFrom(s, k)[i].payload) {
      assert FromChange(s[i]);
    }
  }

  lemma TxParts(b: Block, chainId: u64, n: u64, first: nat, after: seq<CseEvent>)
    requires b.Tx? && Stampable(b.frames, None)
    ensures Parts(None, NumberFrom(TxOutput(Env(chainId, b.hash, b.txIndex), n, b.frames) + after, first))
         == Prepend([TxBucket(b, chainId, n, first)], Parts(None, NumberFrom(after, After(b, chainId, n, first))))
  {
    var env := Env(chainId, b.hash, b.txIndex);
    var begin := Stamp(env, n, NO_TRACE, BeginTransaction);
    var end := Stamp(env, BlockAfter(b.frames, n), NO_TRACE, EndTransaction);
    var s := TopOutput(b.frames, env, n);
    NumberedTx(begin, s, end, after, first);
    OutputFromChanges(b.frames, env, n);
    ChangesHaveNoBoundary(s, first + 1);
    PartsTransaction(begin.(sequence := first), NumberFrom(s, first + 1), end.(sequence := first + 1 + |s|),
                     NumberFrom(after, first + |s| + 2));
  }

  /** Partitioning the translation of a block yields one bucket per transaction, holding exactly
      that transaction's output. */
  lemma {:induction false} BlockParts(b: Block, chainId: u64, n: u64, first: nat)
    requires BlockStampable(b)
    ensures Parts(None, NumberFrom(BlockOutput(b, chainId, n), first)) == Ok(BlockBuckets(b, chainId, n, first))
    decreases b
  {
    match b
    case Done =>
    case Loose(e, rest) => BlockParts(rest, chainId, BlockNumber(e, n), first);
    case Tx(txIndex, hash, frames, _, rest) =>
      TxParts(b, chainId, n, first, BlockOutput(rest, chainId, BlockAfter(frames, n)));
      BlockParts(rest, chainId, BlockAfter(frames, n), After(b, chainId, n, first));
  }

  // ---- Every transaction's table is its state change ----

  /** The state after an event outside every transaction: block rewards and withdrawals change it,
      although the bridge drops such events. */
  function Stray(e: Body, w: J.World): Option<J.World> {
    if J.ChangeWrite(e).None? then Some(w) else J.Apply(w, J.ChangeWrite(e).value)
  }

  /** `b` is executed by the journaled machine from `w`, inside and outside transactions, every
      Before being the current content. */
  predicate Executes(b: Block, w: J.World) {
    match b
    case Done => true
    case Loose(e, rest) => Stray(e, w).Some? && Executes(rest, Stray(e, w).value)
    case Tx(_, _, frames, _, rest) => Ends(frames, w).Some? && Executes(rest, Ends(frames, w).value)
  }

  /** The state after a transaction's frames. */
  function Ends(f: Forest, w: J.World): Option<J.World> {
    var m := J.Play(J.Machine(w, [], []), Flatten(f));
    if m.None? then None else Some(m.value.world)
  }

  /** The table takes the state `w` to the state `final`. */
  ghost predicate Takes(table: map<Key, Reduced>, w: J.World, final: J.World) {
    && w.Keys == final.Keys
    && (forall k :: k in table ==> k in w && table[k].initial == w[k] && table[k].terminal == final[k])
    && (forall k :: k in w && k !in table ==> final[k] == w[k])
  }

  ghost predicate TablesTake(b: Block, w: J.World, reduced: seq<ReducedBucket>)
    requires Executes(b, w)
  {
    match b
    case Done => reduced == []
    case Loose(e, rest) => TablesTake(rest, Stray(e, w).value, reduced)
    case Tx(_, _, frames, _, rest) =>
      && reduced != []
      && Takes(reduced[0].stateTable, w, Ends(frames, w).value)
      && TablesTake(rest, Ends(frames, w).value, reduced[1..])
  }

  lemma {:induction false} ReplayKeepsKeys(events: seq<CseEvent>, w: J.World)
    requires J.Replay(events, w).Some?
    ensures J.Replay(events, w).value.Keys == w.Keys
    decreases |events|
  {
    if events == [] {
    } else {
      ReplayKeepsKeys(events[..|events| - 1], w);
    }
  }

  lemma TxTakes(f: Forest, env: Env, n: u64, first: nat, metadata: Provisional, w: J.World)
    requires Stampable(f, None) && J.InPlace(f) && Ends(f, w).Some?
    ensures var reduced := ReduceBucket(BucketOf(metadata, TxEvents(f, env, n, first)));
            reduced.Ok? && Takes(reduced.value.stateTable, w, Ends(f, w).value)
  {
    J.RollbackRefinement(f, env, n, first, metadata, w);
    ReplayKeepsKeys(TxEvents(f, env, n, first), w);
  }

  /** The transactions' buckets all reduce, to tables that take `w` through the block. */
  ghost predicate Succeeds(b: Block, w: J.World, raw: seq<Bucket>)
    requires Executes(b, w)
  {
    ReduceAll(raw).Ok? && TablesTake(b, w, ReduceAll(raw).value)
  }

  lemma SucceedsCons(b: Block, w: J.World, x: Bucket, raw: seq<Bucket>)
    requires b.Tx? && Executes(b, w) && Succeeds(b.rest, Ends(b.frames, w).value, raw)
    requires ReduceBucket(x).Ok? && Takes(ReduceBucket(x).value.stateTable, w, Ends(b.frames, w).value)
    ensures Succeeds(b, w, [x] + raw)
  {
    var reduced := [ReduceBucket(x).value] + ReduceAll(raw).value;
    assert ([x] + raw)[1..] == raw;
    assert reduced[1..] == ReduceAll(raw).value;
  }

  lemma TxBucketTakes(b: Block, chainId: u64, n: u64, first: nat, w: J.World)
    requires b.Tx? && Stampable(b.frames, None) && J.InPlace(b.frames) && Ends(b.frames, w).Some?
    ensures var reduced := ReduceBucket(TxBucket(b, chainId, n, first));
            reduced.Ok? && Takes(reduced.value.stateTable, w, Ends(b.frames, w).value)
  {
    var env := Env(chainId, b.hash, b.txIndex);
    TxTakes(b.frames, env, n, first + 1, Stamp(env, n, NO_TRACE, BeginTransaction).provisional, w);
  }

  ghost predicate BlockInPlace(b: Block) {
    match b
    case Done => true
    case Loose(_, rest) => BlockInPlace(rest)
    case Tx(_, _, frames, _, rest) => J.InPlace(frames) && BlockInPlace(rest)
  }

  lemma {:induction false} BlockTopInPlace(b: Block)
    requires BlockFramelessAtTop(b)
    ensures BlockInPlace(b)
  {
    match b
    case Done =>
    case Loose(_, rest) => BlockTopInPlace(rest);
    case Tx(_, _, frames, _, rest) =>
      J.TopInPlace(frames);
      BlockTopInPlace(rest);
  }

  lemma {:induction false} BlockTakes(b: Block, chainId: u64, n: u64, first: nat, w: J.World)
    requires BlockStampable(b) && BlockInPlace(b) && Executes(b, w)
    ensures Succeeds(b, w, BlockBuckets(b, chainId, n, first))
    decreases b
  {
    match b
    case Done =>
    case Loose(e, rest) => BlockTakes(rest, chainId, BlockNumber(e, n), first, Stray(e, w).value);
    case Tx(txIndex, hash, frames, _, rest) =>
      var later := After(b, chainId, n, first);
      TxBucketTakes(b, chainId, n, first, w);
      BlockTakes(rest, chainId, BlockAfter(frames, n), later, Ends(frames, w).value);
      SucceedsCons(b, w, TxBucket(b, chainId, n, first), BlockBuckets(rest, chainId, BlockAfter(frames, n), later));
  }

  /** From the raw stream to the tables: on a stream Gate 1 accepts, whose mutations name their
      innermost frame, whose frames fit in 32 bits and which executes from `w` with rollback,
      translation, partition and reduction all succeed, and each transaction's table is the change
      from the state before that transaction to the state after it. Between two tables the state
      moves by the mutations outside transactions, which the bridge drops. */
  lemma PipelineRefinesExecution(stream: seq<Event>, chainId: u64, b: Block, w: J.World)
    requires G.Verdict(stream) == None && G.TagsFollow(G.Start, Bodies(stream))
    requires Unfold(b) == Bodies(stream) && BlockSmallFrames(b) && Executes(b, w)
    ensures var translated := Run(Initial(chainId), 0, Bodies(stream));
            && translated.Ok?
            && Parts(None, translated.value).Ok?
            && Succeeds(b, w, Parts(None, translated.value).value)
  {
    Gate1MakesBridgeTotal(stream, chainId, b);
    TranslateDecides(Bodies(stream), chainId);
    BlockParts(b, chainId, 0, 0);
    StampableAtTop(stream, b);
    BlockTakes(b, chainId, 0, 0, w);
  }

  lemma StampableAtTop(stream: seq<Event>, b: Block)
    requires G.Verdict(stream) == None && G.TagsFollow(G.Start, Bodies(stream))
    requires Unfold(b) == Bodies(stream) && BlockSmallFrames(b)
    ensures BlockStampable(b) && BlockInPlace(b)
  {
    G.VerdictDecides(stream);
    var word :| Unfold(word) == Bodies(stream) && G.BlockWord(word);
    ParseDecides(Bodies(stream), b);
    ParseDecides(Bodies(stream), word);
    G.TagsAgree(b);
    TaggedBlock(b);
    BlockTopInPlace(b);
  }

  // ---- Lifecycle tables of a translated block ----

  predicate SequencesAscend(events: seq<CseEvent>) {
    forall i, j :: 0 <= i < j < |events| ==> events[i].sequence < events[j].sequence
  }

  lemma {:induction false} HistoryAscends(events: seq<CseEvent>, a: Address)
    requires SequencesAscend(events)
    ensures Ascending(LifecycleHistory(events, a))
    ensures forall o :: o in LifecycleHistory(events, a) ==> o.provenance.traceOrdinal <= events[|events| - 1].sequence
    decreases |events|
  {
    if events == [] {
    } else {
      HistoryAscends(events[..|events| - 1], a);
    }
  }

  lemma BucketChronological(metadata: Provisional, events: seq<CseEvent>)
    requires SequencesAscend(events)
    ensures Canonicalize.Chronological(BucketOf(metadata, events).lifecycle)
  {
    var table := BucketOf(metadata, events).lifecycle;
    BucketHolds(metadata, events);
    forall a | a in table ensures table[a] != [] && Ascending(table[a]) {
      assert At(table, a) == LifecycleHistory(events, a);
      HistoryAscends(events, a);
    }
  }

  /** Every lifecycle table the pipeline builds lists its observations in strictly increasing order,
      which is what resolution and canonicalization rely on. */
  lemma {:induction false} BlockChronological(b: Block, chainId: u64, n: u64, first: nat)
    requires BlockStampable(b)
    ensures forall x :: x in BlockBuckets(b, chainId, n, first) ==> Canonicalize.Chronological(x.lifecycle)
    decreases b
  {
    match b
    case Done =>
    case Loose(e, rest) => BlockChronological(rest, chainId, BlockNumber(e, n), first);
    case Tx(txIndex, hash, frames, _, rest) =>
      var env := Env(chainId, hash, txIndex);
      assert SequencesAscend(TxEvents(frames, env, n, first + 1));
      BucketChronological(Stamp(env, n, NO_TRACE, BeginTransaction).provisional, TxEvents(frames, env, n, first + 1));
      BlockChronological(rest, chainId, BlockAfter(frames, n), After(b, chainId, n, first));
  }
}
