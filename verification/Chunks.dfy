/** From bytes to a state-root commitment: 32-byte chunks, then the Merkle fold (`chunkify`,
    `merkleize`, `ssr_root`). */
module Chunks {
  import opened Primitives
  import opened Commitments
  import opened Merkle

  /** The bytes in 32-byte chunks, the last one padded with zeros; one zero chunk for no bytes. */
  function ChunksOf(bytes: seq<byte>): seq<Word>
    decreases |bytes|
  {
    if |bytes| <= 32 then [bytes + Zeros(32 - |bytes|)] else [bytes[..32]] + ChunksOf(bytes[32..])
  }

  lemma {:induction false} ChunkCount(bytes: seq<byte>)
    ensures |ChunksOf(bytes)| == if bytes == [] then 1 else (|bytes| + 31) / 32
    decreases |bytes|
  {
    if |bytes| <= 32 {
    } else {
      ChunkCount(bytes[32..]);
    }
  }

  /** The chunk at offset `i`. */
  function ChunkAt(bytes: seq<byte>, i: nat): Word
    requires i < |bytes|
  {
    if i + 32 < |bytes| then bytes[i..i + 32] else bytes[i..] + Zeros(32 - (|bytes| - i))
  }

  lemma FirstChunk(bytes: seq<byte>, i: nat)
    requires i < |bytes|
    ensures ChunksOf(bytes[i..]) == [ChunkAt(bytes, i)] + (if i + 32 < |bytes| then ChunksOf(bytes[i + 32..]) else [])
  {
    if i + 32 < |bytes| { assert bytes[i..][..32] == bytes[i..i + 32] && bytes[i..][32..] == bytes[i + 32..]; }
  }

  method Chunkify(bytes: seq<byte>) returns (chunks: seq<Word>)
    ensures chunks == ChunksOf(bytes)
  {
    if bytes == [] {
      assert bytes + Zeros(32) == ZERO_WORD;
      return [ZERO_WORD];
    }
    chunks := [];
    var i := 0;
    assert bytes[0..] == bytes;
    while i < |bytes|
      invariant 0 <= i && ChunksOf(bytes) == chunks + (if i < |bytes| then ChunksOf(bytes[i..]) else [])
    {
      var end := if i + 32 < |bytes| then i + 32 else |bytes|;
      var chunk: Word := bytes[i..end] + Zeros(32 - (end - i));
      assert chunk == ChunkAt(bytes, i);
      FirstChunk(bytes, i);
      Associate(chunks, [chunk], if i + 32 < |bytes| then ChunksOf(bytes[i + 32..]) else []);
      chunks := chunks + [chunk];
      i := i + 32;
    }
    assert chunks + [] == chunks;
  }

  function Flat(chunks: seq<Word>): (r: seq<byte>)
    ensures |r| == 32 * |chunks|
  {
    if chunks == [] then [] else chunks[0] + Flat(chunks[1..])
  }

  lemma FlatCons(c: Word, rest: seq<Word>)
    ensures Flat([c] + rest) == c + Flat(rest)
  {
    assert ([c] + rest)[1..] == rest;
  }

  /** `chunks`, read as bytes, is `bytes` followed by zeros. */
  predicate Carries(chunks: seq<Word>, bytes: seq<byte>) {
    |bytes| <= 32 * |chunks| && Flat(chunks) == bytes + Zeros(32 * |chunks| - |bytes|)
  }

  lemma CarriesOne(bytes: seq<byte>)
    requires |bytes| <= 32
    ensures Carries([bytes + Zeros(32 - |bytes|)], bytes)
  {
    var only: Word := bytes + Zeros(32 - |bytes|);
    FlatCons(only, []);
    assert [only] + [] == [only] && only + [] == only;
  }

  lemma CarriesCons(head: Word, chunks: seq<Word>, tail: seq<byte>)
    requires Carries(chunks, tail)
    ensures Carries([head] + chunks, head + tail)
  {
    FlatCons(head, chunks);
    var zeros := Zeros(32 * |chunks| - |tail|);
    assert head + (tail + zeros) == (head + tail) + zeros;
  }

  /** The chunks are the bytes and nothing but zeros after them. */
  lemma {:induction false} ChunksHoldBytes(bytes: seq<byte>)
    ensures Carries(ChunksOf(bytes), bytes)
    decreases |bytes|
  {
    if |bytes| <= 32 {
      CarriesOne(bytes);
    } else {
      ChunksHoldBytes(bytes[32..]);
      CarriesCons(bytes[..32], ChunksOf(bytes[32..]), bytes[32..]);
      assert bytes == bytes[..32] + bytes[32..];
    }
  }

  lemma FlatsCompare(x: seq<Word>, y: seq<Word>, a: seq<byte>, b: seq<byte>)
    requires |a| <= |b| && |x| == |y| && Carries(x, a) && Carries(y, b)
    ensures x == y <==> b == a + Zeros(|b| - |a|)
  {
    TrailingZeros(a, b, 32 * |x|);
    if Flat(x) == Flat(y) { FlatBinds(x, y); }
  }

  /** Two byte strings chunk alike exactly if they need equally many chunks and the longer is the
      shorter with zeros after it; in particular different strings of equal length never do. */
  lemma ChunksBind(a: seq<byte>, b: seq<byte>)
    requires |a| <= |b|
    ensures ChunksOf(a) == ChunksOf(b) <==> |ChunksOf(a)| == |ChunksOf(b)| && b == a + Zeros(|b| - |a|)
  {
    var x, y := ChunksOf(a), ChunksOf(b);
    if |x| == |y| {
      ChunksHoldBytes(a);
      ChunksHoldBytes(b);
      FlatsCompare(x, y, a, b);
    }
  }

  lemma TrailingZeros(a: seq<byte>, b: seq<byte>, n: nat)
    requires |a| <= |b| <= n
    ensures a + Zeros(n - |a|) == b + Zeros(n - |b|) <==> b == a + Zeros(|b| - |a|)
  {
    var pa := a + Zeros(n - |a|);
    if pa == b + Zeros(n - |b|) {
      assert b == pa[..|b|] == a + Zeros(|b| - |a|);
    }
    if b == a + Zeros(|b| - |a|) {
      assert b + Zeros(n - |b|) == a + Zeros(n - |a|);
    }
  }

  lemma {:induction false} FlatBinds(a: seq<Word>, b: seq<Word>)
    requires |a| == |b| && Flat(a) == Flat(b)
    ensures a == b
  {
    if a == [] {
    } else {
      assert a[0] == Flat(a)[..32] == Flat(b)[..32] == b[0];
      assert Flat(a[1..]) == Flat(a)[32..] == Flat(b)[32..] == Flat(b[1..]);
      FlatBinds(a[1..], b[1..]);
      assert a == [a[0]] + a[1..] && b == [b[0]] + b[1..];
    }
  }

  function SsrRootOf(hash: Hash, bytes: seq<byte>): Word { TreeRoot(hash, Tag(SsrRoot), ChunksOf(bytes)) }

  method Merkleize(hash: Hash, chunks: seq<Word>) returns (root: Word)
    ensures root == TreeRoot(hash, Tag(SsrRoot), chunks)
  {
    root := Fold(hash, Tag(SsrRoot), chunks);
  }

  method ComputeSsrRoot(hash: Hash, bytes: seq<byte>) returns (root: Word)
    ensures root == SsrRootOf(hash, bytes)
  {
    var chunks := Chunkify(bytes);
    root := Merkleize(hash, chunks);
  }

  lemma {:induction false} FlatBlanks(x: seq<Word>, m: nat)
    ensures Flat(x + Blanks(m)) == Flat(x) + Zeros(32 * m)
    decreases |x|, m
  {
    if x != [] {
      FlatCons(x[0], x[1..] + Blanks(m));
      assert x + Blanks(m) == [x[0]] + (x[1..] + Blanks(m));
      FlatBlanks(x[1..], m);
      assert x[0] + (Flat(x[1..]) + Zeros(32 * m)) == Flat(x) + Zeros(32 * m);
    } else if m == 0 {
      assert x + Blanks(0) == [];
    } else {
      FlatBlanks([], m - 1);
      assert x + Blanks(m) == [ZERO_WORD] + ([] + Blanks(m - 1));
      FlatCons(ZERO_WORD, [] + Blanks(m - 1));
      assert Zeros(32) + Zeros(32 * (m - 1)) == Zeros(32 * m);
    }
  }

  lemma CarriesBlanks(x: seq<Word>, bytes: seq<byte>, m: nat)
    requires Carries(x, bytes)
    ensures Carries(x + Blanks(m), bytes)
  {
    FlatBlanks(x, m);
    var n := 32 * |x| - |bytes|;
    assert (bytes + Zeros(n)) + Zeros(32 * m) == bytes + Zeros(n + 32 * m);
  }

  /** `y` is `x` and zero words after it. */
  predicate Lengthens(x: seq<Word>, y: seq<Word>) { |x| <= |y| && y == x + Blanks(|y| - |x|) }

  lemma CarriersExtend(x: seq<Word>, y: seq<Word>, a: seq<byte>, b: seq<byte>)
    requires |a| <= |b| && |x| <= |y| && Carries(x, a) && Carries(y, b)
    ensures Lengthens(x, y) <==> b == a + Zeros(|b| - |a|)
  {
    var wide := x + Blanks(|y| - |x|);
    assert |wide| == |y|;
    CarriesBlanks(x, a, |y| - |x|);
    FlatsCompare(wide, y, a, b);
  }

  lemma MoreBytesMoreChunks(a: seq<byte>, b: seq<byte>)
    requires |a| <= |b|
    ensures |ChunksOf(a)| <= |ChunksOf(b)|
  {
    ChunkCount(a);
    ChunkCount(b);
  }

  /** Appending zeros to the bytes appends zero words to the chunks, and nothing else does. */
  lemma ChunksExtend(a: seq<byte>, b: seq<byte>)
    requires |a| <= |b|
    ensures Lengthens(ChunksOf(a), ChunksOf(b)) <==> b == a + Zeros(|b| - |a|)
  {
    MoreBytesMoreChunks(a, b);
    var x, y := ChunksOf(a), ChunksOf(b);
    assert Carries(x, a) by { ChunksHoldBytes(a); }
    assert Carries(y, b) by { ChunksHoldBytes(b); }
    CarriersExtend(x, y, a, b);
  }

  /** Byte strings of one tree depth with one root differ in trailing zeros only, or two of the inputs
      hashed clash. */
  lemma SsrRootBinds(hash: Hash, a: seq<byte>, b: seq<byte>) returns (c: Option<Clash>)
    requires |a| <= |b| && Depth(|ChunksOf(a)|) == Depth(|ChunksOf(b)|)
    requires SsrRootOf(hash, a) == SsrRootOf(hash, b)
    ensures Extracted(hash, c, Inputs(hash, Tag(SsrRoot), TreeOf(ChunksOf(a))),
                               Inputs(hash, Tag(SsrRoot), TreeOf(ChunksOf(b))))
    ensures c == None ==> b == a + Zeros(|b| - |a|)
  {
    MoreBytesMoreChunks(a, b);
    c := EqualDepthBinds(hash, Tag(SsrRoot), ChunksOf(a), ChunksOf(b));
    ChunksExtend(a, b);
  }

  /** And conversely: zeros appended to the bytes are invisible while the depth stays. */
  lemma SsrRootForgetsZeros(hash: Hash, a: seq<byte>, n: nat)
    requires |ChunksOf(a + Zeros(n))| <= Pow2(Depth(|ChunksOf(a)|))
    ensures SsrRootOf(hash, a + Zeros(n)) == SsrRootOf(hash, a)
  {
    var b := a + Zeros(n);
    MoreBytesMoreChunks(a, b);
    ChunksExtend(a, b);
    PaddingIsInvisible(hash, Tag(SsrRoot), ChunksOf(a), |ChunksOf(b)| - |ChunksOf(a)|);
  }
}
