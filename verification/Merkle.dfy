/** The Merkle fold (`merkleize`, `SimpleStorageRootDeriver::derive`): level by level in the source,
    a perfect binary tree in its meaning. */
module Merkle {
  import opened Primitives
  import opened Commitments

  function Pow2(k: nat): (p: nat)
    ensures k < p
  {
    if k == 0 then 1 else 2 * Pow2(k - 1)
  }

  /** The depth of the smallest perfect tree with room for `n` leaves. */
  function Depth(n: nat): (k: nat)
    ensures n <= Pow2(k)
    ensures k > 0 ==> Pow2(k - 1) < n
  {
    if n <= 1 then 0 else 1 + Depth((n + 1) / 2)
  }

  lemma {:induction false} Pow2Grows(j: nat, k: nat)
    requires j <= k
    ensures Pow2(j) <= Pow2(k)
    decreases k
  {
    if j == k {
    } else {
      Pow2Grows(j, k - 1);
    }
  }

  lemma Pow2Strict(j: nat, k: nat)
    requires j < k
    ensures Pow2(j) < Pow2(k)
  {
    Pow2Grows(j, k - 1);
  }

  /** The padded width is the least power of two that is large enough, and less than twice too large. */
  lemma {:induction false} WidthIsLeast(n: nat, k: nat)
    requires n <= Pow2(k)
    ensures Pow2(Depth(n)) <= Pow2(k)
    ensures 1 <= n ==> Pow2(Depth(n)) < 2 * n
  {
    if k < Depth(n) {
      Pow2Grows(k, Depth(n) - 1);
    } else {
      Pow2Grows(Depth(n), k);
    }
  }

  /** `while size < n { size <<= 1 }`. */
  method PaddedWidth(n: nat) returns (size: nat)
    ensures size == Pow2(Depth(n))
  {
    size := 1;
    ghost var k := 0;
    while size < n
      invariant size == Pow2(k) && k <= Depth(n)
      decreases Depth(n) - k
    {
      if k == Depth(n) { assert false; }
      size, k := 2 * size, k + 1;
    }
    if k < Depth(n) {
      Pow2Grows(k, Depth(n) - 1);
    }
  }

  function Blanks(n: nat): seq<Word> { seq(n, _ => ZERO_WORD) }

  function Padded(leaves: seq<Word>): (r: seq<Word>)
    ensures |r| == Pow2(Depth(|leaves|))
  {
    leaves + Blanks(Pow2(Depth(|leaves|)) - |leaves|)
  }

  function Join(hash: Hash, tag: seq<byte>, l: Word, r: Word): Word { hash(tag + (l + r)) }

  datatype Tree<T> = Leaf(value: T) | Node(left: Tree<T>, right: Tree<T>)

  /** The perfect tree of depth `k` over `leaves`. */
  function Perfect<T>(leaves: seq<T>, k: nat): Tree<T>
    requires |leaves| == Pow2(k)
  {
    if k == 0 then Leaf(leaves[0])
    else Node(Perfect(leaves[..Pow2(k - 1)], k - 1), Perfect(leaves[Pow2(k - 1)..], k - 1))
  }

  function Yield<T>(t: Tree<T>): seq<T> {
    match t
    case Leaf(w) => [w]
    case Node(l, r) => Yield(l) + Yield(r)
  }

  lemma {:induction false} YieldOfPerfect<T>(leaves: seq<T>, k: nat)
    requires |leaves| == Pow2(k)
    ensures Yield(Perfect(leaves, k)) == leaves
  {
    if k == 0 {
      assert leaves == [leaves[0]];
    } else {
      YieldOfPerfect(leaves[..Pow2(k - 1)], k - 1);
      YieldOfPerfect(leaves[Pow2(k - 1)..], k - 1);
    }
  }

  function Root(hash: Hash, tag: seq<byte>, t: Tree<Word>): Word {
    match t
    case Leaf(w) => w
    case Node(l, r) => Join(hash, tag, Root(hash, tag, l), Root(hash, tag, r))
  }

  function TreeOf(leaves: seq<Word>): Tree<Word> { Perfect(Padded(leaves), Depth(|leaves|)) }

  function TreeRoot(hash: Hash, tag: seq<byte>, leaves: seq<Word>): Word { Root(hash, tag, TreeOf(leaves)) }

  /** One level up: neighbours joined pairwise. */
  function Level(hash: Hash, tag: seq<byte>, layer: seq<Word>): (r: seq<Word>)
    ensures |r| == |layer| / 2
    decreases |layer|
  {
    if |layer| < 2 then [] else [Join(hash, tag, layer[0], layer[1])] + Level(hash, tag, layer[2..])
  }

  lemma {:induction false} LevelConcat(hash: Hash, tag: seq<byte>, a: seq<Word>, b: seq<Word>)
    requires |a| % 2 == 0
    ensures Level(hash, tag, a + b) == Level(hash, tag, a) + Level(hash, tag, b)
    decreases |a|
  {
    if a == [] {
      assert a + b == b;
    } else {
      assert (a + b)[2..] == a[2..] + b;
      LevelConcat(hash, tag, a[2..], b);
      Associate([Join(hash, tag, a[0], a[1])], Level(hash, tag, a[2..]), Level(hash, tag, b));
    }
  }

  lemma PerfectSplit<T>(l: seq<T>, r: seq<T>, k: nat)
    requires |l| == |r| == Pow2(k)
    ensures Perfect(l + r, k + 1) == Node(Perfect(l, k), Perfect(r, k))
  {
    assert (l + r)[..Pow2(k)] == l && (l + r)[Pow2(k)..] == r;
  }

  lemma LevelOfPair(hash: Hash, tag: seq<byte>, a: Word, b: Word)
    ensures Level(hash, tag, [a, b]) == [Join(hash, tag, a, b)]
  {
    assert [a, b][2..] == [];
  }

  lemma LevelOfHalves(hash: Hash, tag: seq<byte>, l: seq<Word>, r: seq<Word>, k: nat)
    requires |l| == |r| == Pow2(k + 1)
    requires Root(hash, tag, Perfect(Level(hash, tag, l), k)) == Root(hash, tag, Perfect(l, k + 1))
    requires Root(hash, tag, Perfect(Level(hash, tag, r), k)) == Root(hash, tag, Perfect(r, k + 1))
    ensures Root(hash, tag, Perfect(Level(hash, tag, l + r), k + 1)) == Root(hash, tag, Perfect(l + r, k + 2))
  {
    LevelConcat(hash, tag, l, r);
    PerfectSplit(l, r, k + 1);
    PerfectSplit(Level(hash, tag, l), Level(hash, tag, r), k);
  }

  /** Joining one level does not change the root. */
  lemma {:induction false} LevelKeepsRoot(hash: Hash, tag: seq<byte>, layer: seq<Word>, k: nat)
    requires |layer| == Pow2(k + 1)
    ensures Root(hash, tag, Perfect(Level(hash, tag, layer), k)) == Root(hash, tag, Perfect(layer, k + 1))
  {
    if k == 0 {
      assert layer == [layer[0], layer[1]] == [layer[0]] + [layer[1]];
      LevelOfPair(hash, tag, layer[0], layer[1]);
      PerfectSplit([layer[0]], [layer[1]], 0);
    } else {
      var l, r := layer[..Pow2(k)], layer[Pow2(k)..];
      LevelKeepsRoot(hash, tag, l, k - 1);
      LevelKeepsRoot(hash, tag, r, k - 1);
      LevelOfHalves(hash, tag, l, r, k - 1);
      assert layer == l + r;
    }
  }

  /** The inner loop over `layer.chunks(2)`. */
  method JoinPairs(hash: Hash, tag: seq<byte>, layer: seq<Word>) returns (next: seq<Word>)
    requires |layer| % 2 == 0
    ensures next == Level(hash, tag, layer)
  {
    next := [];
    var i := 0;
    assert layer[..0] == [];
    while i < |layer|
      invariant 0 <= i <= |layer| && i % 2 == 0
      invariant next == Level(hash, tag, layer[..i])
    {
      var pair := layer[i..i + 2];
      LevelConcat(hash, tag, layer[..i], pair);
      LevelOfPair(hash, tag, pair[0], pair[1]);
      assert layer[..i + 2] == layer[..i] + pair && pair == [pair[0], pair[1]];
      next := next + [Join(hash, tag, pair[0], pair[1])];
      i := i + 2;
    }
    assert layer[..i] == layer;
  }

  method Pad(leaves: seq<Word>) returns (layer: seq<Word>)
    ensures layer == Padded(leaves)
  {
    layer := if leaves == [] then [ZERO_WORD] else leaves;
    var size := PaddedWidth(|layer|);
    while |layer| < size
      invariant |layer| <= size
      invariant layer + Blanks(size - |layer|) == Padded(leaves)
    {
      assert layer + Blanks(size - |layer|) == (layer + [ZERO_WORD]) + Blanks(size - |layer| - 1);
      layer := layer + [ZERO_WORD];
    }
    assert layer + Blanks(0) == layer;
  }

  /** `merkleize`, for the tag its nodes are hashed under. */
  method Fold(hash: Hash, tag: seq<byte>, leaves: seq<Word>) returns (root: Word)
    ensures root == TreeRoot(hash, tag, leaves)
  {
    var layer := Pad(leaves);
    ghost var k := Depth(|leaves|);
    while |layer| > 1
      invariant |layer| == Pow2(k) && Root(hash, tag, Perfect(layer, k)) == TreeRoot(hash, tag, leaves)
      decreases |layer|
    {
      LevelKeepsRoot(hash, tag, layer, k - 1);
      layer := JoinPairs(hash, tag, layer);
      k := k - 1;
    }
    return layer[0];
  }

  // ---- Binding ----

  /** Everything hashed while folding a tree. */
  ghost function Inputs(hash: Hash, tag: seq<byte>, t: Tree<Word>): set<seq<byte>> {
    match t
    case Leaf(_) => {}
    case Node(l, r) => {tag + (Root(hash, tag, l) + Root(hash, tag, r))} + Inputs(hash, tag, l) + Inputs(hash, tag, r)
  }

  predicate SameShape<T, U>(a: Tree<T>, b: Tree<U>) {
    match a
    case Leaf(_) => b.Leaf?
    case Node(l, r) => b.Node? && SameShape(l, b.left) && SameShape(r, b.right)
  }

  lemma {:induction false} PerfectShape<T, U>(a: seq<T>, b: seq<U>, k: nat)
    requires |a| == |b| == Pow2(k)
    ensures SameShape(Perfect(a, k), Perfect(b, k))
  {
    if k == 0 {
    } else {
      PerfectShape(a[..Pow2(k - 1)], b[..Pow2(k - 1)], k - 1);
      PerfectShape(a[Pow2(k - 1)..], b[Pow2(k - 1)..], k - 1);
    }
  }

  lemma WordPair(a: Word, b: Word, x: Word, y: Word)
    requires a + b == x + y
    ensures a == x && b == y
  {
    assert a == (a + b)[..32] && x == (x + y)[..32] && b == (a + b)[32..] && y == (x + y)[32..];
  }

  /** A joined pair determines the two digests, or it clashes. */
  lemma JoinBinds(hash: Hash, tag: seq<byte>, a: Word, b: Word, x: Word, y: Word) returns (c: Option<Clash>)
    requires Join(hash, tag, a, b) == Join(hash, tag, x, y)
    ensures Extracted(hash, c, {tag + (a + b)}, {tag + (x + y)})
    ensures c == None ==> a == x && b == y
  {
    if tag + (a + b) == tag + (x + y) {
      assert a + b == (tag + (a + b))[|tag|..] == (tag + (x + y))[|tag|..] == x + y;
      WordPair(a, b, x, y);
      c := None;
    } else {
      c := Some(Clash(tag + (a + b), tag + (x + y)));
    }
  }

  /** Equal roots of equally shaped trees: equal trees, or a clash among the inputs hashed. */
  lemma {:induction false} RootBinds(hash: Hash, tag: seq<byte>, a: Tree<Word>, b: Tree<Word>)
    returns (c: Option<Clash>)
    requires SameShape(a, b) && Root(hash, tag, a) == Root(hash, tag, b)
    ensures Extracted(hash, c, Inputs(hash, tag, a), Inputs(hash, tag, b))
    ensures c == None ==> a == b
  {
    c := None;
    if a.Node? {
      c := JoinBinds(hash, tag, Root(hash, tag, a.left), Root(hash, tag, a.right),
                     Root(hash, tag, b.left), Root(hash, tag, b.right));
      if c == None {
        c := RootBinds(hash, tag, a.left, b.left);
      }
      if c == None {
        c := RootBinds(hash, tag, a.right, b.right);
      }
    }
  }

  /** Evidence against the hash function: a clash, or an input hashing to the padding word. */
  datatype Evidence = NoEvidence | TwoInputs(clash: Clash) | ZeroDigest(x: seq<byte>)

  predicate Supported(hash: Hash, v: Evidence, xs: set<seq<byte>>, ys: set<seq<byte>>) {
    match v
    case NoEvidence => true
    case TwoInputs(c) => Clashes(hash, c) && c.x in xs && c.y in ys
    case ZeroDigest(x) => hash(x) == ZERO_WORD && (x in xs || x in ys)
  }

  lemma Mirrored(hash: Hash, v: Evidence, xs: set<seq<byte>>, ys: set<seq<byte>>) returns (w: Evidence)
    requires Supported(hash, v, xs, ys)
    ensures Supported(hash, w, ys, xs) && (w.NoEvidence? <==> v.NoEvidence?) && (w.ZeroDigest? <==> v.ZeroDigest?)
  {
    w := if v.TwoInputs? then TwoInputs(Clash(v.clash.y, v.clash.x)) else v;
  }

  // ---- What a root determines, for any two numbers of leaves ----

  /** The layer `m` levels above `layer`. */
  function Climb(hash: Hash, tag: seq<byte>, layer: seq<Word>, m: nat): seq<Word>
    decreases m
  {
    if m == 0 then layer else Climb(hash, tag, Level(hash, tag, layer), m - 1)
  }

  lemma PerfectInputs(hash: Hash, tag: seq<byte>, l: seq<Word>, r: seq<Word>, k: nat)
    requires |l| == |r| == Pow2(k)
    ensures var x, y := Perfect(l, k), Perfect(r, k);
            Inputs(hash, tag, Perfect(l + r, k + 1))
            == {tag + (Root(hash, tag, x) + Root(hash, tag, y))} + Inputs(hash, tag, x) + Inputs(hash, tag, y)
  {
    PerfectSplit(l, r, k);
  }

  /** Folding `layer` hashes everything that folding the level above it does. */
  ghost predicate NothingNew(hash: Hash, tag: seq<byte>, layer: seq<Word>, k: nat) {
    && |layer| == Pow2(k + 1)
    && Inputs(hash, tag, Perfect(Level(hash, tag, layer), k)) <= Inputs(hash, tag, Perfect(layer, k + 1))
  }

  lemma LevelInputsOfHalves(hash: Hash, tag: seq<byte>, l: seq<Word>, r: seq<Word>, k: nat)
    requires NothingNew(hash, tag, l, k) && NothingNew(hash, tag, r, k)
    ensures NothingNew(hash, tag, l + r, k + 1)
  {
    LevelConcat(hash, tag, l, r);
    LevelKeepsRoot(hash, tag, l, k);
    LevelKeepsRoot(hash, tag, r, k);
    PerfectInputs(hash, tag, l, r, k + 1);
    PerfectInputs(hash, tag, Level(hash, tag, l), Level(hash, tag, r), k);
  }

  lemma OneLevelInputs(hash: Hash, tag: seq<byte>, layer: seq<Word>)
    requires |layer| == 2
    ensures NothingNew(hash, tag, layer, 0)
  {
  }

  lemma {:induction false} LevelInputs(hash: Hash, tag: seq<byte>, layer: seq<Word>, k: nat)
    requires |layer| == Pow2(k + 1)
    ensures NothingNew(hash, tag, layer, k)
  {
    if k == 0 {
      OneLevelInputs(hash, tag, layer);
    } else {
      var l, r := layer[..Pow2(k)], layer[Pow2(k)..];
      LevelInputs(hash, tag, l, k - 1);
      LevelInputs(hash, tag, r, k - 1);
      LevelInputsOfHalves(hash, tag, l, r, k - 1);
      assert layer == l + r;
    }
  }

  /** Folding `up` from depth `k` is folding `layer` from depth `n`, from some level on. */
  ghost predicate FoldsLike(hash: Hash, tag: seq<byte>, up: seq<Word>, k: nat, layer: seq<Word>, n: nat)
    requires |layer| == Pow2(n)
  {
    && |up| == Pow2(k)
    && Root(hash, tag, Perfect(up, k)) == Root(hash, tag, Perfect(layer, n))
    && Inputs(hash, tag, Perfect(up, k)) <= Inputs(hash, tag, Perfect(layer, n))
  }

  lemma LevelFoldsLike(hash: Hash, tag: seq<byte>, layer: seq<Word>, n: nat)
    requires |layer| == Pow2(n + 1)
    ensures FoldsLike(hash, tag, Level(hash, tag, layer), n, layer, n + 1)
  {
    LevelKeepsRoot(hash, tag, layer, n);
    LevelInputs(hash, tag, layer, n);
  }

  lemma {:induction false} ClimbFoldsLike(hash: Hash, tag: seq<byte>, layer: seq<Word>, n: nat, m: nat, k: nat)
    requires |layer| == Pow2(n) && n == k + m
    ensures FoldsLike(hash, tag, Climb(hash, tag, layer, m), k, layer, n)
    decreases m
  {
    if m == 0 {
    } else {
      LevelFoldsLike(hash, tag, layer, n - 1);
      ClimbFoldsLike(hash, tag, Level(hash, tag, layer), n - 1, m - 1, k);
    }
  }

  /** Layers with one root, `y` in a tree `n - k` levels deeper: `x` is the layer of that tree facing
      it, or two of the inputs hashed clash. */
  lemma LayersBind(hash: Hash, tag: seq<byte>, x: seq<Word>, k: nat, y: seq<Word>, n: nat) returns (c: Option<Clash>)
    requires |x| == Pow2(k) && |y| == Pow2(n) && k <= n
    requires Root(hash, tag, Perfect(x, k)) == Root(hash, tag, Perfect(y, n))
    ensures Extracted(hash, c, Inputs(hash, tag, Perfect(x, k)), Inputs(hash, tag, Perfect(y, n)))
    ensures c == None ==> x == Climb(hash, tag, y, n - k)
  {
    var up := Climb(hash, tag, y, n - k);
    ClimbFoldsLike(hash, tag, y, n, n - k, k);
    PerfectShape(x, up, k);
    c := RootBinds(hash, tag, Perfect(x, k), Perfect(up, k));
    if c == None {
      YieldOfPerfect(x, k);
      YieldOfPerfect(up, k);
    }
  }

  lemma FoldedAlike(hash: Hash, tag: seq<byte>, x: seq<Word>, up: seq<Word>, k: nat, layer: seq<Word>, n: nat)
    requires x == up && |layer| == Pow2(n) && FoldsLike(hash, tag, up, k, layer, n)
    ensures |x| == Pow2(k) && Root(hash, tag, Perfect(x, k)) == Root(hash, tag, Perfect(layer, n))
  {
  }

  /** Two folds with one root: the padded leaves of the shallower tree are the layer of the deeper one
      that is as wide, or two of the inputs hashed clash. */
  lemma TreeRootBinds(hash: Hash, tag: seq<byte>, a: seq<Word>, b: seq<Word>) returns (c: Option<Clash>)
    requires Depth(|a|) <= Depth(|b|) && TreeRoot(hash, tag, a) == TreeRoot(hash, tag, b)
    ensures Extracted(hash, c, Inputs(hash, tag, TreeOf(a)), Inputs(hash, tag, TreeOf(b)))
    ensures c == None ==> Padded(a) == Climb(hash, tag, Padded(b), Depth(|b|) - Depth(|a|))
  {
    c := LayersBind(hash, tag, Padded(a), Depth(|a|), Padded(b), Depth(|b|));
  }

  /** And conversely. */
  lemma FacingLayersMeet(hash: Hash, tag: seq<byte>, a: seq<Word>, b: seq<Word>)
    requires Depth(|a|) <= Depth(|b|) && Padded(a) == Climb(hash, tag, Padded(b), Depth(|b|) - Depth(|a|))
    ensures TreeRoot(hash, tag, a) == TreeRoot(hash, tag, b)
  {
    var k, n := Depth(|a|), Depth(|b|);
    ClimbFoldsLike(hash, tag, Padded(b), n, n - k, k);
    FoldedAlike(hash, tag, Padded(a), Climb(hash, tag, Padded(b), n - k), k, Padded(b), n);
  }

  lemma DepthBetween(m: nat, n: nat)
    requires m <= n <= Pow2(Depth(m))
    ensures Depth(n) == Depth(m)
  {
    WidthIsLeast(n, Depth(m));
    WidthIsLeast(m, Depth(n));
    if Depth(n) < Depth(m) { Pow2Strict(Depth(n), Depth(m)); }
    if Depth(m) < Depth(n) { Pow2Strict(Depth(m), Depth(n)); }
  }

  /** Trees of one depth have the same padded leaves exactly if the leaves differ in trailing zero words only. */
  lemma SamePadding(a: seq<Word>, b: seq<Word>)
    requires |a| <= |b| && Depth(|a|) == Depth(|b|)
    ensures Padded(a) == Padded(b) <==> b == a + Blanks(|b| - |a|)
  {
    if Padded(a) == Padded(b) {
      assert b == Padded(a)[..|b|] == a + Blanks(|b| - |a|);
    }
  }

  lemma SameRoot(hash: Hash, tag: seq<byte>, a: seq<Word>, b: seq<Word>)
    requires Depth(|a|) == Depth(|b|) && Padded(a) == Padded(b)
    ensures TreeRoot(hash, tag, a) == TreeRoot(hash, tag, b)
  {
  }

  /** Folds of one depth with one root: the leaves differ in trailing zero words only, or two of the
      inputs hashed clash. */
  lemma EqualDepthBinds(hash: Hash, tag: seq<byte>, a: seq<Word>, b: seq<Word>) returns (c: Option<Clash>)
    requires |a| <= |b| && Depth(|a|) == Depth(|b|) && TreeRoot(hash, tag, a) == TreeRoot(hash, tag, b)
    ensures Extracted(hash, c, Inputs(hash, tag, TreeOf(a)), Inputs(hash, tag, TreeOf(b)))
    ensures c == None ==> b == a + Blanks(|b| - |a|)
  {
    c := TreeRootBinds(hash, tag, a, b);
    SamePadding(a, b);
  }

  /** And conversely: a fold cannot tell zero leaves from padding, as long as they fit. */
  lemma PaddingIsInvisible(hash: Hash, tag: seq<byte>, leaves: seq<Word>, n: nat)
    requires |leaves| + n <= Pow2(Depth(|leaves|))
    ensures TreeRoot(hash, tag, leaves + Blanks(n)) == TreeRoot(hash, tag, leaves)
  {
    var b := leaves + Blanks(n);
    assert |b| == |leaves| + n;
    DepthBetween(|leaves|, |b|);
    assert Padded(leaves) == Padded(b) by { SamePadding(leaves, b); }
    SameRoot(hash, tag, leaves, b);
  }

  // ---- Trees of different depths ----

  lemma {:induction false} ClimbSnoc(hash: Hash, tag: seq<byte>, layer: seq<Word>, m: nat)
    ensures Climb(hash, tag, layer, m + 1) == Level(hash, tag, Climb(hash, tag, layer, m))
    decreases m
  {
    if m == 0 {
      assert Climb(hash, tag, layer, 1) == Climb(hash, tag, Level(hash, tag, layer), 0);
    } else {
      ClimbSnoc(hash, tag, Level(hash, tag, layer), m - 1);
    }
  }

  /** What the last two digests of a layer hash to. */
  function LastPair(tag: seq<byte>, layer: seq<Word>): seq<byte>
    requires 2 <= |layer|
  {
    Pair(tag, layer[|layer| - 2], layer[|layer| - 1])
  }

  function Pair(tag: seq<byte>, l: Word, r: Word): seq<byte> { tag + (l + r) }

  lemma {:induction false} LevelLast(hash: Hash, tag: seq<byte>, layer: seq<Word>)
    requires 2 <= |layer| && |layer| % 2 == 0
    ensures Level(hash, tag, layer)[|layer| / 2 - 1] == hash(LastPair(tag, layer))
    decreases |layer|
  {
    if |layer| == 2 {
      assert layer[2..] == [];
    } else {
      LevelLast(hash, tag, layer[2..]);
      assert LastPair(tag, layer[2..]) == LastPair(tag, layer);
    }
  }

  lemma {:induction false} LastPairHashed(hash: Hash, tag: seq<byte>, layer: seq<Word>, k: nat)
    requires |layer| == Pow2(k + 1)
    ensures LastPair(tag, layer) in Inputs(hash, tag, Perfect(layer, k + 1))
  {
    if k == 0 {
    } else {
      var half := layer[Pow2(k)..];
      LastPairHashed(hash, tag, half, k - 1);
      assert LastPair(tag, half) == LastPair(tag, layer);
    }
  }

  /** The last digest of a layer above the leaves is the hash of one of the inputs hashed. */
  lemma FacingLast(hash: Hash, tag: seq<byte>, layer: seq<Word>, n: nat, k: nat) returns (x: seq<byte>)
    requires |layer| == Pow2(n) && k < n
    ensures x in Inputs(hash, tag, Perfect(layer, n))
    ensures var up := Climb(hash, tag, layer, n - k); |up| == Pow2(k) && up[|up| - 1] == hash(x)
  {
    var m := n - k - 1;
    ClimbFoldsLike(hash, tag, layer, n, m, k + 1);
    ClimbSnoc(hash, tag, layer, m);
    x := LevelEnd(hash, tag, Climb(hash, tag, layer, m), k);
  }

  lemma LevelEnd(hash: Hash, tag: seq<byte>, below: seq<Word>, k: nat) returns (x: seq<byte>)
    requires |below| == Pow2(k + 1)
    ensures x in Inputs(hash, tag, Perfect(below, k + 1))
    ensures var up := Level(hash, tag, below); |up| == Pow2(k) && up[|up| - 1] == hash(x)
  {
    LevelLast(hash, tag, below);
    LastPairHashed(hash, tag, below, k);
    x := LastPair(tag, below);
  }

  /** A spare leaf facing a digest of the deeper tree. */
  lemma FacedByBlank(hash: Hash, tag: seq<byte>, a: seq<Word>, b: seq<Word>) returns (x: seq<byte>)
    requires Depth(|a|) < Depth(|b|) && |a| < Pow2(Depth(|a|))
    requires Padded(a) == Climb(hash, tag, Padded(b), Depth(|b|) - Depth(|a|))
    ensures hash(x) == ZERO_WORD && x in Inputs(hash, tag, TreeOf(b))
  {
    x := FacingLast(hash, tag, Padded(b), Depth(|b|), Depth(|a|));
    EndsBlank(a);
  }

  lemma EndsBlank(a: seq<Word>)
    requires |a| < Pow2(Depth(|a|))
    ensures Padded(a)[|Padded(a)| - 1] == ZERO_WORD
  {
  }

  lemma DepthMonotone(m: nat, n: nat)
    requires m <= n
    ensures Depth(m) <= Depth(n)
  {
    WidthIsLeast(m, Depth(n));
    if Depth(n) < Depth(m) { Pow2Strict(Depth(n), Depth(m)); }
  }

  /** Folds with one root, of any sizes, where the shallower tree has a leaf to spare: the leaves differ
      in trailing zero words only, or two inputs hashed clash, or the trees have different depths and
      an input hashes to the zero word. */
  lemma RoomyTreesBind(hash: Hash, tag: seq<byte>, a: seq<Word>, b: seq<Word>) returns (v: Evidence)
    requires |a| <= |b| && |a| < Pow2(Depth(|a|)) && TreeRoot(hash, tag, a) == TreeRoot(hash, tag, b)
    ensures Supported(hash, v, Inputs(hash, tag, TreeOf(a)), Inputs(hash, tag, TreeOf(b)))
    ensures v.NoEvidence? ==> Depth(|a|) == Depth(|b|) && b == a + Blanks(|b| - |a|)
    ensures v.ZeroDigest? ==> Depth(|a|) < Depth(|b|)
  {
    DepthMonotone(|a|, |b|);
    var c := TreeRootBinds(hash, tag, a, b);
    if c.Some? {
      v := TwoInputs(c.value);
    } else if Depth(|a|) == Depth(|b|) {
      SamePadding(a, b);
      v := NoEvidence;
    } else {
      var x := FacedByBlank(hash, tag, a, b);
      v := ZeroDigest(x);
    }
  }
}
