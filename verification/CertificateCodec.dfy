/** The 180-byte wire form of certificates and their batch commitment
    (`runtime/ssz/src/certificate.rs`, `ssz_decode_certificate`). */
module CertificateCodec {
  import opened Primitives
  import opened Ordered
  import opened Commitments
  import opened Merkle
  import opened Chunks
  import opened Ssz
  import opened Lifecycle
  import opened Certificates

  const CERTIFICATE_LEN := 180

  /** The generation id fits the four bytes it is written in, as the source's type demands. */
  predicate InRange(c: Certificate) { c.generation.key.generationId <= U32_MAX }

  function EncodeFields(c: Certificate, root: Word): (r: seq<byte>)
    ensures |r| == CERTIFICATE_LEN
  {
    c.address + c.generation.key.address + ToLe(c.generation.key.generationId, 4) + c.generation.stateTableProofRoot
    + ToLe(c.nonce, 8) + c.balance + c.codeHash + root
  }

  function EncodeCertificate(c: Certificate): Result<seq<byte>, EncodeError> {
    if c.storageRoot.AwaitingDerivation? then Err(UnresolvedStorageRoot) else Ok(EncodeFields(c, c.storageRoot.root))
  }

  /** `out[offset..offset + n].copy_from_slice(src)`, after which `offset` moves past the copy. */
  method CopyFrom(out: array<byte>, offset: nat, src: seq<byte>) returns (next: nat)
    requires offset + |src| <= out.Length
    modifies out
    ensures next == offset + |src| && out[..next] == old(out[..offset]) + src
  {
    for i := 0 to |src|
      invariant out[..offset + i] == old(out[..offset]) + src[..i]
    {
      out[offset + i] := src[i];
      assert src[..i + 1] == src[..i] + [src[i]];
      assert out[..offset + i + 1] == out[..offset + i] + [src[i]];
    }
    assert src[..|src|] == src;
    next := offset + |src|;
  }

  method EncodeBytes(c: Certificate) returns (r: Result<seq<byte>, EncodeError>)
    ensures r == EncodeCertificate(c)
  {
    if c.storageRoot.AwaitingDerivation? {
      return Err(UnresolvedStorageRoot);
    }
    var out := new byte[CERTIFICATE_LEN];
    var offset := 0;
    assert out[..0] == [];
    offset := CopyFrom(out, offset, c.address);
    assert [] + c.address == c.address;
    offset := CopyFrom(out, offset, c.generation.key.address);
    offset := CopyFrom(out, offset, ToLe(c.generation.key.generationId, 4));
    offset := CopyFrom(out, offset, c.generation.stateTableProofRoot);
    offset := CopyFrom(out, offset, ToLe(c.nonce, 8));
    offset := CopyFrom(out, offset, c.balance);
    offset := CopyFrom(out, offset, c.codeHash);
    offset := CopyFrom(out, offset, c.storageRoot.root);
    assert out[..offset] == out[..];
    return Ok(out[..]);
  }

  /** The eight fields, read at their offsets. */
  function CertificateAt(b: seq<byte>): Certificate
    requires |b| == CERTIFICATE_LEN
  {
    Certificate(b[0..20], VerifiedGeneration(GenerationKey(b[20..40], ReadU32(b[40..44])), b[44..76]),
                ReadU64(b[76..84]), b[84..116], b[116..148], Verified(b[148..180]))
  }

  function DecodeCertificate(b: seq<byte>): Result<Certificate, DecodeError> {
    if |b| < CERTIFICATE_LEN then Err(Truncated(CERTIFICATE_LEN, |b|))
    else if |b| > CERTIFICATE_LEN then Err(TrailingBytes(CERTIFICATE_LEN, |b|))
    else Ok(CertificateAt(b))
  }

  lemma FieldsAtOffsets(c: Certificate, root: Word)
    ensures var b := EncodeFields(c, root);
            && b[0..20] == c.address && b[20..40] == c.generation.key.address
            && b[40..44] == ToLe(c.generation.key.generationId, 4) && b[44..76] == c.generation.stateTableProofRoot
            && b[76..84] == ToLe(c.nonce, 8) && b[84..116] == c.balance
            && b[116..148] == c.codeHash && b[148..180] == root
  {
  }

  /** Decoding inverts encoding on every certificate with a resolved storage root. */
  lemma CertificateRoundTrip(c: Certificate)
    requires InRange(c)
    ensures match EncodeCertificate(c)
            case Ok(b) => DecodeCertificate(b) == Ok(c)
            case Err(e) => c.storageRoot == AwaitingDerivation && e == UnresolvedStorageRoot
  {
    if c.storageRoot.Verified? {
      FieldsAtOffsets(c, c.storageRoot.root);
      ReadsBack(c.nonce, c.generation.key.generationId);
    }
  }

  lemma CertificateAtEncodes(b: seq<byte>)
    requires |b| == CERTIFICATE_LEN
    ensures EncodeFields(CertificateAt(b), b[148..180]) == b
  {
    ToLeOfFromLe(b[40..44]);
    ToLeOfFromLe(b[76..84]);
    assert b == b[0..20] + b[20..40] + b[40..44] + b[44..76] + b[76..84] + b[84..116] + b[116..148] + b[148..180];
  }

  /** A certificate decodes exactly from 180 bytes, is then resolved, and encodes back to them. */
  lemma CertificateDecodes(b: seq<byte>)
    ensures DecodeCertificate(b).Ok? <==> |b| == 180
    ensures DecodeCertificate(b).Ok? ==> EncodeCertificate(DecodeCertificate(b).value) == Ok(b)
  {
    if |b| == CERTIFICATE_LEN { CertificateAtEncodes(b); }
  }

  /** Two different byte strings never decode to the same certificate. */
  lemma CertificateDecodingInjective(a: seq<byte>, b: seq<byte>)
    requires DecodeCertificate(a).Ok? && DecodeCertificate(a) == DecodeCertificate(b)
    ensures a == b
  {
    CertificateDecodes(a);
    CertificateDecodes(b);
  }

  // ---- Commitments ----

  function CommitRoot(hash: Hash, c: Certificate): Result<Word, EncodeError> {
    match EncodeCertificate(c)
    case Err(e) => Err(e)
    case Ok(b) => Ok(Commit(hash, LifeCert, b))
  }

  predicate AllResolved(cs: seq<Certificate>) { forall c :: c in cs ==> c.storageRoot.Verified? }

  function CertificateChunks(c: Certificate): (r: seq<Word>)
    requires c.storageRoot.Verified?
    ensures |r| == 6
  {
    ChunkCount(EncodeFields(c, c.storageRoot.root));
    ChunksOf(EncodeFields(c, c.storageRoot.root))
  }

  /** The chunks of a batch: six for each certificate. */
  function BatchChunks(cs: seq<Certificate>): (r: seq<Word>)
    requires AllResolved(cs)
    ensures |r| == 6 * |cs|
    decreases |cs|
  {
    if cs == [] then [] else BatchChunks(cs[..|cs| - 1]) + CertificateChunks(cs[|cs| - 1])
  }

  function BatchRoot(hash: Hash, cs: seq<Certificate>): Result<Word, EncodeError> {
    if AllResolved(cs) then Ok(TreeRoot(hash, Tag(SsrRoot), BatchChunks(cs))) else Err(UnresolvedStorageRoot)
  }

  lemma BatchStep(cs: seq<Certificate>, i: nat)
    requires i < |cs| && AllResolved(cs[..i]) && cs[i].storageRoot.Verified?
    ensures AllResolved(cs[..i + 1]) && BatchChunks(cs[..i + 1]) == BatchChunks(cs[..i]) + CertificateChunks(cs[i])
  {
    assert cs[..i + 1] == cs[..i] + [cs[i]];
    assert cs[..i + 1][..i] == cs[..i];
  }

  lemma UnresolvedFails(hash: Hash, cs: seq<Certificate>, i: nat)
    requires i < |cs| && cs[i].storageRoot.AwaitingDerivation?
    ensures BatchRoot(hash, cs) == Err(UnresolvedStorageRoot)
  {
    assert cs[i] in cs;
  }

  method CommitCertificateBatch(hash: Hash, certificates: map<Address, Certificate>)
    returns (r: Result<Word, EncodeError>)
    ensures r == BatchRoot(hash, Batch(certificates))
  {
    var values := Batch(certificates);
    var flatChunks: seq<Word> := [];
    for i := 0 to |values|
      invariant AllResolved(values[..i]) && flatChunks == BatchChunks(values[..i])
    {
      var bytes := EncodeBytes(values[i]);
      if bytes.Err? {
        UnresolvedFails(hash, values, i);
        return Err(bytes.error);
      }
      var chunks := Chunkify(bytes.value);
      BatchStep(values, i);
      flatChunks := flatChunks + chunks;
    }
    assert values[..|values|] == values;
    var root := Merkleize(hash, flatChunks);
    return Ok(root);
  }

  lemma CertificateChunksBind(a: Certificate, b: Certificate)
    requires a.storageRoot.Verified? && b.storageRoot.Verified? && InRange(a) && InRange(b)
    requires CertificateChunks(a) == CertificateChunks(b)
    ensures a == b
  {
    var x, y := EncodeFields(a, a.storageRoot.root), EncodeFields(b, b.storageRoot.root);
    ChunksBind(x, y);
    assert x + Zeros(0) == x;
    CertificateRoundTrip(a);
    CertificateRoundTrip(b);
  }

  lemma LastChunks(a: seq<Certificate>)
    requires a != [] && AllResolved(a)
    ensures var n := |a| - 1;
            BatchChunks(a[..n]) == BatchChunks(a)[..6 * n] && CertificateChunks(a[n]) == BatchChunks(a)[6 * n..]
  {
  }

  lemma {:induction false} BatchChunksBind(a: seq<Certificate>, b: seq<Certificate>)
    requires |a| == |b| && AllResolved(a) && AllResolved(b)
    requires forall c :: c in a || c in b ==> InRange(c)
    requires BatchChunks(a) == BatchChunks(b)
    ensures a == b
    decreases |a|
  {
    if a == [] {
    } else {
      var n := |a| - 1;
      LastChunks(a);
      LastChunks(b);
      CertificateChunksBind(a[n], b[n]);
      BatchChunksBind(a[..n], b[..n]);
      assert a == a[..n] + [a[n]] && b == b[..n] + [b[n]];
    }
  }

  /** The one certificate that encodes to zeros only. */
  const BLANK := Certificate(ZERO_ADDRESS, VerifiedGeneration(GenerationKey(ZERO_ADDRESS, 0), ZERO_WORD),
                             0, ZERO_WORD, ZERO_WORD, Verified(ZERO_WORD))

  function BlankBatch(n: nat): (r: seq<Certificate>)
    ensures |r| == n && AllResolved(r) && forall c :: c in r ==> c == BLANK
  {
    seq(n, _ => BLANK)
  }

  lemma {:induction false} ZeroLe(width: nat)
    ensures ToLe(0, width) == Zeros(width)
  {
    if width == 0 {
    } else {
      ZeroLe(width - 1);
    }
  }

  lemma ZeroFields()
    ensures EncodeFields(BLANK, ZERO_WORD) == Zeros(CERTIFICATE_LEN)
  {
    ZeroLe(4);
    ZeroLe(8);
  }

  lemma BlankChunks()
    ensures CertificateChunks(BLANK) == Blanks(6)
  {
    ZeroFields();
    var none: seq<byte> := [];
    assert Zeros(CERTIFICATE_LEN) == none + Zeros(CERTIFICATE_LEN);
    MoreBytesMoreChunks(none, Zeros(CERTIFICATE_LEN));
    ChunkCount(none);
    ChunksExtend(none, Zeros(CERTIFICATE_LEN));
    assert none + Zeros(32) == ZERO_WORD;
    assert [ZERO_WORD] + Blanks(5) == Blanks(6);
  }

  lemma BatchSnoc(cs: seq<Certificate>, c: Certificate)
    requires AllResolved(cs) && c.storageRoot.Verified?
    ensures AllResolved(cs + [c]) && BatchChunks(cs + [c]) == BatchChunks(cs) + CertificateChunks(c)
  {
    assert (cs + [c])[..|cs|] == cs;
  }

  lemma BlanksJoin(x: seq<Word>, p: nat, q: nat)
    ensures (x + Blanks(p)) + Blanks(q) == x + Blanks(p + q)
  {
  }

  lemma OneMoreBlank(cs: seq<Certificate>, n: nat)
    ensures cs + BlankBatch(n + 1) == (cs + BlankBatch(n)) + [BLANK]
  {
  }

  /** The chunks of `longer` are those of `cs` and the zero words of `n` more certificates. */
  ghost predicate Extends(longer: seq<Certificate>, cs: seq<Certificate>, n: nat) {
    AllResolved(cs) && AllResolved(longer) && BatchChunks(longer) == BatchChunks(cs) + Blanks(6 * n)
  }

  lemma ExtendStep(longer: seq<Certificate>, cs: seq<Certificate>, n: nat)
    requires Extends(longer, cs, n)
    ensures Extends(longer + [BLANK], cs, n + 1)
  {
    BatchSnoc(longer, BLANK);
    BlankChunks();
    BlanksJoin(BatchChunks(cs), 6 * n, 6);
  }

  lemma ExtendsByOne(cs: seq<Certificate>, n: nat)
    requires Extends(cs + BlankBatch(n), cs, n)
    ensures Extends(cs + BlankBatch(n + 1), cs, n + 1)
  {
    ExtendStep(cs + BlankBatch(n), cs, n);
    OneMoreBlank(cs, n);
  }

  lemma NoBlanks(cs: seq<Certificate>)
    requires AllResolved(cs)
    ensures Extends(cs + BlankBatch(0), cs, 0)
  {
    assert cs + BlankBatch(0) == cs && BatchChunks(cs) + Blanks(0) == BatchChunks(cs);
  }

  lemma {:induction false} ChunksOfBlanks(cs: seq<Certificate>, n: nat)
    requires AllResolved(cs)
    ensures Extends(cs + BlankBatch(n), cs, n)
    decreases n
  {
    if n == 0 {
      NoBlanks(cs);
    } else {
      var m: nat := n - 1;
      ChunksOfBlanks(cs, m);
      ExtendsByOne(cs, m);
    }
  }

  /** Two batches fold trees of one depth. */
  predicate EquallyDeep(a: seq<Certificate>, b: seq<Certificate>) { Depth(6 * |a|) == Depth(6 * |b|) }

  /** Everything hashed to compute a batch's root. */
  ghost function HashedFor(hash: Hash, cs: seq<Certificate>): set<seq<byte>>
    requires AllResolved(cs)
  {
    Inputs(hash, Tag(SsrRoot), TreeOf(BatchChunks(cs)))
  }

  lemma {:induction false} Pow2NotOfThree(k: nat)
    ensures Pow2(k) % 3 != 0
  {
    if k == 0 {
    } else {
      Pow2NotOfThree(k - 1);
    }
  }

  /** Six chunks a certificate never fill a tree. */
  lemma RoomToSpare(n: nat)
    ensures 6 * n < Pow2(Depth(6 * n))
  {
    Pow2NotOfThree(Depth(6 * n));
    assert 6 * n % 3 == 0;
  }

  /** Resolved batches of any sizes with one root: the longer is the shorter followed by blank
      certificates, in a tree of the same depth, or two of the inputs hashed clash, or, only between
      trees of different depths, an input hashes to the zero word. */
  lemma BatchBinds(hash: Hash, a: seq<Certificate>, b: seq<Certificate>) returns (v: Evidence)
    requires |a| <= |b| && AllResolved(a) && AllResolved(b)
    requires forall x :: x in a || x in b ==> InRange(x)
    requires BatchRoot(hash, a) == BatchRoot(hash, b)
    ensures Supported(hash, v, HashedFor(hash, a), HashedFor(hash, b))
    ensures v.NoEvidence? ==> EquallyDeep(a, b) && b == a + BlankBatch(|b| - |a|)
    ensures v.ZeroDigest? ==> !EquallyDeep(a, b)
  {
    var n := |b| - |a|;
    RoomToSpare(|a|);
    v := RoomyTreesBind(hash, Tag(SsrRoot), BatchChunks(a), BatchChunks(b));
    if v.NoEvidence? {
      ChunksOfBlanks(a, n);
      assert |BatchChunks(b)| - |BatchChunks(a)| == 6 * n;
      BatchChunksBind(a + BlankBatch(n), b);
    }
  }

  /** And conversely: blank certificates at the end are invisible while the depth stays. */
  lemma BatchForgetsBlanks(hash: Hash, a: seq<Certificate>, n: nat)
    requires AllResolved(a) && 6 * |a| + 6 * n <= Pow2(Depth(6 * |a|))
    ensures BatchRoot(hash, a + BlankBatch(n)) == BatchRoot(hash, a)
  {
    ChunksOfBlanks(a, n);
    PaddingIsInvisible(hash, Tag(SsrRoot), BatchChunks(a), 6 * n);
  }

  /** Each certificate is filed under its own address. */
  predicate Filed(m: map<Address, Certificate>) { forall a :: a in m ==> m[a].address == a && InRange(m[a]) }

  lemma BatchDeterminesMap(a: map<Address, Certificate>, b: map<Address, Certificate>)
    requires Filed(a) && Filed(b) && Batch(a) == Batch(b)
    ensures a == b
  {
    SameEntries(a, b);
    SameEntries(b, a);
  }

  lemma SameEntries(a: map<Address, Certificate>, b: map<Address, Certificate>)
    requires Filed(a) && Filed(b) && Batch(a) == Batch(b)
    ensures forall x :: x in a ==> x in b && a[x] == b[x]
  {
    var ka, kb := SortedAddresses(a.Keys), SortedAddresses(b.Keys);
    forall x | x in a ensures x in b && a[x] == b[x] {
      assert x in ka;
      var i :| 0 <= i < |ka| && ka[i] == x;
      assert Batch(a)[i] == a[x] && Batch(b)[i] == b[kb[i]];
    }
  }

  lemma {:induction false} NothingBelowZero(a: seq<byte>, n: nat)
    requires |a| == n
    ensures !LexLess(a, Zeros(n))
  {
    if n == 0 {
    } else {
      assert Zeros(n)[1..] == Zeros(n - 1);
      NothingBelowZero(a[1..], n - 1);
    }
  }

  /** In address order, a blank certificate can only be the first. */
  lemma BlankComesFirst(m: map<Address, Certificate>, i: nat)
    requires Filed(m) && i < |Batch(m)| && Batch(m)[i] == BLANK
    ensures i == 0
  {
    var keys := SortedAddresses(m.Keys);
    AddressOrder();
    KeysIncreasing(AddressLess, m.Keys);
    assert 0 < i ==> AddressLess(keys[0], keys[i]);
    assert keys[i] in m && keys[i] == ZERO_ADDRESS;
    NothingBelowZero(keys[0], 20);
  }

  lemma OnlyEmptyIsFlat(n: nat)
    ensures Depth(6 * n) == Depth(0) <==> n == 0
  {
    assert 6 * n <= Pow2(Depth(6 * n)) && Pow2(Depth(0)) == 1;
  }

  lemma NoBlanksAppended(a: map<Address, Certificate>, b: map<Address, Certificate>)
    requires Filed(b) && |Batch(a)| <= |Batch(b)| && EquallyDeep(Batch(a), Batch(b))
    requires Batch(b) == Batch(a) + BlankBatch(|Batch(b)| - |Batch(a)|)
    ensures Batch(b) == Batch(a)
  {
    var m, n := |Batch(a)|, |Batch(b)|;
    if m < n {
      assert Batch(b)[m] == BLANK;
      OnlyEmptyIsFlat(n);
      BlankComesFirst(b, m);
    }
    assert Batch(a) + BlankBatch(0) == Batch(a);
  }

  /** Two resolved certificate maps of any sizes with one commitment are the same map, or two of the
      inputs hashed clash, or, only between trees of different depths, an input hashes to the zero word. */
  lemma CommittedMapsBind(hash: Hash, a: map<Address, Certificate>, b: map<Address, Certificate>) returns (v: Evidence)
    requires Filed(a) && Filed(b) && AllResolved(Batch(a)) && AllResolved(Batch(b))
    requires BatchRoot(hash, Batch(a)) == BatchRoot(hash, Batch(b))
    ensures Supported(hash, v, HashedFor(hash, Batch(a)), HashedFor(hash, Batch(b)))
    ensures v.NoEvidence? ==> a == b
    ensures v.ZeroDigest? ==> !EquallyDeep(Batch(a), Batch(b))
  {
    if |Batch(a)| <= |Batch(b)| {
      v := LongerMapBinds(hash, a, b);
    } else {
      v := LongerMapBinds(hash, b, a);
      v := Mirrored(hash, v, HashedFor(hash, Batch(b)), HashedFor(hash, Batch(a)));
    }
  }

  lemma LongerMapBinds(hash: Hash, a: map<Address, Certificate>, b: map<Address, Certificate>) returns (v: Evidence)
    requires Filed(a) && Filed(b) && AllResolved(Batch(a)) && AllResolved(Batch(b))
    requires |Batch(a)| <= |Batch(b)| && BatchRoot(hash, Batch(a)) == BatchRoot(hash, Batch(b))
    ensures Supported(hash, v, HashedFor(hash, Batch(a)), HashedFor(hash, Batch(b)))
    ensures v.NoEvidence? ==> a == b
    ensures v.ZeroDigest? ==> !EquallyDeep(Batch(a), Batch(b))
  {
    BatchInRange(a);
    BatchInRange(b);
    v := BatchBinds(hash, Batch(a), Batch(b));
    if v.NoEvidence? { OneBatchOneMap(a, b); }
  }

  lemma OneBatchOneMap(a: map<Address, Certificate>, b: map<Address, Certificate>)
    requires Filed(a) && Filed(b) && |Batch(a)| <= |Batch(b)| && EquallyDeep(Batch(a), Batch(b))
    requires Batch(b) == Batch(a) + BlankBatch(|Batch(b)| - |Batch(a)|)
    ensures a == b
  {
    NoBlanksAppended(a, b);
    BatchDeterminesMap(a, b);
  }

  lemma BatchInRange(m: map<Address, Certificate>)
    requires Filed(m)
    ensures forall x :: x in Batch(m) ==> InRange(x)
  {
    var keys := SortedAddresses(m.Keys);
    forall x | x in Batch(m) ensures InRange(x) {
      var i :| 0 <= i < |keys| && Batch(m)[i] == x;
      assert keys[i] in m && m[keys[i]] == x;
    }
  }

  /** A certificate's own commitment determines it, or the two inputs hashed clash. */
  lemma CommitRootBinds(hash: Hash, a: Certificate, b: Certificate)
    requires InRange(a) && InRange(b) && CommitRoot(hash, a).Ok? && CommitRoot(hash, a) == CommitRoot(hash, b)
    ensures var x, y := EncodeCertificate(a).value, EncodeCertificate(b).value;
            a == b || Clashes(hash, Clash(Tag(LifeCert) + x, Tag(LifeCert) + y))
  {
    var x, y := EncodeCertificate(a).value, EncodeCertificate(b).value;
    CertificateRoundTrip(a);
    CertificateRoundTrip(b);
    if Tag(LifeCert) + x == Tag(LifeCert) + y { DomainSeparation(LifeCert, x, LifeCert, y); }
  }
}
