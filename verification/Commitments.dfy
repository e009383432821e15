/** Domain-separated commitments (`runtime/hash`) over an arbitrary hash function. */
module Commitments {
  import opened Primitives

  type Hash = seq<byte> -> Word

  datatype Domain = TrieLeaf | TrieBranch | LifeCert | SsrRoot | Gate2Replay

  function Ascii(s: string): (r: seq<byte>)
    requires forall i :: 0 <= i < |s| ==> s[i] as int < 0x80
    ensures |r| == |s|
  {
    seq(|s|, i requires 0 <= i < |s| => s[i] as int)
  }

  function Tag(d: Domain): seq<byte> {
    match d
    case TrieLeaf => Ascii("KAY_TRIE_LEAF")
    case TrieBranch => Ascii("KAY_TRIE_BRANCH")
    case LifeCert => Ascii("KAY_LIFE_CERT")
    case SsrRoot => Ascii("KAY_SSR_ROOT")
    case Gate2Replay => Ascii("KAY_GATE2_REPLAY")
  }

  /** The published tags, byte for byte. */
  lemma TagBytes()
    ensures Tag(TrieLeaf) == [75, 65, 89, 95, 84, 82, 73, 69, 95, 76, 69, 65, 70]
    ensures Tag(TrieBranch) == [75, 65, 89, 95, 84, 82, 73, 69, 95, 66, 82, 65, 78, 67, 72]
    ensures Tag(LifeCert) == [75, 65, 89, 95, 76, 73, 70, 69, 95, 67, 69, 82, 84]
    ensures Tag(SsrRoot) == [75, 65, 89, 95, 83, 83, 82, 95, 82, 79, 79, 84]
    ensures Tag(Gate2Replay) == [75, 65, 89, 95, 71, 65, 84, 69, 50, 95, 82, 69, 80, 76, 65, 89]
  {
  }

  /** `derive_commitment`. */
  function Commit(hash: Hash, d: Domain, bytes: seq<byte>): Word { hash(Tag(d) + bytes) }

  /** Two different inputs with one digest. */
  datatype Clash = Clash(x: seq<byte>, y: seq<byte>)

  predicate Clashes(hash: Hash, c: Clash) { c.x != c.y && hash(c.x) == hash(c.y) }

  /** Either nothing, or a clash between an input from `xs` and one from `ys`. */
  predicate Extracted(hash: Hash, c: Option<Clash>, xs: set<seq<byte>>, ys: set<seq<byte>>) {
    c.Some? ==> Clashes(hash, c.value) && c.value.x in xs && c.value.y in ys
  }

  /** Every two tags differ inside their common length: at index 4, or 9 for the two trie tags. */
  lemma TagsDiffer(d: Domain, e: Domain)
    requires d != e
    ensures exists i :: 0 <= i < |Tag(d)| && i < |Tag(e)| && Tag(d)[i] != Tag(e)[i]
  {
    var i := if d in {TrieLeaf, TrieBranch} && e in {TrieLeaf, TrieBranch} then 9 else 4;
    assert Tag(d)[i] != Tag(e)[i];
  }

  lemma TagsApart(d: Domain, x: seq<byte>, e: Domain, y: seq<byte>)
    requires d != e
    ensures Tag(d) + x != Tag(e) + y
  {
    TagsDiffer(d, e);
    var i :| 0 <= i < |Tag(d)| && i < |Tag(e)| && Tag(d)[i] != Tag(e)[i];
    assert (Tag(d) + x)[i] != (Tag(e) + y)[i];
  }

  /** No tag is a prefix of another, so domain and bytes are recovered from what is hashed. */
  lemma DomainSeparation(d: Domain, x: seq<byte>, e: Domain, y: seq<byte>)
    requires Tag(d) + x == Tag(e) + y
    ensures d == e && x == y
  {
    if d != e {
      TagsApart(d, x, e, y);
    } else {
      assert x == (Tag(d) + x)[|Tag(d)|..] == (Tag(e) + y)[|Tag(e)|..] == y;
    }
  }
}
