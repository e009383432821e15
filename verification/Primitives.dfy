/** Fixed-width integers, byte strings and the byte-wise order every `BTreeMap` key uses. */
module Primitives {

  type byte = n: nat | n < 0x100
  type u32 = n: nat | n <= U32_MAX
  type u64 = n: nat | n <= U64_MAX

  const U32_MAX: nat := 0xFFFF_FFFF
  const U64_MAX: nat := 0xFFFF_FFFF_FFFF_FFFF

  /** A 32-byte value: a hash, a storage slot or a big-endian 256-bit quantity. */
  type Word = w: seq<byte> | |w| == 32 witness Zeros(32)

  /** A 20-byte account address. */
  type Address = a: seq<byte> | |a| == 20 witness Zeros(20)

  function Zeros(n: nat): seq<byte> { seq(n, _ => 0) }

  const ZERO_WORD: Word := Zeros(32)
  const ZERO_ADDRESS: Address := Zeros(20)

  datatype Option<+T> = None | Some(value: T)

  datatype Result<+T, +E> = Ok(value: T) | Err(error: E)

  /** Lexicographic order on byte strings: Rust's `Ord` for byte arrays. */
  predicate LexLess(a: seq<byte>, b: seq<byte>) {
    b != [] && (a == [] || a[0] < b[0] || (a[0] == b[0] && LexLess(a[1..], b[1..])))
  }

  lemma LexTransitive(a: seq<byte>, b: seq<byte>, c: seq<byte>)
    requires LexLess(a, b) && LexLess(b, c)
    ensures LexLess(a, c)
  {
    if a != [] && a[0] == b[0] == c[0] {
      LexTransitive(a[1..], b[1..], c[1..]);
    }
  }

  lemma LexTrichotomy(a: seq<byte>, b: seq<byte>)
    ensures !LexLess(a, a)
    ensures a == b || LexLess(a, b) || LexLess(b, a)
  {
    if a != [] {
      LexTrichotomy(a[1..], if b == [] then [] else b[1..]);
      if b != [] && a[1..] == b[1..] {
        assert a == [a[0]] + a[1..] && b == [b[0]] + b[1..];
      }
    }
  }

  /** The two agree before position `i`, where `a` has the smaller byte. */
  predicate SmallerAt(a: seq<byte>, b: seq<byte>, i: nat) { i < |a| && i < |b| && a[..i] == b[..i] && a[i] < b[i] }

  /** Byte strings of one length compare at the first place where they differ. */
  ghost predicate Earlier(a: seq<byte>, b: seq<byte>) { exists i: nat :: SmallerAt(a, b, i) }

  lemma SmallerNext(a: seq<byte>, b: seq<byte>, i: nat)
    requires a != [] && b != [] && a[0] == b[0]
    ensures SmallerAt(a, b, i + 1) <==> SmallerAt(a[1..], b[1..], i)
  {
    if SmallerAt(a, b, i + 1) {
      assert a[1..][..i] == a[..i + 1][1..] == b[..i + 1][1..] == b[1..][..i];
    }
    if SmallerAt(a[1..], b[1..], i) {
      assert a[..i + 1] == [a[0]] + a[1..][..i] == [b[0]] + b[1..][..i] == b[..i + 1];
    }
  }

  lemma {:induction false} LexIsEarlier(a: seq<byte>, b: seq<byte>)
    requires |a| == |b|
    ensures LexLess(a, b) <==> Earlier(a, b)
  {
    if a == [] {
    } else if a[0] != b[0] {
      assert a[0] < b[0] <==> SmallerAt(a, b, 0);
      assert forall i: nat :: SmallerAt(a, b, i) && 0 < i ==> a[..i][0] == a[0] && b[..i][0] == b[0];
    } else {
      LexIsEarlier(a[1..], b[1..]);
      if Earlier(a[1..], b[1..]) {
        var i: nat :| SmallerAt(a[1..], b[1..], i);
        SmallerNext(a, b, i);
      }
      if Earlier(a, b) {
        var i: nat :| SmallerAt(a, b, i);
        SmallerNext(a, b, i - 1);
      }
    }
  }

  lemma Associate<T>(a: seq<T>, b: seq<T>, c: seq<T>)
    ensures (a + b) + c == a + (b + c)
  {
  }
}
