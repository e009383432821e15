/** The SSZ wire format of event summaries and epoch snapshots (`runtime/ssz/src/lib.rs`,
    `runtime/ssz/src/decode.rs`). */
module Ssz {
  import opened Primitives

  // ---- Little-endian integers ----

  function Pow256(n: nat): nat { if n == 0 then 1 else 0x100 * Pow256(n - 1) }

  function ToLe(v: nat, width: nat): (r: seq<byte>)
    ensures |r| == width
  {
    if width == 0 then [] else [v % 0x100] + ToLe(v / 0x100, width - 1)
  }

  function FromLe(s: seq<byte>): nat { if s == [] then 0 else s[0] + 0x100 * FromLe(s[1..]) }

  lemma {:induction false} FromLeOfToLe(v: nat, width: nat)
    requires v < Pow256(width)
    ensures FromLe(ToLe(v, width)) == v
  {
    if width == 0 {
    } else {
      FromLeOfToLe(v / 0x100, width - 1);
    }
  }

  lemma LowByte(low: byte, high: nat)
    ensures (low + 0x100 * high) % 0x100 == low && (low + 0x100 * high) / 0x100 == high
  {
  }

  lemma {:induction false} ToLeOfFromLe(s: seq<byte>)
    ensures FromLe(s) < Pow256(|s|) && ToLe(FromLe(s), |s|) == s
  {
    if s == [] {
    } else {
      ToLeOfFromLe(s[1..]);
      LowByte(s[0], FromLe(s[1..]));
      assert s == [s[0]] + s[1..];
    }
  }

  lemma Widths()
    ensures Pow256(4) == U32_MAX + 1 && Pow256(8) == U64_MAX + 1
  {
    assert Pow256(2) == 0x1_0000;
    assert Pow256(4) == 0x1_0000_0000;
    assert Pow256(6) == 0x1_0000_0000_0000;
  }

  function ReadU64(s: seq<byte>): u64
    requires |s| == 8
  {
    ToLeOfFromLe(s);
    Widths();
    FromLe(s)
  }

  function ReadU32(s: seq<byte>): u32
    requires |s| == 4
  {
    ToLeOfFromLe(s);
    Widths();
    FromLe(s)
  }

  lemma ReadsBack(v: u64, n: u32)
    ensures ReadU64(ToLe(v, 8)) == v && ReadU32(ToLe(n, 4)) == n
  {
    Widths();
    FromLeOfToLe(v, 8);
    FromLeOfToLe(n, 4);
  }

  // ---- Summaries ----

  const MAX_EVENT_SUMMARIES := 16384

  const SUMMARY_LEN := 68

  const HEADER_LEN: u32 := 12

  datatype EncodeError = EncodedListTooLong(max: nat, actual: nat) | UnresolvedStorageRoot

  datatype DecodeError =
    | Truncated(expectedAtLeast: nat, actual: nat)
    | TrailingBytes(consumed: nat, actual: nat)
    | InvalidOffset(expected: u32, found: u32)
    | MisalignedList(bodyLen: nat, elementLen: nat)
    | ListTooLong(max: nat, actual: nat)

  datatype EventSummary = EventSummary(
    blockTimestamp: u64, sequenceNonce: u64, actorAddress: Address, payloadDigest: Word)

  function EncodeSummary(s: EventSummary): (r: seq<byte>)
    ensures |r| == SUMMARY_LEN
  {
    ToLe(s.blockTimestamp, 8) + ToLe(s.sequenceNonce, 8) + s.actorAddress + s.payloadDigest
  }

  /** The four fields of a summary, read at their offsets. */
  function SummaryAt(b: seq<byte>): EventSummary
    requires |b| == SUMMARY_LEN
  {
    EventSummary(ReadU64(b[0..8]), ReadU64(b[8..16]), b[16..36], b[36..68])
  }

  function DecodeSummary(b: seq<byte>): Result<EventSummary, DecodeError> {
    if |b| < SUMMARY_LEN then Err(Truncated(SUMMARY_LEN, |b|))
    else if |b| > SUMMARY_LEN then Err(TrailingBytes(SUMMARY_LEN, |b|))
    else Ok(SummaryAt(b))
  }

  lemma SummaryRoundTrip(s: EventSummary)
    ensures DecodeSummary(EncodeSummary(s)) == Ok(s)
  {
    var b := EncodeSummary(s);
    assert b[0..8] == ToLe(s.blockTimestamp, 8) && b[8..16] == ToLe(s.sequenceNonce, 8);
    assert b[16..36] == s.actorAddress;
    assert b[36..] == s.payloadDigest && b[36..68] == b[36..];
    ReadsBack(s.blockTimestamp, 0);
    ReadsBack(s.sequenceNonce, 0);
  }

  lemma FourParts(b: seq<byte>, p: seq<byte>, q: seq<byte>, r: seq<byte>, s: seq<byte>)
    requires |b| == SUMMARY_LEN && p == b[0..8] && q == b[8..16] && r == b[16..36] && s == b[36..68]
    ensures p + q + r + s == b
  {
  }

  lemma SummaryAtEncodes(b: seq<byte>)
    requires |b| == SUMMARY_LEN
    ensures EncodeSummary(SummaryAt(b)) == b
  {
    var s := SummaryAt(b);
    ToLeOfFromLe(b[0..8]);
    ToLeOfFromLe(b[8..16]);
    assert ToLe(s.blockTimestamp, 8) == b[0..8] && ToLe(s.sequenceNonce, 8) == b[8..16];
    FourParts(b, b[0..8], b[8..16], b[16..36], b[36..68]);
  }

  /** A summary decodes exactly from 68 bytes, and then encodes back to them. */
  lemma SummaryDecodes(b: seq<byte>)
    ensures DecodeSummary(b).Ok? <==> |b| == SUMMARY_LEN
    ensures DecodeSummary(b).Ok? ==> EncodeSummary(DecodeSummary(b).value) == b
  {
    if |b| == SUMMARY_LEN { SummaryAtEncodes(b); }
  }

  // ---- Snapshots ----

  datatype Snapshot = Snapshot(epochIndex: u64, eventSummaries: seq<EventSummary>)

  function EncodeList(s: seq<EventSummary>): (r: seq<byte>)
    ensures |r| == SUMMARY_LEN * |s|
  {
    if s == [] then [] else EncodeSummary(s[0]) + EncodeList(s[1..])
  }

  function Header(epochIndex: u64): (r: seq<byte>)
    ensures |r| == 12
  {
    ToLe(epochIndex, 8) + ToLe(HEADER_LEN, 4)
  }

  function EncodeSnapshot(s: Snapshot): Result<seq<byte>, EncodeError> {
    if |s.eventSummaries| > MAX_EVENT_SUMMARIES then Err(EncodedListTooLong(MAX_EVENT_SUMMARIES, |s.eventSummaries|))
    else Ok(Header(s.epochIndex) + EncodeList(s.eventSummaries))
  }

  method EncodeSnapshotBytes(s: Snapshot) returns (r: Result<seq<byte>, EncodeError>)
    ensures r == EncodeSnapshot(s)
  {
    var summaries := s.eventSummaries;
    if |summaries| > MAX_EVENT_SUMMARIES {
      return Err(EncodedListTooLong(MAX_EVENT_SUMMARIES, |summaries|));
    }
    var out := ToLe(s.epochIndex, 8);
    out := out + ToLe(HEADER_LEN, 4);
    assert summaries[0..] == summaries;
    for i := 0 to |summaries|
      invariant out + EncodeList(summaries[i..]) == Header(s.epochIndex) + EncodeList(summaries)
    {
      assert summaries[i..][0] == summaries[i] && summaries[i..][1..] == summaries[i + 1..];
      assert (out + EncodeSummary(summaries[i])) + EncodeList(summaries[i + 1..])
          == out + (EncodeSummary(summaries[i]) + EncodeList(summaries[i + 1..]));
      out := out + EncodeSummary(summaries[i]);
    }
    assert out + [] == out;
    return Ok(out);
  }

  /** The summaries in consecutive 68-byte pieces. */
  function DecodeList(body: seq<byte>): (r: seq<EventSummary>)
    requires |body| % SUMMARY_LEN == 0
    ensures |r| == |body| / SUMMARY_LEN
    decreases |body|
  {
    if body == [] then [] else [SummaryAt(body[..SUMMARY_LEN])] + DecodeList(body[SUMMARY_LEN..])
  }

  function DecodeSnapshot(b: seq<byte>): Result<Snapshot, DecodeError> {
    if |b| < 12 then Err(Truncated(12, |b|))
    else if ReadU32(b[8..12]) != HEADER_LEN then Err(InvalidOffset(HEADER_LEN, ReadU32(b[8..12])))
    else
      var body := b[12..];
      if |body| % SUMMARY_LEN != 0 then Err(MisalignedList(|body|, SUMMARY_LEN))
      else if |body| / SUMMARY_LEN > MAX_EVENT_SUMMARIES then
          Err(ListTooLong(MAX_EVENT_SUMMARIES, |body| / SUMMARY_LEN))
      else Ok(Snapshot(ReadU64(b[0..8]), DecodeList(body)))
  }

  method DecodeSnapshotBytes(b: seq<byte>) returns (r: Result<Snapshot, DecodeError>)
    ensures r == DecodeSnapshot(b)
  {
    if |b| < 12 {
      return Err(Truncated(12, |b|));
    }
    var epochIndex := ReadU64(b[0..8]);
    var offset := ReadU32(b[8..12]);
    if offset != HEADER_LEN {
      return Err(InvalidOffset(HEADER_LEN, offset));
    }
    var body := b[12..];
    if |body| % SUMMARY_LEN != 0 {
      return Err(MisalignedList(|body|, SUMMARY_LEN));
    }
    var count := |body| / SUMMARY_LEN;
    if count > MAX_EVENT_SUMMARIES {
      return Err(ListTooLong(MAX_EVENT_SUMMARIES, count));
    }
    var summaries := DecodeElements(body);
    return Ok(Snapshot(epochIndex, summaries));
  }

  /** The loop over `chunks_exact`. */
  method DecodeElements(body: seq<byte>) returns (summaries: seq<EventSummary>)
    requires |body| % SUMMARY_LEN == 0
    ensures summaries == DecodeList(body)
  {
    summaries := [];
    var rest := body;
    while rest != []
      invariant |rest| % SUMMARY_LEN == 0 && summaries + DecodeList(rest) == DecodeList(body)
      decreases |rest|
    {
      var piece := DecodeSummary(rest[..SUMMARY_LEN]);
      assert summaries + ([piece.value] + DecodeList(rest[SUMMARY_LEN..]))
          == (summaries + [piece.value]) + DecodeList(rest[SUMMARY_LEN..]);
      summaries := summaries + [piece.value];
      rest := rest[SUMMARY_LEN..];
    }
    assert summaries + [] == summaries;
  }

  lemma {:induction false} ListRoundTrip(s: seq<EventSummary>)
    ensures DecodeList(EncodeList(s)) == s
  {
    if s == [] {
    } else {
      var b := EncodeList(s);
      assert b[..SUMMARY_LEN] == EncodeSummary(s[0]) && b[SUMMARY_LEN..] == EncodeList(s[1..]);
      SummaryRoundTrip(s[0]);
      ListRoundTrip(s[1..]);
      assert s == [s[0]] + s[1..];
    }
  }

  lemma {:induction false} ListEncodes(body: seq<byte>)
    requires |body| % SUMMARY_LEN == 0
    ensures EncodeList(DecodeList(body)) == body
    decreases |body|
  {
    if body == [] {
    } else {
      SummaryAtEncodes(body[..SUMMARY_LEN]);
      ListEncodes(body[SUMMARY_LEN..]);
      var l := DecodeList(body);
      assert l[1..] == DecodeList(body[SUMMARY_LEN..]);
      assert body == body[..SUMMARY_LEN] + body[SUMMARY_LEN..];
    }
  }

  /** Decoding inverts encoding on every snapshot that can be encoded. */
  lemma SnapshotRoundTrip(s: Snapshot)
    ensures match EncodeSnapshot(s)
            case Ok(b) => DecodeSnapshot(b) == Ok(s)
            case Err(e) => |s.eventSummaries| > 16384 && e == EncodedListTooLong(16384, |s.eventSummaries|)
  {
    if |s.eventSummaries| <= MAX_EVENT_SUMMARIES {
      var list := EncodeList(s.eventSummaries);
      var b := Header(s.epochIndex) + list;
      assert b[0..8] == ToLe(s.epochIndex, 8) && b[8..12] == ToLe(HEADER_LEN, 4) && b[12..] == list;
      ReadsBack(s.epochIndex, HEADER_LEN);
      ListRoundTrip(s.eventSummaries);
    }
  }

  /** Bytes decode to a snapshot exactly if they are a 12-byte header, whose offset field holds
      12, and at most 16384 whole summaries; and the snapshot encodes back to the same bytes. */
  lemma SnapshotDecodes(b: seq<byte>)
    ensures DecodeSnapshot(b).Ok? <==>
              && 12 <= |b|
              && b[8..12] == [12, 0, 0, 0]
              && exists k: nat :: k <= 16384 && |b| == 12 + 68 * k
    ensures DecodeSnapshot(b).Ok? ==> EncodeSnapshot(DecodeSnapshot(b).value) == Ok(b)
  {
    if 12 <= |b| {
      OffsetField(b[8..12]);
      WholeSummaries(|b| - 12);
      if DecodeSnapshot(b).Ok? { SnapshotEncodes(b); }
    }
  }

  lemma OffsetField(b: seq<byte>)
    requires |b| == 4
    ensures ReadU32(b) == HEADER_LEN <==> b == [12, 0, 0, 0]
  {
    ToLeOfFromLe(b);
    HeaderField();
  }

  lemma WholeSummaries(n: nat)
    ensures n % SUMMARY_LEN == 0 && n / SUMMARY_LEN <= MAX_EVENT_SUMMARIES
        <==> exists k: nat :: k <= 16384 && 12 + n == 12 + 68 * k
  {
    if n % SUMMARY_LEN == 0 { assert 12 + n == 12 + 68 * (n / SUMMARY_LEN); }
  }

  lemma SnapshotEncodes(b: seq<byte>)
    requires DecodeSnapshot(b).Ok?
    ensures EncodeSnapshot(DecodeSnapshot(b).value) == Ok(b)
  {
    var body := b[12..];
    ToLeOfFromLe(b[0..8]);
    ToLeOfFromLe(b[8..12]);
    ListEncodes(body);
    assert b == (b[0..8] + b[8..12]) + body;
  }

  /** Four bytes, the lowest first. */
  function FromBytes(a: nat, b: nat, c: nat, d: nat): nat { a + 0x100 * b + 0x1_0000 * c + 0x100_0000 * d }

  lemma LittleEndian(s: seq<byte>)
    requires |s| == 4
    ensures FromLe(s) == FromBytes(s[0], s[1], s[2], s[3])
  {
    var t, u, v := s[1..], s[2..], s[3..];
    assert t[1..] == u && u[1..] == v && v[1..] == [];
    assert FromLe(v) == s[3];
    assert FromLe(u) == s[2] + 0x100 * FromLe(v);
    assert FromLe(t) == s[1] + 0x100 * FromLe(u);
  }

  /** Why bytes are not a snapshot: too short for a header, an offset field (little-endian) other than 12,
      a part of a summary at the end, or more than 16384 summaries, whichever comes first. */
  lemma SnapshotRejects(b: seq<byte>, error: DecodeError)
    ensures DecodeSnapshot(b) == Err(error) <==>
              if |b| < 12 then error == Truncated(12, |b|)
              else
                var offset := FromBytes(b[8], b[9], b[10], b[11]);
                if offset != 12 then error == InvalidOffset(12, offset)
                else if (|b| - 12) % 68 != 0 then error == MisalignedList(|b| - 12, 68)
                else 16384 < (|b| - 12) / 68 && error == ListTooLong(16384, (|b| - 12) / 68)
  {
    if 12 <= |b| { LittleEndian(b[8..12]); }
  }

  /** Two different byte strings never decode to the same snapshot. */
  lemma SnapshotDecodingInjective(a: seq<byte>, b: seq<byte>)
    requires DecodeSnapshot(a).Ok? && DecodeSnapshot(a) == DecodeSnapshot(b)
    ensures a == b
  {
    SnapshotDecodes(a);
    SnapshotDecodes(b);
  }

  lemma HeaderField()
    ensures ToLe(HEADER_LEN, 4) == [12, 0, 0, 0] && FromLe([12, 0, 0, 0]) == HEADER_LEN
  {
    assert ToLe(0, 1) == [0] && ToLe(0, 2) == [0, 0] && ToLe(0, 3) == [0, 0, 0];
    FromLeOfToLe(HEADER_LEN, 4);
  }
}
