/** EMES-V1 events, as `emes/types.go` declares them and `runtime/bridge/src/wire.rs` reads them. */
module Emes {
  import opened Primitives

  /** `^uint64(0)`: the parent of a root frame, and the tag of a mutation outside every frame. */
  const NO_FRAME: u64 := U64_MAX

  /** What a mutation event reports, apart from the frame it is tagged with. */
  datatype Change =
    | Balance(address: Address, before: Word, after: Word)
    | Nonce(address: Address, nonceBefore: u64, nonceAfter: u64)
    | Code(address: Address, before: Word, after: Word)
    | Storage(address: Address, slot: Word, before: Word, after: Word)
    | AccountCreated(address: Address, creator: Address)
    | SelfDestruct(address: Address, beneficiary: Address)

  datatype Body =
    | BlockStart(number: u64)
    | BlockCommit
    | TxStart(txIndex: u64, hash: Word)
    | TxEnd(reverted: bool)
    | FrameEnter(frameId: u64, parentId: u64, depth: u64)
    | FrameExit(frameId: u64, reverted: bool)
    | Mutation(frameId: u64, change: Change)

  datatype Event = Event(sequence: u64, body: Body)

  /** An event that neither opens nor closes a transaction or a frame. */
  type Plain = b: Body | b.BlockStart? || b.BlockCommit? || b.Mutation? witness BlockCommit

  function Bodies(events: seq<Event>): (r: seq<Body>)
    ensures |r| == |events| && forall i :: 0 <= i < |r| ==> r[i] == events[i].body
  {
    seq(|events|, i requires 0 <= i < |events| => events[i].body)
  }
}
