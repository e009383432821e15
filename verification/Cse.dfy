/** Canonical semantic events (`runtime/cse`), the keys they change, and the stream validator. */
module Cse {
  import opened Primitives

  datatype Payload =
    | BeginTransaction
    | EndTransaction
    | BalanceChanged(address: Address, previousBalance: Word, currentBalance: Word)
    | StorageSlotUpdated(address: Address, slot: Word, previousValue: Word, currentValue: Word)
    | TransientStorageUpdated(address: Address, slot: Word, previousValue: Word, currentValue: Word)
    | NonceUpdated(address: Address, previousNonce: u64, currentNonce: u64)
    | ContractCreated(address: Address, creator: Address)
    | CodeUpdated(address: Address, previousCodeHash: Word, currentCodeHash: Word)
    | ContractDestroyed(address: Address, refundTarget: Address)
    | LogEmitted(address: Address, topics: seq<Word>, data: seq<byte>)
    | GasRefundChanged(previousRefund: u64, currentRefund: u64)
    | AccessListTouched(address: Address, touchedSlot: Option<Word>)

  datatype Provisional = Provisional(chainId: u64, blockNumber: u64, txHash: Word, txIndex: u32)

  /** Diagnostic only: which call frame the event came from. */
  datatype Trace = Trace(callFrameId: u32, callDepth: u32)

  const NO_TRACE := Trace(U32_MAX, 0)

  datatype CseEvent = CseEvent(sequence: nat, provisional: Provisional, trace: Trace, payload: Payload)

  /** The state cell a payload writes (`CanonicalKey`). */
  datatype Key =
    | BalanceKey(address: Address)
    | NonceKey(address: Address)
    | CodeKey(address: Address)
    | StorageKey(address: Address, slot: Word)
    | TransientKey(address: Address, slot: Word)

  /** A cell's content: a 32-byte word, or a count for nonces and the gas refund. */
  datatype Value = Bytes(word: Word) | Count(n: u64)

  function Zero(k: Key): Value { if k.NonceKey? then Count(0) else Bytes(ZERO_WORD) }

  datatype Write = Write(key: Key, before: Value, after: Value)

  function WriteOf(p: Payload): Option<Write> {
    match p
    case BalanceChanged(a, before, after) => Some(Write(BalanceKey(a), Bytes(before), Bytes(after)))
    case NonceUpdated(a, before, after) => Some(Write(NonceKey(a), Count(before), Count(after)))
    case CodeUpdated(a, before, after) => Some(Write(CodeKey(a), Bytes(before), Bytes(after)))
    case StorageSlotUpdated(a, slot, before, after) => Some(Write(StorageKey(a, slot), Bytes(before), Bytes(after)))
    case TransientStorageUpdated(a, slot, before, after) =>
      Some(Write(TransientKey(a, slot), Bytes(before), Bytes(after)))
    case _ => None
  }

  predicate IsBoundary(p: Payload) { p.BeginTransaction? || p.EndTransaction? }

  // ---- CseValidator ----

  datatype PayloadFault = NoOpBalance | NoOpStorage | NullDeployment

  datatype BoundaryFault = NestedBegin | EndWithoutBegin | OutsideEnvelope

  datatype ValidationError =
    | SequenceBreakage(expected: nat, found: nat)
    | InvalidPayloadState(fault: PayloadFault)
    | InvalidBoundaryCondition(boundary: BoundaryFault)

  /** `CanonicalSemanticEvent::validate`. */
  function Validate(e: CseEvent): Option<ValidationError> {
    match e.payload
    case BalanceChanged(_, before, after) => if before == after then Some(InvalidPayloadState(NoOpBalance)) else None
    case StorageSlotUpdated(_, _, before, after) =>
      if before == after then Some(InvalidPayloadState(NoOpStorage)) else None
    case ContractCreated(a, _) => if a == ZERO_ADDRESS then Some(InvalidPayloadState(NullDeployment)) else None
    case _ => None
  }

  datatype Cursor = Cursor(expected: nat, inTransaction: bool)

  const RESET := Cursor(0, false)

  function Check(c: Cursor, e: CseEvent): Result<Cursor, ValidationError> {
    if Validate(e).Some? then Err(Validate(e).value)
    else if e.sequence != c.expected then Err(SequenceBreakage(c.expected, e.sequence))
    else if e.payload.BeginTransaction? then
      if c.inTransaction then Err(InvalidBoundaryCondition(NestedBegin)) else Ok(Cursor(c.expected + 1, true))
    else if e.payload.EndTransaction? then
      if c.inTransaction then Ok(Cursor(c.expected + 1, false)) else Err(InvalidBoundaryCondition(EndWithoutBegin))
    else if !c.inTransaction then Err(InvalidBoundaryCondition(OutsideEnvelope))
    else Ok(Cursor(c.expected + 1, true))
  }

  function CheckAll(c: Cursor, events: seq<CseEvent>): Result<Cursor, ValidationError>
    decreases |events|
  {
    if events == [] then Ok(c)
    else
      match Check(c, events[0])
      case Err(error) => Err(error)
      case Ok(next) => CheckAll(next, events[1..])
  }

  class CseValidator {
    var expectedSequence: nat
    var inTransaction: bool

    ghost function State(): Cursor
      reads this
    {
      Cursor(expectedSequence, inTransaction)
    }

    constructor ()
      ensures State() == RESET
    {
      expectedSequence, inTransaction := 0, false;
    }

    method ValidateAndAdvance(e: CseEvent) returns (r: Option<ValidationError>)
      modifies this
      ensures match Check(old(State()), e)
              case Ok(next) => r == None && State() == next
              case Err(error) => r == Some(error) && State() == old(State())
    {
      var fault := Validate(e);
      if fault.Some? { return fault; }
      if e.sequence != expectedSequence {
        return Some(SequenceBreakage(expectedSequence, e.sequence));
      }
      match e.payload {
        case BeginTransaction =>
          if inTransaction { return Some(InvalidBoundaryCondition(NestedBegin)); }
          inTransaction := true;
        case EndTransaction =>
          if !inTransaction { return Some(InvalidBoundaryCondition(EndWithoutBegin)); }
          inTransaction := false;
        case _ =>
          if !inTransaction { return Some(InvalidBoundaryCondition(OutsideEnvelope)); }
      }
      expectedSequence := expectedSequence + 1;
      return None;
    }

    method Reset()
      modifies this
      ensures State() == RESET
    {
      expectedSequence, inTransaction := 0, false;
    }
  }
}
