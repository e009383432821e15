/** The `BTreeMap` order of canonical keys. */
module Keys {
  import opened Primitives
  import opened Ordered
  import opened Cse

  function Rank(k: Key): nat {
    match k
    case BalanceKey(_) => 0
    case NonceKey(_) => 1
    case CodeKey(_) => 2
    case StorageKey(_, _) => 3
    case TransientKey(_, _) => 4
  }

  function SlotOf(k: Key): seq<byte> {
    match k
    case StorageKey(_, slot) => slot
    case TransientKey(_, slot) => slot
    case _ => []
  }

  /** Variant first, then address, then slot. */
  predicate KeyLess(a: Key, b: Key) {
    Rank(a) < Rank(b) || (Rank(a) == Rank(b) &&
      (LexLess(a.address, b.address) || (a.address == b.address && LexLess(SlotOf(a), SlotOf(b)))))
  }

  lemma KeyOrder()
    ensures StrictTotal(KeyLess)
  {
    forall a: Key, b: Key ensures !KeyLess(a, a) && (a == b || KeyLess(a, b) || KeyLess(b, a)) {
      LexTrichotomy(a.address, b.address);
      LexTrichotomy(SlotOf(a), SlotOf(b));
    }
    forall a: Key, b: Key, c: Key | KeyLess(a, b) && KeyLess(b, c) ensures KeyLess(a, c) {
      KeyTransitive(a, b, c);
    }
  }

  lemma KeyTransitive(a: Key, b: Key, c: Key)
    requires KeyLess(a, b) && KeyLess(b, c)
    ensures KeyLess(a, c)
  {
    if Rank(a) == Rank(b) == Rank(c) {
      if LexLess(a.address, b.address) && LexLess(b.address, c.address) {
        LexTransitive(a.address, b.address, c.address);
      }
      if LexLess(SlotOf(a), SlotOf(b)) && LexLess(SlotOf(b), SlotOf(c)) {
        LexTransitive(SlotOf(a), SlotOf(b), SlotOf(c));
      }
    }
  }
}
