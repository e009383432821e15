/** The orders in which the builder's `BTreeMap`s are iterated, spelled out byte by byte. */
module Iteration {
  import opened Primitives
  import opened Ordered
  import opened Commitments
  import opened Merkle
  import opened Cse
  import opened Keys
  import opened Timeline
  import opened Partition
  import opened ReduceIr
  import opened Lifecycle
  import opened Certificates
  import opened StorageRoots

  ghost predicate InByteOrder(ks: seq<seq<byte>>) { forall i, j :: 0 <= i < j < |ks| ==> Earlier(ks[i], ks[j]) }

  /** Addresses are visited in byte order, each once. */
  lemma AddressesInOrder(s: set<Address>, ks: seq<Address>)
    ensures ks == SortedAddresses(s) <==> InByteOrder(ks) && forall a :: a in ks <==> a in s
  {
    var sorted := SortedAddresses(s);
    AddressOrder();
    KeysIncreasing(AddressLess, s);
    forall a: Address, b: Address ensures AddressLess(a, b) <==> Earlier(a, b) { LexIsEarlier(a, b); }
    if InByteOrder(ks) && forall a :: a in ks <==> a in s {
      assert Increasing(AddressLess, ks);
      IncreasingIsUnique(AddressLess, ks, sorted);
    }
  }

  /** So are the addresses of a lifecycle table. */
  lemma TableAddressesInOrder<V>(m: map<Address, V>)
    ensures TableAddresses(m) == SortedAddresses(m.Keys)
  {
  }

  /** Slots are visited in byte order, each once. */
  lemma SlotsInOrder(slots: Slots, ks: seq<Word>)
    ensures ks == SlotKeys(slots) <==> InByteOrder(ks) && forall s :: s in ks <==> s in slots
  {
    WordOrder();
    KeysIncreasing(WordLess, slots.Keys);
    forall a: Word, b: Word ensures WordLess(a, b) <==> Earlier(a, b) { LexIsEarlier(a, b); }
    if InByteOrder(ks) && forall s :: s in ks <==> s in slots {
      assert Increasing(WordLess, ks);
      IncreasingIsUnique(WordLess, ks, SlotKeys(slots));
    }
  }

  /** What a slot contributes to the tree. */
  function SlotLeaf(hash: Hash, slot: Word, value: Word): Word { hash(Ascii("KAY_TRIE_LEAF") + (slot + value)) }

  /** The leaf hashes of the slots, in the order of `ks`. */
  function SlotLeaves(hash: Hash, ks: seq<Word>, slots: Slots): (r: seq<Word>)
    requires forall s :: s in ks ==> s in slots
    ensures |r| == |ks|
  {
    seq(|ks|, i requires 0 <= i < |ks| => SlotLeaf(hash, ks[i], slots[ks[i]]))
  }

  lemma LeavesSpelled(hash: Hash, ks: seq<Word>, slots: Slots)
    requires forall s :: s in ks ==> s in slots
    ensures Leaves(hash, ks, slots) == SlotLeaves(hash, ks, slots)
  {
  }

  /** A storage root is the fold of the slots' leaf hashes in byte order, smallest slot first. */
  lemma DerivedInSlotOrder(hash: Hash, slots: Slots, ks: seq<Word>)
    requires InByteOrder(ks) && forall s :: s in ks <==> s in slots
    ensures DerivedRoot(hash, slots) == TreeRoot(hash, Ascii("KAY_TRIE_BRANCH"), SlotLeaves(hash, ks, slots))
  {
    SlotsInOrder(slots, ks);
    LeavesSpelled(hash, ks, slots);
  }

  // ---- State cells ----

  /** Balances, then nonces, code hashes, storage slots and transient slots. */
  predicate VariantBefore(a: Key, b: Key) {
    || (a.BalanceKey? && !b.BalanceKey?)
    || (a.NonceKey? && !b.BalanceKey? && !b.NonceKey?)
    || (a.CodeKey? && (b.StorageKey? || b.TransientKey?))
    || (a.StorageKey? && b.TransientKey?)
  }

  /** Within a variant by address, then by slot. */
  ghost predicate KeyBefore(a: Key, b: Key) {
    VariantBefore(a, b) ||
    (!VariantBefore(b, a) &&
      (Earlier(a.address, b.address) ||
       (a.address == b.address && (a.StorageKey? || a.TransientKey?) && Earlier(a.slot, b.slot))))
  }

  lemma KeyLessIsBefore(a: Key, b: Key)
    ensures KeyLess(a, b) <==> KeyBefore(a, b)
  {
    LexIsEarlier(a.address, b.address);
    if (a.StorageKey? && b.StorageKey?) || (a.TransientKey? && b.TransientKey?) { LexIsEarlier(a.slot, b.slot); }
  }

  ghost predicate InKeyOrder(ks: seq<Key>) { forall i, j :: 0 <= i < j < |ks| ==> KeyBefore(ks[i], ks[j]) }

  /** State cells are visited in that order, each once. */
  lemma TableKeysInOrder<V>(m: map<Key, V>, ks: seq<Key>)
    ensures ks == TableKeys(m) <==> InKeyOrder(ks) && forall k :: k in ks <==> k in m
  {
    KeyOrder();
    KeysIncreasing(KeyLess, m.Keys);
    forall a: Key, b: Key ensures KeyLess(a, b) <==> KeyBefore(a, b) { KeyLessIsBefore(a, b); }
    if InKeyOrder(ks) && forall k :: k in ks <==> k in m {
      assert Increasing(KeyLess, ks);
      IncreasingIsUnique(KeyLess, ks, TableKeys(m));
    }
  }

  // ---- Reduction ----

  lemma {:induction false} FirstErrorAt(keys: seq<Key>, i: nat, m: map<Key, seq<Observed>>) returns (j: nat)
    requires i <= |keys| && (forall l :: 0 <= l < |keys| ==> keys[l] in m) && FirstError(keys, i, m).Some?
    ensures i <= j < |keys| && !Reduces(m[keys[j]]) && FirstError(keys, i, m) == Some(Failure(m[keys[j]]))
    ensures forall l :: i <= l < j ==> Reduces(m[keys[l]])
    decreases |keys| - i
  {
    if Reduces(m[keys[i]]) {
      j := FirstErrorAt(keys, i + 1, m);
    } else {
      j := i;
    }
  }

  /** The first cell in order whose timeline does not reduce. */
  ghost predicate FailsFirst(m: map<Key, seq<Observed>>, k: Key) {
    k in m && !Reduces(m[k]) && forall l :: l in m && KeyBefore(l, k) ==> Reduces(m[l])
  }

  lemma OneFailsFirst(m: map<Key, seq<Observed>>, k: Key, l: Key)
    requires FailsFirst(m, k) && FailsFirst(m, l)
    ensures k == l
  {
    KeyOrder();
    KeyLessIsBefore(k, l);
    KeyLessIsBefore(l, k);
  }

  /** A table fails to reduce exactly with the error of its first cell, in order, whose timeline does not. */
  lemma TableFails(m: map<Key, seq<Observed>>, error: TimelineError)
    ensures ReduceTable(m) == Err(error) <==> exists k :: FailsFirst(m, k) && error == Failure(m[k])
  {
    var keys := TableKeys(m);
    TableKeysInOrder(m, keys);
    if FirstError(keys, 0, m).Some? {
      var j := FirstErrorAt(keys, 0, m);
      forall l | l in m && KeyBefore(l, keys[j]) ensures Reduces(m[l]) {
        assert l in keys;
        var i :| 0 <= i < |keys| && keys[i] == l;
        BeforeIsEarlier(keys, i, j);
      }
      assert FailsFirst(m, keys[j]);
      forall k | FailsFirst(m, k) ensures k == keys[j] { OneFailsFirst(m, k, keys[j]); }
    } else {
      forall k | k in m ensures Reduces(m[k]) {
        assert k in keys;
      }
    }
  }

  lemma BeforeIsEarlier(keys: seq<Key>, i: nat, j: nat)
    requires InKeyOrder(keys) && i < |keys| && j < |keys| && KeyBefore(keys[i], keys[j])
    ensures i < j
  {
    KeyOrder();
    KeyLessIsBefore(keys[i], keys[j]);
    if j < i { KeyLessIsBefore(keys[j], keys[i]); }
  }

  /** Reduction carries a bucket's metadata, lifecycle observations and logs over unchanged, and reduces
      its gas refund if it has one. */
  lemma BucketCarries(b: Bucket)
    requires ReduceBucket(b).Ok?
    ensures var r := ReduceBucket(b).value;
            && r.metadata == b.metadata && r.lifecycle == b.lifecycle && r.logs == b.logs
            && (r.gasRefund == None <==> b.gasRefund == None)
            && (b.gasRefund.Some? ==> Reduce(b.gasRefund.value) == Ok(r.gasRefund.value))
  {
  }

  /** A bucket fails to reduce with the error of its first cell whose timeline does not, else with that of
      its gas refund. */
  lemma BucketFails(b: Bucket, error: BuilderError)
    ensures ReduceBucket(b) == Err(error) <==>
              || (exists k :: FailsFirst(b.stateTables, k) && error == TimelineFailure(Failure(b.stateTables[k])))
              || ((forall k :: k in b.stateTables ==> Reduces(b.stateTables[k]))
                  && b.gasRefund.Some? && !Reduces(b.gasRefund.value)
                  && error == TimelineFailure(Failure(b.gasRefund.value)))
  {
    var table := ReduceTable(b.stateTables);
    ReduceTableDecides(b.stateTables);
    if table.Err? {
      TableFails(b.stateTables, table.error);
      forall k | FailsFirst(b.stateTables, k) ensures Failure(b.stateTables[k]) == table.error {
        TableFails(b.stateTables, Failure(b.stateTables[k]));
      }
    }
  }

  /** Bucket `i` is the first that does not reduce. */
  predicate BucketFailsFirst(raw: seq<Bucket>, i: nat) {
    i < |raw| && ReduceBucket(raw[i]).Err? && forall j :: 0 <= j < i ==> ReduceBucket(raw[j]).Ok?
  }

  /** Reducing the buckets yields each one's reduction, in order, or the error of the first that fails. */
  lemma {:induction false} ReduceAllMeans(raw: seq<Bucket>)
    ensures match ReduceAll(raw)
            case Ok(r) => |r| == |raw| && forall i :: 0 <= i < |raw| ==> ReduceBucket(raw[i]) == Ok(r[i])
            case Err(error) => exists i: nat :: BucketFailsFirst(raw, i) && ReduceBucket(raw[i]) == Err(error)
    decreases |raw|
  {
    if raw == [] {
    } else if ReduceBucket(raw[0]).Err? {
      assert BucketFailsFirst(raw, 0);
    } else {
      ReduceAllMeans(raw[1..]);
      if ReduceAll(raw[1..]).Err? {
        var i: nat :| BucketFailsFirst(raw[1..], i) && ReduceBucket(raw[1..][i]) == Err(ReduceAll(raw[1..]).error);
        forall j | 0 <= j < i + 1 ensures ReduceBucket(raw[j]).Ok? {
          if 0 < j { assert raw[1..][j - 1] == raw[j]; }
        }
        assert BucketFailsFirst(raw, i + 1);
      }
    }
  }
}
