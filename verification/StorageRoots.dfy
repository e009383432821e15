/** Storage roots (`lifecycle/storage_root.rs`): a Merkle fold over an account's written slots. */
module StorageRoots {
  import opened Primitives
  import opened Ordered
  import opened Commitments
  import opened Merkle
  import opened Cse
  import opened Timeline
  import opened Certificates
  import ReduceIr

  type Slots = map<Word, Word>

  function SlotKeys(slots: Slots): (r: seq<Word>)
    ensures forall s :: s in r <==> s in slots
    ensures |r| == |slots|
  {
    WordOrder();
    Ordered.Keys(WordLess, slots.Keys)
  }

  function LeafOf(hash: Hash, slot: Word, value: Word): Word { Commit(hash, TrieLeaf, slot + value) }

  function Leaves(hash: Hash, keys: seq<Word>, slots: Slots): (r: seq<Word>)
    requires forall s :: s in keys ==> s in slots
    ensures |r| == |keys|
  {
    seq(|keys|, i requires 0 <= i < |keys| => LeafOf(hash, keys[i], slots[keys[i]]))
  }

  function DerivedRoot(hash: Hash, slots: Slots): Word {
    TreeRoot(hash, Tag(TrieBranch), Leaves(hash, SlotKeys(slots), slots))
  }

  method Derive(hash: Hash, slots: Slots) returns (root: Word)
    ensures root == DerivedRoot(hash, slots)
  {
    var keys := SlotKeys(slots);
    var leaves: seq<Word> := [];
    for i := 0 to |keys|
      invariant leaves == Leaves(hash, keys, slots)[..i]
    {
      leaves := leaves + [LeafOf(hash, keys[i], slots[keys[i]])];
    }
    assert leaves == Leaves(hash, keys, slots);
    root := Fold(hash, Tag(TrieBranch), leaves);
  }

  // ---- Resolving certificates ----

  function TerminalWord(t: Reduced): Word { AsWord(t.terminal) }

  function SlotSet(table: StateTable, seen: set<Key>, a: Address): set<Word> {
    set k | k in seen && k in table && k.StorageKey? && k.address == a :: k.slot
  }

  /** The terminal values of `a`'s storage slots, among the keys `seen`. */
  function SlotsSeen(table: StateTable, seen: set<Key>, a: Address): Slots {
    map s | s in SlotSet(table, seen, a) :: TerminalWord(table[StorageKey(a, s)])
  }

  function SlotsOf(table: StateTable, a: Address): Slots { SlotsSeen(table, table.Keys, a) }

  function SlotsAt(m: map<Address, Slots>, a: Address): Slots { if a in m then m[a] else map[] }

  function AddSlot(m: map<Address, Slots>, k: Key, t: Reduced): map<Address, Slots> {
    if k.StorageKey? then m[k.address := SlotsAt(m, k.address)[k.slot := TerminalWord(t)]] else m
  }

  ghost predicate SlotsGathered(table: StateTable, seen: set<Key>, m: map<Address, Slots>) {
    forall a {:trigger SlotsAt(m, a)} :: SlotsAt(m, a) == SlotsSeen(table, seen, a)
  }

  lemma SeeSlot(table: StateTable, seen: set<Key>, k: Key, a: Address)
    requires k in table
    ensures SlotsSeen(table, seen + {k}, a)
         == if k.StorageKey? && k.address == a then SlotsSeen(table, seen, a)[k.slot := TerminalWord(table[k])]
            else SlotsSeen(table, seen, a)
  {
    if k.StorageKey? && k.address == a {
      assert SlotSet(table, seen + {k}, a) == SlotSet(table, seen, a) + {k.slot};
    } else {
      assert SlotSet(table, seen + {k}, a) == SlotSet(table, seen, a);
    }
  }

  lemma SlotStep(table: StateTable, seen: set<Key>, m: map<Address, Slots>, k: Key)
    requires SlotsGathered(table, seen, m) && k in table
    ensures SlotsGathered(table, seen + {k}, AddSlot(m, k, table[k]))
  {
    forall a ensures SlotsAt(AddSlot(m, k, table[k]), a) == SlotsSeen(table, seen + {k}, a) {
      SeeSlot(table, seen, k, a);
      assert SlotsAt(m, a) == SlotsSeen(table, seen, a);
    }
  }

  lemma NoSlots(table: StateTable)
    ensures SlotsGathered(table, {}, map[])
  {
    forall a ensures SlotsSeen(table, {}, a) == map[] {
      assert SlotSet(table, {}, a) == {};
    }
  }

  method GatherSlots(table: StateTable) returns (slotsByAddress: map<Address, Slots>)
    ensures SlotsGathered(table, table.Keys, slotsByAddress)
  {
    slotsByAddress := map[];
    NoSlots(table);
    var keys := ReduceIr.TableKeys(table);
    for i := 0 to |keys|
      invariant SlotsGathered(table, Firsts(keys, i), slotsByAddress)
    {
      var key := keys[i];
      SlotStep(table, Firsts(keys, i), slotsByAddress, key);
      slotsByAddress := AddSlot(slotsByAddress, key, table[key]);
    }
    AllKeysFirst(table);
  }

  /** The storage root `resolve_storage_roots` derives for each address. */
  function Roots(hash: Hash, table: StateTable): Address -> Word
  {
    (a: Address) => DerivedRoot(hash, SlotsOf(table, a))
  }

  /** The certificates with the storage roots of the addresses `done` set, and otherwise unchanged. */
  function WithRoots(certificates: map<Address, Certificate>, root: Address -> Word, done: set<Address>)
    : map<Address, Certificate>
  {
    map a | a in certificates ::
      if a in done then certificates[a].(storageRoot := Verified(root(a))) else certificates[a]
  }

  lemma WithNoRoots(certificates: map<Address, Certificate>, root: Address -> Word)
    ensures WithRoots(certificates, root, {}) == certificates
  {
  }

  lemma WithRootsStep(certificates: map<Address, Certificate>, root: Address -> Word, done: set<Address>, a: Address)
    requires a in certificates
    ensures var c := WithRoots(certificates, root, done);
            c[a := c[a].(storageRoot := Verified(root(a)))] == WithRoots(certificates, root, done + {a})
  {
  }

  method SetRoots(
    hash: Hash, certificates: map<Address, Certificate>, slotsByAddress: map<Address, Slots>,
    ghost root: Address -> Word)
    returns (resolved: map<Address, Certificate>)
    requires forall a :: root(a) == DerivedRoot(hash, SlotsAt(slotsByAddress, a))
    ensures resolved == WithRoots(certificates, root, certificates.Keys)
  {
    resolved := certificates;
    WithNoRoots(certificates, root);
    var addresses := SortedAddresses(certificates.Keys);
    for i := 0 to |addresses|
      invariant resolved == WithRoots(certificates, root, Firsts(addresses, i))
    {
      var a := addresses[i];
      var derived := Derive(hash, SlotsAt(slotsByAddress, a));
      assert derived == root(a) && a in certificates;
      WithRootsStep(certificates, root, Firsts(addresses, i), a);
      resolved := resolved[a := resolved[a].(storageRoot := Verified(derived))];
    }
    FirstsAll(addresses, certificates.Keys);
  }

  method ResolveStorageRoots(hash: Hash, certificates: map<Address, Certificate>, table: StateTable)
    returns (resolved: map<Address, Certificate>)
    ensures resolved == WithRoots(certificates, Roots(hash, table), certificates.Keys)
  {
    var slotsByAddress := GatherSlots(table);
    resolved := SetRoots(hash, certificates, slotsByAddress, Roots(hash, table));
  }

  // ---- Binding ----

  /** A leaf before hashing: a slot with its value, or padding. */
  type Item = Option<seq<byte>>

  function Digest(hash: Hash, item: Item): Word {
    if item.Some? then Commit(hash, TrieLeaf, item.value) else ZERO_WORD
  }

  function Digests(hash: Hash, t: Tree<Item>): Tree<Word> {
    match t
    case Leaf(item) => Leaf(Digest(hash, item))
    case Node(l, r) => Node(Digests(hash, l), Digests(hash, r))
  }

  function ItemRoot(hash: Hash, t: Tree<Item>): Word { Root(hash, Tag(TrieBranch), Digests(hash, t)) }

  /** Everything hashed to compute `ItemRoot`. */
  ghost function Hashed(hash: Hash, t: Tree<Item>): set<seq<byte>> {
    match t
    case Leaf(None) => {}
    case Leaf(Some(bytes)) => {Tag(TrieLeaf) + bytes}
    case Node(l, r) => {Tag(TrieBranch) + (ItemRoot(hash, l) + ItemRoot(hash, r))} + Hashed(hash, l) + Hashed(hash, r)
  }

  lemma LeafBinds(hash: Hash, a: Item, b: Tree<Item>) returns (v: Evidence)
    requires Digest(hash, a) == ItemRoot(hash, b)
    ensures Supported(hash, v, Hashed(hash, Leaf(a)), Hashed(hash, b))
    ensures v.NoEvidence? ==> b == Leaf(a)
  {
    v := NoEvidence;
    match b {
      case Leaf(None) =>
        if a.Some? { v := ZeroDigest(Tag(TrieLeaf) + a.value); }
      case Leaf(Some(y)) =>
        if a.None? {
          v := ZeroDigest(Tag(TrieLeaf) + y);
        } else if a.value != y {
          if Tag(TrieLeaf) + a.value == Tag(TrieLeaf) + y { DomainSeparation(TrieLeaf, a.value, TrieLeaf, y); }
          v := TwoInputs(Clash(Tag(TrieLeaf) + a.value, Tag(TrieLeaf) + y));
        }
      case Node(l, r) =>
        var joined := ItemRoot(hash, l) + ItemRoot(hash, r);
        if a.None? {
          v := ZeroDigest(Tag(TrieBranch) + joined);
        } else {
          TagsApart(TrieLeaf, a.value, TrieBranch, joined);
          v := TwoInputs(Clash(Tag(TrieLeaf) + a.value, Tag(TrieBranch) + joined));
        }
    }
  }

  /** Trees of any two shapes with one root are the same tree, or there is evidence against the hash. */
  lemma {:induction false} ItemRootBinds(hash: Hash, a: Tree<Item>, b: Tree<Item>) returns (v: Evidence)
    requires ItemRoot(hash, a) == ItemRoot(hash, b)
    ensures Supported(hash, v, Hashed(hash, a), Hashed(hash, b))
    ensures v.NoEvidence? ==> a == b
  {
    if a.Leaf? {
      v := LeafBinds(hash, a.value, b);
    } else if b.Leaf? {
      v := LeafBinds(hash, b.value, a);
      v := Mirrored(hash, v, Hashed(hash, b), Hashed(hash, a));
    } else {
      var c := JoinBinds(hash, Tag(TrieBranch), ItemRoot(hash, a.left), ItemRoot(hash, a.right),
                         ItemRoot(hash, b.left), ItemRoot(hash, b.right));
      v := NoEvidence;
      if c.Some? {
        v := TwoInputs(c.value);
      } else {
        v := ItemRootBinds(hash, a.left, b.left);
        if v.NoEvidence? {
          v := ItemRootBinds(hash, a.right, b.right);
        }
      }
    }
  }

  function ItemOf(slot: Word, value: Word): Item { Some(slot + value) }

  function Items(keys: seq<Word>, slots: Slots): (r: seq<Item>)
    requires forall s :: s in keys ==> s in slots
    ensures |r| == Pow2(Depth(|keys|))
  {
    seq(Pow2(Depth(|keys|)), i requires 0 <= i => if i < |keys| then ItemOf(keys[i], slots[keys[i]]) else None)
  }

  function SlotTree(slots: Slots): Tree<Item> { Perfect(Items(SlotKeys(slots), slots), Depth(|slots|)) }

  lemma {:induction false} DigestsOfPerfect(hash: Hash, items: seq<Item>, leaves: seq<Word>, k: nat)
    requires |items| == |leaves| == Pow2(k)
    requires forall i :: 0 <= i < |items| ==> leaves[i] == Digest(hash, items[i])
    ensures Digests(hash, Perfect(items, k)) == Perfect(leaves, k)
  {
    if k == 0 {
    } else {
      DigestsOfPerfect(hash, items[..Pow2(k - 1)], leaves[..Pow2(k - 1)], k - 1);
      DigestsOfPerfect(hash, items[Pow2(k - 1)..], leaves[Pow2(k - 1)..], k - 1);
    }
  }

  lemma DerivedIsItemRoot(hash: Hash, slots: Slots)
    ensures DerivedRoot(hash, slots) == ItemRoot(hash, SlotTree(slots))
  {
    var keys := SlotKeys(slots);
    DigestsOfPerfect(hash, Items(keys, slots), Padded(Leaves(hash, keys, slots)), Depth(|slots|));
  }

  lemma DifferentCounts(ka: seq<Word>, a: Slots, kb: seq<Word>, b: Slots)
    requires (forall s :: s in ka ==> s in a) && (forall s :: s in kb ==> s in b)
    requires |ka| < |kb|
    ensures Items(ka, a) != Items(kb, b)
  {
    if |Items(ka, a)| == |Items(kb, b)| {
      assert Items(ka, a)[|ka|] != Items(kb, b)[|ka|];
    }
  }

  lemma ItemsBind(ka: seq<Word>, a: Slots, kb: seq<Word>, b: Slots)
    requires (forall s :: s in ka <==> s in a) && (forall s :: s in kb <==> s in b)
    requires Items(ka, a) == Items(kb, b)
    ensures a == b
  {
    var x, y := Items(ka, a), Items(kb, b);
    if |ka| < |kb| { DifferentCounts(ka, a, kb, b); }
    if |kb| < |ka| { DifferentCounts(kb, b, ka, a); }
    forall i | 0 <= i < |ka| ensures ka[i] == kb[i] && a[ka[i]] == b[kb[i]] {
      assert x[i] == y[i];
      WordPair(ka[i], a[ka[i]], kb[i], b[kb[i]]);
    }
    assert ka == kb;
    forall s | s in a ensures s in b && a[s] == b[s] {
      var i :| 0 <= i < |ka| && ka[i] == s;
    }
    forall s | s in b ensures s in a {
      var i :| 0 <= i < |kb| && kb[i] == s;
    }
  }

  /** A storage root determines the slots it was derived from, of any number: two slot maps with one
      root are equal, or two of the inputs hashed clash, or one of them hashes to the zero word. */
  lemma DeriveBinds(hash: Hash, a: Slots, b: Slots) returns (v: Evidence)
    requires DerivedRoot(hash, a) == DerivedRoot(hash, b)
    ensures Supported(hash, v, Hashed(hash, SlotTree(a)), Hashed(hash, SlotTree(b)))
    ensures v.NoEvidence? ==> a == b
  {
    DerivedIsItemRoot(hash, a);
    DerivedIsItemRoot(hash, b);
    v := ItemRootBinds(hash, SlotTree(a), SlotTree(b));
    if v.NoEvidence? {
      YieldOfPerfect(Items(SlotKeys(a), a), Depth(|a|));
      YieldOfPerfect(Items(SlotKeys(b), b), Depth(|b|));
      ItemsBind(SlotKeys(a), a, SlotKeys(b), b);
    }
  }
}
