/** The 256 storage slots of an account, their types, and updates to them. */
module AccountStorages {
  import opened Base
  import MerkleTrees

  const NUM_STORAGE_SLOTS := 256
  const LAYOUT_COMMITMENT_INDEX: u8 := 255
  const MAX_VALUE_ARITY: u8 := 254
  const MIN_ARRAY_DEPTH: u8 := 2
  const MAX_ARRAY_DEPTH: u8 := 64

  datatype SlotType =
    | Value(valueArity: u8)
    | Map(valueArity: u8)
    | Array(depth: u8, valueArity: u8)
  {
    predicate IsValid() {
      match this
      case Value(arity) => arity <= MAX_VALUE_ARITY
      case Map(arity) => arity <= MAX_VALUE_ARITY
      case Array(depth, arity) => arity < MAX_VALUE_ARITY && MIN_ARRAY_DEPTH <= depth <= MAX_ARRAY_DEPTH
    }

    predicate IsDefault() {
      this == Value(0)
    }

    /** The field element hashed into the layout commitment. */
    function ToFelt(): Felt {
      match this
      case Value(arity) => arity * 0x1_0000_0000
      case Map(arity) => arity * 0x1_0000_0000 + 1
      case Array(depth, arity) => arity * 0x1_0000_0000 + depth
    }
  }

  const DEFAULT_SLOT_TYPE := Value(0)

  datatype StorageSlot = StorageSlot(slotType: SlotType, value: Word)
  datatype SlotItem = SlotItem(index: u8, slot: StorageSlot)

  datatype StorageError =
    | StorageSlotIsReserved(index: u8)
    | StorageSlotInvalidValueArity(index: u8, actual: u8)
    | StorageSlotNotValueSlot(index: u8, slotType: SlotType)
    | DuplicateStorageItems(index: u8)

  /** The tree of slot values, as its 256 leaves, and the slot types. */
  datatype Storage = Storage(slots: seq<Word>, layout: seq<SlotType>)

  function LayoutCommitment(hash: Hash, layout: seq<SlotType>): Word {
    hash(seq(|layout|, i requires 0 <= i < |layout| => layout[i].ToFelt()))
  }

  predicate Sized(s: Storage) {
    |s.slots| == |s.layout| == NUM_STORAGE_SLOTS
  }

  /** Slot 255 always commits to the layout. */
  predicate ValidStorage(hash: Hash, s: Storage) {
    && Sized(s)
    && s.layout[LAYOUT_COMMITMENT_INDEX] == Value(64)
    && s.slots[LAYOUT_COMMITMENT_INDEX] == LayoutCommitment(hash, s.layout)
  }

  /** A slot accepts updates if it is not reserved and holds plain values. */
  predicate Mutable(s: Storage, index: u8)
    requires Sized(s)
  {
    index != LAYOUT_COMMITMENT_INDEX && s.layout[index] == DEFAULT_SLOT_TYPE
  }

  function WithItem(s: Storage, index: u8, value: Word): (r: Result<Storage, StorageError>)
    requires Sized(s)
    ensures r.Ok? <==> Mutable(s, index)
    ensures r == Err(StorageSlotIsReserved(index)) <==> index == 255
    ensures r.Err? && index != 255 ==>
              r.error == if s.layout[index].Value? then StorageSlotInvalidValueArity(index, s.layout[index].valueArity)
                         else StorageSlotNotValueSlot(index, s.layout[index])
    ensures r.Ok? ==> Sized(r.value) && r.value.layout == s.layout && r.value.slots == s.slots[index := value]
    ensures forall hash: Hash {:trigger ValidStorage(hash, s)} ::
              r.Ok? && ValidStorage(hash, s) ==> ValidStorage(hash, r.value)
  {
    if index == LAYOUT_COMMITMENT_INDEX then Err(StorageSlotIsReserved(index))
    else
      match s.layout[index]
      case Value(arity) =>
        if arity > 0 then Err(StorageSlotInvalidValueArity(index, arity))
        else Ok(s.(slots := s.slots[index := value]))
      case other => Err(StorageSlotNotValueSlot(index, other))
  }

  // ---------- building a storage ----------

  function EmptyLayout(): (r: seq<SlotType>)
    ensures |r| == NUM_STORAGE_SLOTS
  {
    seq(NUM_STORAGE_SLOTS, _ => DEFAULT_SLOT_TYPE)[LAYOUT_COMMITMENT_INDEX := Value(64)]
  }

  predicate DistinctIndexes(items: seq<SlotItem>) {
    forall i, j :: 0 <= i < j < |items| ==> items[i].index != items[j].index
  }

  predicate NoReservedIndex(items: seq<SlotItem>) {
    forall i :: 0 <= i < |items| ==> items[i].index != LAYOUT_COMMITMENT_INDEX
  }

  ghost predicate Names(items: seq<SlotItem>, index: u8) {
    exists i :: 0 <= i < |items| && items[i].index == index
  }

  /** The slot that `items` put at an index; an empty slot of the default type if none does. */
  function SlotAt(items: seq<SlotItem>, index: u8): StorageSlot {
    if items == [] then StorageSlot(DEFAULT_SLOT_TYPE, EMPTY_WORD)
    else if items[0].index == index then items[0].slot
    else SlotAt(items[1..], index)
  }

  function BuildStorage(hash: Hash, items: seq<SlotItem>): Option<Storage> {
    if NoReservedIndex(items) && DistinctIndexes(items) then
      var layout := seq(NUM_STORAGE_SLOTS, (i: nat) requires i < NUM_STORAGE_SLOTS =>
        if i == LAYOUT_COMMITMENT_INDEX then Value(64) else SlotAt(items, i).slotType);
      var slots := seq(NUM_STORAGE_SLOTS, (i: nat) requires i < NUM_STORAGE_SLOTS =>
        if i == LAYOUT_COMMITMENT_INDEX then LayoutCommitment(hash, layout) else SlotAt(items, i).value);
      Some(Storage(slots, layout))
    else
      None
  }

  lemma {:induction false} SlotAtMeaning(items: seq<SlotItem>, index: u8)
    requires DistinctIndexes(items)
    ensures forall i | 0 <= i < |items| && items[i].index == index :: SlotAt(items, index) == items[i].slot
    ensures !Names(items, index) ==> SlotAt(items, index) == StorageSlot(DEFAULT_SLOT_TYPE, EMPTY_WORD)
  {
    if items != [] {
      SlotAtMeaning(items[1..], index);
      forall i | 0 < i < |items| && items[i].index == index ensures SlotAt(items, index) == items[i].slot {
        assert items[1..][i - 1] == items[i];
      }
      if Names(items[1..], index) {
        var i :| 0 <= i < |items| - 1 && items[1..][i].index == index;
        assert items[i + 1].index == index;
      }
    }
  }

  lemma BuildHolds(hash: Hash, items: seq<SlotItem>)
    requires BuildStorage(hash, items).Some?
    ensures ValidStorage(hash, BuildStorage(hash, items).value) && Holds(BuildStorage(hash, items).value, items)
  {
    forall index: u8
      ensures forall i | 0 <= i < |items| && items[i].index == index :: SlotAt(items, index) == items[i].slot
      ensures !Names(items, index) ==> SlotAt(items, index) == StorageSlot(DEFAULT_SLOT_TYPE, EMPTY_WORD)
    {
      SlotAtMeaning(items, index);
    }
  }

  /** The types the items give to their slots; fails exactly when an item names slot 255. */
  method CollectLayout(items: seq<SlotItem>) returns (r: Result<seq<SlotType>, StorageError>)
    ensures r.Ok? <==> NoReservedIndex(items)
    ensures r.Err? ==> r.error == StorageSlotIsReserved(LAYOUT_COMMITMENT_INDEX)
    ensures r.Ok? ==>
              && |r.value| == NUM_STORAGE_SLOTS && r.value[LAYOUT_COMMITMENT_INDEX] == Value(64)
              && (forall index: u8 | index != LAYOUT_COMMITMENT_INDEX && !Names(items, index) ::
                    r.value[index] == DEFAULT_SLOT_TYPE)
              && (DistinctIndexes(items) ==>
                    forall j | 0 <= j < |items| :: r.value[items[j].index] == items[j].slot.slotType)
  {
    var layout := EmptyLayout();
    for i := 0 to |items|
      invariant |layout| == NUM_STORAGE_SLOTS && layout[LAYOUT_COMMITMENT_INDEX] == Value(64)
      invariant NoReservedIndex(items[..i])
      invariant forall index: u8 | index != LAYOUT_COMMITMENT_INDEX && !Names(items[..i], index) ::
                  layout[index] == DEFAULT_SLOT_TYPE
      invariant DistinctIndexes(items) ==>
                  forall j | 0 <= j < i :: layout[items[j].index] == items[j].slot.slotType
    {
      if items[i].index == LAYOUT_COMMITMENT_INDEX {
        return Err(StorageSlotIsReserved(items[i].index));
      }
      layout := layout[items[i].index := items[i].slot.slotType];
      NamesGrows(items, i);
    }
    assert items[..|items|] == items;
    return Ok(layout);
  }

  function Entries(items: seq<SlotItem>): (r: seq<(nat, Word)>)
    ensures |r| == |items| && forall i | 0 <= i < |r| :: r[i] == (items[i].index, items[i].slot.value)
  {
    seq(|items|, i requires 0 <= i < |items| => (items[i].index, items[i].slot.value))
  }

  lemma EntriesDistinct(items: seq<SlotItem>)
    ensures MerkleTrees.WithLeaves(NUM_STORAGE_SLOTS, Entries(items)).Ok? <==> DistinctIndexes(items)
    ensures MerkleTrees.WithLeaves(NUM_STORAGE_SLOTS, Entries(items)).Ok? ==>
              MerkleTrees.HoldsEntries(MerkleTrees.WithLeaves(NUM_STORAGE_SLOTS, Entries(items)).value, Entries(items))
  {
    var entries := Entries(items);
    MerkleTrees.WithLeavesExact(NUM_STORAGE_SLOTS, entries);
    assert forall i | 0 <= i < |items| :: entries[i].0 == items[i].index;
  }

  /** The first item that names a slot again. */
  ghost predicate RepeatedAt(items: seq<SlotItem>, n: nat, index: u8) {
    && n < |items| && DistinctIndexes(items[..n]) && items[n].index == index
    && exists i :: 0 <= i < n && items[i].index == index
  }

  lemma RepeatedIndex(items: seq<SlotItem>) returns (n: nat)
    requires NoReservedIndex(items) && MerkleTrees.WithLeaves(NUM_STORAGE_SLOTS, Entries(items)).Err?
    ensures n < |items| && RepeatedAt(items, n, items[n].index)
    ensures MerkleTrees.WithLeaves(NUM_STORAGE_SLOTS, Entries(items)).error
         == MerkleTrees.DuplicateValuesForIndex(items[n].index)
  {
    var entries := Entries(items);
    n := MerkleTrees.WithLeavesFault(NUM_STORAGE_SLOTS, entries);
    assert entries[..n] == Entries(items[..n]);
    var front := entries[..n];
    assert forall i | 0 <= i < n :: front[i].0 == items[i].index;
    MerkleTrees.Pigeonhole(front, LAYOUT_COMMITMENT_INDEX);
  }

  /** The slot tree as its 256 leaves. */
  method SlotTree(items: seq<SlotItem>) returns (r: Result<seq<Word>, StorageError>)
    requires NoReservedIndex(items)
    ensures r.Ok? <==> DistinctIndexes(items)
    ensures r.Ok? ==>
              && |r.value| == NUM_STORAGE_SLOTS
              && (forall index: u8 | !Names(items, index) :: r.value[index] == EMPTY_WORD)
              && (forall j | 0 <= j < |items| :: r.value[items[j].index] == items[j].slot.value)
    ensures r.Err? ==> exists n, index :: RepeatedAt(items, n, index) && r.error == DuplicateStorageItems(index)
  {
    EntriesDistinct(items);
    var tree := MerkleTrees.WithLeaves(NUM_STORAGE_SLOTS, Entries(items));
    match tree
    case Err(_) =>
      ghost var n := RepeatedIndex(items);
      return Err(DuplicateStorageItems(tree.error.index));
    case Ok(leaves) =>
      return Ok(seq(NUM_STORAGE_SLOTS, (i: nat) => MerkleTrees.Leaf(leaves, i)));
  }

  /**
    Builds a storage from its items. It succeeds exactly when no item names slot 255 and no
    slot is named twice; then each slot holds what its item says and all others are empty.
   */
  method NewStorage(hash: Hash, items: seq<SlotItem>) returns (r: Result<Storage, StorageError>)
    ensures r.Ok? <==> NoReservedIndex(items) && DistinctIndexes(items)
    ensures r.Err? ==>
              if !NoReservedIndex(items) then r.error == StorageSlotIsReserved(LAYOUT_COMMITMENT_INDEX)
              else exists n, index :: RepeatedAt(items, n, index) && r.error == DuplicateStorageItems(index)
    ensures r.Ok? ==> ValidStorage(hash, r.value) && Holds(r.value, items)
    ensures r.Ok? ==> BuildStorage(hash, items) == Some(r.value)
  {
    var layout := CollectLayout(items);
    if layout.Err? {
      return Err(layout.error);
    }
    var slots := SlotTree(items);
    if slots.Err? {
      return Err(slots.error);
    }
    var commitment := LayoutCommitment(hash, layout.value);
    var s := Storage(slots.value[LAYOUT_COMMITMENT_INDEX := commitment], layout.value);
    BuildHolds(hash, items);
    HoldsUnique(hash, s, BuildStorage(hash, items).value, items);
    return Ok(s);
  }

  lemma NamesGrows(items: seq<SlotItem>, i: nat)
    requires i < |items|
    ensures forall index: u8 :: Names(items[..i + 1], index) <==> Names(items[..i], index) || items[i].index == index
  {
    forall index: u8 | Names(items[..i], index) || items[i].index == index
      ensures Names(items[..i + 1], index)
    {
      if items[i].index == index {
        assert items[..i + 1][i].index == index;
      } else {
        var j :| 0 <= j < i && items[..i][j].index == index;
        assert items[..i + 1][j].index == index;
      }
    }
  }

  /** Below slot 255 the storage holds exactly what the items put there. */
  ghost predicate Holds(s: Storage, items: seq<SlotItem>)
    requires Sized(s)
  {
    && (forall i | 0 <= i < |items| && items[i].index != LAYOUT_COMMITMENT_INDEX ::
          s.slots[items[i].index] == items[i].slot.value && s.layout[items[i].index] == items[i].slot.slotType)
    && (forall index: u8 | index != LAYOUT_COMMITMENT_INDEX && !Names(items, index) ::
          s.slots[index] == EMPTY_WORD && s.layout[index] == DEFAULT_SLOT_TYPE)
  }

  /** The items determine the storage: any two valid storages holding them are equal. */
  lemma HoldsUnique(hash: Hash, s1: Storage, s2: Storage, items: seq<SlotItem>)
    requires ValidStorage(hash, s1) && ValidStorage(hash, s2) && Holds(s1, items) && Holds(s2, items)
    ensures s1 == s2
  {
    forall index: u8 ensures s1.layout[index] == s2.layout[index] {
      if Names(items, index) {
        var i :| 0 <= i < |items| && items[i].index == index;
      }
    }
    assert s1.layout == s2.layout;
    forall index: u8 ensures s1.slots[index] == s2.slots[index] {
      if Names(items, index) {
        var i :| 0 <= i < |items| && items[i].index == index;
      }
    }
    assert s1.slots == s2.slots;
  }

  // ---------- deltas ----------

  datatype StorageDelta = StorageDelta(cleared: seq<u8>, updated: seq<(u8, Word)>)

  function Clears(cleared: seq<u8>): (r: seq<(u8, Word)>)
    ensures |r| == |cleared| && forall i | 0 <= i < |r| :: r[i] == (cleared[i], EMPTY_WORD)
  {
    seq(|cleared|, i requires 0 <= i < |cleared| => (cleared[i], EMPTY_WORD))
  }

  /** The updates of a delta in the order they are applied: clears first. */
  function Updates(d: StorageDelta): seq<(u8, Word)> {
    Clears(d.cleared) + d.updated
  }

  function WithItems(s: Storage, us: seq<(u8, Word)>): (r: Result<Storage, StorageError>)
    requires Sized(s)
    ensures r.Ok? ==> Sized(r.value)
    decreases |us|
  {
    if us == [] then Ok(s)
    else
      match WithItem(s, us[0].0, us[0].1)
      case Ok(s1) => WithItems(s1, us[1..])
      case Err(e) => Err(e)
  }

  /** Where setting the slots one by one gets to, up to the first that cannot be set. */
  function ItemsReached(s: Storage, us: seq<(u8, Word)>): (r: Storage)
    requires Sized(s)
    ensures Sized(r)
    ensures WithItems(s, us).Ok? ==> WithItems(s, us) == Ok(r)
    decreases |us|
  {
    if us == [] then s
    else
      match WithItem(s, us[0].0, us[0].1)
      case Ok(s1) => ItemsReached(s1, us[1..])
      case Err(_) => s
  }

  lemma {:induction false} ItemsInTwo(s: Storage, us: seq<(u8, Word)>, vs: seq<(u8, Word)>)
    requires Sized(s)
    ensures WithItems(s, us + vs) == if WithItems(s, us).Ok? then WithItems(WithItems(s, us).value, vs) else WithItems(s, us)
    ensures ItemsReached(s, us + vs) ==
            if WithItems(s, us).Ok? then ItemsReached(WithItems(s, us).value, vs) else ItemsReached(s, us)
    decreases |us|
  {
    if us == [] {
      assert us + vs == vs;
    } else {
      assert (us + vs)[1..] == us[1..] + vs;
      if WithItem(s, us[0].0, us[0].1).Ok? {
        ItemsInTwo(WithItem(s, us[0].0, us[0].1).value, us[1..], vs);
      }
    }
  }

  function ApplyStorageDelta(s: Storage, d: StorageDelta): (r: Result<Storage, StorageError>)
    requires Sized(s)
    ensures r.Ok? ==> Sized(r.value)
  {
    WithItems(s, Updates(d))
  }

  // ---------- the layout invariant ----------

  /** The changes a storage can go through; either may fail, and leaves what it reached. */
  datatype StorageChange = Set(index: u8, value: Word) | Apply(delta: StorageDelta)

  function AfterChange(s: Storage, c: StorageChange): (r: Storage)
    requires Sized(s)
    ensures Sized(r)
  {
    match c
    case Set(index, value) => ItemsReached(s, [(index, value)])
    case Apply(delta) => ItemsReached(s, Updates(delta))
  }

  function AfterChanges(s: Storage, cs: seq<StorageChange>): (r: Storage)
    requires Sized(s)
    ensures Sized(r)
    decreases |cs|
  {
    if cs == [] then s else AfterChanges(AfterChange(s, cs[0]), cs[1..])
  }

  lemma {:induction false} ItemsKeepLayout(hash: Hash, s: Storage, us: seq<(u8, Word)>)
    requires ValidStorage(hash, s)
    ensures ValidStorage(hash, ItemsReached(s, us)) && ItemsReached(s, us).layout == s.layout
    decreases |us|
  {
    if us != [] && WithItem(s, us[0].0, us[0].1).Ok? {
      ItemsKeepLayout(hash, WithItem(s, us[0].0, us[0].1).value, us[1..]);
    }
  }

  /** Whatever is done to a storage, also unsuccessfully, slot 255 commits to the layout it was built with. */
  lemma {:induction false} LayoutInvariant(hash: Hash, s: Storage, cs: seq<StorageChange>)
    requires ValidStorage(hash, s)
    ensures ValidStorage(hash, AfterChanges(s, cs)) && AfterChanges(s, cs).layout == s.layout
    decreases |cs|
  {
    if cs != [] {
      ItemsKeepLayout(hash, s, if cs[0].Set? then [(cs[0].index, cs[0].value)] else Updates(cs[0].delta));
      LayoutInvariant(hash, AfterChange(s, cs[0]), cs[1..]);
    }
  }

  class AccountStorage {
    var slots: seq<Word>
    var layout: seq<SlotType>

    ghost function State(): Storage
      reads this
    {
      Storage(slots, layout)
    }

    constructor (s: Storage)
      ensures State() == s
    {
      slots, layout := s.slots, s.layout;
    }

    method SetItem(index: u8, value: Word) returns (r: Result<Word, StorageError>)
      requires Sized(State())
      modifies this`slots
      ensures match WithItem(old(State()), index, value)
              case Ok(s) => State() == s && r == Ok(old(slots[index]))
              case Err(e) => State() == old(State()) && r == Err(e)
    {
      if index == LAYOUT_COMMITMENT_INDEX {
        return Err(StorageSlotIsReserved(index));
      }
      match layout[index] {
        case Value(arity) =>
          if arity > 0 {
            return Err(StorageSlotInvalidValueArity(index, arity));
          }
        case other => return Err(StorageSlotNotValueSlot(index, other));
      }
      r := Ok(slots[index]);
      slots := slots[index := value];
    }

    method ApplyDelta(delta: StorageDelta) returns (r: Result<(), StorageError>)
      requires Sized(State())
      modifies this`slots
      ensures match ApplyStorageDelta(old(State()), delta)
              case Ok(s) => State() == s && r == Ok(())
              case Err(e) => State() == ItemsReached(old(State()), Updates(delta)) && r == Err(e)
    {
      ItemsInTwo(State(), Clears(delta.cleared), delta.updated);
      r := ClearItems(delta.cleared);
      if r.Ok? {
        r := UpdateItems(delta.updated);
      }
    }

    method ClearItems(cleared: seq<u8>) returns (r: Result<(), StorageError>)
      requires Sized(State())
      modifies this`slots
      ensures State() == ItemsReached(old(State()), Clears(cleared))
      ensures match WithItems(old(State()), Clears(cleared))
              case Ok(_) => r == Ok(())
              case Err(e) => r == Err(e)
    {
      ghost var us := Clears(cleared);
      ghost var target, reached := WithItems(State(), us), ItemsReached(State(), us);
      for i := 0 to |cleared|
        invariant Sized(State())
        invariant WithItems(State(), us[i..]) == target && ItemsReached(State(), us[i..]) == reached
      {
        assert us[i..][0] == (cleared[i], EMPTY_WORD) && us[i..][1..] == us[i + 1..];
        var q := SetItem(cleared[i], EMPTY_WORD);
        if q.Err? {
          return Err(q.error);
        }
      }
      return Ok(());
    }

    method UpdateItems(us: seq<(u8, Word)>) returns (r: Result<(), StorageError>)
      requires Sized(State())
      modifies this`slots
      ensures State() == ItemsReached(old(State()), us)
      ensures match WithItems(old(State()), us)
              case Ok(_) => r == Ok(())
              case Err(e) => r == Err(e)
    {
      ghost var target, reached := WithItems(State(), us), ItemsReached(State(), us);
      for i := 0 to |us|
        invariant Sized(State())
        invariant WithItems(State(), us[i..]) == target && ItemsReached(State(), us[i..]) == reached
      {
        assert us[i..][1..] == us[i + 1..];
        var q := SetItem(us[i].0, us[i].1);
        if q.Err? {
          return Err(q.error);
        }
      }
      return Ok(());
    }
  }
}
