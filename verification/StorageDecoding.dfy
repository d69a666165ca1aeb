/** What the storage decoder accepts, for all bytes: more than the encoder writes. */
module StorageDecoding {
  import opened Base
  import opened Codec
  import opened AccountStorages
  import opened StorageCodecs

  type Types = seq<(u8, SlotType)>
  type Values = seq<(u8, Word)>

  /** The type listed last for a slot, the default type if none is. */
  function LastType(types: Types, index: u8): SlotType {
    if types == [] then DEFAULT_SLOT_TYPE
    else
      var n := |types| - 1;
      if types[n].0 == index then types[n].1 else LastType(types[..n], index)
  }

  lemma {:induction false} TypeMapIsLast(types: Types, index: u8)
    ensures TypeOf(TypeMap(types), index) == LastType(types, index)
  {
    if types != [] {
      TypeMapIsLast(types[..|types| - 1], index);
    }
  }

  /** Two lists that a decoder takes for a storage: nothing is asked of the order or use of types. */
  predicate Acceptable(types: Types, values: Values) {
    && |types| < 0x100 && |values| < 0x100
    && (forall i | 0 <= i < |types| :: Encodable(types[i].1))
    && Different(values)
    && (forall i | 0 <= i < |values| :: values[i].0 != LAYOUT_COMMITMENT_INDEX)
  }

  ghost predicate Listed(values: Values, index: u8) {
    exists i :: 0 <= i < |values| && values[i].0 == index
  }

  /** The storage the lists stand for: a type counts only if its slot has a value. */
  ghost predicate Describes(hash: Hash, types: Types, values: Values, s: Storage) {
    && ValidStorage(hash, s)
    && (forall i | 0 <= i < |values| ::
          s.slots[values[i].0] == values[i].1 && s.layout[values[i].0] == LastType(types, values[i].0))
    && (forall index: u8 | index != LAYOUT_COMMITMENT_INDEX && !Listed(values, index) ::
          s.slots[index] == EMPTY_WORD && s.layout[index] == DEFAULT_SLOT_TYPE)
  }

  lemma ItemsFollow(types: Types, values: Values)
    requires Different(values)
    ensures var items := AssignTypes(TypeMap(types), values);
            && (DistinctIndexes(items))
            && (NoReservedIndex(items) <==> forall i | 0 <= i < |values| :: values[i].0 != LAYOUT_COMMITMENT_INDEX)
            && (forall i | 0 <= i < |values| :: items[i].slot == StorageSlot(LastType(types, values[i].0), values[i].1))
  {
    var items := AssignTypes(TypeMap(types), values);
    AssignTypesMeaning(TypeMap(types), values);
    forall i | 0 <= i < |values| ensures items[i].slot == StorageSlot(LastType(types, values[i].0), values[i].1) {
      TypeMapIsLast(types, values[i].0);
    }
  }

  lemma RepeatedIsRefused(types: Types, values: Values)
    ensures DistinctIndexes(AssignTypes(TypeMap(types), values)) <==> Different(values)
  {
    var items := AssignTypes(TypeMap(types), values);
    assert forall i | 0 <= i < |values| :: items[i].index == values[i].0;
  }

  lemma NamesAreListed(types: Types, values: Values, index: u8)
    ensures Names(AssignTypes(TypeMap(types), values), index) <==> Listed(values, index)
  {
    var items := AssignTypes(TypeMap(types), values);
    if i :| 0 <= i < |items| && items[i].index == index {
      assert values[i].0 == index;
    }
    if i :| 0 <= i < |values| && values[i].0 == index {
      assert items[i].index == index;
    }
  }

  /** A valid storage holds the items made of two lists exactly if the lists describe it. */
  lemma HoldsIsDescribed(hash: Hash, types: Types, values: Values, s: Storage)
    requires ValidStorage(hash, s) && Different(values)
    requires forall i | 0 <= i < |values| :: values[i].0 != LAYOUT_COMMITMENT_INDEX
    ensures Holds(s, AssignTypes(TypeMap(types), values)) <==> Describes(hash, types, values, s)
  {
    var items := AssignTypes(TypeMap(types), values);
    ItemsFollow(types, values);
    forall index: u8 ensures Names(items, index) <==> Listed(values, index) {
      NamesAreListed(types, values, index);
    }
    assert forall i | 0 <= i < |values| :: items[i].index == values[i].0;
  }

  lemma BuiltExactly(hash: Hash, types: Types, values: Values, s: Storage)
    requires Different(values) && forall i | 0 <= i < |values| :: values[i].0 != LAYOUT_COMMITMENT_INDEX
    ensures BuildStorage(hash, AssignTypes(TypeMap(types), values)) == Some(s) <==> Describes(hash, types, values, s)
  {
    var items := AssignTypes(TypeMap(types), values);
    ItemsFollow(types, values);
    BuildHolds(hash, items);
    var built := BuildStorage(hash, items).value;
    HoldsIsDescribed(hash, types, values, built);
    if Describes(hash, types, values, s) {
      HoldsIsDescribed(hash, types, values, s);
      HoldsUnique(hash, built, s, items);
    }
  }

  /** What the decoder makes of two encoded lists. */
  lemma ListsAreRead(hash: Hash, b: Bytes, types: Types, values: Values, rest: Bytes)
    requires Acceptable(types, values) && b == Write8(TYPE_ENTRY, types) + (Write8(VALUE_ENTRY, values) + rest)
    ensures ReadStorage(hash, b) == Some((BuildStorage(hash, AssignTypes(TypeMap(types), values)).value, rest))
  {
    var b1 := Write8(VALUE_ENTRY, values) + rest;
    TypeEntryExact();
    ValueEntryExact();
    Read8Exact(TYPE_ENTRY, Unchecked<(u8, SlotType)>, b, types, b1);
    Read8Exact(VALUE_ENTRY, Unchecked<(u8, Word)>, b1, values, rest);
    ItemsFollow(types, values);
  }

  /** Whatever is decoded starts with two encoded lists that the decoder takes. */
  lemma ReadMeansLists(hash: Hash, b: Bytes) returns (types: Types, values: Values)
    requires ReadStorage(hash, b).Some?
    ensures Acceptable(types, values)
    ensures b == Write8(TYPE_ENTRY, types) + (Write8(VALUE_ENTRY, values) + ReadStorage(hash, b).value.1)
    ensures BuildStorage(hash, AssignTypes(TypeMap(types), values)) == Some(ReadStorage(hash, b).value.0)
  {
    var (ts, b1) := Read8(TYPE_ENTRY, Unchecked<(u8, SlotType)>, b).value;
    var (vs, rest) := Read8(VALUE_ENTRY, Unchecked<(u8, Word)>, b1).value;
    types, values := ts, vs;
    TypeEntryExact();
    ValueEntryExact();
    Read8Exact(TYPE_ENTRY, Unchecked<(u8, SlotType)>, b, types, b1);
    Read8Exact(VALUE_ENTRY, Unchecked<(u8, Word)>, b1, values, rest);
    RepeatedIsRefused(types, values);
    ItemsFollow(types, values);
  }

  /** The bytes are two acceptable lists that describe the storage, and the rest. */
  ghost predicate Decodes(hash: Hash, b: Bytes, types: Types, values: Values, s: Storage, rest: Bytes) {
    && Acceptable(types, values)
    && Describes(hash, types, values, s)
    && b == Write8(TYPE_ENTRY, types) + (Write8(VALUE_ENTRY, values) + rest)
  }

  /**
    For all bytes: the decoder returns a storage and a rest if and only if the bytes are two
    encoded lists, of encodable types and of values with distinct indexes other than 255,
    followed by that rest, and the storage is the one the lists describe.
   */
  lemma StorageExact(hash: Hash, b: Bytes, s: Storage, rest: Bytes)
    ensures ReadStorage(hash, b) == Some((s, rest)) <==> exists types, values :: Decodes(hash, b, types, values, s, rest)
  {
    if ReadStorage(hash, b) == Some((s, rest)) {
      var types, values := ReadMeansLists(hash, b);
      BuiltExactly(hash, types, values, s);
      assert Decodes(hash, b, types, values, s, rest);
    }
    if types, values :| Decodes(hash, b, types, values, s, rest) {
      ListsAreRead(hash, b, types, values, rest);
      BuiltExactly(hash, types, values, s);
    }
  }

  /** So encodings are not unique: a type listed for a slot without value leaves no trace. */
  lemma UnusedTypeIsAccepted(hash: Hash, rest: Bytes)
    ensures var b: Bytes := [1, 0, 1, 0, 0];
            && ReadStorage(hash, b + rest).Some?
            && ReadStorage(hash, b + rest).value.1 == rest
            && WriteStorage(ReadStorage(hash, b + rest).value.0) != b
  {
    var b: Bytes := [1, 0, 1, 0, 0];
    var types: Types, values: Values := [(0, Map(0))], [];
    assert Write8(VALUE_ENTRY, values) == [0];
    assert WriteU16(1) == [1, 0];
    assert TypeToU16(Map(0)) == 1;
    assert WriteTypeEntry(types[0]) == [0, 1, 0];
    assert WriteMany(TYPE_ENTRY, types) == WriteTypeEntry(types[0]) + [];
    assert Write8(TYPE_ENTRY, types) == [1, 0, 1, 0];
    assert b + rest == Write8(TYPE_ENTRY, types) + (Write8(VALUE_ENTRY, values) + rest);
    ListsAreRead(hash, b + rest, types, values, rest);
    var s := ReadStorage(hash, b + rest).value.0;
    BuiltExactly(hash, types, values, s);
    NoTypesWritten(s);
  }

  lemma NoTypesWritten(s: Storage)
    requires Sized(s) && forall i | 0 <= i < 255 :: s.layout[i] == DEFAULT_SLOT_TYPE
    ensures WriteStorage(s)[0] == 0
  {
    var types := ComplexTypes(s);
    PickMembers(s.layout[..255], NonDefault, 0);
    assert forall i | 0 <= i < |types| :: types[i] in types;
  }

  /** A storage with a typed but empty slot, as the constructor makes it, does not come back. */
  lemma EmptyTypedSlotIsLost(hash: Hash, index: u8, t: SlotType, rest: Bytes)
    requires index != LAYOUT_COMMITMENT_INDEX && t != DEFAULT_SLOT_TYPE
    ensures var built := BuildStorage(hash, [SlotItem(index, StorageSlot(t, EMPTY_WORD))]);
            built.Some? && ValidStorage(hash, built.value)
            && ReadStorage(hash, WriteStorage(built.value) + rest) != Some((built.value, rest))
  {
    var items := [SlotItem(index, StorageSlot(t, EMPTY_WORD))];
    BuildHolds(hash, items);
    var s := BuildStorage(hash, items).value;
    assert s.layout[items[0].index] == t && s.slots[items[0].index] == EMPTY_WORD;
    RoundTrip(hash, s, rest);
  }
}
