/** The byte form of an account storage, and exactly when it can be read back. */
module StorageCodecs {
  import opened Base
  import opened Codec
  import opened AccountStorages

  // ---------- slot types ----------

  function TypeToU16(t: SlotType): u16 {
    match t
    case Value(arity) => arity * 0x100
    case Map(arity) => arity * 0x100 + 1
    case Array(depth, arity) => arity * 0x100 + depth
  }

  function TypeFromU16(v: u16): Option<SlotType> {
    var dataType: u8 := v % 0x100;
    var arity: u8 := v / 0x100;
    if arity > MAX_VALUE_ARITY then None
    else if dataType == 0 then Some(Value(arity))
    else if dataType == 1 then Some(Map(arity))
    else if dataType <= MAX_ARRAY_DEPTH then Some(Array(dataType, arity))
    else None
  }

  /** The slot types that survive encoding. */
  predicate Encodable(t: SlotType) {
    t.valueArity <= MAX_VALUE_ARITY && (t.Array? ==> MIN_ARRAY_DEPTH <= t.depth <= MAX_ARRAY_DEPTH)
  }

  lemma TypeExact(v: u16, t: SlotType)
    ensures TypeFromU16(v) == Some(t) <==> Encodable(t) && TypeToU16(t) == v
    ensures t.IsValid() ==> Encodable(t)
  {
  }

  // ---------- entries of the two lists ----------

  function WriteTypeEntry(e: (u8, SlotType)): Bytes {
    [e.0] + WriteU16(TypeToU16(e.1))
  }

  function ReadTypeEntry(b: Bytes): Parse<(u8, SlotType)> {
    match ReadU8(b)
    case None => None
    case Some((index, b1)) =>
      match ReadU16(b1)
      case None => None
      case Some((v, b2)) =>
        match TypeFromU16(v)
        case None => None
        case Some(t) => Some(((index, t), b2))
  }

  function WriteValueEntry(e: (u8, Word)): Bytes {
    [e.0] + WriteWord(e.1)
  }

  function ReadValueEntry(b: Bytes): Parse<(u8, Word)> {
    match ReadU8(b)
    case None => None
    case Some((index, b1)) =>
      match ReadWord(b1)
      case None => None
      case Some((w, b2)) => Some(((index, w), b2))
  }

  const TYPE_ENTRY := Item(WriteTypeEntry, ReadTypeEntry, (e: (u8, SlotType)) => Encodable(e.1))
  const VALUE_ENTRY := Item(WriteValueEntry, ReadValueEntry, (e: (u8, Word)) => true)

  lemma TypeEntryExact()
    ensures Exact(TYPE_ENTRY)
  {
    forall b, e: (u8, SlotType), rest
      ensures ReadTypeEntry(b) == Some((e, rest)) <==> Encodable(e.1) && b == WriteTypeEntry(e) + rest
    {
      var v := TypeToU16(e.1);
      TypeExact(v, e.1);
      if b != [] {
        ReadU16Exact(b[1..], v, rest);
        assert b == [b[0]] + b[1..];
        if ReadTypeEntry(b).Some? {
          var w := ReadU16(b[1..]).value.0;
          TypeExact(w, ReadTypeEntry(b).value.0.1);
        }
        if b == WriteTypeEntry(e) + rest {
          assert b[1..] == WriteU16(v) + rest;
        }
      }
    }
  }

  lemma ValueEntryExact()
    ensures Exact(VALUE_ENTRY)
  {
    forall b, e: (u8, Word), rest
      ensures ReadValueEntry(b) == Some((e, rest)) <==> b == WriteValueEntry(e) + rest
    {
      if b != [] {
        ReadWordExact(b[1..], e.1, rest);
        assert b == [b[0]] + b[1..];
        if b == WriteValueEntry(e) + rest {
          assert b[1..] == WriteWord(e.1) + rest;
        }
      }
    }
  }

  // ---------- what is written ----------

  /** The entries of `xs` worth writing, with their indexes, in ascending order. */
  function Pick<T>(xs: seq<T>, keep: T -> bool, i: nat): (r: seq<(u8, T)>)
    requires i <= |xs| <= 255
    ensures |r| <= |xs| - i
    decreases |xs| - i
  {
    if i == |xs| then []
    else (if keep(xs[i]) then [(i, xs[i])] else []) + Pick(xs, keep, i + 1)
  }

  lemma {:induction false} PickMembers<T>(xs: seq<T>, keep: T -> bool, i: nat)
    requires i <= |xs| <= 255
    ensures forall e | e in Pick(xs, keep, i) :: i <= e.0 < |xs| && e.1 == xs[e.0] && keep(e.1)
    ensures forall k | i <= k < |xs| && keep(xs[k]) :: (k, xs[k]) in Pick(xs, keep, i)
    decreases |xs| - i
  {
    if i < |xs| {
      PickMembers(xs, keep, i + 1);
      assert forall e | e in Pick(xs, keep, i) :: e in Pick(xs, keep, i + 1) || (keep(xs[i]) && e == (i, xs[i]));
    }
  }

  predicate Ascending<T>(r: seq<(u8, T)>) {
    forall j, k | 0 <= j < k < |r| :: r[j].0 < r[k].0
  }

  lemma AscendingCons<T>(x: (u8, T), r: seq<(u8, T)>)
    requires Ascending(r) && forall i | 0 <= i < |r| :: x.0 < r[i].0
    ensures Ascending([x] + r)
  {
  }

  lemma {:induction false} PickAscending<T>(xs: seq<T>, keep: T -> bool, i: nat)
    requires i <= |xs| <= 255
    ensures Ascending(Pick(xs, keep, i))
    decreases |xs| - i
  {
    if i < |xs| {
      PickAscending(xs, keep, i + 1);
      PickMembers(xs, keep, i + 1);
      var rest := Pick(xs, keep, i + 1);
      if keep(xs[i]) {
        assert forall j | 0 <= j < |rest| :: rest[j] in rest;
        AscendingCons((i, xs[i]), rest);
      } else {
        assert Pick(xs, keep, i) == rest;
      }
    }
  }

  predicate NonDefault(t: SlotType) {
    !t.IsDefault()
  }

  predicate NonEmpty(w: Word) {
    w != EMPTY_WORD
  }

  function ComplexTypes(s: Storage): seq<(u8, SlotType)>
    requires Sized(s)
  {
    Pick(s.layout[..255], NonDefault, 0)
  }

  function FilledSlots(s: Storage): seq<(u8, Word)>
    requires Sized(s)
  {
    Pick(s.slots[..255], NonEmpty, 0)
  }

  function WriteStorage(s: Storage): Bytes
    requires Sized(s)
  {
    Write8(TYPE_ENTRY, ComplexTypes(s)) + Write8(VALUE_ENTRY, FilledSlots(s))
  }

  // ---------- what is read ----------

  function TypeMap(entries: seq<(u8, SlotType)>): map<u8, SlotType> {
    if entries == [] then map[]
    else
      var last := entries[|entries| - 1];
      TypeMap(entries[..|entries| - 1])[last.0 := last.1]
  }

  /** Each value takes its type out of the map; a value without one gets the default type. */
  function AssignTypes(types: map<u8, SlotType>, entries: seq<(u8, Word)>): (items: seq<SlotItem>)
    ensures |items| == |entries|
    ensures forall i | 0 <= i < |items| ::
              items[i].index == entries[i].0 && items[i].slot.value == entries[i].1
  {
    if entries == [] then []
    else
      var (index, value) := entries[0];
      var slotType := if index in types then types[index] else DEFAULT_SLOT_TYPE;
      [SlotItem(index, StorageSlot(slotType, value))] + AssignTypes(types - {index}, entries[1..])
  }

  predicate Unchecked<T>(acc: seq<T>, x: T) {
    true
  }

  function ReadStorage(hash: Hash, b: Bytes): Parse<Storage> {
    match Read8(TYPE_ENTRY, Unchecked<(u8, SlotType)>, b)
    case None => None
    case Some((types, b1)) =>
      match Read8(VALUE_ENTRY, Unchecked<(u8, Word)>, b1)
      case None => None
      case Some((values, b2)) =>
        match BuildStorage(hash, AssignTypes(TypeMap(types), values))
        case None => None
        case Some(s) => Some((s, b2))
  }

  // ---------- exactness ----------

  /** Every slot type that was set survives: it can be encoded and its slot is not empty. */
  predicate Survives(s: Storage)
    requires Sized(s)
  {
    forall i | 0 <= i < 255 && !s.layout[i].IsDefault() :: Encodable(s.layout[i]) && s.slots[i] != EMPTY_WORD
  }

  lemma {:induction false} TypeMapMeaning(entries: seq<(u8, SlotType)>)
    ensures forall k :: k in TypeMap(entries) ==> (k, TypeMap(entries)[k]) in entries
    ensures forall e :: e in entries ==> e.0 in TypeMap(entries)
  {
    if entries != [] {
      var front, last := entries[..|entries| - 1], entries[|entries| - 1];
      TypeMapMeaning(front);
      assert entries == front + [last];
    }
  }

  function TypeOf(types: map<u8, SlotType>, index: u8): SlotType {
    if index in types then types[index] else DEFAULT_SLOT_TYPE
  }

  /** No index is listed twice. */
  predicate Different<T>(entries: seq<(u8, T)>) {
    forall i, j | 0 <= i < j < |entries| :: entries[i].0 != entries[j].0
  }

  lemma {:induction false} AssignTypesMeaning(types: map<u8, SlotType>, entries: seq<(u8, Word)>)
    requires Different(entries)
    ensures forall i | 0 <= i < |entries| ::
              AssignTypes(types, entries)[i].slot.slotType == TypeOf(types, entries[i].0)
  {
    if entries != [] {
      assert Different(entries[1..]);
      AssignTypesMeaning(types - {entries[0].0}, entries[1..]);
      var items := AssignTypes(types, entries);
      forall i | 0 < i < |entries| ensures items[i].slot.slotType == TypeOf(types, entries[i].0) {
        assert items[i] == AssignTypes(types - {entries[0].0}, entries[1..])[i - 1];
        assert entries[1..][i - 1] == entries[i];
      }
    }
  }

  lemma {:induction false} AssignedAreEncodable(types: map<u8, SlotType>, entries: seq<(u8, Word)>)
    requires forall k :: k in types ==> Encodable(types[k])
    ensures forall i | 0 <= i < |entries| :: Encodable(AssignTypes(types, entries)[i].slot.slotType)
  {
    if entries != [] {
      AssignedAreEncodable(types - {entries[0].0}, entries[1..]);
    }
  }

  lemma {:induction false} SlotAtEncodable(items: seq<SlotItem>, index: u8)
    requires forall i | 0 <= i < |items| :: Encodable(items[i].slot.slotType)
    ensures Encodable(SlotAt(items, index).slotType)
  {
    if items != [] && items[0].index != index {
      SlotAtEncodable(items[1..], index);
    }
  }

  /** Whatever bytes are read, the slot types that come out are encodable. */
  lemma ReadOnlyEncodable(hash: Hash, b: Bytes)
    requires ReadStorage(hash, b).Some?
    ensures var s := ReadStorage(hash, b).value.0;
            ValidStorage(hash, s) && forall i | 0 <= i < 255 :: Encodable(s.layout[i])
  {
    var (types, b1) := Read8(TYPE_ENTRY, Unchecked<(u8, SlotType)>, b).value;
    TypeEntryExact();
    Read8Exact(TYPE_ENTRY, Unchecked<(u8, SlotType)>, b, types, b1);
    TypeMapMeaning(types);
    var (values, _) := Read8(VALUE_ENTRY, Unchecked<(u8, Word)>, b1).value;
    AssignedAreEncodable(TypeMap(types), values);
    var items := AssignTypes(TypeMap(types), values);
    BuildHolds(hash, items);
    forall i: u8 | i < 255 ensures Encodable(SlotAt(items, i).slotType) {
      SlotAtEncodable(items, i);
    }
  }

  /** If every written type is encodable, the reader gets both lists back as written. */
  lemma ListsComeBack(hash: Hash, s: Storage, rest: Bytes)
    requires Sized(s)
    requires forall i | 0 <= i < 255 :: Encodable(s.layout[i])
    ensures ReadStorage(hash, WriteStorage(s) + rest) ==
            match BuildStorage(hash, AssignTypes(TypeMap(ComplexTypes(s)), FilledSlots(s)))
            case None => None
            case Some(s') => Some((s', rest))
  {
    var types, values := ComplexTypes(s), FilledSlots(s);
    var b1 := Write8(VALUE_ENTRY, values) + rest;
    assert WriteStorage(s) + rest == Write8(TYPE_ENTRY, types) + b1;
    PickMembers(s.layout[..255], NonDefault, 0);
    TypeEntryExact();
    ValueEntryExact();
    Read8Exact(TYPE_ENTRY, Unchecked<(u8, SlotType)>, WriteStorage(s) + rest, types, b1);
    Read8Exact(VALUE_ENTRY, Unchecked<(u8, Word)>, b1, values, rest);
  }

  /** The written list of types tells every slot's type. */
  lemma TypeLookup(s: Storage, i: u8)
    requires Sized(s) && i < 255
    ensures TypeOf(TypeMap(ComplexTypes(s)), i) == s.layout[i]
  {
    var types := ComplexTypes(s);
    PickMembers(s.layout[..255], NonDefault, 0);
    TypeMapMeaning(types);
    assert s.layout[..255][i] == s.layout[i];
    if NonDefault(s.layout[i]) {
      assert (i, s.layout[i]) in types;
    }
  }

  /** The written list of values names each filled slot once, and no other. */
  lemma FilledMeaning(s: Storage)
    requires Sized(s)
    ensures Different(FilledSlots(s))
    ensures forall j | 0 <= j < |FilledSlots(s)| :: FilledSlots(s)[j].0 < 255 && FilledSlots(s)[j].1 == s.slots[FilledSlots(s)[j].0]
    ensures forall i: u8 | i < 255 ::
              s.slots[i] != EMPTY_WORD <==> exists j :: 0 <= j < |FilledSlots(s)| && FilledSlots(s)[j].0 == i
  {
    var values := FilledSlots(s);
    PickMembers(s.slots[..255], NonEmpty, 0);
    PickAscending(s.slots[..255], NonEmpty, 0);
    assert forall j | 0 <= j < |values| :: values[j] in values;
    forall i: u8 | i < 255 && s.slots[i] != EMPTY_WORD ensures exists j :: 0 <= j < |values| && values[j].0 == i {
      assert s.slots[..255][i] == s.slots[i];
      assert (i, s.slots[i]) in values;
    }
  }

  /** What the reader makes of a slot: its type is kept exactly when its value was written. */
  lemma ItemsAt(s: Storage, i: u8)
    requires Sized(s) && i < 255
    ensures var items := AssignTypes(TypeMap(ComplexTypes(s)), FilledSlots(s));
            && NoReservedIndex(items) && DistinctIndexes(items)
            && SlotAt(items, i) == if s.slots[i] == EMPTY_WORD then StorageSlot(DEFAULT_SLOT_TYPE, EMPTY_WORD)
                                   else StorageSlot(s.layout[i], s.slots[i])
  {
    var values, types := FilledSlots(s), TypeMap(ComplexTypes(s));
    var items := AssignTypes(types, values);
    FilledMeaning(s);
    AssignTypesMeaning(types, values);
    SlotAtMeaning(items, i);
    if s.slots[i] != EMPTY_WORD {
      var j :| 0 <= j < |values| && values[j].0 == i;
      TypeLookup(s, i);
      assert items[j].index == i;
    } else {
      assert !Names(items, i);
    }
  }

  /** Rebuilding from the two lists keeps a slot's type exactly when its value was written. */
  lemma Rebuilt(hash: Hash, s: Storage) returns (s': Storage)
    requires ValidStorage(hash, s)
    ensures BuildStorage(hash, AssignTypes(TypeMap(ComplexTypes(s)), FilledSlots(s))) == Some(s')
    ensures ValidStorage(hash, s')
    ensures forall i | 0 <= i < 255 :: s'.slots[i] == s.slots[i]
    ensures forall i | 0 <= i < 255 ::
              s'.layout[i] == if s.slots[i] == EMPTY_WORD then DEFAULT_SLOT_TYPE else s.layout[i]
  {
    var items := AssignTypes(TypeMap(ComplexTypes(s)), FilledSlots(s));
    ItemsAt(s, 0);
    BuildHolds(hash, items);
    s' := BuildStorage(hash, items).value;
    forall i: u8 | i < 255
      ensures s'.slots[i] == s.slots[i]
      ensures s'.layout[i] == if s.slots[i] == EMPTY_WORD then DEFAULT_SLOT_TYPE else s.layout[i]
    {
      ItemsAt(s, i);
    }
  }

  /** A storage reads back as itself exactly when all the types it sets survive. */
  lemma RoundTrip(hash: Hash, s: Storage, rest: Bytes)
    requires ValidStorage(hash, s)
    ensures ReadStorage(hash, WriteStorage(s) + rest) == Some((s, rest)) <==> Survives(s)
  {
    var b := WriteStorage(s) + rest;
    if forall i | 0 <= i < 255 :: Encodable(s.layout[i]) {
      ListsComeBack(hash, s, rest);
      var s' := Rebuilt(hash, s);
      if Survives(s) {
        assert s'.layout == s.layout;
        assert s'.slots == s.slots;
      }
    } else if ReadStorage(hash, b) == Some((s, rest)) {
      ReadOnlyEncodable(hash, b);
    }
  }

  // ---------- the loops that write and read the stream ----------

  method PickEntries<T>(xs: seq<T>, keep: T -> bool) returns (r: seq<(u8, T)>)
    requires |xs| <= 255
    ensures r == Pick(xs, keep, 0)
  {
    r := [];
    for i := 0 to |xs|
      invariant r + Pick(xs, keep, i) == Pick(xs, keep, 0)
    {
      if keep(xs[i]) {
        r := r + [(i, xs[i])];
      }
    }
  }

  lemma {:induction false} WriteManySnoc<T>(c: Item<T>, xs: seq<T>, x: T)
    ensures WriteMany(c, xs + [x]) == WriteMany(c, xs) + c.write(x)
  {
    if xs == [] {
      assert WriteMany(c, [x]) == c.write(x) + [];
    } else {
      WriteManySnoc(c, xs[1..], x);
      assert (xs + [x])[1..] == xs[1..] + [x];
    }
  }

  method WriteTypes(complex: seq<(u8, SlotType)>) returns (target: Bytes)
    requires |complex| <= 255
    ensures target == Write8(TYPE_ENTRY, complex)
  {
    target := [|complex|];
    for i := 0 to |complex|
      invariant target == [|complex|] + WriteMany(TYPE_ENTRY, complex[..i])
    {
      assert complex[..i + 1] == complex[..i] + [complex[i]];
      WriteManySnoc(TYPE_ENTRY, complex[..i], complex[i]);
      target := target + ([complex[i].0] + WriteU16(TypeToU16(complex[i].1)));
    }
    assert complex[..|complex|] == complex;
  }

  method WriteValues(filled: seq<(u8, Word)>) returns (target: Bytes)
    requires |filled| <= 255
    ensures target == Write8(VALUE_ENTRY, filled)
  {
    target := [|filled|];
    for i := 0 to |filled|
      invariant target == [|filled|] + WriteMany(VALUE_ENTRY, filled[..i])
    {
      assert filled[..i + 1] == filled[..i] + [filled[i]];
      WriteManySnoc(VALUE_ENTRY, filled[..i], filled[i]);
      target := target + ([filled[i].0] + WriteWord(filled[i].1));
    }
    assert filled[..|filled|] == filled;
  }

  method WriteInto(s: Storage) returns (target: Bytes)
    requires Sized(s)
    ensures target == WriteStorage(s)
  {
    var complex := PickEntries(s.layout[..255], NonDefault);
    var types := WriteTypes(complex);
    var filled := PickEntries(s.slots[..255], NonEmpty);
    var values := WriteValues(filled);
    target := types + values;
  }

  /** The types still in the map after the entries have taken theirs out. */
  function Without(types: map<u8, SlotType>, entries: seq<(u8, Word)>): map<u8, SlotType> {
    if entries == [] then types else Without(types - {entries[0].0}, entries[1..])
  }

  lemma {:induction false} WithoutSnoc(types: map<u8, SlotType>, entries: seq<(u8, Word)>, e: (u8, Word))
    ensures Without(types, entries + [e]) == Without(types, entries) - {e.0}
    decreases |entries|
  {
    if entries == [] {
      assert entries + [e] == [e] && [e][1..] == [];
    } else {
      WithoutSnoc(types - {entries[0].0}, entries[1..], e);
      assert (entries + [e])[1..] == entries[1..] + [e];
    }
  }

  lemma {:induction false} AssignTypesSnoc(types: map<u8, SlotType>, entries: seq<(u8, Word)>, e: (u8, Word))
    ensures AssignTypes(types, entries + [e]) ==
            AssignTypes(types, entries) + [SlotItem(e.0, StorageSlot(TypeOf(Without(types, entries), e.0), e.1))]
    decreases |entries|
  {
    if entries == [] {
      assert entries + [e] == [e] && [e][1..] == [];
    } else {
      AssignTypesSnoc(types - {entries[0].0}, entries[1..], e);
      assert (entries + [e])[1..] == entries[1..] + [e];
    }
  }

  method ReadTypes(source: Bytes) returns (r: Parse<map<u8, SlotType>>)
    ensures var p := Read8(TYPE_ENTRY, Unchecked<(u8, SlotType)>, source);
            (r.None? <==> p.None?) && (r.Some? ==> r.value == (TypeMap(p.value.0), p.value.1))
  {
    var count := ReadU8(source);
    if count.None? {
      return None;
    }
    var (n, rest) := count.value;
    ghost var entries := [];
    var complex: map<u8, SlotType> := map[];
    for i := 0 to n
      invariant complex == TypeMap(entries)
      invariant ReadMany(TYPE_ENTRY, n - i, Unchecked<(u8, SlotType)>, entries, rest)
             == Read8(TYPE_ENTRY, Unchecked<(u8, SlotType)>, source)
    {
      var entry := ReadTypeEntry(rest);
      if entry.None? {
        return None;
      }
      complex := complex[entry.value.0.0 := entry.value.0.1];
      entries := entries + [entry.value.0];
      rest := entry.value.1;
    }
    return Some((complex, rest));
  }

  method ReadItems(types: map<u8, SlotType>, n: nat, source: Bytes) returns (r: Parse<seq<SlotItem>>)
    ensures var p := ReadMany(VALUE_ENTRY, n, Unchecked<(u8, Word)>, [], source);
            (r.None? <==> p.None?) && (r.Some? ==> r.value == (AssignTypes(types, p.value.0), p.value.1))
  {
    var rest := source;
    ghost var values: seq<(u8, Word)> := [];
    var complex := types;
    var items: seq<SlotItem> := [];
    for i := 0 to n
      invariant complex == Without(types, values)
      invariant items == AssignTypes(types, values)
      invariant ReadMany(VALUE_ENTRY, n - i, Unchecked<(u8, Word)>, values, rest)
             == ReadMany(VALUE_ENTRY, n, Unchecked<(u8, Word)>, [], source)
    {
      var entry := ReadValueEntry(rest);
      if entry.None? {
        return None;
      }
      var e := entry.value.0;
      AssignTypesSnoc(types, values, e);
      WithoutSnoc(types, values, e);
      items := items + [SlotItem(e.0, StorageSlot(TypeOf(complex, e.0), e.1))];
      complex := complex - {e.0};
      values := values + [e];
      rest := entry.value.1;
    }
    return Some((items, rest));
  }

  method ReadFrom(hash: Hash, source: Bytes) returns (r: Parse<Storage>)
    ensures r == ReadStorage(hash, source)
  {
    var types := ReadTypes(source);
    if types.None? {
      return None;
    }
    var count := ReadU8(types.value.1);
    if count.None? {
      return None;
    }
    var items := ReadItems(types.value.0, count.value.0, count.value.1);
    if items.None? {
      return None;
    }
    var built := NewStorage(hash, items.value.0);
    match built
    case Ok(s) => return Some((s, items.value.1));
    case Err(_) => return None;
  }
}
