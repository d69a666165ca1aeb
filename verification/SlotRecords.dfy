/** Which slot writes of a run the host records, told from the account alone. */
module SlotRecords {
  import opened Base
  import opened AccountStorages
  import opened AccountDeltas
  import opened OrderedKeys
  import opened Replays

  /** The account after the events, whatever is recorded of them. */
  function Reached(a: AccountState, es: seq<Event>): (r: Option<AccountState>)
    requires Sized(a.storage)
    ensures r.Some? ==> Sized(r.value.storage)
    decreases |es|
  {
    if es == [] then Some(a)
    else
      match Execute(a, es[0])
      case None => None
      case Some(a1) => Reached(a1, es[1..])
  }

  /** Event `k` writes `v` to slot `i`, which held something else until then. */
  predicate Changes(a: AccountState, es: seq<Event>, k: nat, i: u8, v: Word)
    requires Sized(a.storage)
  {
    && k < |es| && es[k] == SetItem(i, v)
    && Reached(a, es[..k]).Some? && Reached(a, es[..k]).value.storage.slots[i] != v
  }

  /** Some event changes the slot, and this is the last value one changes it to. */
  ghost predicate LastChange(a: AccountState, es: seq<Event>, i: u8, v: Word)
    requires Sized(a.storage)
  {
    exists k: nat :: Changes(a, es, k, i, v) && NoLaterChange(a, es, k, i)
  }

  ghost predicate NoLaterChange(a: AccountState, es: seq<Event>, k: nat, i: u8)
    requires Sized(a.storage)
  {
    forall j: nat, w :: j > k ==> !Changes(a, es, j, i, w)
  }

  ghost predicate NeverChanges(a: AccountState, es: seq<Event>, i: u8)
    requires Sized(a.storage)
  {
    forall k: nat, v :: !Changes(a, es, k, i, v)
  }

  lemma ChangesLater(a: AccountState, es: seq<Event>, k: nat, i: u8, v: Word)
    requires Sized(a.storage) && es != [] && Execute(a, es[0]).Some?
    ensures Changes(a, es, k + 1, i, v) <==> Changes(Execute(a, es[0]).value, es[1..], k, i, v)
  {
    if k + 1 < |es| {
      assert es[..k + 1][0] == es[0] && es[..k + 1][1..] == es[1..][..k];
    }
  }

  lemma ChangesFirst(a: AccountState, es: seq<Event>, i: u8, v: Word)
    requires Sized(a.storage) && es != []
    ensures Changes(a, es, 0, i, v) <==> es[0] == SetItem(i, v) && a.storage.slots[i] != v
  {
    assert es[..0] == [];
  }

  lemma NeverFromTail(a: AccountState, es: seq<Event>, i: u8)
    requires Sized(a.storage) && es != [] && Execute(a, es[0]).Some?
    requires NeverChanges(Execute(a, es[0]).value, es[1..], i)
    ensures NoLaterChange(a, es, 0, i)
    ensures (forall v :: !Changes(a, es, 0, i, v)) ==> NeverChanges(a, es, i)
  {
    forall j: nat, w | j > 0 ensures !Changes(a, es, j, i, w) {
      ChangesLater(a, es, j - 1, i, w);
    }
  }

  lemma LastFromTail(a: AccountState, es: seq<Event>, i: u8, v: Word)
    requires Sized(a.storage) && es != [] && Execute(a, es[0]).Some?
    requires LastChange(Execute(a, es[0]).value, es[1..], i, v)
    ensures LastChange(a, es, i, v)
  {
    var a1 := Execute(a, es[0]).value;
    var k: nat :| Changes(a1, es[1..], k, i, v) && NoLaterChange(a1, es[1..], k, i);
    ChangesLater(a, es, k, i, v);
    forall j: nat, w | j > k + 1 ensures !Changes(a, es, j, i, w) {
      ChangesLater(a, es, j - 1, i, w);
    }
  }

  lemma {:induction false} RunReaches(a: AccountState, t: Tracker, es: seq<Event>)
    requires Sized(a.storage)
    ensures Run(a, t, es).Some? <==> Reached(a, es).Some?
    ensures Run(a, t, es).Some? ==> Run(a, t, es).value.0 == Reached(a, es).value
    decreases |es|
  {
    if es != [] && Execute(a, es[0]).Some? {
      RunReaches(Execute(a, es[0]).value, Observe(t, a, es[0]), es[1..]);
    }
  }

  /** What the tracker holds of a slot: what it held before, unless a change overrides it. */
  ghost predicate Records(a: AccountState, es: seq<Event>, before: map<u8, Word>, after: map<u8, Word>, i: u8)
    requires Sized(a.storage)
  {
    if NeverChanges(a, es, i) then (i in after <==> i in before) && (i in before ==> after[i] == before[i])
    else i in after && LastChange(a, es, i, after[i])
  }

  lemma {:induction false} RunRecords(a: AccountState, t: Tracker, es: seq<Event>, i: u8)
    requires Sized(a.storage) && Run(a, t, es).Some?
    ensures Records(a, es, t.slots, Run(a, t, es).value.1.slots, i)
    decreases |es|
  {
    if es != [] {
      var a1, t1 := Execute(a, es[0]).value, Observe(t, a, es[0]);
      var after := Run(a, t, es).value.1.slots;
      RunRecords(a1, t1, es[1..], i);
      forall v ensures Changes(a, es, 0, i, v) <==> es[0] == SetItem(i, v) && a.storage.slots[i] != v {
        ChangesFirst(a, es, i, v);
      }
      if NeverChanges(a1, es[1..], i) {
        NeverFromTail(a, es, i);
        if v :| Changes(a, es, 0, i, v) {
          assert after[i] == v;
        }
      } else {
        LastFromTail(a, es, i, after[i]);
      }
    }
  }

  /**
    For every run: slot `i` is recorded exactly if some event of the run wrote a value to it
    that it did not hold at that moment, and it is recorded with the last such value.
   */
  lemma RecordedExactly(a0: AccountState, es: seq<Event>, i: u8)
    requires Sized(a0.storage) && Run(a0, NewTracker(a0), es).Some?
    ensures var slots := Run(a0, NewTracker(a0), es).value.1.slots;
            && (i in slots <==> !NeverChanges(a0, es, i))
            && (i in slots ==> LastChange(a0, es, i, slots[i]))
  {
    RunRecords(a0, NewTracker(a0), es, i);
  }

  /** Writing what is already there is not recorded and changes nothing. */
  lemma {:induction false} QuietRun(a: AccountState, t: Tracker, es: seq<Event>)
    requires Sized(a.storage) && Run(a, t, es).Some?
    requires forall k | 0 <= k < |es| :: es[k].SetItem? && es[k].value == a.storage.slots[es[k].index]
    ensures Run(a, t, es) == Some((a, t))
    decreases |es|
  {
    if es != [] {
      assert es[0].SetItem?;
      var s := a.storage;
      assert s.slots[es[0].index := es[0].value] == s.slots;
      assert Execute(a, es[0]).value == a;
      QuietRun(a, t, es[1..]);
    }
  }

  // ---------- how recorded slots are listed ----------

  lemma {:induction false} ListedBy(slots: map<u8, Word>, keys: seq<u8>, i: u8)
    requires forall k :: k in keys ==> k in slots
    ensures i in ClearedOf(slots, keys) <==> i in keys && slots[i] == EMPTY_WORD
    ensures forall v :: (i, v) in UpdatedOf(slots, keys) <==> i in keys && slots[i] == v && v != EMPTY_WORD
  {
    if keys != [] {
      ListedBy(slots, keys[1..], i);
      assert keys == [keys[0]] + keys[1..];
    }
  }

  predicate Rising(xs: seq<u8>) {
    forall i, j | 0 <= i < j < |xs| :: xs[i] < xs[j]
  }

  lemma RisingCons(x: u8, xs: seq<u8>)
    requires Rising(xs) && forall y | y in xs :: x < y
    ensures Rising([x] + xs)
  {
    var r := [x] + xs;
    assert forall j | 0 < j < |r| :: r[j] == xs[j - 1] && xs[j - 1] in xs;
  }

  lemma {:induction false} ListedInOrder(slots: map<u8, Word>, keys: seq<u8>)
    requires (forall k :: k in keys ==> k in slots) && Rising(keys)
    ensures Rising(ClearedOf(slots, keys)) && Rising(Indexes(UpdatedOf(slots, keys)))
  {
    if keys != [] {
      var k, tail := keys[0], keys[1..];
      ListedInOrder(slots, tail);
      var cs, us := ClearedOf(slots, tail), UpdatedOf(slots, tail);
      forall y | y in cs ensures k < y {
        ListedBy(slots, tail, y);
        var i :| 0 <= i < |tail| && tail[i] == y;
        assert keys[i + 1] == y;
      }
      forall y | y in Indexes(us) ensures k < y {
        var n :| 0 <= n < |us| && us[n].0 == y;
        ListedBy(slots, tail, y);
        assert (y, us[n].1) in us;
        var i :| 0 <= i < |tail| && tail[i] == y;
        assert keys[i + 1] == y;
      }
      RisingCons(k, cs);
      RisingCons(k, Indexes(us));
      assert Indexes([(k, slots[k])] + us) == [k] + Indexes(us);
    }
  }

  /**
    The storage delta clears exactly the slots recorded as empty and updates exactly the others,
    each in ascending order.
   */
  lemma StorageListsExactly(slots: map<u8, Word>, i: u8, v: Word)
    ensures var d := IntoStorageDelta(slots);
            && (i in d.cleared <==> i in slots && slots[i] == EMPTY_WORD)
            && ((i, v) in d.updated <==> i in slots && slots[i] == v && v != EMPTY_WORD)
            && Rising(d.cleared) && Rising(Indexes(d.updated))
  {
    IndexOrder();
    var keys := Ascending(slots.Keys, IndexLess);
    AscendingIsSorted(slots.Keys, IndexLess);
    assert Rising(keys) by {
      forall i, j | 0 <= i < j < |keys| ensures keys[i] < keys[j] {
        assert IndexLess(keys[i], keys[j]);
      }
    }
    ListedBy(slots, keys, i);
    ListedInOrder(slots, keys);
  }
}
