/**
  Whole transactions: a run of events on an account, the tracker that watches it, and the
  theorem that the tracked delta replays the run.
 */
module Replays {
  import opened Base
  import opened Assets
  import opened AssetVaults
  import opened AccountStorages
  import opened AccountDeltas
  import opened Holdings
  import opened OrderedKeys
  import opened VaultTrackers
  import opened VaultReplays

  /** An account; its vault is given by the ledger, which determines the tree. */
  datatype AccountState = AccountState(id: Felt, code: Word, ledger: Ledger, storage: Storage, nonce: Felt)

  datatype ApplyError =
    | VaultUpdateFailed(vault: VaultError)
    | StorageUpdateFailed(storage: StorageError)
    | NonceNotMonotonicallyIncreasing(current: Felt, new_: Felt)

  ghost predicate ValidAccount(a: AccountState) {
    ValidLedger(a.ledger) && Sized(a.storage)
  }

  // ---------- applying a delta ----------

  function SetNonce(a: AccountState, nonce: Felt): Result<AccountState, ApplyError> {
    if a.nonce >= nonce then Err(NonceNotMonotonicallyIncreasing(a.nonce, nonce)) else Ok(a.(nonce := nonce))
  }

  function ApplyDelta(a: AccountState, d: AccountDelta): Result<AccountState, ApplyError>
    requires Sized(a.storage)
  {
    match ApplyVaultDelta(a.ledger, d.vault)
    case Err(e) => Err(VaultUpdateFailed(e))
    case Ok(ledger) =>
      match ApplyStorageDelta(a.storage, d.storage)
      case Err(e) => Err(StorageUpdateFailed(e))
      case Ok(storage) =>
        var a1 := a.(ledger := ledger, storage := storage);
        match d.nonce
        case None => Ok(a1)
        case Some(nonce) => SetNonce(a1, nonce)
  }

  /** What a delta makes of the account, even if it fails: nothing done before an error is undone. */
  function DeltaReached(a: AccountState, d: AccountDelta): (r: AccountState)
    requires Sized(a.storage)
    ensures ApplyDelta(a, d).Ok? ==> ApplyDelta(a, d) == Ok(r)
    ensures ApplyDelta(a, d).Err? ==> r.nonce == a.nonce
  {
    var a1 := a.(ledger := AddReached(a.ledger, d.vault.added));
    if AddAll(a.ledger, d.vault.added).Err? then a1
    else
      var a2 := a1.(ledger := RemoveReached(a1.ledger, d.vault.removed));
      if RemoveAll(a1.ledger, d.vault.removed).Err? then a2
      else
        var a3 := a2.(storage := ItemsReached(a2.storage, Updates(d.storage)));
        if ApplyStorageDelta(a2.storage, d.storage).Err? || d.nonce.None? || d.nonce.value <= a.nonce then a3
        else a3.(nonce := d.nonce.value)
  }

  // ---------- the tracker ----------

  datatype Tracker = Tracker(slots: map<u8, Word>, vault: VaultTracker, initNonce: Felt, nonceDelta: Felt)

  function NewTracker(a: AccountState): Tracker {
    Tracker(map[], NO_CHANGES, a.nonce, 0)
  }

  predicate IndexLess(a: u8, b: u8) {
    a < b
  }

  lemma IndexOrder()
    ensures StrictOrder(IndexLess)
  {
  }

  function ClearedOf(slots: map<u8, Word>, keys: seq<u8>): seq<u8>
    requires forall k :: k in keys ==> k in slots
  {
    if keys == [] then []
    else if slots[keys[0]] == EMPTY_WORD then [keys[0]] + ClearedOf(slots, keys[1..])
    else ClearedOf(slots, keys[1..])
  }

  function UpdatedOf(slots: map<u8, Word>, keys: seq<u8>): seq<(u8, Word)>
    requires forall k :: k in keys ==> k in slots
  {
    if keys == [] then []
    else if slots[keys[0]] == EMPTY_WORD then UpdatedOf(slots, keys[1..])
    else [(keys[0], slots[keys[0]])] + UpdatedOf(slots, keys[1..])
  }

  ghost function IntoStorageDelta(slots: map<u8, Word>): StorageDelta {
    IndexOrder();
    var keys := Ascending(slots.Keys, IndexLess);
    StorageDelta(ClearedOf(slots, keys), UpdatedOf(slots, keys))
  }

  function NewNonce(t: Tracker): Option<Felt> {
    if t.nonceDelta == 0 then None else Some(FeltAdd(t.initNonce, t.nonceDelta))
  }

  /** The delta of a finished transaction, or nothing if the conversion aborts. */
  ghost function IntoDelta(t: Tracker, less: DigestOrder): Option<AccountDelta>
    requires StrictOrder(less)
  {
    match IntoVaultDelta(t.vault, less)
    case None => None
    case Some(vault) =>
      var d := AccountDelta(IntoStorageDelta(t.slots), vault, NewNonce(t));
      if ValidDelta(d) then Some(d) else None
  }

  // ---------- runs ----------

  datatype Event =
    | VaultAdd(asset: Asset)
    | VaultRemove(asset: Asset)
    | SetItem(index: u8, value: Word)
    | IncrementNonce(amount: Felt)

  predicate WellFormedEvent(e: Event) {
    e.VaultAdd? || e.VaultRemove? ==> WellFormed(e.asset)
  }

  /** One step of the transaction on the account itself; it may fail. */
  function Execute(a: AccountState, e: Event): Option<AccountState>
    requires Sized(a.storage)
  {
    match e
    case VaultAdd(asset) =>
      (match LedgerAdd(a.ledger, asset) case Ok(l) => Some(a.(ledger := l)) case Err(_) => None)
    case VaultRemove(asset) =>
      (match LedgerRemove(a.ledger, asset) case Ok(l) => Some(a.(ledger := l)) case Err(_) => None)
    case SetItem(index, value) =>
      (match WithItem(a.storage, index, value) case Ok(s) => Some(a.(storage := s)) case Err(_) => None)
    case IncrementNonce(amount) => Some(a.(nonce := FeltAdd(a.nonce, amount)))
  }

  /** What the host records of the step, given the account as it was before it. */
  function Observe(t: Tracker, a: AccountState, e: Event): Tracker
    requires Sized(a.storage)
  {
    match e
    case VaultAdd(asset) => t.(vault := Track(t.vault, asset, Size(asset)))
    case VaultRemove(asset) => t.(vault := Track(t.vault, asset, 0 - Size(asset)))
    case SetItem(index, value) =>
      if a.storage.slots[index] != value then t.(slots := t.slots[index := value]) else t
    case IncrementNonce(amount) => t.(nonceDelta := FeltAdd(t.nonceDelta, amount))
  }

  /** All steps succeed, and this is where the account and the tracker end up. */
  function Run(a: AccountState, t: Tracker, es: seq<Event>): (r: Option<(AccountState, Tracker)>)
    requires Sized(a.storage)
    ensures r.Some? ==> Sized(r.value.0.storage)
    decreases |es|
  {
    if es == [] then Some((a, t))
    else
      match Execute(a, es[0])
      case None => None
      case Some(a1) => Run(a1, Observe(t, a, es[0]), es[1..])
  }

  // ---------- the invariant of every run ----------

  ghost predicate TracksStorage(slots: map<u8, Word>, s0: Storage, s1: Storage)
    requires Sized(s0) && Sized(s1)
  {
    && s0.layout == s1.layout
    && (forall i :: i in slots ==> Mutable(s0, i))
    && (forall i: u8 :: s1.slots[i] == if i in slots then slots[i] else s0.slots[i])
  }

  ghost predicate Tracks(t: Tracker, a0: AccountState, a: AccountState) {
    && ValidAccount(a0) && ValidAccount(a)
    && a.id == a0.id && a.code == a0.code
    && Explains(t.vault, a0.ledger, a.ledger) && TracksWellFormed(t.vault)
    && TracksStorage(t.slots, a0.storage, a.storage)
    && t.initNonce == a0.nonce && a.nonce == FeltAdd(a0.nonce, t.nonceDelta)
  }

  lemma SetItemTracked(slots: map<u8, Word>, s0: Storage, s: Storage, index: u8, value: Word)
    requires Sized(s0) && Sized(s) && TracksStorage(slots, s0, s) && WithItem(s, index, value).Ok?
    ensures TracksStorage(if s.slots[index] != value then slots[index := value] else slots,
                          s0, WithItem(s, index, value).value)
  {
  }

  lemma FeltAddAssociative(a: Felt, b: Felt, c: Felt)
    ensures FeltAdd(FeltAdd(a, b), c) == FeltAdd(a, FeltAdd(b, c))
  {
  }

  lemma LedgerTracks(t: Tracker, a0: AccountState, a: AccountState, vault: VaultTracker, ledger: Ledger)
    requires Tracks(t, a0, a)
    requires Explains(vault, a0.ledger, ledger) && TracksWellFormed(vault) && ValidLedger(ledger)
    ensures Tracks(t.(vault := vault), a0, a.(ledger := ledger))
  {
  }

  lemma VaultAddTracks(t: Tracker, a0: AccountState, a: AccountState, asset: Asset)
    requires Tracks(t, a0, a) && WellFormed(asset) && LedgerAdd(a.ledger, asset).Ok?
    ensures Tracks(t.(vault := Track(t.vault, asset, Size(asset))), a0, a.(ledger := LedgerAdd(a.ledger, asset).value))
  {
    AddExplained(t.vault, a0.ledger, a.ledger, asset);
    LedgerStaysValid(a.ledger, asset);
    LedgerTracks(t, a0, a, Track(t.vault, asset, Size(asset)), LedgerAdd(a.ledger, asset).value);
  }

  lemma VaultRemoveTracks(t: Tracker, a0: AccountState, a: AccountState, asset: Asset)
    requires Tracks(t, a0, a) && WellFormed(asset) && LedgerRemove(a.ledger, asset).Ok?
    ensures Tracks(t.(vault := Track(t.vault, asset, 0 - Size(asset))), a0, a.(ledger := LedgerRemove(a.ledger, asset).value))
  {
    RemoveExplained(t.vault, a0.ledger, a.ledger, asset);
    LedgerStaysValid(a.ledger, asset);
    LedgerTracks(t, a0, a, Track(t.vault, asset, 0 - Size(asset)), LedgerRemove(a.ledger, asset).value);
  }

  lemma SetItemTracks(t: Tracker, a0: AccountState, a: AccountState, index: u8, value: Word)
    requires Tracks(t, a0, a) && WithItem(a.storage, index, value).Ok?
    ensures Tracks(Observe(t, a, SetItem(index, value)), a0, Execute(a, SetItem(index, value)).value)
  {
    SetItemTracked(t.slots, a0.storage, a.storage, index, value);
  }

  lemma NonceTracks(t: Tracker, a0: AccountState, a: AccountState, amount: Felt)
    requires Tracks(t, a0, a)
    ensures Tracks(Observe(t, a, IncrementNonce(amount)), a0, Execute(a, IncrementNonce(amount)).value)
  {
    FeltAddAssociative(a0.nonce, t.nonceDelta, amount);
  }

  lemma VaultStep(t: Tracker, a: AccountState, e: Event)
    requires Sized(a.storage) && (e.VaultAdd? || e.VaultRemove?) && Execute(a, e).Some?
    ensures var r := if e.VaultAdd? then LedgerAdd(a.ledger, e.asset) else LedgerRemove(a.ledger, e.asset);
            r.Ok? && Execute(a, e) == Some(a.(ledger := r.value))
    ensures Observe(t, a, e) ==
            t.(vault := Track(t.vault, e.asset, if e.VaultAdd? then Size(e.asset) else 0 - Size(e.asset)))
  {
  }

  lemma StepTracks(t: Tracker, a0: AccountState, a: AccountState, e: Event)
    requires Tracks(t, a0, a) && WellFormedEvent(e) && Execute(a, e).Some?
    ensures Tracks(Observe(t, a, e), a0, Execute(a, e).value)
  {
    match e {
      case VaultAdd(asset) =>
        VaultStep(t, a, e);
        VaultAddTracks(t, a0, a, asset);
      case VaultRemove(asset) =>
        VaultStep(t, a, e);
        VaultRemoveTracks(t, a0, a, asset);
      case SetItem(index, value) =>
        SetItemTracks(t, a0, a, index, value);
      case IncrementNonce(amount) =>
        NonceTracks(t, a0, a, amount);
    }
  }

  lemma {:induction false} RunTracks(t: Tracker, a0: AccountState, a: AccountState, es: seq<Event>)
    requires Tracks(t, a0, a) && Run(a, t, es).Some?
    requires forall i | 0 <= i < |es| :: WellFormedEvent(es[i])
    ensures var (a1, t1) := Run(a, t, es).value; Tracks(t1, a0, a1)
    decreases |es|
  {
    if es != [] {
      StepTracks(t, a0, a, es[0]);
      RunTracks(Observe(t, a, es[0]), a0, Execute(a, es[0]).value, es[1..]);
    }
  }

  // ---------- replaying storage ----------

  /** Writing values that agree with the target, everywhere the two differ, gives the target. */
  lemma {:induction false} WithItemsReaches(s: Storage, us: seq<(u8, Word)>, target: Storage)
    requires Sized(s) && Sized(target) && s.layout == target.layout
    requires forall k | 0 <= k < |us| :: Mutable(s, us[k].0) && us[k].1 == target.slots[us[k].0]
    requires forall i: u8 :: s.slots[i] == target.slots[i] || exists k :: 0 <= k < |us| && us[k].0 == i
    ensures WithItems(s, us) == Ok(target)
    decreases |us|
  {
    if us == [] {
      assert s.slots == target.slots;
    } else {
      var s1 := WithItem(s, us[0].0, us[0].1).value;
      forall i: u8 ensures s1.slots[i] == target.slots[i] || exists k :: 0 <= k < |us[1..]| && us[1..][k].0 == i {
        if i != us[0].0 && s.slots[i] != target.slots[i] {
          var k :| 0 <= k < |us| && us[k].0 == i;
          assert us[1..][k - 1].0 == i;
        }
      }
      WithItemsReaches(s1, us[1..], target);
    }
  }

  lemma {:induction false} ListedValues(slots: map<u8, Word>, keys: seq<u8>)
    requires forall k :: k in keys ==> k in slots
    ensures var cs, us := ClearedOf(slots, keys), UpdatedOf(slots, keys);
            && |cs| + |us| == |keys|
            && (forall i | 0 <= i < |cs| :: cs[i] in keys && slots[cs[i]] == EMPTY_WORD)
            && (forall i | 0 <= i < |us| :: us[i].0 in keys && slots[us[i].0] == us[i].1)
  {
    if keys != [] {
      ListedValues(slots, keys[1..]);
    }
  }

  lemma IndexesCons(e: (u8, Word), us: seq<(u8, Word)>)
    ensures Indexes([e] + us) == [e.0] + Indexes(us)
  {
  }

  lemma DistinctInsert(xs: seq<u8>, k: u8, ys: seq<u8>)
    requires Distinct(xs + ys) && k !in xs && k !in ys
    ensures Distinct([k] + xs + ys) && Distinct(xs + ([k] + ys))
  {
    DistinctConcat(xs, ys);
    assert Distinct([k] + xs);
    assert Distinct([k] + ys);
    DistinctConcat([k] + xs, ys);
    DistinctConcat(xs, [k] + ys);
  }

  /** The two lists hold exactly the keys, each once. */
  lemma {:induction false} ListedKeys(slots: map<u8, Word>, keys: seq<u8>)
    requires (forall k :: k in keys ==> k in slots) && Distinct(keys)
    ensures var cs, xs := ClearedOf(slots, keys), Indexes(UpdatedOf(slots, keys));
            Distinct(cs + xs) && forall k :: k in keys <==> k in cs || k in xs
  {
    if keys != [] {
      var k, tail := keys[0], keys[1..];
      assert Distinct(tail) && k !in tail && keys == [k] + tail;
      ListedKeys(slots, tail);
      DistinctInsert(ClearedOf(slots, tail), k, Indexes(UpdatedOf(slots, tail)));
      IndexesCons((k, slots[k]), UpdatedOf(slots, tail));
    }
  }

  lemma {:induction false} FewSlots(s: set<u8>, n: nat)
    requires forall x :: x in s ==> x < n
    ensures |s| <= n
  {
    if n > 0 {
      FewSlots(s - {n - 1}, n - 1);
      if n - 1 in s {
        assert |s| == |s - {n - 1}| + 1;
      } else {
        assert s - {n - 1} == s;
      }
    } else {
      assert s == {};
    }
  }

  /** The delta sets exactly the tracked slots, each to its tracked value. */
  ghost predicate Sets(d: StorageDelta, slots: map<u8, Word>) {
    && (forall i | 0 <= i < |d.cleared| :: d.cleared[i] in slots && slots[d.cleared[i]] == EMPTY_WORD)
    && (forall i | 0 <= i < |d.updated| :: d.updated[i].0 in slots && slots[d.updated[i].0] == d.updated[i].1)
    && (forall k :: k in slots ==> k in d.cleared || k in Indexes(d.updated))
  }

  lemma IntoStorageDeltaSets(slots: map<u8, Word>)
    requires forall k :: k in slots ==> k < 255
    ensures Sets(IntoStorageDelta(slots), slots) && ValidStorageDelta(IntoStorageDelta(slots))
  {
    IndexOrder();
    FewSlots(slots.Keys, 255);
    ListedSets(slots, Ascending(slots.Keys, IndexLess));
  }

  lemma ListedSets(slots: map<u8, Word>, keys: seq<u8>)
    requires (forall k :: k in slots ==> k < 255) && |keys| <= 255
    requires (forall k :: k in keys <==> k in slots) && Distinct(keys)
    ensures var d := StorageDelta(ClearedOf(slots, keys), UpdatedOf(slots, keys));
            Sets(d, slots) && ValidStorageDelta(d)
  {
    ListedValues(slots, keys);
    ListedKeys(slots, keys);
  }

  /** The updates of such a delta, seen as one list. */
  lemma UpdatesOfSets(d: StorageDelta, slots: map<u8, Word>)
    requires Sets(d, slots)
    ensures forall k | 0 <= k < |Updates(d)| :: Updates(d)[k].0 in slots && Updates(d)[k].1 == slots[Updates(d)[k].0]
    ensures forall i: u8 :: i in slots ==> exists k :: 0 <= k < |Updates(d)| && Updates(d)[k].0 == i
  {
    var us, n := Updates(d), |d.cleared|;
    forall k | 0 <= k < |us| ensures us[k].0 in slots && us[k].1 == slots[us[k].0] {
      if k >= n {
        assert us[k] == d.updated[k - n];
      }
    }
    forall i: u8 | i in slots ensures exists k :: 0 <= k < |us| && us[k].0 == i {
      if i in d.cleared {
        var k :| 0 <= k < n && d.cleared[k] == i;
        assert us[k].0 == i;
      } else {
        var k :| 0 <= k < |d.updated| && Indexes(d.updated)[k] == i;
        assert us[n + k].0 == i;
      }
    }
  }

  /** The tracked storage delta is always valid, and always replays. */
  lemma StorageReplay(slots: map<u8, Word>, s0: Storage, s1: Storage)
    requires Sized(s0) && Sized(s1) && TracksStorage(slots, s0, s1)
    ensures ValidStorageDelta(IntoStorageDelta(slots))
    ensures ApplyStorageDelta(s0, IntoStorageDelta(slots)) == Ok(s1)
    ensures var d := IntoStorageDelta(slots); d.cleared == [] && d.updated == [] <==> slots == map[]
  {
    var d := IntoStorageDelta(slots);
    IntoStorageDeltaSets(slots);
    UpdatesOfSets(d, slots);
    WithItemsReaches(s0, Updates(d), s1);
    if d.cleared == [] && d.updated == [] {
      assert forall k :: k !in slots;
    }
  }

  // ---------- the replay theorem ----------

  /** The delta can be made, and applying it to the initial account gives the final one. */
  ghost predicate ReplaysTo(t: Tracker, a0: AccountState, a1: AccountState, less: DigestOrder)
    requires StrictOrder(less) && Sized(a0.storage)
  {
    IntoDelta(t, less).Some? && ApplyDelta(a0, IntoDelta(t, less).value) == Ok(a1)
  }

  predicate Changed(t: Tracker) {
    t.slots != map[] || t.vault.fungible != map[] || t.vault.nonFungible != map[]
  }

  /** The nonce moved exactly when something else did, and did not wrap around. */
  predicate NonceFine(t: Tracker) {
    && (Changed(t) <==> t.nonceDelta != 0)
    && (t.nonceDelta != 0 ==> t.initNonce + t.nonceDelta < MODULUS)
  }

  /** At most 65535 tracked entries are above zero, and at most 65535 are not. */
  predicate FewAssets(t: Tracker) {
    && |Gains(t.vault.fungible)| + |Gains(t.vault.nonFungible)| <= U16_MAX
    && |Losses(t.vault.fungible)| + |Losses(t.vault.nonFungible)| <= U16_MAX
  }

  /** The condition on the tracker is the one the delta's validation makes on its lists. */
  lemma FewAssetsAreListed(t: Tracker, less: DigestOrder)
    requires StrictOrder(less) && IntoVaultDelta(t.vault, less).Some?
    ensures var d := IntoVaultDelta(t.vault, less).value;
            FewAssets(t) <==> |d.added| <= U16_MAX && |d.removed| <= U16_MAX
  {
    ListLengthsAreCounts(t.vault, less);
  }

  /** The conversion of a run's vault tracker never aborts, and its lists are duplicate-free. */
  lemma VaultDeltaFine(t: Tracker, a0: AccountState, a1: AccountState, less: DigestOrder)
    requires Tracks(t, a0, a1) && StrictOrder(less)
    ensures IntoVaultDelta(t.vault, less).Some?
    ensures var d := IntoVaultDelta(t.vault, less).value;
            && AllDifferent(d.added + d.removed)
            && (forall a | a in d.added + d.removed :: WellFormed(a))
            && (d.added == [] && d.removed == [] <==> t.vault == NO_CHANGES)
            && (ApplyVaultDelta(a0.ledger, d) == Ok(a1.ledger) <==> ZeroSafe(t.vault, a0.ledger, a1.ledger))
  {
    KeysMeaning(t.vault, less);
    var keys := TrackedKeys(t.vault, less);
    NeverAborts(t.vault, a0.ledger, a1.ledger, keys);
    VaultReplayExact(t.vault, a0.ledger, a1.ledger, keys);
    EmptyLists(t.vault, keys);
  }

  lemma {:induction false} ListLengths(t: VaultTracker, keys: seq<Asset>)
    requires AllTracked(t, keys)
    ensures |AddedOf(t, keys)| + |RemovedOf(t, keys)| == |keys|
  {
    if keys != [] {
      ListLengths(t, keys[1..]);
    }
  }

  lemma EmptyLists(t: VaultTracker, keys: seq<Asset>)
    requires AllTracked(t, keys) && (keys == [] ==> Lists(keys, t))
    ensures AddedOf(t, keys) == [] && RemovedOf(t, keys) == [] <==> t == NO_CHANGES
  {
    ListLengths(t, keys);
    if keys != [] {
      RecordedMeansChanged(t, keys[0]);
    } else {
      NothingRecorded(t);
    }
  }

  lemma RecordedMeansChanged(t: VaultTracker, a: Asset)
    requires Recorded(t, a).Some?
    ensures t != NO_CHANGES
  {
  }

  lemma NothingRecorded(t: VaultTracker)
    requires forall b :: Find([], b).Some? <==> Recorded(t, b).Some?
    ensures t == NO_CHANGES
  {
    forall f: Felt ensures f !in t.fungible {
      assert Find([], Fungible(f, 0)).None?;
    }
    forall w ensures w !in t.nonFungible {
      assert Find([], NonFungible(w)).None?;
    }
    assert t.fungible == map[] && t.nonFungible == map[];
  }

  /**
    Main theorem. For every finite run of events that all succeed, from every account: the
    tracked delta can be made and, applied to the initial account, gives exactly the final
    account if and only if the nonce moved properly, not too many assets changed, and zero
    amounts did no harm.
   */
  lemma ReplayExact(a0: AccountState, es: seq<Event>, less: DigestOrder)
    requires ValidAccount(a0) && StrictOrder(less)
    requires forall i | 0 <= i < |es| :: WellFormedEvent(es[i])
    requires Run(a0, NewTracker(a0), es).Some?
    ensures var (a1, t) := Run(a0, NewTracker(a0), es).value;
            ReplaysTo(t, a0, a1, less) <==>
            NonceFine(t) && FewAssets(t) && ZeroSafe(t.vault, a0.ledger, a1.ledger)
  {
    StartTracks(a0);
    RunTracks(NewTracker(a0), a0, a0, es);
    var (a1, t) := Run(a0, NewTracker(a0), es).value;
    TrackedReplayExact(t, a0, a1, less);
  }

  lemma StartTracks(a: AccountState)
    requires ValidAccount(a)
    ensures Tracks(NewTracker(a), a, a)
  {
  }

  lemma ApplyInParts(a0: AccountState, a1: AccountState, d: AccountDelta)
    requires Sized(a0.storage) && ApplyStorageDelta(a0.storage, d.storage) == Ok(a1.storage)
    requires a1.id == a0.id && a1.code == a0.code
    ensures ApplyDelta(a0, d) == Ok(a1) <==>
            && ApplyVaultDelta(a0.ledger, d.vault) == Ok(a1.ledger)
            && (d.nonce.Some? ==> a0.nonce < d.nonce.value)
            && a1.nonce == if d.nonce.Some? then d.nonce.value else a0.nonce
  {
  }

  lemma DeltaReplays(t: Tracker, a0: AccountState, a1: AccountState, d: AccountDelta)
    requires AllDifferent(d.vault.added + d.vault.removed) && ValidStorageDelta(d.storage) && d.nonce == NewNonce(t)
    requires Sized(a0.storage) && a1.id == a0.id && a1.code == a0.code
    requires t.initNonce == a0.nonce && a1.nonce == FeltAdd(a0.nonce, t.nonceDelta)
    requires ApplyStorageDelta(a0.storage, d.storage) == Ok(a1.storage)
    requires IsEmpty(d.storage, d.vault) <==> !Changed(t)
    ensures ValidDelta(d) && ApplyDelta(a0, d) == Ok(a1) <==>
            && NonceFine(t) && |d.vault.added| <= U16_MAX && |d.vault.removed| <= U16_MAX
            && ApplyVaultDelta(a0.ledger, d.vault) == Ok(a1.ledger)
  {
    NonceExact(t, a0, a1, d);
    ApplyInParts(a0, a1, d);
  }

  lemma ReplayFromParts(t: Tracker, a0: AccountState, a1: AccountState, less: DigestOrder, vault: VaultDelta)
    requires StrictOrder(less) && IntoVaultDelta(t.vault, less) == Some(vault) && AllDifferent(vault.added + vault.removed)
    requires Sized(a0.storage) && a1.id == a0.id && a1.code == a0.code
    requires t.initNonce == a0.nonce && a1.nonce == FeltAdd(a0.nonce, t.nonceDelta)
    requires ValidStorageDelta(IntoStorageDelta(t.slots))
    requires ApplyStorageDelta(a0.storage, IntoStorageDelta(t.slots)) == Ok(a1.storage)
    requires IsEmpty(IntoStorageDelta(t.slots), vault) <==> !Changed(t)
    ensures ReplaysTo(t, a0, a1, less) <==>
            && NonceFine(t) && |vault.added| <= U16_MAX && |vault.removed| <= U16_MAX
            && ApplyVaultDelta(a0.ledger, vault) == Ok(a1.ledger)
  {
    DeltaReplays(t, a0, a1, AccountDelta(IntoStorageDelta(t.slots), vault, NewNonce(t)));
  }

  lemma TrackedReplayExact(t: Tracker, a0: AccountState, a1: AccountState, less: DigestOrder)
    requires Tracks(t, a0, a1) && StrictOrder(less)
    ensures ReplaysTo(t, a0, a1, less) <==>
            NonceFine(t) && FewAssets(t) && ZeroSafe(t.vault, a0.ledger, a1.ledger)
  {
    VaultDeltaFine(t, a0, a1, less);
    StorageReplay(t.slots, a0.storage, a1.storage);
    FewAssetsAreListed(t, less);
    ReplayFromParts(t, a0, a1, less, IntoVaultDelta(t.vault, less).value);
  }

  /** The nonce rule of the delta, together with that of the account, is the nonce condition. */
  lemma NonceExact(t: Tracker, a0: AccountState, a1: AccountState, d: AccountDelta)
    requires t.initNonce == a0.nonce && a1.nonce == FeltAdd(a0.nonce, t.nonceDelta) && d.nonce == NewNonce(t)
    requires IsEmpty(d.storage, d.vault) <==> !Changed(t)
    ensures ValidNonce(d.nonce, d.storage, d.vault) && (d.nonce.Some? ==> a0.nonce < d.nonce.value)
            <==> NonceFine(t)
    ensures NonceFine(t) ==> a1.nonce == if d.nonce.Some? then d.nonce.value else a0.nonce
  {
  }
}
