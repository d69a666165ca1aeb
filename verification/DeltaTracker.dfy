/** The tracker objects the transaction host keeps, and the host's handlers that feed them. */
module DeltaTrackers {
  import opened Base
  import opened Assets
  import opened AccountStorages
  import opened AccountDeltas
  import opened Holdings
  import opened OrderedKeys
  import opened VaultTrackers
  import opened Replays

  // ---------- vault tracker ----------

  class AccountVaultDeltaTracker {
    var fungible: map<Felt, int>
    var nonFungible: map<Word, int>

    ghost function State(): VaultTracker
      reads this
    {
      VaultTracker(fungible, nonFungible)
    }

    constructor ()
      ensures State() == NO_CHANGES
    {
      fungible, nonFungible := map[], map[];
    }

    method AddAsset(asset: Asset)
      modifies this
      ensures State() == Track(old(State()), asset, Size(asset))
    {
      match asset
      case Fungible(id, amount) => fungible := UpdateDelta(fungible, id, amount);
      case NonFungible(_) => nonFungible := UpdateDelta(nonFungible, VaultKey(asset), 1);
    }

    method RemoveAsset(asset: Asset)
      modifies this
      ensures State() == Track(old(State()), asset, 0 - Size(asset))
    {
      match asset
      case Fungible(id, amount) => fungible := UpdateDelta(fungible, id, 0 - amount);
      case NonFungible(_) => nonFungible := UpdateDelta(nonFungible, VaultKey(asset), -1);
    }

    /** The delta; nothing stands for an abort at one of the conversion's panic sites. */
    method IntoDelta(less: DigestOrder) returns (r: Option<VaultDelta>)
      requires StrictOrder(less)
      ensures r == IntoVaultDelta(State(), less)
    {
      IdOrder();
      var ids := SortedKeys(fungible.Keys, IdLess);
      var words := SortedKeys(nonFungible.Keys, less);
      ghost var t := State();
      DeltaInParts(t, less, ids, words);
      var first := PushFungible(fungible, ids, t);
      if first.None? {
        return None;
      }
      var second := PushNonFungible(nonFungible, words, t);
      if second.None? {
        return None;
      }
      return Some(VaultDelta(first.value.0 + second.value.0, first.value.1 + second.value.1));
    }
  }

  /** The delta is made of a fungible part and a non-fungible part. */
  lemma DeltaInParts(t: VaultTracker, less: DigestOrder, ids: seq<Felt>, words: seq<Word>)
    requires StrictOrder(less) && StrictOrder(IdLess)
    requires ids == Ascending(t.fungible.Keys, IdLess) && words == Ascending(t.nonFungible.Keys, less)
    ensures var xs, ys := FungibleKeys(ids), NonFungibleKeys(words);
            && AllTracked(t, xs) && AllTracked(t, ys)
            && IntoVaultDelta(t, less) ==
               if NoAborts(t, xs) && NoAborts(t, ys)
               then Some(VaultDelta(AddedOf(t, xs) + AddedOf(t, ys), RemovedOf(t, xs) + RemovedOf(t, ys)))
               else None
  {
    KeysMeaning(t, less);
    NoAbortsConcat(t, FungibleKeys(ids), NonFungibleKeys(words));
    ListsConcat(t, FungibleKeys(ids), NonFungibleKeys(words));
  }

  lemma NoAbortsConcat(t: VaultTracker, xs: seq<Asset>, ys: seq<Asset>)
    requires AllTracked(t, xs + ys)
    ensures AllTracked(t, xs) && AllTracked(t, ys)
    ensures NoAborts(t, xs + ys) <==> NoAborts(t, xs) && NoAborts(t, ys)
  {
    assert forall i | 0 <= i < |xs| :: (xs + ys)[i] == xs[i];
    assert forall i | 0 <= i < |ys| :: (xs + ys)[|xs| + i] == ys[i];
  }

  /** The loop over fungible assets. */
  method PushFungible(fungible: map<Felt, int>, ids: seq<Felt>, ghost t: VaultTracker)
    returns (r: Option<(seq<Asset>, seq<Asset>)>)
    requires fungible == t.fungible && AllTracked(t, FungibleKeys(ids))
    ensures var keys := FungibleKeys(ids);
            r == if NoAborts(t, keys) then Some((AddedOf(t, keys), RemovedOf(t, keys))) else None
  {
    ghost var keys := FungibleKeys(ids);
    var added, removed := [], [];
    for i := 0 to |ids|
      invariant NoAborts(t, keys[..i])
      invariant added == AddedOf(t, keys[..i]) && removed == RemovedOf(t, keys[..i])
    {
      KeyPushed(t, keys, i);
      assert Recorded(t, keys[i]).Some?;
      var amount := fungible[ids[i]];
      var asset := NewFungible(ids[i], Abs64(amount));
      if asset.Err? {
        assert !NoAbort(keys[i], amount);
        return None;
      }
      if amount > 0 {
        added := added + [asset.value];
      } else {
        removed := removed + [asset.value];
      }
    }
    assert keys[..|keys|] == keys;
    return Some((added, removed));
  }

  /** The loop over non-fungible assets. */
  method PushNonFungible(nonFungible: map<Word, int>, words: seq<Word>, ghost t: VaultTracker)
    returns (r: Option<(seq<Asset>, seq<Asset>)>)
    requires nonFungible == t.nonFungible && AllTracked(t, NonFungibleKeys(words))
    ensures var keys := NonFungibleKeys(words);
            r == if NoAborts(t, keys) then Some((AddedOf(t, keys), RemovedOf(t, keys))) else None
  {
    ghost var keys := NonFungibleKeys(words);
    var added, removed := [], [];
    for i := 0 to |words|
      invariant NoAborts(t, keys[..i])
      invariant added == AddedOf(t, keys[..i]) && removed == RemovedOf(t, keys[..i])
    {
      KeyPushed(t, keys, i);
      assert Recorded(t, keys[i]).Some?;
      var amount := nonFungible[words[i]];
      if amount == 1 {
        added := added + [NonFungible(words[i])];
      } else if amount == -1 {
        removed := removed + [NonFungible(words[i])];
      } else {
        assert !NoAbort(keys[i], amount);
        return None;
      }
    }
    assert keys[..|keys|] == keys;
    return Some((added, removed));
  }

  /** Processing one more key pushes it on the list its sign asks for. */
  lemma KeyPushed(t: VaultTracker, keys: seq<Asset>, i: nat)
    requires AllTracked(t, keys) && i < |keys|
    ensures AllTracked(t, keys[..i]) && AllTracked(t, keys[..i + 1])
    ensures var v := Recorded(t, keys[i]).value;
            && AddedOf(t, keys[..i + 1]) == AddedOf(t, keys[..i]) + (if v > 0 then [Pushed(keys[i], v)] else [])
            && RemovedOf(t, keys[..i + 1]) == RemovedOf(t, keys[..i]) + (if v > 0 then [] else [Pushed(keys[i], v)])
  {
    assert keys[..i + 1] == keys[..i] + [keys[i]];
    ListsConcat(t, keys[..i], [keys[i]]);
  }

  // ---------- storage tracker ----------

  lemma {:induction false} SlotListsSnoc(slots: map<u8, Word>, keys: seq<u8>, k: u8)
    requires (forall x :: x in keys ==> x in slots) && k in slots
    ensures ClearedOf(slots, keys + [k]) == ClearedOf(slots, keys) + (if slots[k] == EMPTY_WORD then [k] else [])
    ensures UpdatedOf(slots, keys + [k]) == UpdatedOf(slots, keys) + (if slots[k] == EMPTY_WORD then [] else [(k, slots[k])])
  {
    if keys == [] {
      assert keys + [k] == [k] && [k][1..] == [];
    } else {
      assert (keys + [k])[0] == keys[0] && (keys + [k])[1..] == keys[1..] + [k];
      SlotListsSnoc(slots, keys[1..], k);
    }
  }

  method SplitSlots(slots: map<u8, Word>, keys: seq<u8>) returns (d: StorageDelta)
    requires forall k :: k in keys ==> k in slots
    ensures d == StorageDelta(ClearedOf(slots, keys), UpdatedOf(slots, keys))
  {
    var cleared: seq<u8> := [];
    var updated: seq<(u8, Word)> := [];
    for i := 0 to |keys|
      invariant cleared == ClearedOf(slots, keys[..i]) && updated == UpdatedOf(slots, keys[..i])
    {
      assert keys[..i + 1] == keys[..i] + [keys[i]];
      SlotListsSnoc(slots, keys[..i], keys[i]);
      if slots[keys[i]] == EMPTY_WORD {
        cleared := cleared + [keys[i]];
      } else {
        updated := updated + [(keys[i], slots[keys[i]])];
      }
    }
    assert keys[..|keys|] == keys;
    d := StorageDelta(cleared, updated);
  }

  class AccountStorageDeltaTracker {
    var slotUpdates: map<u8, Word>

    constructor ()
      ensures slotUpdates == map[]
    {
      slotUpdates := map[];
    }

    method SlotUpdate(index: u8, value: Word)
      modifies this
      ensures slotUpdates == old(slotUpdates)[index := value]
    {
      slotUpdates := slotUpdates[index := value];
    }

    method IntoDelta() returns (d: StorageDelta)
      ensures d == IntoStorageDelta(slotUpdates)
    {
      IndexOrder();
      var keys := SortedKeys(slotUpdates.Keys, IndexLess);
      assert forall k :: k in keys ==> k in slotUpdates;
      d := SplitSlots(slotUpdates, keys);
    }
  }

  // ---------- account tracker ----------

  class AccountDeltaTracker {
    const storage: AccountStorageDeltaTracker
    const vault: AccountVaultDeltaTracker
    const initNonce: Felt
    var nonceDelta: Felt

    ghost function State(): Tracker
      reads this, storage, vault
    {
      Tracker(storage.slotUpdates, vault.State(), initNonce, nonceDelta)
    }

    constructor (ghost account: AccountState, nonce: Felt)
      requires nonce == account.nonce
      ensures State() == NewTracker(account) && fresh(storage) && fresh(vault)
    {
      storage := new AccountStorageDeltaTracker();
      vault := new AccountVaultDeltaTracker();
      initNonce := nonce;
      nonceDelta := 0;
    }

    method IncrementNonce(value: Felt)
      modifies this
      ensures State() == old(State()).(nonceDelta := FeltAdd(old(nonceDelta), value))
    {
      nonceDelta := FeltAdd(nonceDelta, value);
    }

    method IntoDelta(less: DigestOrder) returns (r: Option<AccountDelta>)
      requires StrictOrder(less)
      ensures r == Replays.IntoDelta(State(), less)
    {
      var storageDelta := storage.IntoDelta();
      var vaultDelta := vault.IntoDelta(less);
      if vaultDelta.None? {
        return None;
      }
      var nonce := if nonceDelta == 0 then None else Some(FeltAdd(initNonce, nonceDelta));
      var delta := NewDelta(storageDelta, vaultDelta.value, nonce);
      match delta
      case Ok(d) => return Some(d);
      case Err(_) => return None;
    }
  }

  // ---------- the host's handlers ----------

  datatype KernelError =
    | MalformedAssetOnAccountVaultUpdate(cause: AssetError)
    | InvalidStorageSlotIndex(index: Felt)
    | MissingStorageSlotValue(slot: u8)

  class TransactionHost {
    const accountDelta: AccountDeltaTracker

    constructor (tracker: AccountDeltaTracker)
      ensures accountDelta == tracker
    {
      accountDelta := tracker;
    }

    /** Adding an asset is observed as the event of the asset the stack word decodes to. */
    method OnAccountVaultAddAsset(word: Word, ghost a: AccountState) returns (r: Result<(), KernelError>)
      requires Sized(a.storage)
      modifies accountDelta.vault
      ensures match TryFromWord(word)
              case Ok(asset) => r == Ok(()) && accountDelta.State() == Observe(old(accountDelta.State()), a, VaultAdd(asset))
              case Err(e) => r == Err(MalformedAssetOnAccountVaultUpdate(e)) && accountDelta.State() == old(accountDelta.State())
    {
      match TryFromWord(word)
      case Err(e) => return Err(MalformedAssetOnAccountVaultUpdate(e));
      case Ok(asset) =>
        accountDelta.vault.AddAsset(asset);
        return Ok(());
    }

    method OnAccountVaultRemoveAsset(word: Word, ghost a: AccountState) returns (r: Result<(), KernelError>)
      requires Sized(a.storage)
      modifies accountDelta.vault
      ensures match TryFromWord(word)
              case Ok(asset) => r == Ok(()) && accountDelta.State() == Observe(old(accountDelta.State()), a, VaultRemove(asset))
              case Err(e) => r == Err(MalformedAssetOnAccountVaultUpdate(e)) && accountDelta.State() == old(accountDelta.State())
    {
      match TryFromWord(word)
      case Err(e) => return Err(MalformedAssetOnAccountVaultUpdate(e));
      case Ok(asset) =>
        accountDelta.vault.RemoveAsset(asset);
        return Ok(());
    }

    /** The current slot value comes from the advice provider, which may not have it. */
    method OnAccountStorageSetItem(index: Felt, value: Word, current: Option<Word>, ghost a: AccountState)
      returns (r: Result<(), KernelError>)
      requires Sized(a.storage) && (index < NUM_STORAGE_SLOTS && current.Some? ==> current.value == a.storage.slots[index])
      modifies accountDelta.storage
      ensures if index >= NUM_STORAGE_SLOTS || current.None?
              then r == Err(if index >= NUM_STORAGE_SLOTS then InvalidStorageSlotIndex(index) else MissingStorageSlotValue(index))
                   && accountDelta.State() == old(accountDelta.State())
              else r == Ok(()) && accountDelta.State() == Observe(old(accountDelta.State()), a, SetItem(index, value))
      ensures r.Ok? && current.value == value ==> accountDelta.storage.slotUpdates == old(accountDelta.storage.slotUpdates)
      ensures r.Ok? && current.value != value ==>
                accountDelta.storage.slotUpdates == old(accountDelta.storage.slotUpdates)[index := value]
    {
      if index >= NUM_STORAGE_SLOTS {
        return Err(InvalidStorageSlotIndex(index));
      }
      if current.None? {
        return Err(MissingStorageSlotValue(index));
      }
      if current.value != value {
        accountDelta.storage.SlotUpdate(index, value);
      }
      return Ok(());
    }

    method OnAccountIncrementNonce(value: Felt, ghost a: AccountState)
      requires Sized(a.storage)
      modifies accountDelta
      ensures accountDelta.State() == Observe(old(accountDelta.State()), a, IncrementNonce(value))
    {
      accountDelta.IncrementNonce(value);
    }
  }
}
