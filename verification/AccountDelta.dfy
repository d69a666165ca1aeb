/** Account deltas: what makes one valid. */
module AccountDeltas {
  import opened Base
  import opened Assets
  import opened AccountStorages

  const MAX_MUTABLE_STORAGE_SLOT_IDX: u8 := 254
  const U8_MAX := 255
  const U16_MAX := 65535

  datatype VaultDelta = VaultDelta(added: seq<Asset>, removed: seq<Asset>)

  datatype AccountDelta = AccountDelta(storage: StorageDelta, vault: VaultDelta, nonce: Option<Felt>)

  datatype DeltaError =
    | TooManyClearedStorageItems(actual: nat)
    | ImmutableStorageSlot(index: u8)
    | DuplicateStorageItemUpdate(index: u8)
    | TooManyAddedAssets(actual: nat)
    | TooManyRemovedAssets(actual: nat)
    | DuplicateVaultUpdate(asset: Asset)
    | InconsistentNonceUpdate

  // ---------- validity ----------

  /** All slots the delta touches: the cleared ones, then the updated ones. */
  function Touched(d: StorageDelta): (r: seq<u8>)
    ensures |r| == |d.cleared| + |d.updated|
  {
    d.cleared + Indexes(d.updated)
  }

  function Indexes(updated: seq<(u8, Word)>): (r: seq<u8>)
    ensures |r| == |updated| && forall i | 0 <= i < |r| :: r[i] == updated[i].0
  {
    seq(|updated|, i requires 0 <= i < |updated| => updated[i].0)
  }

  predicate Distinct(xs: seq<u8>) {
    forall i, j | 0 <= i < j < |xs| :: xs[i] != xs[j]
  }

  predicate AllMutable(xs: seq<u8>) {
    forall i | 0 <= i < |xs| :: xs[i] <= MAX_MUTABLE_STORAGE_SLOT_IDX
  }

  predicate Apart(xs: seq<u8>, ys: seq<u8>) {
    forall i | 0 <= i < |ys| :: ys[i] !in xs
  }

  lemma DistinctConcat(xs: seq<u8>, ys: seq<u8>)
    ensures Distinct(xs + ys) <==> Distinct(xs) && Distinct(ys) && Apart(xs, ys)
    ensures AllMutable(xs + ys) <==> AllMutable(xs) && AllMutable(ys)
  {
    var all, n := xs + ys, |xs|;
    if Distinct(all) {
      assert Distinct(all[..n]) && all[..n] == xs;
      assert Distinct(all[n..]) && all[n..] == ys;
      assert forall i | 0 <= i < |ys| :: all[n + i] == ys[i];
    }
    if AllMutable(all) {
      assert AllMutable(all[..n]) && all[..n] == xs;
      assert AllMutable(all[n..]) && all[n..] == ys;
    }
  }

  /** No slot is touched twice, whether by a clear or by an update, and slot 255 never is. */
  predicate ValidStorageDelta(d: StorageDelta) {
    && |d.cleared| <= U8_MAX && |d.updated| <= U8_MAX
    && AllMutable(Touched(d)) && Distinct(Touched(d))
  }

  /** No asset is touched twice, whether by an add or by a remove. */
  predicate ValidVaultDelta(d: VaultDelta) {
    && |d.added| <= U16_MAX && |d.removed| <= U16_MAX
    && AllDifferent(d.added + d.removed)
  }

  predicate AllDifferent(assets: seq<Asset>) {
    forall i, j | 0 <= i < j < |assets| :: !IsSame(assets[i], assets[j])
  }

  /** The check on an asset against assets that must not contain it. */
  predicate NoneSame(assets: seq<Asset>, asset: Asset) {
    forall i | 0 <= i < |assets| :: !IsSame(assets[i], asset)
  }

  lemma DifferentConcat(xs: seq<Asset>, ys: seq<Asset>)
    ensures AllDifferent(xs + ys) <==>
            AllDifferent(xs) && AllDifferent(ys) && forall i | 0 <= i < |ys| :: NoneSame(xs, ys[i])
  {
    var all := xs + ys;
    assert forall i | 0 <= i < |ys| :: all[|xs| + i] == ys[i];
    assert forall i | 0 <= i < |xs| :: all[i] == xs[i];
  }

  predicate IsEmpty(storage: StorageDelta, vault: VaultDelta) {
    storage.cleared == [] && storage.updated == [] && vault.added == [] && vault.removed == []
  }

  /** The nonce is updated, to a non-zero value, exactly when something else is. */
  predicate ValidNonce(nonce: Option<Felt>, storage: StorageDelta, vault: VaultDelta) {
    if IsEmpty(storage, vault) then nonce == None else nonce.Some? && nonce.value != 0
  }

  predicate ValidDelta(d: AccountDelta) {
    ValidStorageDelta(d.storage) && ValidVaultDelta(d.vault) && ValidNonce(d.nonce, d.storage, d.vault)
  }

  // ---------- the checks as the source makes them ----------

  /** The check on a cleared index against the indexes cleared before it. */
  predicate ClearedOk(acc: seq<u8>, index: u8) {
    index <= MAX_MUTABLE_STORAGE_SLOT_IDX && index !in acc
  }

  /** The check on an update against the updates before it and all the cleared indexes. */
  predicate UpdatedOk(cleared: seq<u8>, acc: seq<(u8, Word)>, e: (u8, Word)) {
    && e.0 <= MAX_MUTABLE_STORAGE_SLOT_IDX
    && e.0 !in cleared
    && forall i | 0 <= i < |acc| :: acc[i].0 != e.0
  }

  // ---------- which error is reported ----------

  /** The first cleared index at fault, and its error: out of range comes before repeated. */
  ghost predicate ClearedFault(cleared: seq<u8>, pos: nat, e: DeltaError) {
    && pos < |cleared| && AllMutable(cleared[..pos]) && Distinct(cleared[..pos])
    && if cleared[pos] > MAX_MUTABLE_STORAGE_SLOT_IDX then e == ImmutableStorageSlot(cleared[pos])
       else cleared[pos] in cleared[..pos] && e == DuplicateStorageItemUpdate(cleared[pos])
  }

  ghost predicate UpdatedFault(cleared: seq<u8>, xs: seq<u8>, pos: nat, e: DeltaError) {
    && pos < |xs| && AllMutable(xs[..pos]) && Distinct(xs[..pos]) && Apart(cleared, xs[..pos])
    && if xs[pos] > MAX_MUTABLE_STORAGE_SLOT_IDX then e == ImmutableStorageSlot(xs[pos])
       else (xs[pos] in cleared || xs[pos] in xs[..pos]) && e == DuplicateStorageItemUpdate(xs[pos])
  }

  /** Too long a list of updates is reported as too many removed assets. */
  ghost predicate StorageFault(d: StorageDelta, e: DeltaError) {
    if |d.cleared| > U8_MAX then e == TooManyClearedStorageItems(|d.cleared|)
    else if |d.updated| > U8_MAX then e == TooManyRemovedAssets(|d.updated|)
    else if !AllMutable(d.cleared) || !Distinct(d.cleared) then exists pos :: ClearedFault(d.cleared, pos, e)
    else exists pos :: UpdatedFault(d.cleared, Indexes(d.updated), pos, e)
  }

  /** The first asset that is the same as an earlier one of the list. */
  ghost predicate RepeatedAsset(assets: seq<Asset>, pos: nat, e: DeltaError) {
    && pos < |assets| && AllDifferent(assets[..pos]) && !NoneSame(assets[..pos], assets[pos])
    && e == DuplicateVaultUpdate(assets[pos])
  }

  ghost predicate VaultFault(d: VaultDelta, e: DeltaError) {
    if |d.added| > U16_MAX then e == TooManyAddedAssets(|d.added|)
    else if |d.removed| > U16_MAX then e == TooManyRemovedAssets(|d.removed|)
    else exists pos :: RepeatedAsset(d.added + d.removed, pos, e)
  }

  method ValidateCleared(cleared: seq<u8>) returns (r: Result<(), DeltaError>)
    ensures r.Ok? <==> AllMutable(cleared) && Distinct(cleared)
    ensures r.Err? ==> exists pos :: ClearedFault(cleared, pos, r.error)
  {
    for pos := 0 to |cleared|
      invariant AllMutable(cleared[..pos]) && Distinct(cleared[..pos])
    {
      if cleared[pos] > MAX_MUTABLE_STORAGE_SLOT_IDX {
        r := Err(ImmutableStorageSlot(cleared[pos]));
        assert ClearedFault(cleared, pos, r.error);
        return;
      }
      if cleared[pos] in cleared[..pos] {
        r := Err(DuplicateStorageItemUpdate(cleared[pos]));
        assert ClearedFault(cleared, pos, r.error);
        return;
      }
    }
    assert cleared[..|cleared|] == cleared;
    return Ok(());
  }

  method ValidateUpdated(cleared: seq<u8>, updated: seq<(u8, Word)>) returns (r: Result<(), DeltaError>)
    ensures var xs := Indexes(updated); r.Ok? <==> AllMutable(xs) && Distinct(xs) && Apart(cleared, xs)
    ensures r.Err? ==> exists pos :: UpdatedFault(cleared, Indexes(updated), pos, r.error)
  {
    ghost var xs := Indexes(updated);
    for pos := 0 to |updated|
      invariant AllMutable(xs[..pos]) && Distinct(xs[..pos]) && Apart(cleared, xs[..pos])
    {
      var index := updated[pos].0;
      assert xs[pos] == index;
      if index > MAX_MUTABLE_STORAGE_SLOT_IDX {
        r := Err(ImmutableStorageSlot(index));
        assert UpdatedFault(cleared, xs, pos, r.error);
        return;
      }
      if index in cleared || exists k | 0 <= k < pos :: updated[k].0 == index {
        assert forall k | 0 <= k < pos :: xs[..pos][k] == updated[k].0;
        r := Err(DuplicateStorageItemUpdate(index));
        assert UpdatedFault(cleared, xs, pos, r.error);
        return;
      }
    }
    assert xs[..|xs|] == xs;
    return Ok(());
  }

  method ValidateStorage(d: StorageDelta) returns (r: Result<(), DeltaError>)
    ensures r.Ok? <==> ValidStorageDelta(d)
    ensures r.Err? ==> StorageFault(d, r.error)
  {
    if |d.cleared| > U8_MAX {
      return Err(TooManyClearedStorageItems(|d.cleared|));
    } else if |d.updated| > U8_MAX {
      return Err(TooManyRemovedAssets(|d.updated|));
    }
    DistinctConcat(d.cleared, Indexes(d.updated));
    r := ValidateCleared(d.cleared);
    if r.Ok? {
      r := ValidateUpdated(d.cleared, d.updated);
    }
  }

  lemma OneMoreDifferent(assets: seq<Asset>, pos: nat)
    requires pos < |assets| && AllDifferent(assets[..pos])
    ensures AllDifferent(assets[..pos + 1]) <==> NoneSame(assets[..pos], assets[pos])
  {
    var front := assets[..pos];
    assert assets[..pos + 1] == front + [assets[pos]];
    DifferentConcat(front, [assets[pos]]);
  }

  lemma RepeatedIsFault(assets: seq<Asset>, pos: nat)
    requires pos < |assets| && AllDifferent(assets[..pos]) && !NoneSame(assets[..pos], assets[pos])
    ensures RepeatedAsset(assets, pos, DuplicateVaultUpdate(assets[pos])) && !AllDifferent(assets)
  {
    var k :| 0 <= k < pos && IsSame(assets[..pos][k], assets[pos]);
    assert IsSame(assets[k], assets[pos]);
  }

  method ValidateAdded(added: seq<Asset>) returns (r: Result<(), DeltaError>)
    ensures r.Ok? <==> AllDifferent(added)
    ensures r.Err? ==> exists pos :: RepeatedAsset(added, pos, r.error)
  {
    for pos := 0 to |added|
      invariant AllDifferent(added[..pos])
    {
      if !NoneSame(added[..pos], added[pos]) {
        RepeatedIsFault(added, pos);
        return Err(DuplicateVaultUpdate(added[pos]));
      }
      OneMoreDifferent(added, pos);
    }
    assert added[..|added|] == added;
    return Ok(());
  }

  method ValidateRemoved(added: seq<Asset>, removed: seq<Asset>) returns (r: Result<(), DeltaError>)
    requires AllDifferent(added)
    ensures r.Ok? <==> AllDifferent(added + removed)
    ensures r.Err? ==> exists pos :: RepeatedAsset(added + removed, pos, r.error)
  {
    ghost var all, n := added + removed, |added|;
    assert all[..n] == added;
    for pos := 0 to |removed|
      invariant AllDifferent(all[..n + pos])
    {
      assert all[..n + pos] == added + removed[..pos];
      NoneSameInTwo(added, removed[..pos], removed[pos]);
      if !NoneSame(removed[..pos], removed[pos]) || !NoneSame(added, removed[pos]) {
        RepeatedIsFault(all, n + pos);
        return Err(DuplicateVaultUpdate(removed[pos]));
      }
      OneMoreDifferent(all, n + pos);
    }
    assert all[..|all|] == all;
    return Ok(());
  }

  lemma FaultAmongFirst(xs: seq<Asset>, ys: seq<Asset>, pos: nat, e: DeltaError)
    requires RepeatedAsset(xs, pos, e)
    ensures RepeatedAsset(xs + ys, pos, e)
  {
    assert (xs + ys)[..pos] == xs[..pos];
  }

  method ValidateVault(d: VaultDelta) returns (r: Result<(), DeltaError>)
    ensures r.Ok? <==> ValidVaultDelta(d)
    ensures r.Err? ==> VaultFault(d, r.error)
  {
    if |d.added| > U16_MAX {
      return Err(TooManyAddedAssets(|d.added|));
    } else if |d.removed| > U16_MAX {
      return Err(TooManyRemovedAssets(|d.removed|));
    }
    DifferentConcat(d.added, d.removed);
    r := ValidateAdded(d.added);
    if r.Err? {
      ghost var pos :| RepeatedAsset(d.added, pos, r.error);
      FaultAmongFirst(d.added, d.removed, pos, r.error);
      return;
    }
    r := ValidateRemoved(d.added, d.removed);
  }

  lemma NoneSameInTwo(xs: seq<Asset>, ys: seq<Asset>, a: Asset)
    ensures NoneSame(xs + ys, a) <==> NoneSame(xs, a) && NoneSame(ys, a)
  {
    var all := xs + ys;
    assert forall i | 0 <= i < |xs| :: all[i] == xs[i];
    assert forall i | 0 <= i < |ys| :: all[|xs| + i] == ys[i];
  }

  method NewDelta(storage: StorageDelta, vault: VaultDelta, nonce: Option<Felt>)
    returns (r: Result<AccountDelta, DeltaError>)
    ensures r.Ok? <==> ValidDelta(AccountDelta(storage, vault, nonce))
    ensures r.Ok? ==> r.value == AccountDelta(storage, vault, nonce)
    ensures r.Err? ==>
              if !ValidStorageDelta(storage) then StorageFault(storage, r.error)
              else if !ValidVaultDelta(vault) then VaultFault(vault, r.error)
              else r.error == InconsistentNonceUpdate
  {
    var s := ValidateStorage(storage);
    if s.Err? {
      return Err(s.error);
    }
    var v := ValidateVault(vault);
    if v.Err? {
      return Err(v.error);
    }
    if !ValidNonce(nonce, storage, vault) {
      return Err(InconsistentNonceUpdate);
    }
    return Ok(AccountDelta(storage, vault, nonce));
  }
}
