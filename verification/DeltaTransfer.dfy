/**
  A delta on its way: made from the tracker, sent as bytes, read and applied. Also what a delta
  that cannot be applied leaves behind.
 */
module DeltaTransfer {
  import opened Base
  import opened Assets
  import opened AssetVaults
  import opened AccountStorages
  import opened AccountDeltas
  import opened Holdings
  import opened OrderedKeys
  import opened VaultTrackers
  import opened VaultReplays
  import opened Replays
  import opened Codec
  import DeltaCodecs

  // ---------- making the delta ----------

  /** What the conversion of a tracker asks for: the source panics without it. */
  predicate Convertible(t: Tracker) {
    NonceConvertible(t) && FewAssets(t)
  }

  predicate NonceConvertible(t: Tracker) {
    && (Changed(t) <==> t.nonceDelta != 0)
    && (t.nonceDelta != 0 ==> FeltAdd(t.initNonce, t.nonceDelta) != 0)
  }

  lemma NonceRule(t: Tracker, storage: StorageDelta, vault: VaultDelta)
    requires IsEmpty(storage, vault) <==> !Changed(t)
    ensures ValidNonce(NewNonce(t), storage, vault) <==> NonceConvertible(t)
  {
  }

  lemma ListsAreWellFormed(vault: VaultDelta)
    requires forall a | a in vault.added + vault.removed :: WellFormed(a)
    ensures DeltaCodecs.WellFormedAssets(vault)
  {
    var all := vault.added + vault.removed;
    assert forall i | 0 <= i < |vault.added| :: vault.added[i] == all[i];
    assert forall i | 0 <= i < |vault.removed| :: vault.removed[i] == all[|vault.added| + i];
  }

  lemma VaultPart(t: Tracker, a0: AccountState, a1: AccountState, less: DigestOrder) returns (vault: VaultDelta)
    requires Tracks(t, a0, a1) && StrictOrder(less)
    ensures IntoVaultDelta(t.vault, less) == Some(vault) && AllDifferent(vault.added + vault.removed)
    ensures vault.added == [] && vault.removed == [] <==> t.vault == NO_CHANGES
    ensures DeltaCodecs.WellFormedAssets(vault)
  {
    VaultDeltaFine(t, a0, a1, less);
    vault := IntoVaultDelta(t.vault, less).value;
    ListsAreWellFormed(vault);
  }

  /** The two parts of a run's delta are valid, except perhaps for the numbers of assets. */
  lemma PartsOfDelta(t: Tracker, a0: AccountState, a1: AccountState, less: DigestOrder) returns (vault: VaultDelta)
    requires Tracks(t, a0, a1) && StrictOrder(less)
    ensures IntoVaultDelta(t.vault, less) == Some(vault)
    ensures ValidStorageDelta(IntoStorageDelta(t.slots)) && AllDifferent(vault.added + vault.removed)
    ensures IsEmpty(IntoStorageDelta(t.slots), vault) <==> !Changed(t)
    ensures DeltaCodecs.WellFormedAssets(vault)
  {
    vault := VaultPart(t, a0, a1, less);
    StorageReplay(t.slots, a0.storage, a1.storage);
  }

  lemma DeltaFromParts(t: Tracker, less: DigestOrder, vault: VaultDelta)
    requires StrictOrder(less) && IntoVaultDelta(t.vault, less) == Some(vault)
    requires ValidStorageDelta(IntoStorageDelta(t.slots)) && AllDifferent(vault.added + vault.removed)
    requires IsEmpty(IntoStorageDelta(t.slots), vault) <==> !Changed(t)
    ensures IntoDelta(t, less).Some? <==>
            NonceConvertible(t) && |vault.added| <= U16_MAX && |vault.removed| <= U16_MAX
    ensures IntoDelta(t, less).Some? ==> IntoDelta(t, less).value.vault == vault
  {
    NonceRule(t, IntoStorageDelta(t.slots), vault);
  }

  lemma TrackedDeltaExact(t: Tracker, a0: AccountState, a1: AccountState, less: DigestOrder)
    requires Tracks(t, a0, a1) && StrictOrder(less)
    ensures IntoDelta(t, less).Some? <==> Convertible(t)
    ensures IntoDelta(t, less).Some? ==> DeltaCodecs.WellFormedAssets(IntoDelta(t, less).value.vault)
  {
    var vault := PartsOfDelta(t, a0, a1, less);
    FewAssetsAreListed(t, less);
    DeltaFromParts(t, less, vault);
  }

  /**
    For every run: the conversion does not panic if and only if the nonce moved exactly when
    something else did and not to zero, and at most 65535 assets were added and removed.
   */
  lemma IntoDeltaExact(a0: AccountState, es: seq<Event>, less: DigestOrder)
    requires ValidAccount(a0) && StrictOrder(less)
    requires forall i | 0 <= i < |es| :: WellFormedEvent(es[i])
    requires Run(a0, NewTracker(a0), es).Some?
    ensures var (a1, t) := Run(a0, NewTracker(a0), es).value;
            IntoDelta(t, less).Some? <==> Convertible(t)
  {
    StartTracks(a0);
    RunTracks(NewTracker(a0), a0, a0, es);
    var (a1, t) := Run(a0, NewTracker(a0), es).value;
    TrackedDeltaExact(t, a0, a1, less);
  }

  // ---------- from the tracker to the other party's account ----------

  /** The delta is made, written, read back by someone else, and applied to the old account. */
  ghost predicate Arrives(t: Tracker, a0: AccountState, a1: AccountState, less: DigestOrder, rest: Bytes)
    requires StrictOrder(less) && Sized(a0.storage)
  {
    IntoDelta(t, less).Some? && ReadsAndApplies(DeltaCodecs.WriteDelta(IntoDelta(t, less).value) + rest, rest, a0, a1)
  }

  predicate ReadsAndApplies(b: Bytes, rest: Bytes, a0: AccountState, a1: AccountState)
    requires Sized(a0.storage)
  {
    var r := DeltaCodecs.ReadDelta(b);
    r.Some? && r.value.1 == rest && ApplyDelta(a0, r.value.0) == Ok(a1)
  }

  lemma SentIsReplayed(t: Tracker, a0: AccountState, a1: AccountState, less: DigestOrder, rest: Bytes)
    requires Tracks(t, a0, a1) && StrictOrder(less)
    ensures Arrives(t, a0, a1, less, rest) <==> ReplaysTo(t, a0, a1, less)
  {
    TrackedDeltaExact(t, a0, a1, less);
    if IntoDelta(t, less).Some? {
      DeltaCodecs.DeltaComplete(IntoDelta(t, less).value, rest);
    }
  }

  /**
    End to end, for every run from every account: the bytes of the tracked delta, read and
    applied to the initial account by anyone, give exactly the account the run reached, if and
    only if the nonce moved properly, not too many assets changed, and zero amounts did no harm.
   */
  lemma EndToEnd(a0: AccountState, es: seq<Event>, less: DigestOrder, rest: Bytes)
    requires ValidAccount(a0) && StrictOrder(less)
    requires forall i | 0 <= i < |es| :: WellFormedEvent(es[i])
    requires Run(a0, NewTracker(a0), es).Some?
    ensures var (a1, t) := Run(a0, NewTracker(a0), es).value;
            Arrives(t, a0, a1, less, rest) <==>
            NonceFine(t) && FewAssets(t) && ZeroSafe(t.vault, a0.ledger, a1.ledger)
  {
    StartTracks(a0);
    RunTracks(NewTracker(a0), a0, a0, es);
    var (a1, t) := Run(a0, NewTracker(a0), es).value;
    SentIsReplayed(t, a0, a1, less, rest);
    TrackedReplayExact(t, a0, a1, less);
  }

  // ---------- deltas that fail ----------

  lemma {:induction false} AddsAPrefix(l: Ledger, assets: seq<Asset>) returns (n: nat)
    ensures n <= |assets| && AddAll(l, assets[..n]) == Ok(AddReached(l, assets))
    ensures n == |assets| <==> AddAll(l, assets).Ok?
    decreases |assets|
  {
    n := 0;
    if assets != [] && LedgerAdd(l, assets[0]).Ok? {
      var m := AddsAPrefix(LedgerAdd(l, assets[0]).value, assets[1..]);
      n := m + 1;
      assert assets[..n][1..] == assets[1..][..m];
    }
  }

  lemma {:induction false} RemovesAPrefix(l: Ledger, assets: seq<Asset>) returns (n: nat)
    ensures n <= |assets| && RemoveAll(l, assets[..n]) == Ok(RemoveReached(l, assets))
    ensures n == |assets| <==> RemoveAll(l, assets).Ok?
    decreases |assets|
  {
    n := 0;
    if assets != [] && LedgerRemove(l, assets[0]).Ok? {
      var m := RemovesAPrefix(LedgerRemove(l, assets[0]).value, assets[1..]);
      n := m + 1;
      assert assets[..n][1..] == assets[1..][..m];
    }
  }

  lemma {:induction false} SetsAPrefix(s: Storage, us: seq<(u8, Word)>) returns (n: nat)
    requires Sized(s)
    ensures n <= |us| && WithItems(s, us[..n]) == Ok(ItemsReached(s, us))
    ensures n == |us| <==> WithItems(s, us).Ok?
    decreases |us|
  {
    n := 0;
    if us != [] && WithItem(s, us[0].0, us[0].1).Ok? {
      var m := SetsAPrefix(WithItem(s, us[0].0, us[0].1).value, us[1..]);
      n := m + 1;
      assert us[..n][1..] == us[1..][..m];
    }
  }

  /** Slots are cleared before others are set: a failing update finds the clears done. */
  lemma ClearsComeFirst(s: Storage, i: u8, v: Word)
    requires Sized(s) && Mutable(s, i)
    ensures ItemsReached(s, Updates(StorageDelta([i], [(LAYOUT_COMMITMENT_INDEX, v)]))).slots == s.slots[i := EMPTY_WORD]
    ensures ItemsReached(s, Updates(StorageDelta([LAYOUT_COMMITMENT_INDEX], [(i, v)]))) == s
  {
    var us := Updates(StorageDelta([i], [(LAYOUT_COMMITMENT_INDEX, v)]));
    assert us == [(i, EMPTY_WORD), (LAYOUT_COMMITMENT_INDEX, v)];
    var s1 := WithItem(s, i, EMPTY_WORD).value;
    assert ItemsReached(s, us) == ItemsReached(s1, us[1..]);
    assert Updates(StorageDelta([LAYOUT_COMMITMENT_INDEX], [(i, v)]))[0] == (LAYOUT_COMMITMENT_INDEX, EMPTY_WORD);
  }

  /** The part of a storage delta that makes its first `n` updates. */
  function FirstUpdates(d: StorageDelta, n: nat): (r: StorageDelta)
    requires n <= |d.cleared| + |d.updated|
    ensures Updates(r) == Updates(d)[..n]
  {
    if n <= |d.cleared| then StorageDelta(d.cleared[..n], [])
    else StorageDelta(d.cleared, d.updated[..n - |d.cleared|])
  }

  /** The delta cut off after so many additions, removals and slot updates, without its nonce. */
  function CutOff(d: AccountDelta, added: nat, removed: nat, updates: nat): AccountDelta
    requires added <= |d.vault.added| && removed <= |d.vault.removed|
    requires updates <= |d.storage.cleared| + |d.storage.updated|
  {
    AccountDelta(FirstUpdates(d.storage, updates), VaultDelta(d.vault.added[..added], d.vault.removed[..removed]), None)
  }

  /** A later part is begun only when the parts before it are done. */
  predicate InOrder(d: AccountDelta, added: nat, removed: nat, updates: nat) {
    && added <= |d.vault.added| && removed <= |d.vault.removed|
    && updates <= |d.storage.cleared| + |d.storage.updated|
    && (removed > 0 ==> added == |d.vault.added|)
    && (updates > 0 ==> added == |d.vault.added| && removed == |d.vault.removed|)
  }

  /**
    A delta that fails has done exactly what the delta cut off before the failing operation
    does: nothing is rolled back, nothing after the failure is done, and the nonce stays.
   */
  lemma FailedDeltaIsCutOff(a: AccountState, d: AccountDelta) returns (added: nat, removed: nat, updates: nat)
    requires Sized(a.storage) && ApplyDelta(a, d).Err?
    ensures InOrder(d, added, removed, updates)
    ensures ApplyDelta(a, CutOff(d, added, removed, updates)) == Ok(DeltaReached(a, d))
  {
    added := AddsAPrefix(a.ledger, d.vault.added);
    removed, updates := 0, 0;
    var l1 := AddReached(a.ledger, d.vault.added);
    assert d.vault.added[..|d.vault.added|] == d.vault.added;
    if AddAll(a.ledger, d.vault.added).Ok? {
      removed := RemovesAPrefix(l1, d.vault.removed);
      assert d.vault.removed[..|d.vault.removed|] == d.vault.removed;
      if RemoveAll(l1, d.vault.removed).Ok? {
        assert |Updates(d.storage)| == |d.storage.cleared| + |d.storage.updated|;
        updates := SetsAPrefix(a.storage, Updates(d.storage));
      }
    }
    assert Updates(d.storage)[..0] == [];
  }

  /** A failing delta that changes the account: an addition, then the removal of something else. */
  lemma FailureLeavesTraces(a: AccountState, f: Felt, g: Felt, nonce: Felt)
    requires ValidAccount(a) && WellFormed(Fungible(f, 1)) && WellFormed(Fungible(g, 1))
    requires f != g && f !in a.ledger.balances && g !in a.ledger.balances
    ensures var d := AccountDelta(StorageDelta([], []), VaultDelta([Fungible(f, 1)], [Fungible(g, 1)]), Some(nonce));
            ApplyDelta(a, d).Err? && DeltaReached(a, d) == a.(ledger := a.ledger.(balances := a.ledger.balances[f := 1]))
  {
    var xs, ys := [Fungible(f, 1)], [Fungible(g, 1)];
    assert xs[1..] == [] && ys[1..] == [];
    var l1 := LedgerAdd(a.ledger, xs[0]).value;
    assert AddAll(a.ledger, xs) == AddAll(l1, xs[1..]);
    assert LedgerRemove(l1, ys[0]).Err?;
  }
}
