/** The account object and the application of a delta to it. */
module Accounts {
  import opened Base
  import opened Assets
  import opened AssetVaults
  import opened AccountStorages
  import opened AccountDeltas
  import opened Holdings
  import opened Replays

  class Account {
    const id: Felt
    const code: Word
    const vault: AssetVault
    const storage: AccountStorage
    var nonce: Felt

    ghost predicate Valid()
      reads this, vault, storage
    {
      vault.Valid() && Sized(storage.State())
    }

    ghost function State(): AccountState
      reads this, vault, storage
    {
      AccountState(id, code, vault.ledger, storage.State(), nonce)
    }

    constructor (id: Felt, vault: AssetVault, storage: AccountStorage, code: Word, nonce: Felt)
      requires vault.Valid() && Sized(storage.State())
      ensures Valid() && this.vault == vault && this.storage == storage
      ensures State() == AccountState(id, code, vault.ledger, storage.State(), nonce)
    {
      this.id, this.vault, this.storage, this.code, this.nonce := id, vault, storage, code, nonce;
    }

    /** Adds, then removes, then sets slots, then sets the nonce; stops at the first error. */
    method ApplyDelta(delta: AccountDelta) returns (r: Result<(), ApplyError>)
      requires Valid()
      requires forall a | a in delta.vault.added + delta.vault.removed :: WellFormed(a)
      modifies this, vault, storage
      ensures Valid()
      ensures State() == DeltaReached(old(State()), delta)
      ensures match Replays.ApplyDelta(old(State()), delta)
              case Ok(s) => r == Ok(()) && State() == s
              case Err(e) => r == Err(e)
    {
      var added := AddAssets(delta.vault.added);
      if added.Err? {
        return Err(VaultUpdateFailed(added.error));
      }
      var removed := RemoveAssets(delta.vault.removed);
      if removed.Err? {
        return Err(VaultUpdateFailed(removed.error));
      }
      var stored := storage.ApplyDelta(delta.storage);
      if stored.Err? {
        return Err(StorageUpdateFailed(stored.error));
      }
      if delta.nonce.Some? {
        r := SetNonce(delta.nonce.value);
      } else {
        r := Ok(());
      }
    }

    method AddAssets(assets: seq<Asset>) returns (r: Result<(), VaultError>)
      requires Valid() && forall a | a in assets :: WellFormed(a)
      modifies vault
      ensures Valid()
      ensures vault.ledger == AddReached(old(vault.ledger), assets)
      ensures match AddAll(old(vault.ledger), assets)
              case Ok(l) => r == Ok(()) && vault.ledger == l
              case Err(e) => r == Err(e)
    {
      for i := 0 to |assets|
        invariant Valid() && AddAll(vault.ledger, assets[i..]) == AddAll(old(vault.ledger), assets)
        invariant AddReached(vault.ledger, assets[i..]) == AddReached(old(vault.ledger), assets)
      {
        assert assets[i] in assets && assets[i..][1..] == assets[i + 1..];
        var q := vault.AddAsset(assets[i]);
        if q.Err? {
          return Err(q.error);
        }
      }
      return Ok(());
    }

    method RemoveAssets(assets: seq<Asset>) returns (r: Result<(), VaultError>)
      requires Valid() && forall a | a in assets :: WellFormed(a)
      modifies vault
      ensures Valid()
      ensures vault.ledger == RemoveReached(old(vault.ledger), assets)
      ensures match RemoveAll(old(vault.ledger), assets)
              case Ok(l) => r == Ok(()) && vault.ledger == l
              case Err(e) => r == Err(e)
    {
      for i := 0 to |assets|
        invariant Valid() && RemoveAll(vault.ledger, assets[i..]) == RemoveAll(old(vault.ledger), assets)
        invariant RemoveReached(vault.ledger, assets[i..]) == RemoveReached(old(vault.ledger), assets)
      {
        assert assets[i] in assets && assets[i..][1..] == assets[i + 1..];
        var q := vault.RemoveAsset(assets[i]);
        if q.Err? {
          return Err(q.error);
        }
      }
      return Ok(());
    }

    method SetNonce(new_: Felt) returns (r: Result<(), ApplyError>)
      requires Valid()
      modifies this
      ensures Valid()
      ensures match Replays.SetNonce(old(State()), new_)
              case Ok(s) => r == Ok(()) && State() == s
              case Err(e) => r == Err(e) && State() == old(State())
    {
      if nonce >= new_ {
        return Err(NonceNotMonotonicallyIncreasing(nonce, new_));
      }
      nonce := new_;
      return Ok(());
    }
  }
}
