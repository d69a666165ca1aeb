/**
  A ledger seen one asset at a time. Fungible balances and non-fungible assets follow the
  same rule here: an asset has a size and a cap, and a ledger holds some amount of it or none.
 */
module Holdings {
  import opened Base
  import opened Assets
  import opened AssetVaults
  import opened AccountDeltas

  type Holding = Option<nat>

  function Amount(h: Holding): nat {
    if h.Some? then h.value else 0
  }

  function Size(a: Asset): nat {
    if a.Fungible? then a.amount else 1
  }

  function Cap(a: Asset): nat {
    if a.Fungible? then MAX_AMOUNT else 1
  }

  /** How much of this asset, or of its faucet's asset, the ledger holds. */
  function Held(l: Ledger, a: Asset): Holding {
    match a
    case Fungible(id, _) => if id in l.balances then Some(l.balances[id]) else None
    case NonFungible(w) => if w in l.nfts then Some(1) else None
  }

  predicate CanAdd(h: Holding, a: Asset) {
    Amount(h) + Size(a) <= Cap(a)
  }

  function AfterAdd(h: Holding, a: Asset): Holding {
    Some(Amount(h) + Size(a))
  }

  predicate CanRemove(h: Holding, a: Asset) {
    h.Some? && Size(a) <= h.value
  }

  function AfterRemove(h: Holding, a: Asset): Holding
    requires CanRemove(h, a)
  {
    if h.value == Size(a) then None else Some(h.value - Size(a))
  }

  /** Adding touches one holding and leaves all others alone. */
  lemma AddEffect(l: Ledger, a: Asset)
    ensures LedgerAdd(l, a).Ok? <==> CanAdd(Held(l, a), a)
    ensures LedgerAdd(l, a).Ok? ==>
              forall b :: Held(LedgerAdd(l, a).value, b) == if IsSame(a, b) then AfterAdd(Held(l, a), a) else Held(l, b)
  {
  }

  lemma RemoveEffect(l: Ledger, a: Asset)
    ensures LedgerRemove(l, a).Ok? <==> CanRemove(Held(l, a), a)
    ensures LedgerRemove(l, a).Ok? ==>
              forall b :: Held(LedgerRemove(l, a).value, b) ==
                          if IsSame(a, b) then AfterRemove(Held(l, a), a) else Held(l, b)
  {
  }

  /** A ledger is nothing but its holdings. */
  lemma LedgerExtensional(l1: Ledger, l2: Ledger)
    ensures l1 == l2 <==> forall b :: Held(l1, b) == Held(l2, b)
  {
    if forall b :: Held(l1, b) == Held(l2, b) {
      forall f: Felt ensures f in l1.balances <==> f in l2.balances
                     ensures f in l1.balances ==> l1.balances[f] == l2.balances[f] {
        assert Held(l1, Fungible(f, 0)) == Held(l2, Fungible(f, 0));
      }
      forall w ensures w in l1.nfts <==> w in l2.nfts {
        assert Held(l1, NonFungible(w)) == Held(l2, NonFungible(w));
      }
      assert l1.balances == l2.balances;
      assert l1.nfts == l2.nfts;
    }
  }

  // ---------- applying a vault delta ----------

  function AddAll(l: Ledger, assets: seq<Asset>): Result<Ledger, VaultError>
    decreases |assets|
  {
    if assets == [] then Ok(l)
    else
      match LedgerAdd(l, assets[0])
      case Ok(l1) => AddAll(l1, assets[1..])
      case Err(e) => Err(e)
  }

  function RemoveAll(l: Ledger, assets: seq<Asset>): Result<Ledger, VaultError>
    decreases |assets|
  {
    if assets == [] then Ok(l)
    else
      match LedgerRemove(l, assets[0])
      case Ok(l1) => RemoveAll(l1, assets[1..])
      case Err(e) => Err(e)
  }

  /** Where adding the assets one by one gets to, up to the first that cannot be added. */
  function AddReached(l: Ledger, assets: seq<Asset>): (r: Ledger)
    ensures AddAll(l, assets).Ok? ==> AddAll(l, assets) == Ok(r)
    decreases |assets|
  {
    if assets == [] then l
    else
      match LedgerAdd(l, assets[0])
      case Ok(l1) => AddReached(l1, assets[1..])
      case Err(_) => l
  }

  function RemoveReached(l: Ledger, assets: seq<Asset>): (r: Ledger)
    ensures RemoveAll(l, assets).Ok? ==> RemoveAll(l, assets) == Ok(r)
    decreases |assets|
  {
    if assets == [] then l
    else
      match LedgerRemove(l, assets[0])
      case Ok(l1) => RemoveReached(l1, assets[1..])
      case Err(_) => l
  }

  /** All additions come before all removals. */
  function ApplyVaultDelta(l: Ledger, d: VaultDelta): Result<Ledger, VaultError> {
    match AddAll(l, d.added)
    case Ok(l1) => RemoveAll(l1, d.removed)
    case Err(e) => Err(e)
  }

  /** The asset of the list that is the same as `b`, if there is one. */
  function Find(assets: seq<Asset>, b: Asset): (r: Option<Asset>)
    ensures r.Some? ==> r.value in assets && IsSame(r.value, b)
    ensures r.None? <==> NoneSame(assets, b)
  {
    if assets == [] then None else if IsSame(assets[0], b) then Some(assets[0]) else Find(assets[1..], b)
  }

  /** What adding a list of different assets does to the holding of `b`. */
  function Added(h: Holding, found: Option<Asset>): Holding {
    if found.Some? then AfterAdd(h, found.value) else h
  }

  /** What removing a list of different assets does to the holding of `b`. */
  function Removed(h: Holding, found: Option<Asset>): Holding {
    match found
    case Some(a) => if CanRemove(h, a) then AfterRemove(h, a) else None
    case None => h
  }

  predicate AddableAll(l: Ledger, assets: seq<Asset>) {
    forall i | 0 <= i < |assets| :: CanAdd(Held(l, assets[i]), assets[i])
  }

  predicate RemovableAll(l: Ledger, assets: seq<Asset>) {
    forall i | 0 <= i < |assets| :: CanRemove(Held(l, assets[i]), assets[i])
  }

  lemma AddKeepsOthers(l: Ledger, a: Asset, tail: seq<Asset>)
    requires AllDifferent([a] + tail) && LedgerAdd(l, a).Ok?
    ensures AddableAll(LedgerAdd(l, a).value, tail) <==> AddableAll(l, tail)
  {
    AddEffect(l, a);
    forall i | 0 <= i < |tail| ensures Held(LedgerAdd(l, a).value, tail[i]) == Held(l, tail[i]) {
      assert !IsSame(([a] + tail)[0], ([a] + tail)[i + 1]);
    }
  }

  lemma {:induction false} AddAllWhen(l: Ledger, assets: seq<Asset>)
    requires AllDifferent(assets)
    ensures AddAll(l, assets).Ok? <==> AddableAll(l, assets)
    decreases |assets|
  {
    if assets != [] {
      var a, tail := assets[0], assets[1..];
      assert assets == [a] + tail;
      AddEffect(l, a);
      if CanAdd(Held(l, a), a) {
        AddAllWhen(LedgerAdd(l, a).value, tail);
        AddKeepsOthers(l, a, tail);
        assert AddableAll(l, [a] + tail) <==> AddableAll(l, tail) by {
          assert forall i | 0 <= i < |tail| :: tail[i] == assets[i + 1];
        }
      }
    }
  }

  lemma {:induction false} AddAllWhat(l: Ledger, assets: seq<Asset>, b: Asset)
    requires AllDifferent(assets) && AddAll(l, assets).Ok?
    ensures Held(AddAll(l, assets).value, b) == Added(Held(l, b), Find(assets, b))
    decreases |assets|
  {
    if assets != [] {
      var a, tail := assets[0], assets[1..];
      assert assets == [a] + tail;
      AddEffect(l, a);
      AddAllWhat(LedgerAdd(l, a).value, tail, b);
      if IsSame(a, b) {
        SameTransitive(tail, a, b);
        SameHolding(l, a);
      }
    }
  }

  /** Different assets do not interfere: the list can be added exactly when each asset can. */
  lemma AddAllEffect(l: Ledger, assets: seq<Asset>)
    requires AllDifferent(assets)
    ensures AddAll(l, assets).Ok? <==> AddableAll(l, assets)
    ensures AddAll(l, assets).Ok? ==>
              forall b :: Held(AddAll(l, assets).value, b) == Added(Held(l, b), Find(assets, b))
  {
    AddAllWhen(l, assets);
    if AddAll(l, assets).Ok? {
      forall b ensures Held(AddAll(l, assets).value, b) == Added(Held(l, b), Find(assets, b)) {
        AddAllWhat(l, assets, b);
      }
    }
  }

  lemma RemoveKeepsOthers(l: Ledger, a: Asset, tail: seq<Asset>)
    requires AllDifferent([a] + tail) && LedgerRemove(l, a).Ok?
    ensures RemovableAll(LedgerRemove(l, a).value, tail) <==> RemovableAll(l, tail)
  {
    RemoveEffect(l, a);
    forall i | 0 <= i < |tail| ensures Held(LedgerRemove(l, a).value, tail[i]) == Held(l, tail[i]) {
      assert !IsSame(([a] + tail)[0], ([a] + tail)[i + 1]);
    }
  }

  lemma {:induction false} RemoveAllWhen(l: Ledger, assets: seq<Asset>)
    requires AllDifferent(assets)
    ensures RemoveAll(l, assets).Ok? <==> RemovableAll(l, assets)
    decreases |assets|
  {
    if assets != [] {
      var a, tail := assets[0], assets[1..];
      assert assets == [a] + tail;
      RemoveEffect(l, a);
      if CanRemove(Held(l, a), a) {
        RemoveAllWhen(LedgerRemove(l, a).value, tail);
        RemoveKeepsOthers(l, a, tail);
        assert RemovableAll(l, [a] + tail) <==> RemovableAll(l, tail) by {
          assert forall i | 0 <= i < |tail| :: tail[i] == assets[i + 1];
        }
      }
    }
  }

  lemma {:induction false} RemoveAllWhat(l: Ledger, assets: seq<Asset>, b: Asset)
    requires AllDifferent(assets) && RemoveAll(l, assets).Ok?
    ensures Held(RemoveAll(l, assets).value, b) == Removed(Held(l, b), Find(assets, b))
    decreases |assets|
  {
    if assets != [] {
      var a, tail := assets[0], assets[1..];
      assert assets == [a] + tail;
      RemoveEffect(l, a);
      RemoveAllWhat(LedgerRemove(l, a).value, tail, b);
      if IsSame(a, b) {
        SameTransitive(tail, a, b);
        SameHolding(l, a);
      }
    }
  }

  lemma RemoveAllEffect(l: Ledger, assets: seq<Asset>)
    requires AllDifferent(assets)
    ensures RemoveAll(l, assets).Ok? <==> RemovableAll(l, assets)
    ensures RemoveAll(l, assets).Ok? ==>
              forall b :: Held(RemoveAll(l, assets).value, b) == Removed(Held(l, b), Find(assets, b))
  {
    RemoveAllWhen(l, assets);
    if RemoveAll(l, assets).Ok? {
      forall b ensures Held(RemoveAll(l, assets).value, b) == Removed(Held(l, b), Find(assets, b)) {
        RemoveAllWhat(l, assets, b);
      }
    }
  }

  lemma SameTransitive(tail: seq<Asset>, a: Asset, b: Asset)
    requires IsSame(a, b) && AllDifferent([a] + tail)
    ensures NoneSame(tail, b)
  {
    forall i | 0 <= i < |tail| ensures !IsSame(tail[i], b) {
      assert !IsSame(([a] + tail)[0], ([a] + tail)[i + 1]);
    }
  }

  lemma SameHolding(l: Ledger, a: Asset)
    ensures forall b :: IsSame(a, b) ==> Held(l, a) == Held(l, b) && Cap(a) == Cap(b)
  {
  }

  /**
    Applying a delta whose assets are all different: it succeeds exactly when each asset can
    be added or removed on its own, and then each holding moves on its own.
   */
  lemma ApplyVaultEffect(l: Ledger, d: VaultDelta)
    requires AllDifferent(d.added + d.removed)
    ensures ApplyVaultDelta(l, d).Ok? <==> AddableAll(l, d.added) && RemovableAll(l, d.removed)
    ensures ApplyVaultDelta(l, d).Ok? ==> forall b :: Held(ApplyVaultDelta(l, d).value, b) == Moved(l, d, b)
  {
    var all, n := d.added + d.removed, |d.added|;
    assert AllDifferent(d.added) by { assert all[..n] == d.added; }
    assert AllDifferent(d.removed) by { assert all[n..] == d.removed; }
    AddAllEffect(l, d.added);
    if AddAll(l, d.added).Ok? {
      var l1 := AddAll(l, d.added).value;
      RemoveAllEffect(l1, d.removed);
      forall i | 0 <= i < |d.removed|
        ensures NoneSame(d.added, d.removed[i]) && Held(l1, d.removed[i]) == Held(l, d.removed[i])
      {
        forall k | 0 <= k < n ensures !IsSame(d.added[k], d.removed[i]) {
          assert !IsSame(all[k], all[n + i]);
        }
      }
      if RemovableAll(l1, d.removed) {
        forall b ensures Held(RemoveAll(l1, d.removed).value, b) == Moved(l, d, b) {
          if Find(d.removed, b).Some? {
            FindEither(d, b);
          }
        }
      }
    }
  }

  /** The holding of `b` after the delta. */
  function Moved(l: Ledger, d: VaultDelta, b: Asset): Holding {
    if Find(d.removed, b).Some? then Removed(Held(l, b), Find(d.removed, b))
    else Added(Held(l, b), Find(d.added, b))
  }

  lemma FindEither(d: VaultDelta, b: Asset)
    requires AllDifferent(d.added + d.removed) && Find(d.removed, b).Some?
    ensures Find(d.added, b).None?
  {
    var a := Find(d.removed, b).value;
    var i :| 0 <= i < |d.removed| && d.removed[i] == a;
    forall k | 0 <= k < |d.added| ensures !IsSame(d.added[k], b) {
      assert !IsSame((d.added + d.removed)[k], (d.added + d.removed)[|d.added| + i]);
    }
  }
}
