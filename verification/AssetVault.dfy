/**
  The asset vault. The source keeps assets in a sparse Merkle tree from words to words; the
  specification is a ledger: a balance per faucet and a set of non-fungible assets.
 */
module AssetVaults {
  import opened Base
  import opened AccountIds
  import opened Assets

  /** A sparse tree: keys that are absent hold the empty word. */
  type Tree = map<Word, Word>

  datatype VaultError =
    | AddFungibleAssetBalanceError(cause: AssetError)
    | DuplicateNonFungibleAsset(asset: Asset)
    | FungibleAssetNotFound(asset: Asset)
    | SubtractFungibleAssetBalanceError(cause: AssetError)
    | NonFungibleAssetNotFound(asset: Asset)
    | NotANonFungibleAsset(asset: Asset)
    | NotAFungibleFaucet(id: Felt)

  function GetValue(t: Tree, k: Word): Word {
    if k in t then t[k] else EMPTY_WORD
  }

  function Insert(t: Tree, k: Word, v: Word): Tree {
    if v == EMPTY_WORD then t - {k} else t[k := v]
  }

  /**
    The entry is a well-formed asset stored under its own key. Element 1 of a key is zero for
    a fungible asset and a faucet's ID for a non-fungible one.
   */
  predicate ValidEntry(k: Word, v: Word) {
    if k.e1 == 0 then
      k == FungibleKey(k.e3) && v == Word(v.e0, 0, 0, k.e3) && WellFormed(Fungible(k.e3, v.e0))
    else
      v == k && WellFormed(NonFungible(k))
  }

  ghost predicate ValidTree(t: Tree) {
    forall k :: k in t ==> ValidEntry(k, t[k])
  }

  /** Valid entries are exactly the assets that decode, under the key they ask for. */
  lemma ValidEntryMeaning(k: Word, v: Word)
    ensures ValidEntry(k, v) <==> TryFromWord(v).Ok? && VaultKey(TryFromWord(v).value) == k
    ensures ValidEntry(k, v) ==> v != EMPTY_WORD
  {
    FaucetBitMeaning(v.e3);
    if ValidEntry(k, v) {
      NeverEmpty(NewUnchecked(v));
    }
  }

  // ---------- the ledger ----------

  datatype Ledger = Ledger(balances: map<Felt, u64>, nfts: set<Word>)

  ghost predicate ValidLedger(l: Ledger) {
    && (forall f :: f in l.balances ==> WellFormed(Fungible(f, l.balances[f])))
    && (forall w :: w in l.nfts ==> WellFormed(NonFungible(w)))
  }

  function Balance(l: Ledger, faucetId: Felt): u64 {
    if faucetId in l.balances then l.balances[faucetId] else 0
  }

  function LedgerAdd(l: Ledger, a: Asset): Result<Ledger, VaultError> {
    match a
    case Fungible(id, amount) =>
      if Balance(l, id) + amount > MAX_AMOUNT then
        Err(AddFungibleAssetBalanceError(AmountTooBig(Balance(l, id) + amount)))
      else
        Ok(l.(balances := l.balances[id := Balance(l, id) + amount]))
    case NonFungible(w) =>
      if w in l.nfts then Err(DuplicateNonFungibleAsset(a)) else Ok(l.(nfts := l.nfts + {w}))
  }

  /** A balance that reaches zero leaves the ledger. */
  function LedgerRemove(l: Ledger, a: Asset): Result<Ledger, VaultError> {
    match a
    case Fungible(id, amount) =>
      if id !in l.balances then Err(FungibleAssetNotFound(a))
      else if l.balances[id] < amount then
        Err(SubtractFungibleAssetBalanceError(AssetAmountNotSufficient(l.balances[id], amount)))
      else if l.balances[id] == amount then Ok(l.(balances := l.balances - {id}))
      else Ok(l.(balances := l.balances[id := l.balances[id] - amount]))
    case NonFungible(w) =>
      if w in l.nfts then Ok(l.(nfts := l.nfts - {w})) else Err(NonFungibleAssetNotFound(a))
  }

  /** The tree holds exactly the assets of the ledger. */
  ghost predicate Represents(t: Tree, l: Ledger) {
    && ValidTree(t)
    && (forall f: Felt :: f in l.balances <==> FungibleKey(f) in t)
    && (forall f: Felt :: f in l.balances ==> t[FungibleKey(f)].e0 == l.balances[f])
    && (forall w :: w in l.nfts <==> w in t && w.e1 != 0)
  }

  /** Every valid tree stands for a ledger, and that ledger is valid. */
  lemma ContentsExist(t: Tree) returns (l: Ledger)
    requires ValidTree(t)
    ensures Represents(t, l)
  {
    var faucets := set k | k in t && k.e1 == 0 :: k.e3;
    assert forall f: Felt :: FungibleKey(f).e1 == 0 && FungibleKey(f).e3 == f;
    l := Ledger(map f: Felt | f in faucets :: t[FungibleKey(f)].e0, set k | k in t && k.e1 != 0);
  }

  lemma RepresentedIsValid(t: Tree, l: Ledger)
    requires Represents(t, l)
    ensures ValidLedger(l)
  {
    forall f | f in l.balances ensures WellFormed(Fungible(f, l.balances[f])) {
      assert ValidEntry(FungibleKey(f), t[FungibleKey(f)]);
    }
    forall w | w in l.nfts ensures WellFormed(NonFungible(w)) {
      assert ValidEntry(w, t[w]);
    }
  }

  /** A vault and its ledger determine each other: nothing else is stored in the tree. */
  lemma OneLedgerPerTree(t1: Tree, l1: Ledger, t2: Tree, l2: Ledger)
    requires Represents(t1, l1) && Represents(t2, l2)
    ensures t1 == t2 <==> l1 == l2
  {
    if t1 == t2 {
      assert l1.balances == l2.balances;
      assert l1.nfts == l2.nfts;
    }
    if l1 == l2 {
      EntriesCarryOver(t1, t2, l1);
      EntriesCarryOver(t2, t1, l1);
    }
  }

  lemma EntriesCarryOver(t1: Tree, t2: Tree, l: Ledger)
    requires Represents(t1, l) && Represents(t2, l)
    ensures forall k :: k in t1 ==> k in t2 && t1[k] == t2[k]
  {
    forall k | k in t1 ensures k in t2 && t1[k] == t2[k] {
      assert ValidEntry(k, t1[k]);
      if k.e1 == 0 {
        assert k == FungibleKey(k.e3) && k.e3 in l.balances;
      } else {
        assert k in l.nfts;
      }
      assert ValidEntry(k, t2[k]);
    }
  }

  /** Storing a fungible asset is setting one balance. */
  lemma InsertFungible(t: Tree, l: Ledger, id: Felt, amount: u64)
    requires Represents(t, l) && WellFormed(Fungible(id, amount))
    ensures Represents(Insert(t, FungibleKey(id), ToWord(Fungible(id, amount))),
                       l.(balances := l.balances[id := amount]))
  {
    NeverEmpty(Fungible(id, amount));
    assert ValidEntry(FungibleKey(id), ToWord(Fungible(id, amount)));
  }

  /** Storing the empty word is dropping one balance. */
  lemma RemoveFungible(t: Tree, l: Ledger, id: Felt)
    requires Represents(t, l)
    ensures Represents(Insert(t, FungibleKey(id), EMPTY_WORD), l.(balances := l.balances - {id}))
  {
  }

  lemma InsertNonFungible(t: Tree, l: Ledger, w: Word)
    requires Represents(t, l) && WellFormed(NonFungible(w))
    ensures Represents(Insert(t, w, w), l.(nfts := l.nfts + {w}))
    ensures Represents(Insert(t, w, EMPTY_WORD), l.(nfts := l.nfts - {w}))
  {
    NeverEmpty(NonFungible(w));
    assert ValidEntry(w, w);
  }

  /** Looking a faucet up in the tree is looking its balance up in the ledger. */
  lemma LookupFungible(t: Tree, l: Ledger, id: Felt)
    requires Represents(t, l) && ValidId(id) && TypeOf(id) == FungibleFaucet
    ensures var v := GetValue(t, FungibleKey(id));
            && (v == EMPTY_WORD <==> id !in l.balances)
            && (id in l.balances ==> v.e0 == l.balances[id] && NewUnchecked(v) == Fungible(id, l.balances[id])
                                     && WellFormed(Fungible(id, l.balances[id])))
  {
    FaucetBitMeaning(id);
    if FungibleKey(id) in t {
      ValidEntryMeaning(FungibleKey(id), t[FungibleKey(id)]);
    }
  }

  lemma LookupNonFungible(t: Tree, l: Ledger, w: Word)
    requires Represents(t, l) && WellFormed(NonFungible(w))
    ensures GetValue(t, w) == if w in l.nfts then w else EMPTY_WORD
    ensures w != EMPTY_WORD
  {
    NeverEmpty(NonFungible(w));
    if w in t {
      assert ValidEntry(w, t[w]);
    }
  }

  // ---------- laws of the ledger ----------

  lemma LedgerStaysValid(l: Ledger, a: Asset)
    requires ValidLedger(l) && WellFormed(a)
    ensures LedgerAdd(l, a).Ok? ==> ValidLedger(LedgerAdd(l, a).value)
    ensures LedgerRemove(l, a).Ok? ==> ValidLedger(LedgerRemove(l, a).value)
  {
  }

  /** Too large a sum, or a non-fungible asset that is there already, is what an add can fail for. */
  lemma AddErrors(l: Ledger, a: Asset)
    ensures var r := LedgerAdd(l, a);
            && (a.Fungible? ==> (r.Err? <==> Balance(l, a.faucetId) + a.amount > MAX_AMOUNT))
            && (a.NonFungible? ==> (r.Err? <==> a.word in l.nfts))
            && (r.Err? ==> if a.Fungible? then r.error.AddFungibleAssetBalanceError? && r.error.cause.AmountTooBig?
                           else r.error == DuplicateNonFungibleAsset(a))
  {
  }

  /** A missing asset and too small a balance are what a removal can fail for, and told apart. */
  lemma RemoveErrors(l: Ledger, a: Asset)
    ensures var r := LedgerRemove(l, a);
            && (r == Err(FungibleAssetNotFound(a)) <==> a.Fungible? && a.faucetId !in l.balances)
            && (r == Err(NonFungibleAssetNotFound(a)) <==> a.NonFungible? && a.word !in l.nfts)
            && (r.Err? && r.error.SubtractFungibleAssetBalanceError? <==>
                  a.Fungible? && a.faucetId in l.balances && l.balances[a.faucetId] < a.amount)
  {
  }

  /**
    A successful add can always be taken back, and taking it back restores the ledger exactly
    unless the add touched an existing balance of zero, which the removal then drops.
   */
  lemma AddThenRemove(l: Ledger, a: Asset)
    requires ValidLedger(l) && WellFormed(a) && LedgerAdd(l, a).Ok?
    ensures LedgerRemove(LedgerAdd(l, a).value, a).Ok?
    ensures LedgerRemove(LedgerAdd(l, a).value, a) == Ok(l) <==>
            (a.Fungible? && a.faucetId in l.balances ==> l.balances[a.faucetId] > 0)
  {
    var l1 := LedgerAdd(l, a).value;
    var l2 := LedgerRemove(l1, a).value;
    match a
    case Fungible(id, amount) =>
      if id in l.balances && l.balances[id] == 0 {
        assert id !in l2.balances;
      } else {
        assert l2.balances == l.balances;
      }
    case NonFungible(w) => assert l2.nfts == l.nfts;
  }

  /** Such a balance comes from adding nothing; adding to it and taking that back loses it. */
  lemma ZeroBalanceIsDropped(l: Ledger, f: Felt, amount: u64)
    requires ValidLedger(l) && WellFormed(Fungible(f, amount)) && f !in l.balances
    ensures LedgerAdd(l, Fungible(f, 0)).Ok?
    ensures var zero := LedgerAdd(l, Fungible(f, 0)).value;
            && LedgerAdd(zero, Fungible(f, amount)).Ok?
            && LedgerRemove(LedgerAdd(zero, Fungible(f, amount)).value, Fungible(f, amount)) == Ok(l)
            && zero != l
  {
    var zero := LedgerAdd(l, Fungible(f, 0)).value;
    assert zero.balances[f] == 0;
    var more := LedgerAdd(zero, Fungible(f, amount)).value;
    assert LedgerRemove(more, Fungible(f, amount)).value.balances == l.balances;
  }

  /** A successful remove can be put back, and putting it back restores the ledger. */
  lemma RemoveThenAdd(l: Ledger, a: Asset)
    requires ValidLedger(l) && WellFormed(a) && LedgerRemove(l, a).Ok?
    ensures LedgerAdd(LedgerRemove(l, a).value, a) == Ok(l)
  {
    var l1 := LedgerRemove(l, a).value;
    var l2 := LedgerAdd(l1, a).value;
    match a
    case Fungible(id, amount) => assert l2.balances == l.balances;
    case NonFungible(w) => assert l2.nfts == l.nfts;
  }

  // ---------- the vault object ----------

  /** Sum of two amounts; the type of `amount` is the checked 64-bit addition. */
  function AddAmounts(current: Asset, other: Asset): (r: Result<Asset, AssetError>)
    requires current.Fungible? && other.Fungible? && WellFormed(current) && WellFormed(other)
    ensures r == Err(InconsistentFaucetIds(current.faucetId, other.faucetId)) <==> !IsSame(current, other)
    ensures r.Ok? ==> WellFormed(r.value) && IsSame(r.value, current)
  {
    if current.faucetId != other.faucetId then
      Err(InconsistentFaucetIds(current.faucetId, other.faucetId))
    else
      var amount: u64 := current.amount + other.amount;
      if amount > MAX_AMOUNT then Err(AmountTooBig(amount)) else Ok(Fungible(current.faucetId, amount))
  }

  /** What is stored for the faucet, added to the asset, is what the ledger makes of it. */
  lemma SumIsBalance(t: Tree, l: Ledger, asset: Asset)
    requires Represents(t, l) && WellFormed(asset) && asset.Fungible?
    ensures var current := GetValue(t, VaultKey(asset));
            var balance := Balance(l, asset.faucetId);
            && (current == EMPTY_WORD ==> balance == 0)
            && (current != EMPTY_WORD ==>
                  && NewUnchecked(current) == Fungible(asset.faucetId, balance)
                  && WellFormed(NewUnchecked(current)))
  {
    LookupFungible(t, l, asset.faucetId);
  }

  lemma SumIsInserted(t: Tree, l: Ledger, asset: Asset, sum: Asset)
    requires Represents(t, l) && WellFormed(asset) && asset.Fungible? && LedgerAdd(l, asset).Ok?
    requires sum == Fungible(asset.faucetId, Balance(l, asset.faucetId) + asset.amount)
    ensures WellFormed(sum) && Represents(Insert(t, VaultKey(sum), ToWord(sum)), LedgerAdd(l, asset).value)
  {
    InsertFungible(t, l, sum.faucetId, sum.amount);
  }

  class AssetVault {
    var tree: Tree
    ghost var ledger: Ledger

    ghost predicate Valid()
      reads this
    {
      Represents(tree, ledger)
    }

    constructor ()
      ensures Valid() && ledger == Ledger(map[], {})
    {
      tree, ledger := map[], Ledger(map[], {});
    }

    method GetBalance(faucetId: Felt) returns (r: Result<u64, VaultError>)
      requires Valid() && ValidId(faucetId)
      ensures TypeOf(faucetId) != FungibleFaucet ==> r == Err(NotAFungibleFaucet(faucetId))
      ensures TypeOf(faucetId) == FungibleFaucet ==> r == Ok(Balance(ledger, faucetId))
    {
      if TypeOf(faucetId) != FungibleFaucet {
        return Err(NotAFungibleFaucet(faucetId));
      }
      LookupFungible(tree, ledger, faucetId);
      var value := GetValue(tree, FungibleKey(faucetId));
      return Ok(if value == EMPTY_WORD then 0 else value.e0);
    }

    method HasNonFungibleAsset(asset: Asset) returns (r: Result<bool, VaultError>)
      requires Valid() && WellFormed(asset)
      ensures asset.Fungible? ==> r == Err(NotANonFungibleAsset(asset))
      ensures asset.NonFungible? ==> r == Ok(asset.word in ledger.nfts)
    {
      if asset.Fungible? {
        return Err(NotANonFungibleAsset(asset));
      }
      LookupNonFungible(tree, ledger, asset.word);
      return Ok(GetValue(tree, VaultKey(asset)) != EMPTY_WORD);
    }

    /** Adds the asset as the ledger does; on an error the tree is what it was. */
    method AddAsset(asset: Asset) returns (r: Result<Asset, VaultError>)
      requires Valid() && WellFormed(asset)
      modifies this
      ensures Valid()
      ensures match LedgerAdd(old(ledger), asset)
              case Ok(l) => ledger == l && r == Ok(
                              if asset.Fungible? then Fungible(asset.faucetId, Balance(l, asset.faucetId)) else asset)
              case Err(e) => tree == old(tree) && ledger == old(ledger) && r == Err(e)
    {
      match asset
      case Fungible(_, _) => r := AddFungibleAsset(asset);
      case NonFungible(_) => r := AddNonFungibleAsset(asset);
    }

    method AddFungibleAsset(asset: Asset) returns (r: Result<Asset, VaultError>)
      requires Valid() && WellFormed(asset) && asset.Fungible?
      modifies this
      ensures Valid()
      ensures match LedgerAdd(old(ledger), asset)
              case Ok(l) => ledger == l && r == Ok(Fungible(asset.faucetId, Balance(l, asset.faucetId)))
              case Err(e) => tree == old(tree) && ledger == old(ledger) && r == Err(e)
    {
      SumIsBalance(tree, ledger, asset);
      var current := GetValue(tree, VaultKey(asset));
      var sum := asset;
      if current != EMPTY_WORD {
        match AddAmounts(NewUnchecked(current), asset)
        case Err(e) => return Err(AddFungibleAssetBalanceError(e));
        case Ok(total) => sum := total;
      }
      SumIsInserted(tree, ledger, asset, sum);
      tree := Insert(tree, VaultKey(sum), ToWord(sum));
      ledger := LedgerAdd(ledger, asset).value;
      return Ok(sum);
    }

    /** Inserts first and checks afterwards, like the source: the insertion is then a no-op. */
    method AddNonFungibleAsset(asset: Asset) returns (r: Result<Asset, VaultError>)
      requires Valid() && WellFormed(asset) && asset.NonFungible?
      modifies this
      ensures Valid()
      ensures match LedgerAdd(old(ledger), asset)
              case Ok(l) => ledger == l && r == Ok(asset)
              case Err(e) => tree == old(tree) && ledger == old(ledger) && r == Err(e)
    {
      InsertNonFungible(tree, ledger, asset.word);
      LookupNonFungible(tree, ledger, asset.word);
      var previous := GetValue(tree, VaultKey(asset));
      tree := Insert(tree, VaultKey(asset), ToWord(asset));
      ledger := ledger.(nfts := ledger.nfts + {asset.word});
      if previous != EMPTY_WORD {
        assert ledger.nfts == old(ledger).nfts;
        return Err(DuplicateNonFungibleAsset(asset));
      }
      return Ok(asset);
    }

    method RemoveAsset(asset: Asset) returns (r: Result<Asset, VaultError>)
      requires Valid() && WellFormed(asset)
      modifies this
      ensures Valid()
      ensures match LedgerRemove(old(ledger), asset)
              case Ok(l) => ledger == l && r == Ok(asset)
              case Err(e) => tree == old(tree) && ledger == old(ledger) && r == Err(e)
    {
      match asset
      case Fungible(_, _) => r := RemoveFungibleAsset(asset);
      case NonFungible(_) => r := RemoveNonFungibleAsset(asset);
    }

    method RemoveFungibleAsset(asset: Asset) returns (r: Result<Asset, VaultError>)
      requires Valid() && WellFormed(asset) && asset.Fungible?
      modifies this
      ensures Valid()
      ensures match LedgerRemove(old(ledger), asset)
              case Ok(l) => ledger == l && r == Ok(asset)
              case Err(e) => tree == old(tree) && ledger == old(ledger) && r == Err(e)
    {
      LookupFungible(tree, ledger, asset.faucetId);
      var value := GetValue(tree, VaultKey(asset));
      if value == EMPTY_WORD {
        return Err(FungibleAssetNotFound(asset));
      }
      var current := NewUnchecked(value);
      if current.amount < asset.amount {
        return Err(SubtractFungibleAssetBalanceError(AssetAmountNotSufficient(current.amount, asset.amount)));
      }
      current := Fungible(current.faucetId, current.amount - asset.amount);
      if current.amount == 0 {
        RemoveFungible(tree, ledger, asset.faucetId);
        tree := Insert(tree, VaultKey(asset), EMPTY_WORD);
      } else {
        InsertFungible(tree, ledger, current.faucetId, current.amount);
        tree := Insert(tree, VaultKey(asset), ToWord(current));
      }
      ledger := LedgerRemove(ledger, asset).value;
      return Ok(asset);
    }

    method RemoveNonFungibleAsset(asset: Asset) returns (r: Result<Asset, VaultError>)
      requires Valid() && WellFormed(asset) && asset.NonFungible?
      modifies this
      ensures Valid()
      ensures match LedgerRemove(old(ledger), asset)
              case Ok(l) => ledger == l && r == Ok(asset)
              case Err(e) => tree == old(tree) && ledger == old(ledger) && r == Err(e)
    {
      InsertNonFungible(tree, ledger, asset.word);
      LookupNonFungible(tree, ledger, asset.word);
      var previous := GetValue(tree, VaultKey(asset));
      tree := Insert(tree, VaultKey(asset), EMPTY_WORD);
      ledger := ledger.(nfts := ledger.nfts - {asset.word});
      if previous == EMPTY_WORD {
        assert ledger.nfts == old(ledger).nfts;
        return Err(NonFungibleAssetNotFound(asset));
      }
      return Ok(asset);
    }
  }
}
