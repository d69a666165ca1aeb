/**
  The vault delta tracker: signed changes per faucet and per non-fungible asset, and the two
  lists of assets they are turned into at the end of a transaction.
 */
module VaultTrackers {
  import opened Base
  import opened Assets
  import opened AccountDeltas
  import opened Holdings
  import opened OrderedKeys

  datatype VaultTracker = VaultTracker(fungible: map<Felt, int>, nonFungible: map<Word, int>)

  const NO_CHANGES := VaultTracker(map[], map[])

  /** Adds a signed amount to an entry; an entry that would become zero is dropped. */
  function UpdateDelta<K>(m: map<K, int>, key: K, amount: int): map<K, int> {
    if key !in m then m[key := amount]
    else if m[key] == -amount then m - {key}
    else m[key := m[key] + amount]
  }

  function Track(t: VaultTracker, a: Asset, amount: int): VaultTracker {
    match a
    case Fungible(id, _) => t.(fungible := UpdateDelta(t.fungible, id, amount))
    case NonFungible(w) => t.(nonFungible := UpdateDelta(t.nonFungible, w, amount))
  }

  // ---------- the tracker seen one asset at a time ----------

  type Change = Option<int>

  function Recorded(t: VaultTracker, a: Asset): Change {
    match a
    case Fungible(id, _) => if id in t.fungible then Some(t.fungible[id]) else None
    case NonFungible(w) => if w in t.nonFungible then Some(t.nonFungible[w]) else None
  }

  function Combine(e: Change, amount: int): Change {
    match e
    case None => Some(amount)
    case Some(v) => if v == -amount then None else Some(v + amount)
  }

  lemma TrackEffect(t: VaultTracker, a: Asset, amount: int)
    ensures forall b :: Recorded(Track(t, a, amount), b) ==
                        if IsSame(a, b) then Combine(Recorded(t, a), amount) else Recorded(t, b)
  {
  }

  /** A tracker is nothing but its recorded changes. */
  lemma TrackerExtensional(t1: VaultTracker, t2: VaultTracker)
    ensures t1 == t2 <==> forall b :: Recorded(t1, b) == Recorded(t2, b)
  {
    if forall b :: Recorded(t1, b) == Recorded(t2, b) {
      forall f: Felt ensures f in t1.fungible <==> f in t2.fungible
                     ensures f in t1.fungible ==> t1.fungible[f] == t2.fungible[f] {
        assert Recorded(t1, Fungible(f, 0)) == Recorded(t2, Fungible(f, 0));
      }
      forall w ensures w in t1.nonFungible <==> w in t2.nonFungible
               ensures w in t1.nonFungible ==> t1.nonFungible[w] == t2.nonFungible[w] {
        assert Recorded(t1, NonFungible(w)) == Recorded(t2, NonFungible(w));
      }
      assert t1.fungible == t2.fungible;
      assert t1.nonFungible == t2.nonFungible;
    }
  }

  // ---------- turning the tracker into a delta ----------

  predicate IdLess(a: Felt, b: Felt) {
    a < b
  }

  function Abs64(v: int): u64 {
    (if v >= 0 then v else -v) % 0x1_0000_0000_0000_0000
  }

  /** The asset pushed for a tracked key: the magnitude of the change, cut to 64 bits. */
  function Pushed(key: Asset, v: int): Asset {
    match key
    case Fungible(id, _) => Fungible(id, Abs64(v))
    case NonFungible(w) => key
  }

  /** Whether the conversion gets past its `expect` and `unreachable!` sites for this key. */
  predicate NoAbort(key: Asset, v: int) {
    match key
    case Fungible(id, _) => NewFungible(id, Abs64(v)).Ok?
    case NonFungible(_) => v == 1 || v == -1
  }

  function FungibleKeys(ids: seq<Felt>): (r: seq<Asset>)
    ensures |r| == |ids| && forall i | 0 <= i < |r| :: r[i] == Fungible(ids[i], 0)
  {
    seq(|ids|, i requires 0 <= i < |ids| => Fungible(ids[i], 0))
  }

  function NonFungibleKeys(words: seq<Word>): (r: seq<Asset>)
    ensures |r| == |words| && forall i | 0 <= i < |r| :: r[i] == NonFungible(words[i])
  {
    seq(|words|, i requires 0 <= i < |words| => NonFungible(words[i]))
  }

  type DigestOrder = (Word, Word) -> bool

  lemma IdOrder()
    ensures StrictOrder(IdLess)
  {
  }

  /** All tracked keys in the order of iteration: faucets by ID, then non-fungible assets. */
  ghost function TrackedKeys(t: VaultTracker, less: DigestOrder): seq<Asset>
    requires StrictOrder(less)
  {
    IdOrder();
    FungibleKeys(Ascending(t.fungible.Keys, IdLess)) + NonFungibleKeys(Ascending(t.nonFungible.Keys, less))
  }

  predicate AllTracked(t: VaultTracker, keys: seq<Asset>) {
    forall i | 0 <= i < |keys| :: Recorded(t, keys[i]).Some?
  }

  function AddedOf(t: VaultTracker, keys: seq<Asset>): seq<Asset>
    requires AllTracked(t, keys)
  {
    if keys == [] then []
    else
      var v := Recorded(t, keys[0]).value;
      if v > 0 then [Pushed(keys[0], v)] + AddedOf(t, keys[1..]) else AddedOf(t, keys[1..])
  }

  function RemovedOf(t: VaultTracker, keys: seq<Asset>): seq<Asset>
    requires AllTracked(t, keys)
  {
    if keys == [] then []
    else
      var v := Recorded(t, keys[0]).value;
      if v > 0 then RemovedOf(t, keys[1..]) else [Pushed(keys[0], v)] + RemovedOf(t, keys[1..])
  }

  predicate NoAborts(t: VaultTracker, keys: seq<Asset>)
    requires AllTracked(t, keys)
  {
    forall i | 0 <= i < |keys| :: NoAbort(keys[i], Recorded(t, keys[i]).value)
  }

  lemma {:induction false} ListsConcat(t: VaultTracker, xs: seq<Asset>, ys: seq<Asset>)
    requires AllTracked(t, xs) && AllTracked(t, ys)
    ensures AllTracked(t, xs + ys)
    ensures AddedOf(t, xs + ys) == AddedOf(t, xs) + AddedOf(t, ys)
    ensures RemovedOf(t, xs + ys) == RemovedOf(t, xs) + RemovedOf(t, ys)
  {
    if xs == [] {
      assert xs + ys == ys;
    } else {
      assert (xs + ys)[1..] == xs[1..] + ys;
      ListsConcat(t, xs[1..], ys);
      assert (xs + ys)[0] == xs[0];
    }
  }

  lemma FungiblePart(t: VaultTracker, ids: seq<Felt>)
    requires forall f :: f in ids <==> f in t.fungible
    requires forall i, j | 0 <= i < j < |ids| :: ids[i] != ids[j]
    ensures AllTracked(t, FungibleKeys(ids)) && AllDifferent(FungibleKeys(ids))
    ensures forall b: Asset :: NoneSame(FungibleKeys(ids), b) <==> !(b.Fungible? && Recorded(t, b).Some?)
  {
    var keys := FungibleKeys(ids);
    assert forall i | 0 <= i < |ids| :: ids[i] in ids;
    forall b: Asset | b.Fungible? && Recorded(t, b).Some? ensures !NoneSame(keys, b) {
      var i :| 0 <= i < |ids| && ids[i] == b.faucetId;
      assert IsSame(keys[i], b);
    }
  }

  lemma NonFungiblePart(t: VaultTracker, words: seq<Word>)
    requires forall w :: w in words <==> w in t.nonFungible
    requires forall i, j | 0 <= i < j < |words| :: words[i] != words[j]
    ensures AllTracked(t, NonFungibleKeys(words)) && AllDifferent(NonFungibleKeys(words))
    ensures forall b: Asset :: NoneSame(NonFungibleKeys(words), b) <==> !(b.NonFungible? && Recorded(t, b).Some?)
  {
    var keys := NonFungibleKeys(words);
    assert forall i | 0 <= i < |words| :: words[i] in words;
    forall b: Asset | b.NonFungible? && Recorded(t, b).Some? ensures !NoneSame(keys, b) {
      var i :| 0 <= i < |words| && words[i] == b.word;
      assert IsSame(keys[i], b);
    }
  }

  lemma NoneSameConcat(xs: seq<Asset>, ys: seq<Asset>)
    ensures forall b :: NoneSame(xs + ys, b) <==> NoneSame(xs, b) && NoneSame(ys, b)
  {
    forall b ensures NoneSame(xs + ys, b) <==> NoneSame(xs, b) && NoneSame(ys, b) {
      NoneSameInTwo(xs, ys, b);
    }
  }

  lemma BothParts(t: VaultTracker, ids: seq<Felt>, words: seq<Word>)
    requires forall f :: f in ids <==> f in t.fungible
    requires forall i, j | 0 <= i < j < |ids| :: ids[i] != ids[j]
    requires forall w :: w in words <==> w in t.nonFungible
    requires forall i, j | 0 <= i < j < |words| :: words[i] != words[j]
    ensures var keys := FungibleKeys(ids) + NonFungibleKeys(words);
            && AllTracked(t, keys) && AllDifferent(keys)
            && forall b :: NoneSame(keys, b) <==> Recorded(t, b).None?
  {
    FungiblePart(t, ids);
    NonFungiblePart(t, words);
    var xs, ys := FungibleKeys(ids), NonFungibleKeys(words);
    forall i | 0 <= i < |ys| ensures NoneSame(xs, ys[i]) {
    }
    DifferentConcat(xs, ys);
    NoneSameConcat(xs, ys);
  }

  /** Every tracked asset is listed once. */
  lemma KeysMeaning(t: VaultTracker, less: DigestOrder)
    requires StrictOrder(less)
    ensures AllTracked(t, TrackedKeys(t, less)) && AllDifferent(TrackedKeys(t, less))
    ensures forall b :: Find(TrackedKeys(t, less), b).Some? <==> Recorded(t, b).Some?
  {
    IdOrder();
    BothParts(t, Ascending(t.fungible.Keys, IdLess), Ascending(t.nonFungible.Keys, less));
  }

  /** The delta, or nothing if the conversion aborts. */
  ghost function IntoVaultDelta(t: VaultTracker, less: DigestOrder): Option<VaultDelta>
    requires StrictOrder(less)
  {
    KeysMeaning(t, less);
    var keys := TrackedKeys(t, less);
    if NoAborts(t, keys) then Some(VaultDelta(AddedOf(t, keys), RemovedOf(t, keys))) else None
  }

  // ---------- the order of the lists ----------

  /** Fungible assets by faucet, then non-fungible ones by digest. */
  predicate Before(a: Asset, b: Asset, less: DigestOrder) {
    match (a, b)
    case (Fungible(f, _), Fungible(g, _)) => f < g
    case (Fungible(_, _), NonFungible(_)) => true
    case (NonFungible(_), Fungible(_, _)) => false
    case (NonFungible(v), NonFungible(w)) => less(v, w)
  }

  predicate AllBefore(xs: seq<Asset>, less: DigestOrder) {
    forall i, j | 0 <= i < j < |xs| :: Before(xs[i], xs[j], less)
  }

  lemma TrackedInOrder(t: VaultTracker, less: DigestOrder)
    requires StrictOrder(less)
    ensures AllBefore(TrackedKeys(t, less), less)
  {
    IdOrder();
    AscendingIsSorted(t.fungible.Keys, IdLess);
    AscendingIsSorted(t.nonFungible.Keys, less);
    KeysInOrder(Ascending(t.fungible.Keys, IdLess), Ascending(t.nonFungible.Keys, less), less);
  }

  lemma KeysInOrder(ids: seq<Felt>, words: seq<Word>, less: DigestOrder)
    requires InOrder(ids, IdLess) && InOrder(words, less)
    ensures AllBefore(FungibleKeys(ids) + NonFungibleKeys(words), less)
  {
    var keys, n := FungibleKeys(ids) + NonFungibleKeys(words), |ids|;
    forall i, j | 0 <= i < j < |keys| ensures Before(keys[i], keys[j], less) {
      if j < n {
        assert IdLess(ids[i], ids[j]);
      } else if i >= n {
        assert less(words[i - n], words[j - n]);
      }
    }
  }

  predicate AllAfter(x: Asset, xs: seq<Asset>, less: DigestOrder) {
    forall i | 0 <= i < |xs| :: Before(x, xs[i], less)
  }

  lemma PushedAfter(x: Asset, k: Asset, v: int, w: int, less: DigestOrder)
    ensures Before(Pushed(x, v), Pushed(k, w), less) <==> Before(x, k, less)
    ensures Before(Pushed(x, v), k, less) <==> Before(x, k, less)
    ensures Before(x, Pushed(k, w), less) <==> Before(x, k, less)
  {
  }

  lemma {:induction false} ListsAfter(t: VaultTracker, x: Asset, keys: seq<Asset>, less: DigestOrder)
    requires AllTracked(t, keys) && AllAfter(x, keys, less)
    ensures AllAfter(x, AddedOf(t, keys), less) && AllAfter(x, RemovedOf(t, keys), less)
  {
    if keys != [] {
      ListsAfter(t, x, keys[1..], less);
      PushedAfter(x, keys[0], 0, Recorded(t, keys[0]).value, less);
    }
  }

  lemma AllBeforeCons(x: Asset, xs: seq<Asset>, less: DigestOrder)
    requires AllBefore(xs, less) && AllAfter(x, xs, less)
    ensures AllBefore([x] + xs, less)
  {
    var r := [x] + xs;
    assert forall i | 0 < i < |r| :: r[i] == xs[i - 1];
  }

  lemma SamePlace(x: Asset, y: Asset, xs: seq<Asset>, less: DigestOrder)
    requires AllAfter(x, xs, less) && forall b :: Before(y, b, less) <==> Before(x, b, less)
    ensures AllAfter(y, xs, less)
  {
  }

  lemma {:induction false} ListsInOrder(t: VaultTracker, keys: seq<Asset>, less: DigestOrder)
    requires AllTracked(t, keys) && AllBefore(keys, less)
    ensures AllBefore(AddedOf(t, keys), less) && AllBefore(RemovedOf(t, keys), less)
  {
    if keys != [] {
      var k, v, tail := keys[0], Recorded(t, keys[0]).value, keys[1..];
      ListsInOrder(t, tail, less);
      assert AllAfter(k, tail, less);
      ListsAfter(t, k, tail, less);
      SamePlace(k, Pushed(k, v), AddedOf(t, tail), less);
      SamePlace(k, Pushed(k, v), RemovedOf(t, tail), less);
      if v > 0 {
        AllBeforeCons(Pushed(k, v), AddedOf(t, tail), less);
      } else {
        AllBeforeCons(Pushed(k, v), RemovedOf(t, tail), less);
      }
    }
  }

  /** Both lists of a vault delta hold fungible assets by faucet, then the others by digest. */
  lemma VaultListsInOrder(t: VaultTracker, less: DigestOrder)
    requires StrictOrder(less) && IntoVaultDelta(t, less).Some?
    ensures AllBefore(IntoVaultDelta(t, less).value.added, less)
    ensures AllBefore(IntoVaultDelta(t, less).value.removed, less)
  {
    KeysMeaning(t, less);
    TrackedInOrder(t, less);
    ListsInOrder(t, TrackedKeys(t, less), less);
  }

  // ---------- how long the lists are ----------

  /** The keys that went up, and the tracked keys that did not. */
  function Gains<K>(m: map<K, int>): set<K> {
    set k | k in m && m[k] > 0
  }

  function Losses<K>(m: map<K, int>): set<K> {
    set k | k in m && m[k] <= 0
  }

  ghost predicate ListsKeys<K(!new)>(ks: seq<K>, m: map<K, int>) {
    && (forall k :: k in ks <==> k in m)
    && (forall i, j | 0 <= i < j < |ks| :: ks[i] != ks[j])
  }

  lemma KeysTail<K(!new)>(ks: seq<K>, m: map<K, int>)
    requires ks != [] && ListsKeys(ks, m)
    ensures ks[0] in m && ListsKeys(ks[1..], m - {ks[0]})
  {
    var tail := ks[1..];
    assert ks == [ks[0]] + tail && ks[0] in ks;
    forall x | x in tail ensures x in m && x != ks[0] {
      var i :| 0 <= i < |tail| && tail[i] == x;
      assert ks[i + 1] == x;
    }
    forall x | x in m && x != ks[0] ensures x in tail {
      assert x in ks;
    }
  }

  lemma CountsTail<K>(m: map<K, int>, k: K)
    requires k in m
    ensures |Gains(m)| == |Gains(m - {k})| + (if m[k] > 0 then 1 else 0)
    ensures |Losses(m)| == |Losses(m - {k})| + (if m[k] > 0 then 0 else 1)
  {
    var rest := m - {k};
    if m[k] > 0 {
      assert Gains(m) == Gains(rest) + {k};
      assert Losses(m) == Losses(rest);
    } else {
      assert Losses(m) == Losses(rest) + {k};
      assert Gains(m) == Gains(rest);
    }
  }

  lemma {:induction false} FungibleCounts(t: VaultTracker, ids: seq<Felt>, m: map<Felt, int>)
    requires ListsKeys(ids, m) && forall f :: f in m ==> f in t.fungible && t.fungible[f] == m[f]
    ensures AllTracked(t, FungibleKeys(ids))
    ensures |AddedOf(t, FungibleKeys(ids))| == |Gains(m)| && |RemovedOf(t, FungibleKeys(ids))| == |Losses(m)|
  {
    assert forall i | 0 <= i < |ids| :: ids[i] in ids;
    if ids == [] {
      assert Gains(m) == {} && Losses(m) == {};
    } else {
      KeysTail(ids, m);
      CountsTail(m, ids[0]);
      FungibleCounts(t, ids[1..], m - {ids[0]});
      assert FungibleKeys(ids)[1..] == FungibleKeys(ids[1..]);
    }
  }

  lemma {:induction false} NonFungibleCounts(t: VaultTracker, words: seq<Word>, m: map<Word, int>)
    requires ListsKeys(words, m) && forall w :: w in m ==> w in t.nonFungible && t.nonFungible[w] == m[w]
    ensures AllTracked(t, NonFungibleKeys(words))
    ensures |AddedOf(t, NonFungibleKeys(words))| == |Gains(m)| && |RemovedOf(t, NonFungibleKeys(words))| == |Losses(m)|
  {
    assert forall i | 0 <= i < |words| :: words[i] in words;
    if words == [] {
      assert Gains(m) == {} && Losses(m) == {};
    } else {
      KeysTail(words, m);
      CountsTail(m, words[0]);
      NonFungibleCounts(t, words[1..], m - {words[0]});
      assert NonFungibleKeys(words)[1..] == NonFungibleKeys(words[1..]);
    }
  }

  /** The lengths of the two lists can be read off the tracker. */
  lemma ListLengthsAreCounts(t: VaultTracker, less: DigestOrder)
    requires StrictOrder(less) && IntoVaultDelta(t, less).Some?
    ensures var d := IntoVaultDelta(t, less).value;
            && |d.added| == |Gains(t.fungible)| + |Gains(t.nonFungible)|
            && |d.removed| == |Losses(t.fungible)| + |Losses(t.nonFungible)|
  {
    IdOrder();
    var ids, words := Ascending(t.fungible.Keys, IdLess), Ascending(t.nonFungible.Keys, less);
    FungibleCounts(t, ids, t.fungible);
    NonFungibleCounts(t, words, t.nonFungible);
    ListsConcat(t, FungibleKeys(ids), NonFungibleKeys(words));
  }

  // ---------- what the lists contain ----------

  function IfAdded(t: VaultTracker, key: Option<Asset>): Option<Asset>
    requires key.Some? ==> Recorded(t, key.value).Some?
  {
    if key.Some? && Recorded(t, key.value).value > 0 then Some(Pushed(key.value, Recorded(t, key.value).value)) else None
  }

  function IfRemoved(t: VaultTracker, key: Option<Asset>): Option<Asset>
    requires key.Some? ==> Recorded(t, key.value).Some?
  {
    if key.Some? && Recorded(t, key.value).value <= 0 then Some(Pushed(key.value, Recorded(t, key.value).value)) else None
  }

  lemma FindCons(a: Asset, xs: seq<Asset>, b: Asset)
    ensures Find([a] + xs, b) == if IsSame(a, b) then Some(a) else Find(xs, b)
  {
    assert ([a] + xs)[1..] == xs;
  }

  /** A key is found in at most one of the two lists, the one its sign asks for. */
  lemma {:induction false} ListsFind(t: VaultTracker, keys: seq<Asset>, b: Asset)
    requires AllTracked(t, keys) && AllDifferent(keys)
    ensures Find(keys, b).Some? ==> Recorded(t, Find(keys, b).value).Some?
    ensures Find(AddedOf(t, keys), b) == IfAdded(t, Find(keys, b))
    ensures Find(RemovedOf(t, keys), b) == IfRemoved(t, Find(keys, b))
  {
    if keys != [] {
      var k, tail := keys[0], keys[1..];
      var a := Pushed(k, Recorded(t, k).value);
      assert keys == [k] + tail;
      ListsFind(t, tail, b);
      FindCons(a, AddedOf(t, tail), b);
      FindCons(a, RemovedOf(t, tail), b);
      assert IsSame(k, b) <==> IsSame(a, b);
      if IsSame(k, b) {
        SameTransitive(tail, k, b);
      }
    }
  }

  lemma DifferentInsert(xs: seq<Asset>, a: Asset, ys: seq<Asset>)
    requires AllDifferent(xs + ys) && NoneSame(xs, a) && NoneSame(ys, a)
    ensures AllDifferent([a] + xs + ys) && AllDifferent(xs + ([a] + ys))
  {
    DifferentConcat(xs, ys);
    assert AllDifferent([a] + xs);
    assert AllDifferent([a] + ys);
    DifferentConcat([a] + xs, ys);
    DifferentConcat(xs, [a] + ys);
  }

  lemma {:induction false} ListsDifferent(t: VaultTracker, keys: seq<Asset>)
    requires AllTracked(t, keys) && AllDifferent(keys)
    ensures AllDifferent(AddedOf(t, keys) + RemovedOf(t, keys))
  {
    if keys != [] {
      var k, tail := keys[0], keys[1..];
      var a := Pushed(k, Recorded(t, k).value);
      ListsDifferent(t, tail);
      ListsFind(t, tail, a);
      assert keys == [k] + tail;
      SameTransitive(tail, k, a);
      DifferentInsert(AddedOf(t, tail), a, RemovedOf(t, tail));
    }
  }
}
