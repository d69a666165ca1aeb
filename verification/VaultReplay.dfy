/** Replaying a tracked vault delta on the vault the transaction started from. */
module VaultReplays {
  import opened Base
  import opened Assets
  import opened AssetVaults
  import opened AccountDeltas
  import opened Holdings
  import opened VaultTrackers

  function Net(e: Change): int {
    if e.Some? then e.value else 0
  }

  /** The tracker accounts for the move from `l0` to `l1`, asset by asset. */
  ghost predicate Explains(t: VaultTracker, l0: Ledger, l1: Ledger) {
    && (forall b :: Amount(Held(l1, b)) == Amount(Held(l0, b)) + Net(Recorded(t, b)))
    && (forall b: Asset :: Recorded(t, b) == Some(0) ==> b.Fungible?)
  }

  /** Only well-formed assets are tracked. */
  ghost predicate TracksWellFormed(t: VaultTracker) {
    && (forall f :: f in t.fungible ==> WellFormed(Fungible(f, 0)))
    && (forall w :: w in t.nonFungible ==> WellFormed(NonFungible(w)))
  }

  lemma AddExplained(t: VaultTracker, l0: Ledger, l: Ledger, a: Asset)
    requires Explains(t, l0, l) && TracksWellFormed(t) && WellFormed(a) && LedgerAdd(l, a).Ok?
    ensures Explains(Track(t, a, Size(a)), l0, LedgerAdd(l, a).value)
    ensures TracksWellFormed(Track(t, a, Size(a)))
  {
    AddExplains(t, l0, l, a);
    TracksOneMore(t, a, Size(a));
  }

  lemma AddExplains(t: VaultTracker, l0: Ledger, l: Ledger, a: Asset)
    requires Explains(t, l0, l) && WellFormed(a) && LedgerAdd(l, a).Ok?
    ensures Explains(Track(t, a, Size(a)), l0, LedgerAdd(l, a).value)
  {
    AddEffect(l, a);
    TrackEffect(t, a, Size(a));
    SameHolding(l, a);
    SameHolding(l0, a);
    SameRecord(t, a);
  }

  lemma RemoveExplained(t: VaultTracker, l0: Ledger, l: Ledger, a: Asset)
    requires Explains(t, l0, l) && TracksWellFormed(t) && WellFormed(a) && LedgerRemove(l, a).Ok?
    ensures Explains(Track(t, a, 0 - Size(a)), l0, LedgerRemove(l, a).value)
    ensures TracksWellFormed(Track(t, a, 0 - Size(a)))
  {
    RemoveExplains(t, l0, l, a);
    TracksOneMore(t, a, 0 - Size(a));
  }

  lemma RemoveExplains(t: VaultTracker, l0: Ledger, l: Ledger, a: Asset)
    requires Explains(t, l0, l) && WellFormed(a) && LedgerRemove(l, a).Ok?
    ensures Explains(Track(t, a, 0 - Size(a)), l0, LedgerRemove(l, a).value)
  {
    RemoveEffect(l, a);
    TrackEffect(t, a, 0 - Size(a));
    SameHolding(l, a);
    SameHolding(l0, a);
    SameRecord(t, a);
  }

  lemma TracksOneMore(t: VaultTracker, a: Asset, amount: int)
    requires TracksWellFormed(t) && WellFormed(a)
    ensures TracksWellFormed(Track(t, a, amount))
  {
  }

  lemma SameRecord(t: VaultTracker, a: Asset)
    ensures forall b :: IsSame(a, b) ==> Recorded(t, a) == Recorded(t, b)
  {
  }

  // ---------- no aborts ----------

  lemma HeldBounded(l: Ledger, a: Asset)
    requires ValidLedger(l)
    ensures Amount(Held(l, a)) <= Cap(a)
  {
  }

  /**
    No entry ever leaves its range: a fungible entry is within 2^63 - 1 of zero and a
    non-fungible entry is 1 or -1.
   */
  lemma EntryBounds(t: VaultTracker, l0: Ledger, l1: Ledger, b: Asset)
    requires ValidLedger(l0) && ValidLedger(l1) && Explains(t, l0, l1)
    ensures 0 - Cap(b) <= Net(Recorded(t, b)) <= Cap(b)
    ensures b.NonFungible? && Recorded(t, b).Some? ==> Recorded(t, b).value in {1, -1}
  {
    HeldBounded(l0, b);
    HeldBounded(l1, b);
  }

  /** Pushing this key does not abort and pushes exactly the magnitude of the change. */
  predicate PushedFine(t: VaultTracker, key: Asset) {
    && Recorded(t, key).Some?
    && var v := Recorded(t, key).value;
    && NoAbort(key, v) && WellFormed(Pushed(key, v))
    && Size(Pushed(key, v)) == if v > 0 then v else -v
  }

  lemma PushIsFine(t: VaultTracker, l0: Ledger, l1: Ledger, key: Asset)
    requires ValidLedger(l0) && ValidLedger(l1) && Explains(t, l0, l1) && TracksWellFormed(t)
    requires Recorded(t, key).Some?
    ensures PushedFine(t, key)
  {
    EntryBounds(t, l0, l1, key);
    PushInRange(key, Recorded(t, key).value);
  }

  lemma PushInRange(key: Asset, v: int)
    requires key.Fungible? ==> WellFormed(Fungible(key.faucetId, 0)) && 0 - MAX_AMOUNT <= v <= MAX_AMOUNT
    requires key.NonFungible? ==> WellFormed(key) && v in {1, -1}
    ensures NoAbort(key, v) && WellFormed(Pushed(key, v))
    ensures Size(Pushed(key, v)) == if v > 0 then v else 0 - v
  {
  }

  lemma {:induction false} ListsWellFormed(t: VaultTracker, keys: seq<Asset>)
    requires AllTracked(t, keys) && forall i | 0 <= i < |keys| :: PushedFine(t, keys[i])
    ensures forall a | a in AddedOf(t, keys) + RemovedOf(t, keys) :: WellFormed(a)
  {
    if keys != [] {
      ListsWellFormed(t, keys[1..]);
      var xs, ys := AddedOf(t, keys[1..]), RemovedOf(t, keys[1..]);
      assert forall a | a in xs || a in ys :: a in xs + ys;
    }
  }

  /** The keys list every tracked asset once, in some order. */
  ghost predicate Lists(keys: seq<Asset>, t: VaultTracker) {
    && AllTracked(t, keys) && AllDifferent(keys)
    && forall b :: Find(keys, b).Some? <==> Recorded(t, b).Some?
  }

  function DeltaOf(t: VaultTracker, keys: seq<Asset>): VaultDelta
    requires AllTracked(t, keys)
  {
    VaultDelta(AddedOf(t, keys), RemovedOf(t, keys))
  }

  /** None of the `expect` and `unreachable!` sites of the conversion can fire. */
  lemma NeverAborts(t: VaultTracker, l0: Ledger, l1: Ledger, keys: seq<Asset>)
    requires ValidLedger(l0) && ValidLedger(l1) && Explains(t, l0, l1) && TracksWellFormed(t) && Lists(keys, t)
    ensures NoAborts(t, keys)
    ensures var d := DeltaOf(t, keys);
            && AllDifferent(d.added + d.removed)
            && (forall a | a in d.added + d.removed :: WellFormed(a))
  {
    forall i | 0 <= i < |keys| ensures PushedFine(t, keys[i]) {
      PushIsFine(t, l0, l1, keys[i]);
    }
    ListsDifferent(t, keys);
    ListsWellFormed(t, keys);
  }

  // ---------- the replay theorem for one asset ----------

  /** What the replay does to one holding: an addition if the entry is positive, else a removal. */
  function ReplayOne(h0: Holding, e: Change): Option<Holding> {
    match e
    case None => Some(h0)
    case Some(v) =>
      if v > 0 then Some(Some(Amount(h0) + v))
      else if h0.Some? && -v <= h0.value then Some(if h0.value == -v then None else Some(h0.value + v))
      else None
  }

  /** No zero amount gets in the way of the replay of this asset. */
  predicate SafeOne(h0: Holding, h1: Holding, e: Change) {
    && (e == Some(0) ==> h0.Some?)
    && (h1 == Some(0) <==> h0 == Some(0) && e == None)
  }

  lemma ReplayOneExact(h0: Holding, h1: Holding, e: Change)
    requires Amount(h1) == Amount(h0) + Net(e)
    ensures ReplayOne(h0, e) == Some(h1) <==> SafeOne(h0, h1, e)
  {
  }

  // ---------- the replay theorem for whole vaults ----------

  /**
    Zero amounts do no harm: an entry of zero is tracked only for a faucet the vault started
    with, and a balance of zero is there at the end exactly if it was there at the start and
    was never touched.
   */
  ghost predicate ZeroSafe(t: VaultTracker, l0: Ledger, l1: Ledger) {
    && (forall f :: f in t.fungible && t.fungible[f] == 0 ==> f in l0.balances)
    && (forall f: Felt :: (f in l1.balances && l1.balances[f] == 0) <==>
                          (f in l0.balances && l0.balances[f] == 0 && f !in t.fungible))
  }

  lemma ZeroSafeIsSafeEach(t: VaultTracker, l0: Ledger, l1: Ledger)
    requires Explains(t, l0, l1)
    ensures ZeroSafe(t, l0, l1) <==> forall b :: SafeOne(Held(l0, b), Held(l1, b), Recorded(t, b))
  {
    if forall b :: SafeOne(Held(l0, b), Held(l1, b), Recorded(t, b)) {
      forall f: Felt
        ensures f in t.fungible && t.fungible[f] == 0 ==> f in l0.balances
        ensures (f in l1.balances && l1.balances[f] == 0) <==>
                (f in l0.balances && l0.balances[f] == 0 && f !in t.fungible)
      {
        var b := Fungible(f, 0);
        assert SafeOne(Held(l0, b), Held(l1, b), Recorded(t, b));
      }
    }
  }

  /** The two lists say of an asset what its entry says. */
  predicate SaysSame(e: Change, added: Option<Asset>, removed: Option<Asset>, cap: nat) {
    && (added.Some? <==> e.Some? && e.value > 0)
    && (removed.Some? <==> e.Some? && e.value <= 0)
    && (added.Some? ==> Size(added.value) == e.value && Cap(added.value) == cap)
    && (removed.Some? ==> Size(removed.value) == 0 - e.value)
  }

  lemma FoundSays(t: VaultTracker, k: Asset, b: Asset)
    requires IsSame(k, b) && PushedFine(t, k)
    ensures SaysSame(Recorded(t, b), IfAdded(t, Some(k)), IfRemoved(t, Some(k)), Cap(b))
  {
  }

  ghost predicate AllFine(t: VaultTracker, keys: seq<Asset>) {
    forall k :: k in keys ==> PushedFine(t, k)
  }

  lemma ListsAt(t: VaultTracker, keys: seq<Asset>, b: Asset)
    requires Lists(keys, t) && AllFine(t, keys)
    ensures SaysSame(Recorded(t, b), Find(AddedOf(t, keys), b), Find(RemovedOf(t, keys), b), Cap(b))
  {
    ListsFind(t, keys, b);
    var found := Find(keys, b);
    if found.Some? {
      FoundSays(t, found.value, b);
    } else {
      assert Recorded(t, b).None?;
    }
  }

  lemma AllAreFine(t: VaultTracker, l0: Ledger, l1: Ledger, keys: seq<Asset>)
    requires ValidLedger(l0) && ValidLedger(l1) && Explains(t, l0, l1) && TracksWellFormed(t) && AllTracked(t, keys)
    ensures AllFine(t, keys)
  {
    forall k | k in keys ensures PushedFine(t, k) {
      PushIsFine(t, l0, l1, k);
    }
  }

  /** The lists move a holding as the replay of its entry does, and fail when it fails. */
  predicate MovesAs(h0: Holding, e: Change, added: Option<Asset>, removed: Option<Asset>) {
    var r := ReplayOne(h0, e);
    && (r.Some? ==> r.value == if removed.Some? then Removed(h0, removed) else Added(h0, added))
    && (added.Some? ==> CanAdd(h0, added.value))
    && (removed.Some? ==> (CanRemove(h0, removed.value) <==> r.Some?))
    && (removed.None? ==> r.Some?)
  }

  lemma MoveOne(h0: Holding, e: Change, added: Option<Asset>, removed: Option<Asset>, cap: nat)
    requires SaysSame(e, added, removed, cap) && 0 <= Amount(h0) + Net(e) <= cap
    ensures MovesAs(h0, e, added, removed)
  {
  }

  /** What the delta does to a holding is what the replay of its entry does. */
  lemma MovedIsReplayOne(t: VaultTracker, l0: Ledger, l1: Ledger, keys: seq<Asset>, b: Asset)
    requires ValidLedger(l0) && ValidLedger(l1) && Explains(t, l0, l1) && TracksWellFormed(t) && Lists(keys, t)
    ensures MovesAs(Held(l0, b), Recorded(t, b), Find(AddedOf(t, keys), b), Find(RemovedOf(t, keys), b))
  {
    AllAreFine(t, l0, l1, keys);
    ListsAt(t, keys, b);
    EntryInCap(t, l0, l1, b);
    MoveOne(Held(l0, b), Recorded(t, b), Find(AddedOf(t, keys), b), Find(RemovedOf(t, keys), b), Cap(b));
  }

  lemma EntryInCap(t: VaultTracker, l0: Ledger, l1: Ledger, b: Asset)
    requires ValidLedger(l1) && Explains(t, l0, l1)
    ensures 0 <= Amount(Held(l0, b)) + Net(Recorded(t, b)) <= Cap(b)
  {
    HeldBounded(l1, b);
    assert Amount(Held(l1, b)) == Amount(Held(l0, b)) + Net(Recorded(t, b));
  }

  lemma AppliedMeansReplayed(t: VaultTracker, l0: Ledger, l1: Ledger, keys: seq<Asset>)
    requires ValidLedger(l0) && ValidLedger(l1) && Explains(t, l0, l1) && TracksWellFormed(t) && Lists(keys, t)
    requires ApplyVaultDelta(l0, DeltaOf(t, keys)) == Ok(l1)
    ensures forall b :: ReplayOne(Held(l0, b), Recorded(t, b)) == Some(Held(l1, b))
  {
    var d := DeltaOf(t, keys);
    NeverAborts(t, l0, l1, keys);
    ApplyVaultEffect(l0, d);
    forall b ensures ReplayOne(Held(l0, b), Recorded(t, b)) == Some(Held(l1, b)) {
      MovedIsReplayOne(t, l0, l1, keys, b);
      assert Held(l1, b) == Moved(l0, d, b);
      if Find(d.removed, b).Some? {
        var a := Find(d.removed, b).value;
        var i :| 0 <= i < |d.removed| && d.removed[i] == a;
        SameHolding(l0, a);
        assert CanRemove(Held(l0, d.removed[i]), d.removed[i]);
      }
    }
  }

  lemma ReplayedMeansApplied(t: VaultTracker, l0: Ledger, l1: Ledger, keys: seq<Asset>)
    requires ValidLedger(l0) && ValidLedger(l1) && Explains(t, l0, l1) && TracksWellFormed(t) && Lists(keys, t)
    requires forall b :: ReplayOne(Held(l0, b), Recorded(t, b)) == Some(Held(l1, b))
    ensures ApplyVaultDelta(l0, DeltaOf(t, keys)) == Ok(l1)
  {
    var d := DeltaOf(t, keys);
    NeverAborts(t, l0, l1, keys);
    ApplyVaultEffect(l0, d);
    forall i | 0 <= i < |d.added| ensures CanAdd(Held(l0, d.added[i]), d.added[i]) {
      MovedIsReplayOne(t, l0, l1, keys, d.added[i]);
      FindItself(d.added, d.removed, i);
    }
    forall i | 0 <= i < |d.removed| ensures CanRemove(Held(l0, d.removed[i]), d.removed[i]) {
      MovedIsReplayOne(t, l0, l1, keys, d.removed[i]);
      FindItself(d.removed, d.added, i);
    }
    var l := ApplyVaultDelta(l0, d).value;
    forall b ensures Held(l, b) == Held(l1, b) {
      MovedIsReplayOne(t, l0, l1, keys, b);
    }
    LedgerExtensional(l, l1);
  }

  /**
    Exactness of the vault replay: applying the tracked delta to the initial vault succeeds and
    gives the final vault if and only if zero amounts do no harm.
   */
  lemma VaultReplayExact(t: VaultTracker, l0: Ledger, l1: Ledger, keys: seq<Asset>)
    requires ValidLedger(l0) && ValidLedger(l1) && Explains(t, l0, l1) && TracksWellFormed(t) && Lists(keys, t)
    ensures ApplyVaultDelta(l0, DeltaOf(t, keys)) == Ok(l1) <==> ZeroSafe(t, l0, l1)
  {
    ZeroSafeIsSafeEach(t, l0, l1);
    forall b ensures ReplayOne(Held(l0, b), Recorded(t, b)) == Some(Held(l1, b)) <==>
                     SafeOne(Held(l0, b), Held(l1, b), Recorded(t, b)) {
      ReplayOneExact(Held(l0, b), Held(l1, b), Recorded(t, b));
    }
    if ApplyVaultDelta(l0, DeltaOf(t, keys)) == Ok(l1) {
      AppliedMeansReplayed(t, l0, l1, keys);
    }
    if ZeroSafe(t, l0, l1) {
      ReplayedMeansApplied(t, l0, l1, keys);
    }
  }

  lemma FindItself(xs: seq<Asset>, ys: seq<Asset>, i: nat)
    requires i < |xs| && (AllDifferent(xs + ys) || AllDifferent(ys + xs))
    ensures Find(xs, xs[i]) == Some(xs[i])
  {
    DifferentConcat(xs, ys);
    DifferentConcat(ys, xs);
    FindsItself(xs, i);
  }

  lemma {:induction false} FindsItself(xs: seq<Asset>, i: nat)
    requires i < |xs| && AllDifferent(xs)
    ensures Find(xs, xs[i]) == Some(xs[i])
    decreases |xs|
  {
    if i > 0 {
      FindsItself(xs[1..], i - 1);
      assert !IsSame(xs[0], xs[i]);
    } else {
      assert IsSame(xs[0], xs[0]);
    }
  }
}
