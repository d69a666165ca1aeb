/** What the replay theorem means for runs of positive amounts, and the net delta of a run. */
module RunProperties {
  import opened Base
  import opened Assets
  import opened AssetVaults
  import opened AccountStorages
  import opened AccountDeltas
  import opened Holdings
  import opened OrderedKeys
  import opened VaultTrackers
  import opened VaultReplays
  import opened Replays

  // ---------- positive amounts ----------

  predicate PositiveEvent(e: Event) {
    WellFormedEvent(e) && ((e.VaultAdd? || e.VaultRemove?) && e.asset.Fungible? ==> e.asset.amount > 0)
  }

  ghost predicate NoZeroBalance(l: Ledger) {
    forall f :: f in l.balances ==> l.balances[f] > 0
  }

  ghost predicate NoZeroEntry(t: VaultTracker) {
    forall f :: f in t.fungible ==> t.fungible[f] != 0
  }

  lemma {:induction false} PositiveRun(a: AccountState, t: Tracker, es: seq<Event>)
    requires Sized(a.storage) && NoZeroBalance(a.ledger) && NoZeroEntry(t.vault) && Run(a, t, es).Some?
    requires forall i | 0 <= i < |es| :: PositiveEvent(es[i])
    ensures var (a1, t1) := Run(a, t, es).value; NoZeroBalance(a1.ledger) && NoZeroEntry(t1.vault)
    decreases |es|
  {
    if es != [] {
      var e := es[0];
      assert PositiveEvent(e);
      var a1, t1 := Execute(a, e).value, Observe(t, a, e);
      PositiveStep(a, t, e);
      PositiveRun(a1, t1, es[1..]);
    }
  }

  lemma PositiveStep(a: AccountState, t: Tracker, e: Event)
    requires Sized(a.storage) && NoZeroBalance(a.ledger) && NoZeroEntry(t.vault)
    requires PositiveEvent(e) && Execute(a, e).Some?
    ensures NoZeroBalance(Execute(a, e).value.ledger) && NoZeroEntry(Observe(t, a, e).vault)
  {
  }

  lemma NoZerosAreSafe(t: VaultTracker, l0: Ledger, l1: Ledger)
    requires NoZeroBalance(l0) && NoZeroBalance(l1) && NoZeroEntry(t)
    ensures ZeroSafe(t, l0, l1)
  {
  }

  /**
    Along every run of positive amounts, from a vault without zero balances, the delta replays
    the run if and only if the nonce moved properly and not too many assets changed.
   */
  lemma PositiveReplay(a0: AccountState, es: seq<Event>, less: DigestOrder)
    requires ValidAccount(a0) && StrictOrder(less) && NoZeroBalance(a0.ledger)
    requires forall i | 0 <= i < |es| :: PositiveEvent(es[i])
    requires Run(a0, NewTracker(a0), es).Some?
    ensures var (a1, t) := Run(a0, NewTracker(a0), es).value;
            ReplaysTo(t, a0, a1, less) <==> NonceFine(t) && FewAssets(t)
  {
    var (a1, t) := Run(a0, NewTracker(a0), es).value;
    ReplayExact(a0, es, less);
    PositiveRun(a0, NewTracker(a0), es);
    NoZerosAreSafe(t.vault, a0.ledger, a1.ledger);
  }

  /**
    Zero amounts do break the replay: add an amount of zero of an asset the vault does not
    hold, and the delta asks for its removal.
   */
  lemma ZeroAddBreaksReplay(a0: AccountState, f: Felt, less: DigestOrder)
    requires ValidAccount(a0) && StrictOrder(less) && WellFormed(Fungible(f, 0)) && f !in a0.ledger.balances
    ensures var es := [VaultAdd(Fungible(f, 0)), IncrementNonce(1)];
            && Run(a0, NewTracker(a0), es).Some?
            && var (a1, t) := Run(a0, NewTracker(a0), es).value;
            !ReplaysTo(t, a0, a1, less)
  {
    var e := VaultAdd(Fungible(f, 0));
    var es := [e, IncrementNonce(1)];
    var a1, t1 := Execute(a0, e).value, Observe(NewTracker(a0), a0, e);
    assert es[1..] == [IncrementNonce(1)];
    assert [IncrementNonce(1)][1..] == [];
    var a2, t2 := Execute(a1, IncrementNonce(1)).value, Observe(t1, a1, IncrementNonce(1));
    assert Run(a1, t1, es[1..]) == Run(a2, t2, []);
    assert t2.vault.fungible[f] == 0;
    ReplayExact(a0, es, less);
  }

  // ---------- no abort ----------

  /**
    Along every run, whatever the amounts: fungible entries stay within 2^63 - 1 of zero,
    non-fungible entries are 1 or -1, and the conversion of the vault tracker does not abort.
   */
  lemma NoAbortAlongRuns(a0: AccountState, es: seq<Event>, less: DigestOrder)
    requires ValidAccount(a0) && StrictOrder(less)
    requires forall i | 0 <= i < |es| :: WellFormedEvent(es[i])
    requires Run(a0, NewTracker(a0), es).Some?
    ensures var (a1, t) := Run(a0, NewTracker(a0), es).value;
            && (forall f :: f in t.vault.fungible ==> 0 - MAX_AMOUNT <= t.vault.fungible[f] <= MAX_AMOUNT)
            && (forall w :: w in t.vault.nonFungible ==> t.vault.nonFungible[w] in {1, -1})
            && IntoVaultDelta(t.vault, less).Some?
            && AllDifferent(IntoVaultDelta(t.vault, less).value.added + IntoVaultDelta(t.vault, less).value.removed)
  {
    StartTracks(a0);
    RunTracks(NewTracker(a0), a0, a0, es);
    var (a1, t) := Run(a0, NewTracker(a0), es).value;
    VaultDeltaFine(t, a0, a1, less);
    EntriesInRange(t.vault, a0.ledger, a1.ledger);
  }

  lemma EntriesInRange(t: VaultTracker, l0: Ledger, l1: Ledger)
    requires ValidLedger(l0) && ValidLedger(l1) && Explains(t, l0, l1)
    ensures forall f :: f in t.fungible ==> 0 - MAX_AMOUNT <= t.fungible[f] <= MAX_AMOUNT
    ensures forall w :: w in t.nonFungible ==> t.nonFungible[w] in {1, -1}
  {
    forall f | f in t.fungible ensures 0 - MAX_AMOUNT <= t.fungible[f] <= MAX_AMOUNT {
      EntryBounds(t, l0, l1, Fungible(f, 0));
    }
    forall w | w in t.nonFungible ensures t.nonFungible[w] in {1, -1} {
      EntryBounds(t, l0, l1, NonFungible(w));
    }
  }

  // ---------- the net delta ----------

  /** The changes between two vaults, from nothing but the two vaults. */
  function NetChanges(l0: Ledger, l1: Ledger): VaultTracker {
    VaultTracker(
      map f: Felt | f in l0.balances.Keys + l1.balances.Keys && Balance(l0, f) != Balance(l1, f) ::
        Balance(l1, f) - Balance(l0, f),
      map w | w in (l0.nfts - l1.nfts) + (l1.nfts - l0.nfts) :: if w in l1.nfts then 1 else -1)
  }

  lemma NetRecorded(l0: Ledger, l1: Ledger, b: Asset)
    ensures var d := Amount(Held(l1, b)) - Amount(Held(l0, b));
            Recorded(NetChanges(l0, l1), b) == if d == 0 then None else Some(d)
  {
  }

  /** A tracker without zero entries is determined by where the vault started and ended. */
  lemma TrackerIsNet(t: VaultTracker, l0: Ledger, l1: Ledger)
    requires Explains(t, l0, l1) && NoZeroEntry(t)
    ensures t == NetChanges(l0, l1)
  {
    forall b ensures Recorded(t, b) == Recorded(NetChanges(l0, l1), b) {
      NetRecorded(l0, l1, b);
      assert Recorded(t, b) != Some(0);
    }
    TrackerExtensional(t, NetChanges(l0, l1));
  }

  /**
    Canonical net delta: any two runs of positive amounts between the same two vaults, in
    whatever order and with whatever else in between, give the same vault delta.
   */
  lemma CanonicalDelta(a0: AccountState, es: seq<Event>, a1: AccountState, t: Tracker,
                       b0: AccountState, fs: seq<Event>, b1: AccountState, u: Tracker, less: DigestOrder)
    requires ValidAccount(a0) && ValidAccount(b0) && StrictOrder(less)
    requires AllPositive(es) && Run(a0, NewTracker(a0), es) == Some((a1, t))
    requires AllPositive(fs) && Run(b0, NewTracker(b0), fs) == Some((b1, u))
    requires NoZeroBalance(a0.ledger) && a0.ledger == b0.ledger && a1.ledger == b1.ledger
    ensures IntoVaultDelta(t.vault, less) == IntoVaultDelta(u.vault, less)
  {
    RunIsNet(a0, es, a1, t);
    RunIsNet(b0, fs, b1, u);
  }

  predicate AllPositive(es: seq<Event>) {
    forall i | 0 <= i < |es| :: PositiveEvent(es[i])
  }

  lemma RunIsNet(a0: AccountState, es: seq<Event>, a1: AccountState, t: Tracker)
    requires ValidAccount(a0) && NoZeroBalance(a0.ledger)
    requires AllPositive(es) && Run(a0, NewTracker(a0), es) == Some((a1, t))
    ensures t.vault == NetChanges(a0.ledger, a1.ledger)
  {
    StartTracks(a0);
    forall i | 0 <= i < |es| ensures WellFormedEvent(es[i]) {
      assert PositiveEvent(es[i]);
    }
    RunTracks(NewTracker(a0), a0, a0, es);
    PositiveRun(a0, NewTracker(a0), es);
    TrackerIsNet(t.vault, a0.ledger, a1.ledger);
  }

  // ---------- conservation ----------

  /** The total amount of a faucet's asset in a list. */
  function Total(assets: seq<Asset>, f: Felt): nat {
    if assets == [] then 0
    else (if IsSame(assets[0], Fungible(f, 0)) then assets[0].amount else 0) + Total(assets[1..], f)
  }

  function SizeFound(found: Option<Asset>): nat {
    if found.Some? then Size(found.value) else 0
  }

  lemma {:induction false} TotalOfDifferent(assets: seq<Asset>, f: Felt)
    requires AllDifferent(assets)
    ensures Total(assets, f) == SizeFound(Find(assets, Fungible(f, 0)))
  {
    if assets != [] {
      TotalOfDifferent(assets[1..], f);
      if IsSame(assets[0], Fungible(f, 0)) {
        assert assets == [assets[0]] + assets[1..];
        SameTransitive(assets[1..], assets[0], Fungible(f, 0));
      }
    }
  }

  /** Per faucet, what the delta adds minus what it removes is what the run gained. */
  lemma Conservation(a0: AccountState, es: seq<Event>, less: DigestOrder, f: Felt)
    requires ValidAccount(a0) && StrictOrder(less)
    requires forall i | 0 <= i < |es| :: WellFormedEvent(es[i])
    requires Run(a0, NewTracker(a0), es).Some?
    ensures var (a1, t) := Run(a0, NewTracker(a0), es).value;
            && IntoVaultDelta(t.vault, less).Some?
            && var d := IntoVaultDelta(t.vault, less).value;
            Total(d.added, f) - Total(d.removed, f) == Balance(a1.ledger, f) - Balance(a0.ledger, f)
  {
    StartTracks(a0);
    RunTracks(NewTracker(a0), a0, a0, es);
    var (a1, t) := Run(a0, NewTracker(a0), es).value;
    VaultDeltaFine(t, a0, a1, less);
    var keys := TrackedKeys(t.vault, less);
    KeysMeaning(t.vault, less);
    ListTotals(t.vault, a0.ledger, a1.ledger, keys, f);
  }

  lemma ListTotals(t: VaultTracker, l0: Ledger, l1: Ledger, keys: seq<Asset>, f: Felt)
    requires ValidLedger(l0) && ValidLedger(l1) && Explains(t, l0, l1) && TracksWellFormed(t) && Lists(keys, t)
    ensures Total(AddedOf(t, keys), f) - Total(RemovedOf(t, keys), f) == Balance(l1, f) - Balance(l0, f)
  {
    AllAreFine(t, l0, l1, keys);
    HeldIsBalance(t, l0, l1, f);
    NetOfLists(t, keys, f);
    TotalsAreFound(t, keys, f);
  }

  lemma NetOfLists(t: VaultTracker, keys: seq<Asset>, f: Felt)
    requires Lists(keys, t) && AllFine(t, keys)
    ensures SizeFound(Find(AddedOf(t, keys), Fungible(f, 0))) - SizeFound(Find(RemovedOf(t, keys), Fungible(f, 0)))
            == Net(Recorded(t, Fungible(f, 0)))
  {
    ListsAt(t, keys, Fungible(f, 0));
  }

  lemma TotalsAreFound(t: VaultTracker, keys: seq<Asset>, f: Felt)
    requires Lists(keys, t) && AllFine(t, keys)
    ensures Total(AddedOf(t, keys), f) == SizeFound(Find(AddedOf(t, keys), Fungible(f, 0)))
    ensures Total(RemovedOf(t, keys), f) == SizeFound(Find(RemovedOf(t, keys), Fungible(f, 0)))
  {
    ListsDifferent(t, keys);
    DifferentConcat(AddedOf(t, keys), RemovedOf(t, keys));
    TotalOfDifferent(AddedOf(t, keys), f);
    TotalOfDifferent(RemovedOf(t, keys), f);
  }

  lemma HeldIsBalance(t: VaultTracker, l0: Ledger, l1: Ledger, f: Felt)
    requires Explains(t, l0, l1)
    ensures Balance(l1, f) == Balance(l0, f) + Net(Recorded(t, Fungible(f, 0)))
  {
    var b := Fungible(f, 0);
    assert Amount(Held(l1, b)) == Amount(Held(l0, b)) + Net(Recorded(t, b));
  }
}
