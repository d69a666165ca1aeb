/** Where the parts of encoded values lie in the bytes. */
module WireFormat {
  import opened Base
  import opened Codec
  import opened Assets
  import opened AccountStorages
  import opened StorageCodecs
  import opened AccountDeltas
  import opened DeltaCodecs

  // ---------- lists ----------

  predicate AllSized<T>(c: Item<T>, xs: seq<T>, size: nat) {
    forall i | 0 <= i < |xs| :: |c.write(xs[i])| == size
  }

  lemma {:induction false} ManyLength<T>(c: Item<T>, xs: seq<T>, size: nat)
    requires AllSized(c, xs, size)
    ensures |WriteMany(c, xs)| == size * |xs|
  {
    if xs != [] {
      ManyLength(c, xs[1..], size);
      assert size * |xs| == size + size * |xs[1..]|;
    }
  }

  /** Items of one size follow each other without gaps. */
  lemma {:induction false} ManyAt<T>(c: Item<T>, xs: seq<T>, size: nat, i: nat)
    requires AllSized(c, xs, size) && i < |xs|
    ensures size * i + size <= |WriteMany(c, xs)| && WriteMany(c, xs)[size * i..size * i + size] == c.write(xs[i])
  {
    ManyLength(c, xs, size);
    Fits(size, i, |xs|);
    if i > 0 {
      ManyAt(c, xs[1..], size, i - 1);
      ManyLength(c, xs[1..], size);
      var b, tail := WriteMany(c, xs), WriteMany(c, xs[1..]);
      assert b == c.write(xs[0]) + tail;
      var o := size * (i - 1);
      assert size * i == size + o;
      assert b[size + o..size + o + size] == tail[o..o + size];
    }
  }

  lemma Fits(size: nat, i: nat, n: nat)
    requires i < n
    ensures size * i + size <= size * n
  {
    assert size * n - size * i == size * (n - i) && n - i >= 1;
    assert size * (n - i) >= size * 1;
  }

  // ---------- account deltas ----------

  /** The storage part comes first, then the vault part, then the nonce. */
  lemma DeltaParts(d: AccountDelta, rest: Bytes)
    requires ValidDelta(d) && WellFormedAssets(d.vault)
    ensures var b := WriteDelta(d) + rest;
            && ReadStorageDelta(b).Some? && ReadStorageDelta(b).value.0 == d.storage
            && var b1 := ReadStorageDelta(b).value.1;
            && ReadVaultDelta(b1).Some? && ReadVaultDelta(b1).value.0 == d.vault
            && ReadNonce(ReadVaultDelta(b1).value.1) == Some((d.nonce, rest))
  {
    var b2 := WriteNonce(d.nonce) + rest;
    var b1 := WriteVaultDelta(d.vault) + b2;
    StorageDeltaComplete(d.storage, b1);
    VaultDeltaComplete(d.vault, b2);
    NonceExact(b2, d.nonce, rest);
    Regroup(WriteStorageDelta(d.storage), WriteVaultDelta(d.vault), WriteNonce(d.nonce), rest);
  }

  /** Where the parts of a storage delta lie: counts, cleared indexes, then 33 bytes an update. */
  predicate StorageDeltaAt(d: StorageDelta, b: Bytes) {
    var n, m := |d.cleared|, |d.updated|;
    && |b| == 2 + n + 33 * m
    && b[0] == n && (forall i | 0 <= i < n :: b[1 + i] == d.cleared[i])
    && b[1 + n] == m
    && forall i | 0 <= i < m :: UpdateAt(b, 2 + n + 33 * i, d.updated[i])
  }

  /** An index, and the four elements of a word, low bytes first. */
  predicate UpdateAt(b: Bytes, o: nat, e: (u8, Word)) {
    && o + 33 <= |b| && b[o] == e.0
    && forall j | 0 <= j < 32 :: b[o + 1 + j] == Digit(Element(e.1, j / 8), j % 8)
  }

  lemma UpdateBytes(e: (u8, Word))
    ensures |WriteValueEntry(e)| == 33 && UpdateAt(WriteValueEntry(e), 0, e)
  {
    var w := WriteWord(e.1);
    forall j | 0 <= j < 32 ensures |w| == 32 && w[j] == Digit(Element(e.1, j / 8), j % 8) {
      WordBytesAt(e.1, j);
    }
    WordBytesAt(e.1, 0);
    assert WriteValueEntry(e) == [e.0] + w;
  }

  lemma {:induction false} ClearedBytes(cleared: seq<u8>)
    ensures WriteMany(INDEX_ITEM, cleared) == cleared
  {
    if cleared != [] {
      ClearedBytes(cleared[1..]);
      assert INDEX_ITEM.write(cleared[0]) == [cleared[0]];
      assert cleared == [cleared[0]] + cleared[1..];
    }
  }

  lemma UpdateMoves(x: Bytes, y: Bytes, o: nat, e: (u8, Word))
    requires o + 33 <= |y| && |x| + o + 33 <= |x + y| && y[o..o + 33] == WriteValueEntry(e)
    ensures UpdateAt(x + y, |x| + o, e)
  {
    UpdateBytes(e);
    var z := y[o..o + 33];
    forall j | 0 <= j < 33 ensures (x + y)[|x| + o + j] == z[j] {
    }
    forall j | 0 <= j < 32 ensures (x + y)[|x| + o + 1 + j] == Digit(Element(e.1, j / 8), j % 8) {
      assert (x + y)[|x| + o + (1 + j)] == z[1 + j];
    }
  }

  function Head(d: StorageDelta): Bytes
    requires |d.cleared| <= U8_MAX && |d.updated| <= U8_MAX
  {
    [|d.cleared|] + d.cleared + [|d.updated|]
  }

  lemma StorageHead(d: StorageDelta)
    requires |d.cleared| <= U8_MAX && |d.updated| <= U8_MAX
    ensures WriteStorageDelta(d) == Head(d) + WriteMany(VALUE_ENTRY, d.updated)
    ensures AllSized(VALUE_ENTRY, d.updated, 33) && |WriteMany(VALUE_ENTRY, d.updated)| == 33 * |d.updated|
  {
    ClearedBytes(d.cleared);
    forall i | 0 <= i < |d.updated| ensures |VALUE_ENTRY.write(d.updated[i])| == 33 {
      UpdateBytes(d.updated[i]);
    }
    ManyLength(VALUE_ENTRY, d.updated, 33);
  }

  lemma StorageUpdateAt(d: StorageDelta, i: nat)
    requires |d.cleared| <= U8_MAX && |d.updated| <= U8_MAX && i < |d.updated|
    ensures UpdateAt(WriteStorageDelta(d), 2 + |d.cleared| + 33 * i, d.updated[i])
  {
    StorageHead(d);
    ManyAt(VALUE_ENTRY, d.updated, 33, i);
    UpdateMoves(Head(d), WriteMany(VALUE_ENTRY, d.updated), 33 * i, d.updated[i]);
  }

  lemma StorageDeltaBytes(d: StorageDelta)
    requires |d.cleared| <= U8_MAX && |d.updated| <= U8_MAX
    ensures StorageDeltaAt(d, WriteStorageDelta(d))
  {
    StorageHead(d);
    forall i | 0 <= i < |d.updated| ensures UpdateAt(WriteStorageDelta(d), 2 + |d.cleared| + 33 * i, d.updated[i]) {
      StorageUpdateAt(d, i);
    }
  }

  /** Where the parts of a vault delta lie: 16-bit counts, then 32 bytes an asset, added ones first. */
  predicate VaultDeltaAt(d: VaultDelta, b: Bytes) {
    var n, m := |d.added|, |d.removed|;
    && |b| == 4 + 32 * n + 32 * m
    && b[0] == n % 0x100 && b[1] == n / 0x100
    && AssetsAt(b, 2, d.added)
    && b[2 + 32 * n] == m % 0x100 && b[3 + 32 * n] == m / 0x100
    && AssetsAt(b, 4 + 32 * n, d.removed)
  }

  predicate AssetAt(b: Bytes, o: nat, a: Asset) {
    WellFormed(a) && o + 32 <= |b| && b[o..o + 32] == ToBytes(a)
  }

  lemma AssetMoves(x: Bytes, y: Bytes, z: Bytes, o: nat, a: Asset)
    requires WellFormed(a) && o + 32 <= |y| && y[o..o + 32] == ToBytes(a)
    ensures AssetAt(x + y + z, |x| + o, a)
  {
    assert (x + y + z)[|x| + o..|x| + o + 32] == y[o..o + 32];
  }

  lemma AssetsSized(assets: seq<Asset>)
    requires AllWf(ASSET_ITEM, assets)
    ensures AllSized(ASSET_ITEM, assets, 32) && |WriteMany(ASSET_ITEM, assets)| == 32 * |assets|
  {
    forall i | 0 <= i < |assets| ensures |ASSET_ITEM.write(assets[i])| == 32 {
      assert ASSET_ITEM.wf(assets[i]);
      ToBytesIsWord(assets[i]);
      WordBytesAt(ToWord(assets[i]), 0);
    }
    ManyLength(ASSET_ITEM, assets, 32);
  }

  lemma CountBytes(n: nat)
    requires n <= U16_MAX
    ensures WriteU16(n) == [n % 0x100, n / 0x100]
  {
    assert LeBytes(n, 2) == [n % 0x100] + LeBytes(n / 0x100, 1);
    assert LeBytes(n / 0x100, 1) == [(n / 0x100) % 0x100] + LeBytes(n / 0x1_0000, 0);
  }

  lemma ListedAsset(assets: seq<Asset>, y: Bytes, i: nat)
    requires AllWf(ASSET_ITEM, assets) && i < |assets| && y == WriteMany(ASSET_ITEM, assets)
    ensures WellFormed(assets[i]) && 32 * i + 32 <= |y| && y[32 * i..32 * i + 32] == ToBytes(assets[i])
  {
    AssetsSized(assets);
    ManyAt(ASSET_ITEM, assets, 32, i);
    assert ASSET_ITEM.wf(assets[i]);
  }

  predicate AssetsAt(b: Bytes, o: nat, assets: seq<Asset>) {
    forall i | 0 <= i < |assets| :: AssetAt(b, o + 32 * i, assets[i])
  }

  lemma ListedAssetsAt(x: Bytes, assets: seq<Asset>, y: Bytes, z: Bytes)
    requires AllWf(ASSET_ITEM, assets) && y == WriteMany(ASSET_ITEM, assets)
    ensures AssetsAt(x + y + z, |x|, assets)
  {
    forall i | 0 <= i < |assets| ensures AssetAt(x + y + z, |x| + 32 * i, assets[i]) {
      ListedAsset(assets, y, i);
      AssetMoves(x, y, z, 32 * i, assets[i]);
    }
  }

  lemma CountsAt(n: nat, m: nat, xs: Bytes, ys: Bytes)
    requires n <= U16_MAX && m <= U16_MAX
    ensures var b := WriteU16(n) + xs + (WriteU16(m) + ys);
            && |b| == 4 + |xs| + |ys|
            && b[0] == n % 0x100 && b[1] == n / 0x100
            && b[2 + |xs|] == m % 0x100 && b[3 + |xs|] == m / 0x100
  {
    CountBytes(n);
    CountBytes(m);
  }

  predicate Writable(d: VaultDelta) {
    |d.added| <= U16_MAX && |d.removed| <= U16_MAX && WellFormedAssets(d)
  }

  lemma VaultCounts(d: VaultDelta)
    requires Writable(d)
    ensures var n, m, b := |d.added|, |d.removed|, WriteVaultDelta(d);
            && |b| == 4 + 32 * n + 32 * m
            && b[0] == n % 0x100 && b[1] == n / 0x100
            && b[2 + 32 * n] == m % 0x100 && b[3 + 32 * n] == m / 0x100
  {
    AssetsSized(d.added);
    AssetsSized(d.removed);
    CountsAt(|d.added|, |d.removed|, WriteMany(ASSET_ITEM, d.added), WriteMany(ASSET_ITEM, d.removed));
  }

  lemma VaultAddedAt(d: VaultDelta)
    requires Writable(d)
    ensures AssetsAt(WriteVaultDelta(d), 2, d.added)
  {
    var c, xs, z := WriteU16(|d.added|), WriteMany(ASSET_ITEM, d.added), Write16(ASSET_ITEM, d.removed);
    ListedAssetsAt(c, d.added, xs, z);
    assert WriteVaultDelta(d) == c + xs + z;
  }

  lemma RemovedStart(d: VaultDelta) returns (x: Bytes)
    requires Writable(d)
    ensures |x| == 4 + 32 * |d.added| && WriteVaultDelta(d) == x + WriteMany(ASSET_ITEM, d.removed) + []
  {
    AssetsSized(d.added);
    x := Write16(ASSET_ITEM, d.added) + WriteU16(|d.removed|);
  }

  lemma VaultRemovedAt(d: VaultDelta)
    requires Writable(d)
    ensures AssetsAt(WriteVaultDelta(d), 4 + 32 * |d.added|, d.removed)
  {
    var x := RemovedStart(d);
    ListedAssetsAt(x, d.removed, WriteMany(ASSET_ITEM, d.removed), []);
  }

  lemma VaultDeltaBytes(d: VaultDelta)
    requires Writable(d)
    ensures VaultDeltaAt(d, WriteVaultDelta(d))
  {
    VaultCounts(d);
    VaultAddedAt(d);
    VaultRemovedAt(d);
  }

  /** No nonce is a zero byte; a nonce is a one and its eight bytes, the lowest first. */
  lemma NonceBytes(nonce: Option<Felt>, i: nat)
    requires i < 8
    ensures nonce.None? ==> WriteNonce(nonce) == [0]
    ensures nonce.Some? ==> |WriteNonce(nonce)| == 9 && WriteNonce(nonce)[0] == 1
                            && WriteNonce(nonce)[1 + i] == Digit(nonce.value, i)
  {
    if nonce.Some? {
      LeBytesAt(nonce.value, 8, i);
    }
  }

  /** The delta that clears slot 3 and sets the nonce to one, byte by byte. */
  lemma ExampleBytes()
    ensures var d := AccountDelta(StorageDelta([3], []), VaultDelta([], []), Some(1));
            WriteDelta(d) == [1, 3, 0, 0, 0, 0, 0, 1, 1, 0, 0, 0, 0, 0, 0, 0]
  {
    var s, v := StorageDelta([3], []), VaultDelta([], []);
    StorageDeltaBytes(s);
    assert WriteStorageDelta(s) == [1, 3, 0];
    CountBytes(0);
    assert WriteVaultDelta(v) == [0, 0, 0, 0];
    OneBytes();
  }

  lemma OneBytes()
    ensures WriteFelt(1) == [1, 0, 0, 0, 0, 0, 0, 0]
  {
    ZeroBytes(7);
    assert LeBytes(1, 8) == [1] + LeBytes(0, 7);
  }

  // ---------- storage types ----------

  /** A listed type is its slot, then 0, 1 or the depth, then the arity. */
  lemma TypeEntryBytes(i: u8, t: SlotType)
    ensures WriteTypeEntry((i, t)) == [i, if t.Value? then 0 else if t.Map? then 1 else t.depth, t.valueArity]
  {
    var v := TypeToU16(t);
    CountBytes(v);
    assert v % 0x100 == if t.Value? then 0 else if t.Map? then 1 else t.depth;
    assert v / 0x100 == t.valueArity;
  }

  /** The valid types are the encodable ones except arrays of arity 254, which the check refuses. */
  lemma ValidTypes(t: SlotType)
    ensures t.IsValid() <==> Encodable(t) && !(t.Array? && t.valueArity == 254)
  {
  }
}
