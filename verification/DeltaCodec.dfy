/**
  The byte form of account deltas. The decoders check duplicates while they read; the main
  theorem says that what they accept is exactly the encodings of the deltas `new` accepts.
 */
module DeltaCodecs {
  import opened Base
  import opened Codec
  import opened Assets
  import opened AccountStorages
  import opened StorageCodecs
  import opened AccountDeltas

  // ---------- items ----------

  const INDEX_ITEM := Item((i: u8) => [i], ReadU8, (i: u8) => true)
  const ASSET_ITEM := Item((a: Asset) => if WellFormed(a) then ToBytes(a) else [], ReadAsset, (a: Asset) => WellFormed(a))

  lemma IndexItemExact()
    ensures Exact(INDEX_ITEM)
  {
    forall b, x: u8, rest ensures ReadU8(b) == Some((x, rest)) <==> b == [x] + rest {
      if b != [] {
        assert b == [b[0]] + b[1..];
      }
      assert ([x] + rest)[1..] == rest;
    }
  }

  lemma AssetItemExact()
    ensures Exact(ASSET_ITEM)
  {
    forall b, a, rest ensures ASSET_ITEM.read(b) == Some((a, rest)) <==> ASSET_ITEM.wf(a) && b == ASSET_ITEM.write(a) + rest {
      ReadAssetExact(b, a, rest);
    }
  }

  // ---------- storage deltas ----------

  function WriteStorageDelta(d: StorageDelta): Bytes
    requires |d.cleared| <= U8_MAX && |d.updated| <= U8_MAX
  {
    Write8(INDEX_ITEM, d.cleared) + Write8(VALUE_ENTRY, d.updated)
  }

  function UpdateCheck(cleared: seq<u8>): (seq<(u8, Word)>, (u8, Word)) -> bool {
    (acc: seq<(u8, Word)>, e: (u8, Word)) => UpdatedOk(cleared, acc, e)
  }

  function ReadStorageDelta(b: Bytes): Parse<StorageDelta> {
    match Read8(INDEX_ITEM, ClearedOk, b)
    case None => None
    case Some((cleared, b1)) =>
      match Read8(VALUE_ENTRY, UpdateCheck(cleared), b1)
      case None => None
      case Some((updated, b2)) => Some((StorageDelta(cleared, updated), b2))
  }

  /** The decoder's running checks on cleared indexes amount to distinct mutable indexes. */
  lemma ClearedChecks(cleared: seq<u8>)
    ensures Admits(ClearedOk, [], cleared) <==> AllMutable(cleared) && Distinct(cleared)
  {
    assert forall i | 0 <= i < |cleared| :: [] + cleared[..i] == cleared[..i];
    if Admits(ClearedOk, [], cleared) {
      forall i, j | 0 <= i < j < |cleared| ensures cleared[i] != cleared[j] {
        assert ClearedOk(cleared[..j], cleared[j]);
        assert cleared[..j][i] == cleared[i];
      }
    }
  }

  lemma UpdatedChecks(cleared: seq<u8>, updated: seq<(u8, Word)>)
    ensures Admits(UpdateCheck(cleared), [], updated) <==>
            var xs := Indexes(updated); AllMutable(xs) && Distinct(xs) && Apart(cleared, xs)
  {
    assert forall i | 0 <= i < |updated| :: [] + updated[..i] == updated[..i];
    if Admits(UpdateCheck(cleared), [], updated) {
      forall i | 0 <= i < |updated| ensures UpdatedOk(cleared, updated[..i], updated[i]) {
        assert UpdateCheck(cleared)(updated[..i], updated[i]);
      }
      forall i, j | 0 <= i < j < |updated| ensures updated[i].0 != updated[j].0 {
        assert updated[..j][i] == updated[i];
      }
    }
  }

  lemma StorageChecks(d: StorageDelta)
    ensures ValidStorageDelta(d) <==>
            && |d.cleared| <= U8_MAX && |d.updated| <= U8_MAX
            && Admits(ClearedOk, [], d.cleared) && Admits(UpdateCheck(d.cleared), [], d.updated)
  {
    ClearedChecks(d.cleared);
    UpdatedChecks(d.cleared, d.updated);
    DistinctConcat(d.cleared, Indexes(d.updated));
  }

  lemma StorageDeltaSound(b: Bytes)
    requires ReadStorageDelta(b).Some?
    ensures var (d, rest) := ReadStorageDelta(b).value;
            ValidStorageDelta(d) && b == WriteStorageDelta(d) + rest
  {
    var (d, rest) := ReadStorageDelta(b).value;
    var b1 := Read8(INDEX_ITEM, ClearedOk, b).value.1;
    IndexItemExact();
    ValueEntryExact();
    StorageChecks(d);
    Read8Exact(INDEX_ITEM, ClearedOk, b, d.cleared, b1);
    Read8Exact(VALUE_ENTRY, UpdateCheck(d.cleared), b1, d.updated, rest);
    assert b == WriteStorageDelta(d) + rest;
  }

  lemma StorageDeltaComplete(d: StorageDelta, rest: Bytes)
    requires ValidStorageDelta(d)
    ensures ReadStorageDelta(WriteStorageDelta(d) + rest) == Some((d, rest))
  {
    var b1 := Write8(VALUE_ENTRY, d.updated) + rest;
    var b := Write8(INDEX_ITEM, d.cleared) + b1;
    IndexItemExact();
    ValueEntryExact();
    StorageChecks(d);
    Read8Exact(INDEX_ITEM, ClearedOk, b, d.cleared, b1);
    Read8Exact(VALUE_ENTRY, UpdateCheck(d.cleared), b1, d.updated, rest);
    assert WriteStorageDelta(d) + rest == b;
  }

  // ---------- vault deltas ----------

  predicate WellFormedAssets(d: VaultDelta) {
    AllWf(ASSET_ITEM, d.added) && AllWf(ASSET_ITEM, d.removed)
  }

  function WriteVaultDelta(d: VaultDelta): Bytes
    requires |d.added| <= U16_MAX && |d.removed| <= U16_MAX
  {
    Write16(ASSET_ITEM, d.added) + Write16(ASSET_ITEM, d.removed)
  }

  /** A decoded asset may repeat neither an asset before it nor one of the other list. */
  function AssetCheck(others: seq<Asset>): (seq<Asset>, Asset) -> bool {
    (acc: seq<Asset>, a: Asset) => NoneSame(acc, a) && NoneSame(others, a)
  }

  function ReadVaultDelta(b: Bytes): Parse<VaultDelta> {
    match Read16(ASSET_ITEM, AssetCheck([]), b)
    case None => None
    case Some((added, b1)) =>
      match Read16(ASSET_ITEM, AssetCheck(added), b1)
      case None => None
      case Some((removed, b2)) => Some((VaultDelta(added, removed), b2))
  }

  lemma AssetChecks(others: seq<Asset>, assets: seq<Asset>)
    ensures Admits(AssetCheck(others), [], assets) <==>
            AllDifferent(assets) && forall i | 0 <= i < |assets| :: NoneSame(others, assets[i])
  {
    assert forall i | 0 <= i < |assets| :: [] + assets[..i] == assets[..i];
    if Admits(AssetCheck(others), [], assets) {
      forall i, j | 0 <= i < j < |assets| ensures !IsSame(assets[i], assets[j]) {
        assert AssetCheck(others)(assets[..j], assets[j]);
        assert assets[..j][i] == assets[i];
      }
    }
  }

  lemma VaultChecks(d: VaultDelta)
    ensures ValidVaultDelta(d) <==>
            && |d.added| <= U16_MAX && |d.removed| <= U16_MAX
            && Admits(AssetCheck([]), [], d.added) && Admits(AssetCheck(d.added), [], d.removed)
  {
    AssetChecks([], d.added);
    AssetChecks(d.added, d.removed);
    DifferentConcat(d.added, d.removed);
  }

  lemma VaultDeltaSound(b: Bytes)
    requires ReadVaultDelta(b).Some?
    ensures var (d, rest) := ReadVaultDelta(b).value;
            ValidVaultDelta(d) && WellFormedAssets(d) && b == WriteVaultDelta(d) + rest
  {
    var (d, rest) := ReadVaultDelta(b).value;
    var b1 := Read16(ASSET_ITEM, AssetCheck([]), b).value.1;
    AssetItemExact();
    VaultChecks(d);
    Read16Exact(ASSET_ITEM, AssetCheck([]), b, d.added, b1);
    Read16Exact(ASSET_ITEM, AssetCheck(d.added), b1, d.removed, rest);
    assert b == WriteVaultDelta(d) + rest;
  }

  lemma VaultDeltaComplete(d: VaultDelta, rest: Bytes)
    requires ValidVaultDelta(d) && WellFormedAssets(d)
    ensures ReadVaultDelta(WriteVaultDelta(d) + rest) == Some((d, rest))
  {
    var b1 := Write16(ASSET_ITEM, d.removed) + rest;
    var b := Write16(ASSET_ITEM, d.added) + b1;
    AssetItemExact();
    VaultChecks(d);
    Read16Exact(ASSET_ITEM, AssetCheck([]), b, d.added, b1);
    Read16Exact(ASSET_ITEM, AssetCheck(d.added), b1, d.removed, rest);
    assert WriteVaultDelta(d) + rest == b;
  }

  // ---------- account deltas ----------

  function WriteNonce(nonce: Option<Felt>): Bytes {
    match nonce
    case None => [0]
    case Some(v) => [1] + WriteFelt(v)
  }

  function ReadNonce(b: Bytes): Parse<Option<Felt>> {
    match ReadU8(b)
    case None => None
    case Some((flag, b1)) =>
      if flag == 0 then Some((None, b1))
      else if flag == 1 then
        match ReadFelt(b1)
        case None => None
        case Some((v, b2)) => Some((Some(v), b2))
      else None
  }

  lemma NonceExact(b: Bytes, nonce: Option<Felt>, rest: Bytes)
    ensures ReadNonce(b) == Some((nonce, rest)) <==> b == WriteNonce(nonce) + rest
  {
    if b != [] {
      assert b == [b[0]] + b[1..];
      if nonce.Some? {
        ReadFeltExact(b[1..], nonce.value, rest);
        if b == WriteNonce(nonce) + rest {
          assert b[1..] == WriteFelt(nonce.value) + rest;
        }
      } else if b == WriteNonce(nonce) + rest {
        assert b[1..] == rest;
      }
    }
  }

  function WriteDelta(d: AccountDelta): Bytes
    requires |d.storage.cleared| <= U8_MAX && |d.storage.updated| <= U8_MAX
    requires |d.vault.added| <= U16_MAX && |d.vault.removed| <= U16_MAX
  {
    WriteStorageDelta(d.storage) + WriteVaultDelta(d.vault) + WriteNonce(d.nonce)
  }

  function ReadDelta(b: Bytes): Parse<AccountDelta> {
    match ReadStorageDelta(b)
    case None => None
    case Some((storage, b1)) =>
      match ReadVaultDelta(b1)
      case None => None
      case Some((vault, b2)) =>
        match ReadNonce(b2)
        case None => None
        case Some((nonce, b3)) =>
          if ValidNonce(nonce, storage, vault) then Some((AccountDelta(storage, vault, nonce), b3)) else None
  }

  lemma DeltaSound(b: Bytes)
    requires ReadDelta(b).Some?
    ensures var (d, rest) := ReadDelta(b).value;
            ValidDelta(d) && WellFormedAssets(d.vault) && b == WriteDelta(d) + rest
  {
    var (d, rest) := ReadDelta(b).value;
    var b1 := ReadStorageDelta(b).value.1;
    var b2 := ReadVaultDelta(b1).value.1;
    StorageDeltaSound(b);
    VaultDeltaSound(b1);
    NonceExact(b2, d.nonce, rest);
    Regroup(WriteStorageDelta(d.storage), WriteVaultDelta(d.vault), WriteNonce(d.nonce), rest);
  }

  lemma DeltaComplete(d: AccountDelta, rest: Bytes)
    requires ValidDelta(d) && WellFormedAssets(d.vault)
    ensures ReadDelta(WriteDelta(d) + rest) == Some((d, rest))
  {
    var b2 := WriteNonce(d.nonce) + rest;
    var b1 := WriteVaultDelta(d.vault) + b2;
    StorageDeltaComplete(d.storage, b1);
    VaultDeltaComplete(d.vault, b2);
    NonceExact(b2, d.nonce, rest);
    Regroup(WriteStorageDelta(d.storage), WriteVaultDelta(d.vault), WriteNonce(d.nonce), rest);
  }

  lemma Regroup(a: Bytes, b: Bytes, c: Bytes, d: Bytes)
    ensures a + b + c + d == a + (b + (c + d))
  {
  }

  /**
    Decoder equals validator. For all bytes: the decoder returns a delta if and only if the
    delta is one that `new` accepts, its assets are well-formed, and the bytes start with its
    encoding. Round trip, soundness and the uniqueness of encodings all follow.
   */
  lemma DeltaExact(b: Bytes, d: AccountDelta, rest: Bytes)
    ensures ReadDelta(b) == Some((d, rest)) <==>
            ValidDelta(d) && WellFormedAssets(d.vault) && b == WriteDelta(d) + rest
  {
    if ReadDelta(b) == Some((d, rest)) {
      DeltaSound(b);
    }
    if ValidDelta(d) && WellFormedAssets(d.vault) && b == WriteDelta(d) + rest {
      DeltaComplete(d, rest);
    }
  }

  // ---------- the loops of the two decoders ----------

  method ReadCleared(n: nat, source: Bytes) returns (r: Parse<seq<u8>>)
    ensures r == ReadMany(INDEX_ITEM, n, ClearedOk, [], source)
  {
    var rest := source;
    var cleared: seq<u8> := [];
    for i := 0 to n
      invariant ReadMany(INDEX_ITEM, n - i, ClearedOk, cleared, rest) == ReadMany(INDEX_ITEM, n, ClearedOk, [], source)
    {
      var index := ReadU8(rest);
      if index.None? {
        return None;
      }
      if index.value.0 > MAX_MUTABLE_STORAGE_SLOT_IDX || index.value.0 in cleared {
        return None;
      }
      cleared, rest := cleared + [index.value.0], index.value.1;
    }
    return Some((cleared, rest));
  }

  method ReadUpdated(cleared: seq<u8>, n: nat, source: Bytes) returns (r: Parse<seq<(u8, Word)>>)
    ensures r == ReadMany(VALUE_ENTRY, n, UpdateCheck(cleared), [], source)
  {
    var rest := source;
    var updated: seq<(u8, Word)> := [];
    for i := 0 to n
      invariant ReadMany(VALUE_ENTRY, n - i, UpdateCheck(cleared), updated, rest)
             == ReadMany(VALUE_ENTRY, n, UpdateCheck(cleared), [], source)
    {
      var entry := ReadValueEntry(rest);
      if entry.None? {
        return None;
      }
      var e := entry.value.0;
      if e.0 > MAX_MUTABLE_STORAGE_SLOT_IDX || (exists k | 0 <= k < |updated| :: updated[k].0 == e.0) || e.0 in cleared {
        return None;
      }
      updated, rest := updated + [e], entry.value.1;
    }
    return Some((updated, rest));
  }

  method ReadAssets(n: nat, others: seq<Asset>, source: Bytes) returns (r: Parse<seq<Asset>>)
    ensures r == ReadMany(ASSET_ITEM, n, AssetCheck(others), [], source)
  {
    var rest := source;
    var assets: seq<Asset> := [];
    for i := 0 to n
      invariant ReadMany(ASSET_ITEM, n - i, AssetCheck(others), assets, rest)
             == ReadMany(ASSET_ITEM, n, AssetCheck(others), [], source)
    {
      var asset := ReadAsset(rest);
      if asset.None? {
        return None;
      }
      if !NoneSame(assets, asset.value.0) || !NoneSame(others, asset.value.0) {
        return None;
      }
      assets, rest := assets + [asset.value.0], asset.value.1;
    }
    return Some((assets, rest));
  }

  method ReadStorageDeltaFrom(source: Bytes) returns (r: Parse<StorageDelta>)
    ensures r == ReadStorageDelta(source)
  {
    var count := ReadU8(source);
    if count.None? {
      return None;
    }
    var cleared := ReadCleared(count.value.0, count.value.1);
    if cleared.None? {
      return None;
    }
    count := ReadU8(cleared.value.1);
    if count.None? {
      return None;
    }
    var updated := ReadUpdated(cleared.value.0, count.value.0, count.value.1);
    if updated.None? {
      return None;
    }
    return Some((StorageDelta(cleared.value.0, updated.value.0), updated.value.1));
  }

  method ReadVaultDeltaFrom(source: Bytes) returns (r: Parse<VaultDelta>)
    ensures r == ReadVaultDelta(source)
  {
    var count := ReadU16(source);
    if count.None? {
      return None;
    }
    var added := ReadAssets(count.value.0, [], count.value.1);
    if added.None? {
      return None;
    }
    count := ReadU16(added.value.1);
    if count.None? {
      return None;
    }
    var removed := ReadAssets(count.value.0, added.value.0, count.value.1);
    if removed.None? {
      return None;
    }
    return Some((VaultDelta(added.value.0, removed.value.0), removed.value.1));
  }
}
