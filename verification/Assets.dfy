/** Fungible and non-fungible assets, their packing into one word, and their byte form. */
module Assets {
  import opened Base
  import opened AccountIds
  import opened Codec

  const MAX_AMOUNT: u64 := 0x7FFF_FFFF_FFFF_FFFF

  datatype Asset =
    | Fungible(faucetId: Felt, amount: u64)
    | NonFungible(word: Word)

  datatype AssetError =
    | FungibleAssetInvalidWord(word: Word)
    | InvalidAccountId(id: Felt)
    | NotAFungibleFaucetId(id: Felt)
    | NotANonFungibleFaucetId(id: Felt)
    | AmountTooBig(amount: nat)
    | AssetAmountNotSufficient(available: nat, requested: nat)
    | InconsistentFaucetIds(left: Felt, right: Felt)

  /** What the checked constructors of the two asset kinds establish. */
  predicate WellFormed(a: Asset) {
    match a
    case Fungible(id, amount) => ValidId(id) && TypeOf(id) == FungibleFaucet && amount <= MAX_AMOUNT
    case NonFungible(w) => ValidId(w.e1) && TypeOf(w.e1) == NonFungibleFaucet && !FaucetBit(w.e3)
  }

  // ---------- word form ----------

  function FungibleKey(faucetId: Felt): Word {
    Word(0, 0, 0, faucetId)
  }

  /** The key under which a vault stores the asset. */
  function VaultKey(a: Asset): Word {
    match a
    case Fungible(id, _) => FungibleKey(id)
    case NonFungible(w) => w
  }

  function ToWord(a: Asset): Word
    requires WellFormed(a)
  {
    match a
    case Fungible(id, amount) => Word(amount, 0, 0, id)
    case NonFungible(w) => w
  }

  function NewFungible(faucetId: Felt, amount: u64): Result<Asset, AssetError> {
    if TypeOf(faucetId) != FungibleFaucet then Err(NotAFungibleFaucetId(faucetId))
    else if amount > MAX_AMOUNT then Err(AmountTooBig(amount))
    else Ok(Fungible(faucetId, amount))
  }

  function FungibleFromWord(w: Word): Result<Asset, AssetError> {
    if (w.e1, w.e2) != (0, 0) then Err(FungibleAssetInvalidWord(w))
    else if !ValidId(w.e3) then Err(InvalidAccountId(w.e3))
    else NewFungible(w.e3, w.e0)
  }

  function NonFungibleFromWord(w: Word): Result<Asset, AssetError> {
    if !ValidId(w.e1) then Err(InvalidAccountId(w.e1))
    else if TypeOf(w.e1) != NonFungibleFaucet then Err(NotAFungibleFaucetId(w.e1))
    else Ok(NonFungible(w))
  }

  function TryFromWord(w: Word): Result<Asset, AssetError> {
    if FaucetBit(w.e3) then FungibleFromWord(w) else NonFungibleFromWord(w)
  }

  /** The trusting decoder used for words that come out of a vault. */
  function NewUnchecked(w: Word): Asset {
    if FaucetBit(w.e3) then Fungible(w.e3, w.e0) else NonFungible(w)
  }

  predicate IsSame(a: Asset, b: Asset) {
    match (a, b)
    case (Fungible(l, _), Fungible(r, _)) => l == r
    case (NonFungible(l), NonFungible(r)) => l == r
    case _ => false
  }

  /** Clears bit 61, the effect of `(d3 & MASK) ^ d3`. */
  function ClearFaucetBit(d3: Felt): Felt {
    if FaucetBit(d3) then d3 - BIT_61 else d3
  }

  /** A non-fungible asset built from its faucet and the hash of its data. */
  function FromParts(faucetId: Felt, dataHash: Word): (r: Result<Asset, AssetError>)
    requires ValidId(faucetId)
    ensures r.Ok? <==> TypeOf(faucetId) == NonFungibleFaucet
    ensures r.Err? ==> r.error == NotANonFungibleFaucetId(faucetId)
    ensures r.Ok? ==> WellFormed(r.value) && r.value.NonFungible?
    ensures r.Ok? ==>
              var w := r.value.word;
              && w.e0 == dataHash.e0 && w.e1 == faucetId && w.e2 == dataHash.e2
              && w.e3 % BIT_61 == dataHash.e3 % BIT_61 && w.e3 / BIT_62 == dataHash.e3 / BIT_62
  {
    if TypeOf(faucetId) != NonFungibleFaucet then Err(NotANonFungibleFaucetId(faucetId))
    else
      assert !FaucetBit(ClearFaucetBit(dataHash.e3));
      Ok(NonFungible(dataHash.(e1 := faucetId, e3 := ClearFaucetBit(dataHash.e3))))
  }

  /** Decoding a word succeeds exactly on the words that encode a well-formed asset. */
  lemma WordExact(w: Word, a: Asset)
    ensures TryFromWord(w) == Ok(a) <==> WellFormed(a) && ToWord(a) == w
    ensures WellFormed(a) && ToWord(a) == w ==> NewUnchecked(w) == a
  {
    FaucetBitMeaning(w.e3);
  }

  /** The words of fungible assets: the amount first, the faucet last, bits 61 and 60 being 10. */
  lemma FungibleWord(w: Word, f: Felt, amount: u64)
    ensures TryFromWord(w) == Ok(Fungible(f, amount)) <==>
            && w.e0 == amount && w.e1 == 0 && w.e2 == 0 && w.e3 == f
            && amount < 0x8000_0000_0000_0000 && ValidId(f)
            && (f / BIT_61) % 2 == 1 && (f / BIT_60) % 2 == 0
  {
    TypeMeaning(w.e3);
  }

  /** The words of non-fungible ones: the faucet second, with bits 11, and bit 61 of the last clear. */
  lemma NonFungibleWord(w: Word)
    ensures TryFromWord(w) == Ok(NonFungible(w)) <==>
            && ValidId(w.e1) && (w.e1 / BIT_61) % 2 == 1 && (w.e1 / BIT_60) % 2 == 1
            && (w.e3 / BIT_61) % 2 == 0
  {
    TypeMeaning(w.e1);
  }

  /**
    Why a word is refused: stray elements, then an illegal ID, then an ID of another kind, then
    the amount. A word meant as non-fungible is refused as not being of a *fungible* faucet.
   */
  lemma WordErrors(w: Word)
    ensures var r, fungible := TryFromWord(w), (w.e3 / BIT_61) % 2 == 1;
            var id, stray := if fungible then w.e3 else w.e1, fungible && (w.e1 != 0 || w.e2 != 0);
            var kind := (id / BIT_61) % 2 == 1 && (id / BIT_60) % 2 == if fungible then 0 else 1;
            && (r == Err(FungibleAssetInvalidWord(w)) <==> stray)
            && (r == Err(InvalidAccountId(id)) <==> !stray && !ValidId(id))
            && (r == Err(NotAFungibleFaucetId(id)) <==> !stray && ValidId(id) && !kind)
            && (r == Err(AmountTooBig(w.e0)) <==>
                  fungible && !stray && ValidId(id) && kind && w.e0 >= 0x8000_0000_0000_0000)
            && (r.Err? ==> r.error in {FungibleAssetInvalidWord(w), InvalidAccountId(id),
                                       NotAFungibleFaucetId(id), AmountTooBig(w.e0)})
  {
    TypeMeaning(w.e3);
    TypeMeaning(w.e1);
  }

  /** No encoding is the word a tree uses for "nothing here". */
  lemma NeverEmpty(a: Asset)
    requires WellFormed(a)
    ensures ToWord(a) != EMPTY_WORD && VaultKey(a) != EMPTY_WORD
  {
    match a
    case Fungible(id, _) => ValidIdNonZero(id);
    case NonFungible(w) => ValidIdNonZero(w.e1);
  }

  /** Two assets share a vault key exactly when they are the same asset. */
  lemma SameKey(a: Asset, b: Asset)
    requires WellFormed(a) && WellFormed(b)
    ensures IsSame(a, b) <==> VaultKey(a) == VaultKey(b)
  {
    FaucetBitMeaning(VaultKey(a).e3);
    FaucetBitMeaning(VaultKey(b).e3);
  }

  /** Two hashes give the same asset exactly when they agree outside the two overwritten places. */
  lemma FromPartsInjective(id1: Felt, h1: Word, id2: Felt, h2: Word)
    requires ValidId(id1) && ValidId(id2)
    requires FromParts(id1, h1).Ok? && FromParts(id2, h2).Ok?
    ensures FromParts(id1, h1) == FromParts(id2, h2) <==>
            id1 == id2 && h1.e0 == h2.e0 && h1.e2 == h2.e2
            && h1.e3 % BIT_61 == h2.e3 % BIT_61 && h1.e3 / BIT_62 == h2.e3 / BIT_62
  {
    ClearedBits(h1.e3);
    ClearedBits(h2.e3);
  }

  lemma ClearedBits(d: Felt)
    ensures ClearFaucetBit(d) == (d / BIT_62) * BIT_62 + d % BIT_61
  {
    var q := d / BIT_61;
    assert d == q * BIT_61 + d % BIT_61;
    assert d / BIT_62 == q / 2;
  }

  // ---------- byte form ----------

  function Zeros(n: nat): Bytes {
    seq(n, _ => 0)
  }

  /** The 32-byte array: a fungible asset leaves its middle sixteen bytes at zero. */
  function ToBytes(a: Asset): Bytes
    requires WellFormed(a)
  {
    match a
    case Fungible(id, amount) => LeBytes(amount, 8) + Zeros(16) + LeBytes(id, 8)
    case NonFungible(w) => LeBytes(w.e0, 8) + LeBytes(w.e1, 8) + LeBytes(w.e2, 8) + LeBytes(w.e3, 8)
  }

  function ReadAsset(b: Bytes): Parse<Asset> {
    match ReadWord(b)
    case None => None
    case Some((w, rest)) =>
      match TryFromWord(w)
      case Ok(a) => Some((a, rest))
      case Err(_) => None
  }

  lemma {:induction false} ZeroBytes(n: nat)
    ensures LeBytes(0, n) == Zeros(n)
  {
    if n > 0 {
      ZeroBytes(n - 1);
    }
  }

  lemma ToBytesIsWord(a: Asset)
    requires WellFormed(a)
    ensures ToBytes(a) == WriteWord(ToWord(a))
  {
    ZeroBytes(8);
    assert Zeros(16) == Zeros(8) + Zeros(8);
  }

  /** Reading an asset succeeds exactly on the bytes of a well-formed asset. */
  lemma ReadAssetExact(b: Bytes, a: Asset, rest: Bytes)
    ensures ReadAsset(b) == Some((a, rest)) <==> WellFormed(a) && b == ToBytes(a) + rest
  {
    if WellFormed(a) {
      ToBytesIsWord(a);
      ReadWordExact(b, ToWord(a), rest);
      WordExact(ToWord(a), a);
    }
    if ReadWord(b).Some? {
      WordExact(ReadWord(b).value.0, a);
    }
  }
}
