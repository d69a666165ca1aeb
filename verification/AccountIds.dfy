/** Account identifiers: the metadata bits of an ID and the checks made when one is built. */
module AccountIds {
  import opened Base

  datatype AccountType =
    | RegularAccountImmutableCode
    | RegularAccountUpdatableCode
    | FungibleFaucet
    | NonFungibleFaucet

  datatype AccountStorageType = OnChain | OffChain

  const MIN_ACCOUNT_ONES := 5
  const REGULAR_MIN_TRAILING_ZEROS := 23
  const FAUCET_MIN_TRAILING_ZEROS := 31

  const BIT_60: int := 0x1000_0000_0000_0000
  const BIT_61: int := 0x2000_0000_0000_0000
  const BIT_62: int := 0x4000_0000_0000_0000
  const BIT_63: int := 0x8000_0000_0000_0000

  /** Bits 60 and 61 of an ID give the account type. */
  function TypeOf(id: u64): AccountType {
    match (id / BIT_60) % 4
    case 0 => RegularAccountImmutableCode
    case 1 => RegularAccountUpdatableCode
    case 2 => FungibleFaucet
    case _ => NonFungibleFaucet
  }

  /** The value of bit 61, which is set in the ID of every faucet. */
  predicate FaucetBit(v: u64) {
    (v / BIT_61) % 2 == 1
  }

  function Ones(v: nat): nat {
    if v == 0 then 0 else v % 2 + Ones(v / 2)
  }

  /** The storage type in bits 62 and 63; only two of the four values are legal. */
  function StorageTypeOf(id: u64): Option<AccountStorageType> {
    match id / BIT_62
    case 0 => Some(OnChain)
    case 2 => Some(OffChain)
    case _ => None
  }

  /** What `AccountId::try_from(Felt)` accepts. */
  predicate ValidId(v: Felt) {
    Ones(v) >= MIN_ACCOUNT_ONES && StorageTypeOf(v).Some?
  }

  /** The one bit that tells the two asset kinds apart really is the faucet bit. */
  lemma FaucetBitMeaning(id: u64)
    ensures FaucetBit(id) <==> TypeOf(id) in {FungibleFaucet, NonFungibleFaucet}
  {
    var q := id / BIT_60;
    assert id / BIT_61 == q / 2;
    assert q % 4 == 2 * ((q / 2) % 2) + q % 2;
  }

  /** Bit 61 tells faucets from regular accounts, bit 60 the two kinds of each. */
  lemma TypeMeaning(id: u64)
    ensures TypeOf(id) == FungibleFaucet <==> (id / BIT_61) % 2 == 1 && (id / BIT_60) % 2 == 0
    ensures TypeOf(id) == NonFungibleFaucet <==> (id / BIT_61) % 2 == 1 && (id / BIT_60) % 2 == 1
    ensures TypeOf(id) == RegularAccountImmutableCode <==> (id / BIT_61) % 2 == 0 && (id / BIT_60) % 2 == 0
    ensures TypeOf(id) == RegularAccountUpdatableCode <==> (id / BIT_61) % 2 == 0 && (id / BIT_60) % 2 == 1
  {
    var q := id / BIT_60;
    assert id / BIT_61 == q / 2;
    assert q % 4 == 2 * ((q / 2) % 2) + q % 2;
  }

  /** Bit 63 is set for off-chain accounts; bit 62 is clear in every legal ID. */
  lemma StorageTypeMeaning(id: u64)
    ensures StorageTypeOf(id) == Some(OnChain) <==> id / BIT_63 == 0 && (id / BIT_62) % 2 == 0
    ensures StorageTypeOf(id) == Some(OffChain) <==> id / BIT_63 == 1 && (id / BIT_62) % 2 == 0
    ensures StorageTypeOf(id).None? <==> (id / BIT_62) % 2 == 1
  {
    var q := id / BIT_62;
    assert id / BIT_63 == q / 2;
  }

  /** A field element that is a valid account ID is never zero. */
  lemma ValidIdNonZero(v: Felt)
    requires ValidId(v)
    ensures v != 0
  {
  }

  // ---------- counting ones ----------

  predicate BitSet(v: nat, i: nat) {
    if i == 0 then v % 2 == 1 else BitSet(v / 2, i - 1)
  }

  function Bits(v: nat): set<nat> {
    set i: nat | i <= v && BitSet(v, i)
  }

  lemma {:induction false} NoHighBits(v: nat, i: nat)
    requires i > v
    ensures !BitSet(v, i)
  {
    if v > 0 {
      NoHighBits(v / 2, i - 1);
    } else {
      ZeroHasNoBits(i);
    }
  }

  lemma {:induction false} ZeroHasNoBits(i: nat)
    ensures !BitSet(0, i)
  {
    if i > 0 {
      ZeroHasNoBits(i - 1);
    }
  }

  function Raised(s: set<nat>): set<nat> {
    set i | i in s :: i + 1
  }

  lemma {:induction false} RaisedSize(s: set<nat>)
    ensures |Raised(s)| == |s|
  {
    if s != {} {
      var x :| x in s;
      RaisedSize(s - {x});
      RaisedOneMore(s, x);
    }
  }

  lemma RaisedOneMore(s: set<nat>, x: nat)
    requires x in s
    ensures Raised(s) == Raised(s - {x}) + {x + 1} && x + 1 !in Raised(s - {x})
  {
    forall y: nat ensures y in Raised(s) <==> y in Raised(s - {x}) + {x + 1} {
      if y in Raised(s) {
        var i :| i in s && y == i + 1;
        assert i == x || i in s - {x};
      }
    }
  }

  lemma BitsOfHalf(v: nat)
    requires v > 0
    ensures Bits(v) == Raised(Bits(v / 2)) + if v % 2 == 1 then {0} else {}
  {
    forall i: nat ensures i in Bits(v) <==> i in Raised(Bits(v / 2)) + if v % 2 == 1 then {0} else {} {
      if i > 0 {
        assert BitSet(v, i) == BitSet(v / 2, i - 1);
        if i - 1 > v / 2 {
          NoHighBits(v / 2, i - 1);
        }
        assert i in Raised(Bits(v / 2)) <==> i - 1 in Bits(v / 2);
      }
    }
  }

  /** The number of ones is the number of bits that are set. */
  lemma {:induction false} OnesMeaning(v: nat)
    ensures Ones(v) == |Bits(v)|
  {
    if v == 0 {
      ZeroHasNoBits(0);
      assert Bits(v) == {};
    } else {
      OnesMeaning(v / 2);
      BitsOfHalf(v);
      RaisedSize(Bits(v / 2));
      assert 0 !in Raised(Bits(v / 2));
    }
  }
}
