/** Field elements, words and the failure types shared by every other module. */
module Base {

  /** The modulus of the VM's base field, 2^64 - 2^32 + 1. */
  const MODULUS: int := 0xFFFF_FFFF_0000_0001

  type Felt = x: int | 0 <= x < MODULUS
  type u8 = x: int | 0 <= x < 0x100
  type u16 = x: int | 0 <= x < 0x1_0000
  type u64 = x: int | 0 <= x < 0x1_0000_0000_0000_0000

  /** Four field elements. Digests and storage values are words too. */
  datatype Word = Word(e0: Felt, e1: Felt, e2: Felt, e3: Felt)

  const EMPTY_WORD := Word(0, 0, 0, 0)

  function WordElements(w: Word): seq<Felt> {
    [w.e0, w.e1, w.e2, w.e3]
  }

  /** The sequential hash of field elements, and the hash of two words. */
  type Hash = seq<Felt> -> Word
  type Merge = (Word, Word) -> Word

  /** Two different pairs of words with the same hash. */
  datatype Collision = Collision(a: Word, b: Word, c: Word, d: Word)

  predicate Collides(merge: Merge, x: Collision) {
    (x.a, x.b) != (x.c, x.d) && merge(x.a, x.b) == merge(x.c, x.d)
  }

  /** Two different lists of elements with the same hash. */
  datatype HashCollision = HashCollision(a: seq<Felt>, b: seq<Felt>)

  predicate HashCollides(hash: Hash, x: HashCollision) {
    x.a != x.b && hash(x.a) == hash(x.b)
  }

  /** Addition in the field. */
  function FeltAdd(a: Felt, b: Felt): Felt {
    if a + b < MODULUS then a + b else a + b - MODULUS
  }

  datatype Option<+T> = None | Some(value: T)

  datatype Result<+T, +E> = Ok(value: T) | Err(error: E)
}
