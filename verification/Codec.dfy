/**
  Byte streams. A reader takes a stream and returns the value it read with the rest of the
  stream, or nothing. The theorems here are exact: a reader returns a value if and only if
  the stream starts with that value's encoding.
 */
module Codec {
  import opened Base

  type Bytes = seq<u8>
  type Parse<+T> = Option<(T, Bytes)>

  // ---------- little-endian numbers ----------

  function LeBytes(v: nat, n: nat): (bs: Bytes)
    ensures |bs| == n
  {
    if n == 0 then [] else [v % 0x100] + LeBytes(v / 0x100, n - 1)
  }

  function LeValue(bs: Bytes): nat {
    if bs == [] then 0 else bs[0] + 0x100 * LeValue(bs[1..])
  }

  function Pow256(n: nat): nat {
    if n == 0 then 1 else 0x100 * Pow256(n - 1)
  }

  lemma {:induction false} LeValueOfBytes(v: nat, n: nat)
    requires v < Pow256(n)
    ensures LeValue(LeBytes(v, n)) == v
  {
    if n > 0 {
      LeValueOfBytes(v / 0x100, n - 1);
      assert LeBytes(v, n)[1..] == LeBytes(v / 0x100, n - 1);
    }
  }

  lemma {:induction false} LeBytesOfValue(bs: Bytes)
    ensures LeValue(bs) < Pow256(|bs|)
    ensures LeBytes(LeValue(bs), |bs|) == bs
  {
    if bs != [] {
      LeBytesOfValue(bs[1..]);
      assert LeValue(bs) % 0x100 == bs[0] && LeValue(bs) / 0x100 == LeValue(bs[1..]);
    }
  }

  /** Byte `i` is digit `i` of the number to the base 256, the lowest first. */
  lemma {:induction false} LeBytesAt(v: nat, n: nat, i: nat)
    requires i < n
    ensures LeBytes(v, n)[i] == Digit(v, i)
  {
    if i > 0 {
      LeBytesAt(v / 0x100, n - 1, i - 1);
    }
  }

  function Digit(v: nat, i: nat): nat {
    if i == 0 then v % 0x100 else Digit(v / 0x100, i - 1)
  }

  // ---------- fixed-size readers and writers ----------

  function ReadU8(b: Bytes): Parse<u8> {
    if |b| == 0 then None else Some((b[0], b[1..]))
  }

  function ReadLe(b: Bytes, n: nat): Parse<nat> {
    if |b| < n then None else Some((LeValue(b[..n]), b[n..]))
  }

  function WriteU16(v: u16): Bytes {
    LeBytes(v, 2)
  }

  function ReadU16(b: Bytes): Parse<u16> {
    match ReadLe(b, 2)
    case Some((v, rest)) => LeBytesOfValue(b[..2]); Some((v, rest))
    case None => None
  }

  function WriteFelt(x: Felt): Bytes {
    LeBytes(x, 8)
  }

  /** Eight bytes, refused unless they spell a canonical field element. */
  function ReadFelt(b: Bytes): Parse<Felt> {
    match ReadLe(b, 8)
    case Some((v, rest)) => if v < MODULUS then Some((v, rest)) else None
    case None => None
  }

  function WriteWord(w: Word): Bytes {
    WriteFelt(w.e0) + WriteFelt(w.e1) + WriteFelt(w.e2) + WriteFelt(w.e3)
  }

  function Element(w: Word, k: nat): Felt
    requires k < 4
  {
    if k == 0 then w.e0 else if k == 1 then w.e1 else if k == 2 then w.e2 else w.e3
  }

  /** Each element takes eight bytes, the first element first, its lowest byte first. */
  lemma WordBytesAt(w: Word, i: nat)
    requires i < 32
    ensures |WriteWord(w)| == 32 && WriteWord(w)[i] == Digit(Element(w, i / 8), i % 8)
  {
    LeBytesAt(Element(w, i / 8), 8, i % 8);
  }

  function ReadWord(b: Bytes): Parse<Word> {
    match ReadFelt(b)
    case None => None
    case Some((e0, b1)) =>
      match ReadFelt(b1)
      case None => None
      case Some((e1, b2)) =>
        match ReadFelt(b2)
        case None => None
        case Some((e2, b3)) =>
          match ReadFelt(b3)
          case None => None
          case Some((e3, b4)) => Some((Word(e0, e1, e2, e3), b4))
  }

  lemma ReadLeExact(b: Bytes, n: nat, v: nat, rest: Bytes)
    ensures ReadLe(b, n) == Some((v, rest)) <==> v < Pow256(n) && b == LeBytes(v, n) + rest
  {
    if |b| >= n {
      LeBytesOfValue(b[..n]);
    }
    if v < Pow256(n) && b == LeBytes(v, n) + rest {
      assert b[..n] == LeBytes(v, n);
      LeValueOfBytes(v, n);
    }
  }

  lemma ReadU16Exact(b: Bytes, v: u16, rest: Bytes)
    ensures ReadU16(b) == Some((v, rest)) <==> b == WriteU16(v) + rest
  {
    ReadLeExact(b, 2, v, rest);
  }

  lemma ReadFeltExact(b: Bytes, x: Felt, rest: Bytes)
    ensures ReadFelt(b) == Some((x, rest)) <==> b == WriteFelt(x) + rest
  {
    assert Pow256(8) == 0x1_0000_0000_0000_0000 by {
      assert Pow256(4) == 0x1_0000_0000;
    }
    ReadLeExact(b, 8, x, rest);
  }

  lemma ReadWordExact(b: Bytes, w: Word, rest: Bytes)
    ensures ReadWord(b) == Some((w, rest)) <==> b == WriteWord(w) + rest
  {
    var r3 := WriteFelt(w.e3) + rest;
    var r2 := WriteFelt(w.e2) + r3;
    var r1 := WriteFelt(w.e1) + r2;
    assert WriteWord(w) + rest == WriteFelt(w.e0) + r1;
    ReadFeltExact(b, w.e0, r1);
    ReadFeltExact(r1, w.e1, r2);
    ReadFeltExact(r2, w.e2, r3);
    ReadFeltExact(r3, w.e3, rest);
    if ReadWord(b) == Some((w, rest)) {
      var b1 := ReadFelt(b).value.1;
      var b2 := ReadFelt(b1).value.1;
      var b3 := ReadFelt(b2).value.1;
      ReadFeltExact(b, w.e0, b1);
      ReadFeltExact(b1, w.e1, b2);
      ReadFeltExact(b2, w.e2, b3);
      ReadFeltExact(b3, w.e3, rest);
    }
  }

  // ---------- lists of items, checked one by one while they are read ----------

  datatype Item<!T> = Item(write: T -> Bytes, read: Bytes -> Parse<T>, wf: T -> bool)

  /** The reader returns exactly what the writer of a well-formed value puts in front. */
  ghost predicate Exact<T(!new)>(c: Item<T>) {
    forall b, x, rest :: c.read(b) == Some((x, rest)) <==> c.wf(x) && b == c.write(x) + rest
  }

  function WriteMany<T>(c: Item<T>, xs: seq<T>): Bytes {
    if xs == [] then [] else c.write(xs[0]) + WriteMany(c, xs[1..])
  }

  /** Reads `n` items; each must pass `ok` against the items already accepted. */
  function ReadMany<T>(c: Item<T>, n: nat, ok: (seq<T>, T) -> bool, acc: seq<T>, b: Bytes): Parse<seq<T>> {
    if n == 0 then Some((acc, b))
    else
      match c.read(b)
      case None => None
      case Some((x, rest)) => if ok(acc, x) then ReadMany(c, n - 1, ok, acc + [x], rest) else None
  }

  /** Every item of `xs` passes the check against the items before it. */
  predicate Admits<T>(ok: (seq<T>, T) -> bool, acc: seq<T>, xs: seq<T>) {
    forall i | 0 <= i < |xs| :: ok(acc + xs[..i], xs[i])
  }

  predicate AllWf<T>(c: Item<T>, xs: seq<T>) {
    forall i | 0 <= i < |xs| :: c.wf(xs[i])
  }

  lemma {:induction false} AdmitsCons<T>(ok: (seq<T>, T) -> bool, acc: seq<T>, xs: seq<T>)
    requires xs != []
    ensures Admits(ok, acc, xs) <==> ok(acc, xs[0]) && Admits(ok, acc + [xs[0]], xs[1..])
  {
    var tail := xs[1..];
    forall i | 0 <= i < |tail|
      ensures acc + [xs[0]] + tail[..i] == acc + xs[..i + 1]
    {
    }
    assert acc + xs[..0] == acc;
    if Admits(ok, acc, xs) {
      forall i | 0 <= i < |tail| ensures ok(acc + [xs[0]] + tail[..i], tail[i]) {
        assert ok(acc + xs[..i + 1], xs[i + 1]);
      }
    }
    if ok(acc, xs[0]) && Admits(ok, acc + [xs[0]], tail) {
      forall i | 0 <= i < |xs| ensures ok(acc + xs[..i], xs[i]) {
        if i > 0 {
          assert ok(acc + [xs[0]] + tail[..i - 1], tail[i - 1]);
        }
      }
    }
  }

  /** What the reader accepts is a list of well-formed items that passed their checks. */
  lemma {:induction false} ReadManySound<T(!new)>(
    c: Item<T>, n: nat, ok: (seq<T>, T) -> bool, acc: seq<T>, b: Bytes) returns (xs: seq<T>)
    requires Exact(c) && ReadMany(c, n, ok, acc, b).Some?
    ensures ReadMany(c, n, ok, acc, b).value.0 == acc + xs && |xs| == n
    ensures AllWf(c, xs) && Admits(ok, acc, xs)
    ensures b == WriteMany(c, xs) + ReadMany(c, n, ok, acc, b).value.1
  {
    var rest := ReadMany(c, n, ok, acc, b).value.1;
    if n == 0 {
      xs := [];
      assert WriteMany(c, xs) + rest == rest;
    } else {
      var (x, b1) := c.read(b).value;
      var tail := ReadManySound(c, n - 1, ok, acc + [x], b1);
      xs := [x] + tail;
      assert xs[1..] == tail;
      AdmitsCons(ok, acc, xs);
      assert b == c.write(x) + (WriteMany(c, tail) + rest);
    }
  }

  /** A list of well-formed items that pass their checks is read back. */
  lemma {:induction false} ReadManyComplete<T(!new)>(
    c: Item<T>, ok: (seq<T>, T) -> bool, acc: seq<T>, xs: seq<T>, rest: Bytes)
    requires Exact(c) && AllWf(c, xs) && Admits(ok, acc, xs)
    ensures ReadMany(c, |xs|, ok, acc, WriteMany(c, xs) + rest) == Some((acc + xs, rest))
    decreases |xs|
  {
    if xs == [] {
      assert WriteMany(c, xs) + rest == rest;
      assert acc + xs == acc;
    } else {
      AdmitsCons(ok, acc, xs);
      ReadManyComplete(c, ok, acc + [xs[0]], xs[1..], rest);
      var b1 := WriteMany(c, xs[1..]) + rest;
      assert WriteMany(c, xs) + rest == c.write(xs[0]) + b1;
      assert c.read(c.write(xs[0]) + b1) == Some((xs[0], b1));
      assert acc + [xs[0]] + xs[1..] == acc + xs;
    }
  }

  /** The reader of a list returns exactly the checked lists whose encoding is in front. */
  lemma ReadManyExact<T(!new)>(
    c: Item<T>, n: nat, ok: (seq<T>, T) -> bool, b: Bytes, xs: seq<T>, rest: Bytes)
    requires Exact(c)
    ensures ReadMany(c, n, ok, [], b) == Some((xs, rest)) <==>
            |xs| == n && AllWf(c, xs) && Admits(ok, [], xs) && b == WriteMany(c, xs) + rest
  {
    if ReadMany(c, n, ok, [], b) == Some((xs, rest)) {
      var ys := ReadManySound(c, n, ok, [], b);
      assert [] + ys == ys;
    }
    if |xs| == n && AllWf(c, xs) && Admits(ok, [], xs) && b == WriteMany(c, xs) + rest {
      ReadManyComplete(c, ok, [], xs, rest);
      assert [] + xs == xs;
    }
  }

  // ---------- lists with their length in front ----------

  function Write8<T>(c: Item<T>, xs: seq<T>): Bytes
    requires |xs| < 0x100
  {
    [|xs|] + WriteMany(c, xs)
  }

  function Read8<T>(c: Item<T>, ok: (seq<T>, T) -> bool, b: Bytes): Parse<seq<T>> {
    match ReadU8(b)
    case None => None
    case Some((n, b1)) => ReadMany(c, n, ok, [], b1)
  }

  function Write16<T>(c: Item<T>, xs: seq<T>): Bytes
    requires |xs| < 0x1_0000
  {
    WriteU16(|xs|) + WriteMany(c, xs)
  }

  function Read16<T>(c: Item<T>, ok: (seq<T>, T) -> bool, b: Bytes): Parse<seq<T>> {
    match ReadU16(b)
    case None => None
    case Some((n, b1)) => ReadMany(c, n, ok, [], b1)
  }

  lemma Read8Exact<T(!new)>(c: Item<T>, ok: (seq<T>, T) -> bool, b: Bytes, xs: seq<T>, rest: Bytes)
    requires Exact(c)
    ensures Read8(c, ok, b) == Some((xs, rest)) <==>
            |xs| < 0x100 && AllWf(c, xs) && Admits(ok, [], xs) && b == Write8(c, xs) + rest
  {
    if b != [] {
      ReadManyExact(c, b[0], ok, b[1..], xs, rest);
      assert b == [b[0]] + b[1..];
      if |xs| < 0x100 && b == Write8(c, xs) + rest {
        assert b[1..] == WriteMany(c, xs) + rest;
      }
    }
  }

  lemma Read16Exact<T(!new)>(c: Item<T>, ok: (seq<T>, T) -> bool, b: Bytes, xs: seq<T>, rest: Bytes)
    requires Exact(c)
    ensures Read16(c, ok, b) == Some((xs, rest)) <==>
            |xs| < 0x1_0000 && AllWf(c, xs) && Admits(ok, [], xs) && b == Write16(c, xs) + rest
  {
    if Read16(c, ok, b) == Some((xs, rest)) {
      var (n, b1) := ReadU16(b).value;
      ReadU16Exact(b, n, b1);
      ReadManyExact(c, n, ok, b1, xs, rest);
      assert b == WriteU16(n) + (WriteMany(c, xs) + rest);
    }
    if |xs| < 0x1_0000 && AllWf(c, xs) && Admits(ok, [], xs) && b == Write16(c, xs) + rest {
      var b1 := WriteMany(c, xs) + rest;
      assert b == WriteU16(|xs|) + b1;
      ReadU16Exact(b, |xs|, b1);
      ReadManyExact(c, |xs|, ok, b1, xs, rest);
    }
  }
}
