/** Note scripts packed into field elements, four bytes to an element. */
module NoteScripts {
  import opened Base
  import opened Codec
  import opened Assets

  const U32: int := 0x1_0000_0000

  /** A script: the root hash of its program and the program's bytes. */
  datatype NoteScript = NoteScript(hash: Word, code: Bytes)

  datatype ScriptError = UnexpectedEOF | InvalidValue(v: Felt) | MalformedProgram

  // ---------- packing ----------

  /** The source pads with as many zeros as there are bytes beyond a multiple of four. */
  function Padded(code: Bytes): Bytes {
    code + Zeros(|code| % 4)
  }

  lemma U32Value(b: Bytes)
    requires |b| == 4
    ensures LeValue(b) < U32
  {
    LeBytesOfValue(b);
    assert Pow256(4) == U32;
  }

  function Chunk(b: Bytes, i: nat): Bytes
    requires 4 * i + 4 <= |b|
  {
    b[4 * i..4 * i + 4]
  }

  lemma ChunksFollow(b: Bytes)
    requires |b| >= 4
    ensures forall i: nat | 4 * i + 4 <= |b| - 4 :: Chunk(b[4..], i) == Chunk(b, i + 1)
  {
    forall i: nat | 4 * i + 4 <= |b| - 4 ensures Chunk(b[4..], i) == Chunk(b, i + 1) {
      var k := 4 * i;
      assert b[4..][k..k + 4] == b[k + 4..k + 8];
    }
  }

  /** One element per four bytes; what is left at the end is dropped. */
  function Pack(b: Bytes): (r: seq<Felt>)
    ensures |r| == |b| / 4
    ensures forall i | 0 <= i < |r| :: r[i] < U32 && r[i] == LeValue(Chunk(b, i))
  {
    if |b| < 4 then []
    else
      U32Value(b[..4]);
      ChunksFollow(b);
      var r := [LeValue(b[..4])] + Pack(b[4..]);
      assert forall i | 0 < i < |r| :: r[i] == LeValue(Chunk(b[4..], i - 1)) && Chunk(b[4..], i - 1) == Chunk(b, i - 1 + 1);
      r
  }

  function Encode(s: NoteScript): (r: seq<Felt>)
    ensures |r| == 5 + |Padded(s.code)| / 4 && r[..4] == WordElements(s.hash)
  {
    WordElements(s.hash) + [|s.code| % MODULUS] + Pack(Padded(s.code))
  }

  method ToElements(s: NoteScript) returns (r: seq<Felt>)
    ensures r == Encode(s)
  {
    var len := |s.code|;
    var missing := len % 4;
    var encoded := s.code + Zeros(missing);
    r := WordElements(s.hash) + [len % MODULUS];
    while |encoded| >= 4
      invariant r + Pack(encoded) == Encode(s)
      decreases |encoded|
    {
      U32Value(encoded[..4]);
      assert Pack(encoded) == [LeValue(encoded[..4])] + Pack(encoded[4..]);
      r := r + [LeValue(encoded[..4])];
      encoded := encoded[4..];
    }
    assert Pack(encoded) == [];
  }

  /** After the hash come the number of bytes, in the field, and the bytes four by four. */
  lemma EncodedAt(s: NoteScript, i: nat)
    requires i < |Padded(s.code)| / 4
    ensures |Encode(s)| == 5 + |Padded(s.code)| / 4
    ensures (Encode(s)[4] - |s.code|) % MODULUS == 0
    ensures Encode(s)[5 + i] == LeValue(Chunk(Padded(s.code), i))
  {
    assert Encode(s)[5 + i] == Pack(Padded(s.code))[i];
  }

  // ---------- unpacking ----------

  function Unpack(els: seq<Felt>): Result<Bytes, ScriptError> {
    if els == [] then Ok([])
    else if els[0] >= U32 then Err(InvalidValue(els[0]))
    else
      match Unpack(els[1..])
      case Ok(rest) => Ok(LeBytes(els[0], 4) + rest)
      case Err(e) => Err(e)
  }

  type Parser = Bytes -> Option<Bytes>

  /** Rebuilds a script; `parse` stands for the program decoder and returns the program's bytes. */
  function Decode(parse: Parser, els: seq<Felt>): Result<NoteScript, ScriptError> {
    if |els| < 5 then Err(UnexpectedEOF)
    else
      match Unpack(els[5..])
      case Err(e) => Err(e)
      case Ok(data) =>
        match parse(data)
        case None => Err(MalformedProgram)
        case Some(code) => Ok(NoteScript(Word(els[0], els[1], els[2], els[3]), code))
  }

  lemma {:induction false} UnpackSnoc(els: seq<Felt>, x: Felt)
    requires Unpack(els).Ok?
    ensures Unpack(els + [x]) == if x < U32 then Ok(Unpack(els).value + LeBytes(x, 4)) else Err(InvalidValue(x))
  {
    if els == [] {
      assert els + [x] == [x] && [x][1..] == [];
      assert LeBytes(x, 4) + [] == [] + LeBytes(x, 4);
    } else {
      assert (els + [x])[1..] == els[1..] + [x];
      UnpackSnoc(els[1..], x);
      if x < U32 {
        var a, b, c := LeBytes(els[0], 4), Unpack(els[1..]).value, LeBytes(x, 4);
        assert a + (b + c) == (a + b) + c;
      }
    }
  }

  lemma {:induction false} UnpackFails(els: seq<Felt>, rest: seq<Felt>)
    requires Unpack(els).Err?
    ensures Unpack(els + rest) == Unpack(els)
  {
    if els[0] < U32 {
      UnpackFails(els[1..], rest);
      assert (els + rest)[1..] == els[1..] + rest;
    }
  }

  method FromElements(parse: Parser, els: seq<Felt>) returns (r: Result<NoteScript, ScriptError>)
    ensures r == Decode(parse, els)
  {
    if |els| < 5 {
      return Err(UnexpectedEOF);
    }
    var hash := Word(els[0], els[1], els[2], els[3]);
    var tail := els[5..];
    var data: Bytes := [];
    for i := 0 to |tail|
      invariant Unpack(tail[..i]) == Ok(data)
    {
      UnpackSnoc(tail[..i], tail[i]);
      assert tail[..i + 1] == tail[..i] + [tail[i]];
      if tail[i] >= U32 {
        UnpackFails(tail[..i + 1], tail[i + 1..]);
        assert tail[..i + 1] + tail[i + 1..] == tail;
        return Err(InvalidValue(tail[i]));
      }
      data := data + LeBytes(tail[i], 4);
    }
    assert tail[..|tail|] == tail;
    match parse(data)
    case None => return Err(MalformedProgram);
    case Some(code) => return Ok(NoteScript(hash, code));
  }

  // ---------- what survives ----------

  lemma {:induction false} UnpackPack(b: Bytes)
    ensures Unpack(Pack(b)) == Ok(b[..|b| / 4 * 4])
  {
    if |b| >= 4 {
      UnpackPack(b[4..]);
      LeBytesOfValue(b[..4]);
      U32Value(b[..4]);
      var x := LeValue(b[..4]);
      assert Pack(b)[1..] == Pack(b[4..]);
      var n := |b| / 4 * 4;
      assert |b[4..]| / 4 * 4 == n - 4;
      assert b[..n] == b[..4] + b[4..][..n - 4];
    } else {
      assert b[..0] == [];
    }
  }

  /** The bytes the decoder hands to the program parser. */
  function Recovered(code: Bytes): Bytes {
    Padded(code)[..|Padded(code)| / 4 * 4]
  }

  lemma RecoveredExact(code: Bytes)
    ensures |code| % 4 == 1 ==> Recovered(code) == code[..|code| - 1]
    ensures |code| % 4 != 1 ==> exists k :: 0 <= k <= 2 && Recovered(code) == code + Zeros(k)
  {
    var b, n := Padded(code), |code|;
    if n % 4 == 1 {
      assert |b| / 4 * 4 == n - 1;
      assert b[..n - 1] == code[..n - 1];
    } else {
      var k := |b| / 4 * 4 - n;
      assert 0 <= k <= 2;
      assert b[..n + k] == code + Zeros(k);
    }
  }

  lemma DecodeEncoded(s: NoteScript, parse: Parser)
    ensures Unpack(Encode(s)[5..]) == Ok(Recovered(s.code))
    ensures Decode(parse, Encode(s)).Ok? <==> parse(Recovered(s.code)).Some?
    ensures Decode(parse, Encode(s)).Ok? ==> Decode(parse, Encode(s)).value == NoteScript(s.hash, parse(Recovered(s.code)).value)
  {
    UnpackPack(Padded(s.code));
    var es := Encode(s);
    assert es[5..] == Pack(Padded(s.code));
    assert es[0] == s.hash.e0 && es[1] == s.hash.e1 && es[2] == s.hash.e2 && es[3] == s.hash.e3;
  }

  /**
    Packing keeps the program's bytes exactly when their number is not one more than a
    multiple of four; then at most two zero bytes follow them, and otherwise the last byte is
    lost. The hash comes back in every case.
   */
  lemma PackingExact(s: NoteScript, parse: Parser)
    ensures Unpack(Encode(s)[5..]) == Ok(Recovered(s.code))
    ensures s.code <= Recovered(s.code) <==> |s.code| % 4 != 1
    ensures |s.code| % 4 != 1 ==> exists k :: 0 <= k <= 2 && Recovered(s.code) == s.code + Zeros(k)
    ensures |s.code| % 4 == 1 ==> Recovered(s.code) == s.code[..|s.code| - 1]
    ensures Decode(parse, Encode(s)).Ok? <==> parse(Recovered(s.code)).Some?
    ensures Decode(parse, Encode(s)).Ok? ==> Decode(parse, Encode(s)).value == NoteScript(s.hash, parse(Recovered(s.code)).value)
  {
    RecoveredExact(s.code);
    DecodeEncoded(s, parse);
  }
}
