/** Expected output notes: what is put into the advice map and the notes rebuilt from it. */
module ExpectedNotes {
  import opened Base
  import opened Assets
  import opened NoteScripts
  import opened AccountIds
  import opened NoteMetadata

  const MAX_INPUTS_PER_NOTE := 128

  /** What a recipient commits to. */
  datatype Recipient = Recipient(serial: Word, script: NoteScript, inputs: seq<Felt>)

  /** The two hash functions of the system. */
  datatype Hasher = Hasher(hash: Hash, merge: Merge)

  type Advice = map<Word, seq<Felt>>

  // ---------- commitments ----------

  function PadInputs(values: seq<Felt>): (r: seq<Felt>)
    ensures |r| % 8 == 0 && values <= r && |r| < |values| + 8
    ensures forall i | |values| <= i < |r| :: r[i] == 0
  {
    values + seq((8 - |values| % 8) % 8, _ => 0)
  }

  function InputsCommitment(h: Hasher, values: seq<Felt>): Word {
    (h.hash)(PadInputs(values))
  }

  /** One is added, in the field, to the last element of the commitment. */
  function CommitmentToKey(w: Word): Word {
    w.(e3 := FeltAdd(w.e3, 1))
  }

  lemma KeyInjective(v: Word, w: Word)
    ensures CommitmentToKey(v) == CommitmentToKey(w) <==> v == w
    ensures CommitmentToKey(v) != v
  {
  }

  function Digest(h: Hasher, serial: Word, scriptHash: Word, inputs: Word): Word {
    (h.merge)((h.merge)((h.merge)(serial, EMPTY_WORD), scriptHash), inputs)
  }

  function DigestOf(h: Hasher, n: Recipient): Word {
    Digest(h, n.serial, n.script.hash, InputsCommitment(h, n.inputs))
  }

  function Details(h: Hasher, n: Recipient): seq<Felt> {
    WordElements(InputsCommitment(h, n.inputs)) + WordElements(n.script.hash) + WordElements(n.serial)
  }

  function InputsKey(h: Hasher, n: Recipient): Word {
    CommitmentToKey(InputsCommitment(h, n.inputs))
  }

  // ---------- filling the advice map ----------

  function Added(h: Hasher, m: Advice, n: Recipient): Advice {
    m[DigestOf(h, n) := Details(h, n)][InputsKey(h, n) := n.inputs][n.script.hash := Encode(n.script)]
  }

  function AddedAll(h: Hasher, m: Advice, ns: seq<Recipient>): Advice {
    if ns == [] then m else Added(h, AddedAll(h, m, ns[..|ns| - 1]), ns[|ns| - 1])
  }

  class TransactionArgs {
    var adviceMap: Advice

    constructor (m: Advice)
      ensures adviceMap == m
    {
      adviceMap := m;
    }

    method AddExpectedOutputNote(h: Hasher, n: Recipient)
      modifies this
      ensures adviceMap == Added(h, old(adviceMap), n)
    {
      var encoded := ToElements(n.script);
      var key := CommitmentToKey(InputsCommitment(h, n.inputs));
      adviceMap := adviceMap[DigestOf(h, n) := Details(h, n)];
      adviceMap := adviceMap[key := n.inputs];
      adviceMap := adviceMap[n.script.hash := encoded];
    }

    method ExtendExpectedOutputNotes(h: Hasher, ns: seq<Recipient>)
      modifies this
      ensures adviceMap == AddedAll(h, old(adviceMap), ns)
    {
      for i := 0 to |ns|
        invariant adviceMap == AddedAll(h, old(adviceMap), ns[..i])
      {
        AddExpectedOutputNote(h, ns[i]);
        assert ns[..i + 1][..i] == ns[..i];
      }
      assert ns[..|ns|] == ns;
    }
  }

  // ---------- creating notes ----------

  datatype NoteError =
    | MalformedNoteType(value: Felt)
    | MalformedAccountId(value: Felt)
    | MalformedTag(value: Felt)
    | MalformedAsset
    | MalformedNoteMetadata
    | MissingNoteDetails(recipient: Word)
    | MalformedRecipientData
    | MalformedNoteInputs
    | MalformedNoteScript

  /** A note as the host lists it: public notes carry their recipient, others only an ID. */
  datatype OutputNote =
    | Public(metadata: Metadata, asset: Word, recipient: Recipient)
    | Private(metadata: Metadata, id: Word)

  /** What a note-created event finds on the stack. */
  datatype NoteEvent = NoteEvent(aux: Felt, noteType: Felt, sender: Felt, tag: Felt, asset: Word, recipient: Word)

  /** What comes of an event: a listed note, an error, or a panic. */
  datatype Outcome = Listed(note: OutputNote) | Refused(error: NoteError) | Aborted

  /** The commitment to a single asset, padded to a full hash block. */
  function AssetCommitment(h: Hasher, asset: Word): Word {
    (h.hash)(WordElements(asset) + [0, 0, 0, 0])
  }

  function NoteId(h: Hasher, recipient: Word, asset: Word): Word {
    (h.merge)(recipient, AssetCommitment(h, asset))
  }

  function IdOf(h: Hasher, n: OutputNote): Word {
    match n
    case Public(_, a, r) => NoteId(h, DigestOf(h, r), a)
    case Private(_, id) => id
  }

  function WordAt(data: seq<Felt>, i: nat): Word
    requires i + 4 <= |data|
  {
    Word(data[i], data[i + 1], data[i + 2], data[i + 3])
  }

  function Lookup(m: Advice, k: Word): seq<Felt> {
    if k in m then m[k] else []
  }

  /** The recipient rebuilt from the advice map, from a digest alone. */
  function Rebuild(parse: Parser, m: Advice, recipient: Word): Result<Recipient, NoteError> {
    if recipient !in m then Err(MissingNoteDetails(recipient))
    else
      var data := m[recipient];
      if |data| != 12 then Err(MalformedRecipientData)
      else
        var inputs := Lookup(m, CommitmentToKey(WordAt(data, 0)));
        if |inputs| > MAX_INPUTS_PER_NOTE then Err(MalformedNoteInputs)
        else
          match Decode(parse, Lookup(m, WordAt(data, 4)))
          case Err(_) => Err(MalformedNoteScript)
          case Ok(script) => Ok(Recipient(WordAt(data, 8), script, inputs))
  }

  /** The checks on the stack, in the order the host makes them. */
  function Header(e: NoteEvent): Result<Metadata, NoteError> {
    match TypeFromFelt(e.noteType)
    case None => Err(MalformedNoteType(e.noteType))
    case Some(t) =>
      if !ValidId(e.sender) then Err(MalformedAccountId(e.sender))
      else if e.tag >= 0x1_0000_0000 then Err(MalformedTag(e.tag))
      else if TryFromWord(e.asset).Err? then Err(MalformedAsset)
      else if !TagFits(e.tag, t) then Err(MalformedNoteMetadata)
      else Ok(Metadata(e.sender, t, e.tag, e.aux))
  }

  /** The envelope of a note that is not public exists for off-chain notes only. */
  function Create(h: Hasher, parse: Parser, m: Advice, e: NoteEvent): Outcome {
    match Header(e)
    case Err(error) => Refused(error)
    case Ok(metadata) =>
      match metadata.noteType
      case EncryptedNote => Aborted
      case OffChainNote => Listed(Private(metadata, NoteId(h, e.recipient, e.asset)))
      case PublicNote =>
        match Rebuild(parse, m, e.recipient)
        case Ok(r) => Listed(Public(metadata, e.asset, r))
        case Err(error) => Refused(error)
  }

  /** The part of the transaction host that lists created notes. */
  class NoteHost {
    const advice: Advice
    var outputNotes: seq<OutputNote>

    constructor (m: Advice)
      ensures advice == m && outputNotes == []
    {
      advice := m;
      outputNotes := [];
    }

    /** Handles a note-created event; no result stands for a panic. */
    method OnNoteCreated(h: Hasher, parse: Parser, e: NoteEvent) returns (r: Option<Result<(), NoteError>>)
      modifies this`outputNotes
      ensures match Create(h, parse, advice, e)
              case Listed(note) => r == Some(Ok(())) && outputNotes == old(outputNotes) + [note]
              case Refused(error) => r == Some(Err(error)) && outputNotes == old(outputNotes)
              case Aborted => r == None && outputNotes == old(outputNotes)
    {
      var noteType := TypeFromFelt(e.noteType);
      if noteType.None? {
        return Some(Err(MalformedNoteType(e.noteType)));
      }
      if !ValidId(e.sender) {
        return Some(Err(MalformedAccountId(e.sender)));
      }
      if e.tag >= 0x1_0000_0000 {
        return Some(Err(MalformedTag(e.tag)));
      }
      if TryFromWord(e.asset).Err? {
        return Some(Err(MalformedAsset));
      }
      if !TagFits(e.tag, noteType.value) {
        return Some(Err(MalformedNoteMetadata));
      }
      var metadata := Metadata(e.sender, noteType.value, e.tag, e.aux);
      if metadata.noteType.PublicNote? {
        var recipient := RebuildRecipient(parse, e.recipient);
        if recipient.Err? {
          return Some(Err(recipient.error));
        }
        outputNotes := outputNotes + [Public(metadata, e.asset, recipient.value)];
      } else {
        if !metadata.noteType.OffChainNote? {
          return None;
        }
        outputNotes := outputNotes + [Private(metadata, NoteId(h, e.recipient, e.asset))];
      }
      return Some(Ok(()));
    }

    method RebuildRecipient(parse: Parser, recipient: Word) returns (r: Result<Recipient, NoteError>)
      ensures r == Rebuild(parse, advice, recipient)
    {
      if recipient !in advice {
        return Err(MissingNoteDetails(recipient));
      }
      var data := advice[recipient];
      if |data| != 12 {
        return Err(MalformedRecipientData);
      }
      var inputsKey := CommitmentToKey(WordAt(data, 0));
      var inputs := if inputsKey in advice then advice[inputsKey] else [];
      if |inputs| > MAX_INPUTS_PER_NOTE {
        return Err(MalformedNoteInputs);
      }
      var script := FromElements(parse, Lookup(advice, WordAt(data, 4)));
      if script.Err? {
        return Err(MalformedNoteScript);
      }
      return Ok(Recipient(WordAt(data, 8), script.value, inputs));
    }
  }

  /** Each check on the stack has its own error, and the first that fails is reported. */
  lemma HeaderErrors(e: NoteEvent)
    ensures var r := Header(e);
            var typed := e.noteType in {1, 2, 3};
            && (r == Err(MalformedNoteType(e.noteType)) <==> !typed)
            && (r == Err(MalformedAccountId(e.sender)) <==> typed && !ValidId(e.sender))
            && (r == Err(MalformedTag(e.tag)) <==> typed && ValidId(e.sender) && e.tag >= 0x1_0000_0000)
            && (r == Err(MalformedAsset) <==>
                  typed && ValidId(e.sender) && e.tag < 0x1_0000_0000 && TryFromWord(e.asset).Err?)
            && (r == Err(MalformedNoteMetadata) <==>
                  && typed && ValidId(e.sender) && e.tag < 0x1_0000_0000 && TryFromWord(e.asset).Ok?
                  && !TagFits(e.tag, TypeFromFelt(e.noteType).value))
  {
    TypeCodes(e.noteType);
  }

  /** Likewise for the data in the advice map: missing, of the wrong size, too many inputs. */
  lemma RebuildErrors(parse: Parser, m: Advice, recipient: Word)
    ensures var r := Rebuild(parse, m, recipient);
            && (r == Err(MissingNoteDetails(recipient)) <==> recipient !in m)
            && (r == Err(MalformedRecipientData) <==> recipient in m && |m[recipient]| != 12)
            && (r == Err(MalformedNoteInputs) <==>
                  && recipient in m && |m[recipient]| == 12
                  && |Lookup(m, CommitmentToKey(WordAt(m[recipient], 0)))| > 128)
  {
  }

  /** What is listed has valid metadata: those the event's stack asks for. */
  lemma ListedIsValid(h: Hasher, parse: Parser, m: Advice, e: NoteEvent)
    requires Create(h, parse, m, e).Listed?
    ensures var md := Create(h, parse, m, e).note.metadata;
            && ValidMetadata(md) && MetadataWord(md) == Word(e.tag, e.sender, e.noteType, e.aux)
            && FromWord(MetadataWord(md)) == Ok(md)
  {
    MetadataExact(MetadataWord(Create(h, parse, m, e).note.metadata), Create(h, parse, m, e).note.metadata);
  }

  /** The host panics exactly on events for encrypted notes that are otherwise in order. */
  lemma AbortsExactly(h: Hasher, parse: Parser, m: Advice, e: NoteEvent)
    ensures Create(h, parse, m, e).Aborted? <==>
            e.noteType == 3 && ValidId(e.sender) && e.tag < 0x4000_0000 && TryFromWord(e.asset).Ok?
  {
  }

  // ---------- the rebuilt note is the expected one ----------

  ghost predicate ApartFrom(h: Hasher, a: Recipient, b: Recipient) {
    DigestOf(h, a) != InputsKey(h, b) && DigestOf(h, a) != b.script.hash && InputsKey(h, a) != b.script.hash
  }

  /** No key of one kind, of any listed note, is a key of another kind, of any listed note. */
  ghost predicate KindsApart(h: Hasher, ns: seq<Recipient>) {
    forall a, b | a in ns && b in ns :: ApartFrom(h, a, b)
  }

  /** Under each key of `n` lie the data of some listed note that shares that key. */
  ghost predicate Holds(h: Hasher, m: Advice, ns: seq<Recipient>, n: Recipient) {
    && HoldsDetails(h, m, ns, DigestOf(h, n))
    && HoldsInputs(h, m, ns, InputsCommitment(h, n.inputs))
    && HoldsScript(m, ns, n.script.hash)
  }

  ghost predicate HoldsDetails(h: Hasher, m: Advice, ns: seq<Recipient>, digest: Word) {
    digest in m && exists b :: b in ns && DigestOf(h, b) == digest && m[digest] == Details(h, b)
  }

  ghost predicate HoldsInputs(h: Hasher, m: Advice, ns: seq<Recipient>, commitment: Word) {
    var key := CommitmentToKey(commitment);
    key in m && exists b :: b in ns && InputsCommitment(h, b.inputs) == commitment && m[key] == b.inputs
  }

  ghost predicate HoldsScript(m: Advice, ns: seq<Recipient>, hash: Word) {
    hash in m && exists b :: b in ns && b.script.hash == hash && m[hash] == Encode(b.script)
  }

  lemma AddKeepsDetails(h: Hasher, m: Advice, ns: seq<Recipient>, last: Recipient, digest: Word)
    requires digest != InputsKey(h, last) && digest != last.script.hash
    requires digest == DigestOf(h, last) || HoldsDetails(h, m, ns, digest)
    ensures HoldsDetails(h, Added(h, m, last), ns + [last], digest)
  {
    var m' := Added(h, m, last);
    if digest == DigestOf(h, last) {
      assert last in ns + [last] && m'[digest] == Details(h, last);
    } else {
      var b :| b in ns && DigestOf(h, b) == digest && m[digest] == Details(h, b);
      assert b in ns + [last] && m'[digest] == Details(h, b);
    }
  }

  lemma AddKeepsInputs(h: Hasher, m: Advice, ns: seq<Recipient>, last: Recipient, c: Word)
    requires CommitmentToKey(c) != DigestOf(h, last) && CommitmentToKey(c) != last.script.hash
    requires c == InputsCommitment(h, last.inputs) || HoldsInputs(h, m, ns, c)
    ensures HoldsInputs(h, Added(h, m, last), ns + [last], c)
  {
    var m' := Added(h, m, last);
    var key := CommitmentToKey(c);
    KeyInjective(c, InputsCommitment(h, last.inputs));
    if c == InputsCommitment(h, last.inputs) {
      assert last in ns + [last] && m'[key] == last.inputs;
    } else {
      var b :| b in ns && InputsCommitment(h, b.inputs) == c && m[key] == b.inputs;
      assert b in ns + [last] && m'[key] == b.inputs;
    }
  }

  lemma AddKeepsScript(h: Hasher, m: Advice, ns: seq<Recipient>, last: Recipient, hash: Word)
    requires hash != DigestOf(h, last) && hash != InputsKey(h, last)
    requires hash == last.script.hash || HoldsScript(m, ns, hash)
    ensures HoldsScript(Added(h, m, last), ns + [last], hash)
  {
    var m' := Added(h, m, last);
    if hash == last.script.hash {
      assert last in ns + [last] && m'[hash] == Encode(last.script);
    } else {
      var b :| b in ns && b.script.hash == hash && m[hash] == Encode(b.script);
      assert b in ns + [last] && m'[hash] == Encode(b.script);
    }
  }

  /** One more note disturbs nothing: its keys hold its own data, every other key what it held. */
  lemma AddKeeps(h: Hasher, m: Advice, ns: seq<Recipient>, last: Recipient, n: Recipient)
    requires ApartFrom(h, n, last) && ApartFrom(h, last, n)
    requires n == last || Holds(h, m, ns, n)
    ensures Holds(h, Added(h, m, last), ns + [last], n)
  {
    AddKeepsDetails(h, m, ns, last, DigestOf(h, n));
    AddKeepsInputs(h, m, ns, last, InputsCommitment(h, n.inputs));
    AddKeepsScript(h, m, ns, last, n.script.hash);
  }

  lemma {:induction false} AddAllHolds(h: Hasher, m: Advice, ns: seq<Recipient>, n: Recipient)
    requires KindsApart(h, ns) && n in ns
    ensures Holds(h, AddedAll(h, m, ns), ns, n)
    decreases |ns|
  {
    var front, last := ns[..|ns| - 1], ns[|ns| - 1];
    assert ns == front + [last];
    if n != last {
      AddAllHolds(h, m, front, n);
    }
    AddKeeps(h, AddedAll(h, m, front), front, last, n);
  }

  lemma DetailsWords(h: Hasher, n: Recipient)
    ensures |Details(h, n)| == 12
    ensures WordAt(Details(h, n), 0) == InputsCommitment(h, n.inputs)
    ensures WordAt(Details(h, n), 4) == n.script.hash
    ensures WordAt(Details(h, n), 8) == n.serial
  {
  }

  /** The notes a host can be asked for: their inputs were accepted when they were built. */
  ghost predicate Notes(ns: seq<Recipient>) {
    forall n | n in ns :: |n.inputs| <= MAX_INPUTS_PER_NOTE
  }

  ghost predicate Decodable(parse: Parser, ns: seq<Recipient>) {
    forall n | n in ns :: parse(Recovered(n.script.code)).Some?
  }

  /** What the host reads when the details under a digest are those of `b`. */
  lemma RebuildFrom(h: Hasher, parse: Parser, m: Advice, digest: Word, b: Recipient, inputs: seq<Felt>, s: NoteScript)
    requires digest in m && m[digest] == Details(h, b)
    requires InputsKey(h, b) in m && m[InputsKey(h, b)] == inputs && |inputs| <= MAX_INPUTS_PER_NOTE
    requires b.script.hash in m && m[b.script.hash] == Encode(s) && s.hash == b.script.hash
    ensures var r := Rebuild(parse, m, digest);
            var code := parse(Recovered(s.code));
            && (r.Ok? <==> code.Some?)
            && (r.Ok? ==> r.value.serial == b.serial && r.value.script.hash == s.hash && r.value.inputs == inputs)
            && (r.Ok? ==> r.value.script.code == code.value)
            && (r.Err? ==> r.error == MalformedNoteScript)
  {
    DetailsWords(h, b);
    DecodeEncoded(s, parse);
  }

  lemma RebuildHeld(h: Hasher, parse: Parser, m: Advice, ns: seq<Recipient>, digest: Word, b: Recipient)
    requires Notes(ns) && b in ns && Holds(h, m, ns, b)
    requires digest == DigestOf(h, b) && digest in m && m[digest] == Details(h, b)
    ensures Rebuilds(h, parse, ns, digest, Rebuild(parse, m, digest))
  {
    var c := InputsCommitment(h, b.inputs);
    var i :| i in ns && InputsCommitment(h, i.inputs) == c && m[CommitmentToKey(c)] == i.inputs;
    var s :| s in ns && s.script.hash == b.script.hash && m[b.script.hash] == Encode(s.script);
    RebuildFrom(h, parse, m, digest, b, i.inputs, s.script);
  }

  ghost predicate Rebuilds(h: Hasher, parse: Parser, ns: seq<Recipient>, digest: Word, r: Result<Recipient, NoteError>) {
    && (Decodable(parse, ns) ==> r.Ok?)
    && (r.Ok? ==> DigestOf(h, r.value) == digest)
    && (r.Err? ==> r.error == MalformedNoteScript)
  }

  lemma RebuiltDigest(h: Hasher, parse: Parser, m: Advice, ns: seq<Recipient>, n: Recipient)
    requires KindsApart(h, ns) && Notes(ns) && n in ns
    ensures Rebuilds(h, parse, ns, DigestOf(h, n), Rebuild(parse, AddedAll(h, m, ns), DigestOf(h, n)))
  {
    var advice, digest := AddedAll(h, m, ns), DigestOf(h, n);
    AddAllHolds(h, m, ns, n);
    var b :| b in ns && DigestOf(h, b) == digest && advice[digest] == Details(h, b);
    AddAllHolds(h, m, ns, b);
    RebuildHeld(h, parse, advice, ns, digest, b);
  }

  /**
    After any sequence of expected notes whose keys of different kinds do not collide, an event
    for a public note with a listed recipient gives a note with the very ID that an event for a
    private note with that recipient and asset gives. The note is listed whenever the listed
    scripts decode, and an undecodable script is the only failure. Notes may share scripts,
    inputs or digests.
   */
  lemma RebuiltIdentity(
    h: Hasher, parse: Parser, m: Advice, ns: seq<Recipient>, n: Recipient, e: NoteEvent, other: NoteEvent)
    requires KindsApart(h, ns) && Notes(ns) && n in ns
    requires Header(e).Ok? && Header(e).value.noteType.PublicNote? && e.recipient == DigestOf(h, n)
    ensures CreatesAs(h, parse, ns, Create(h, parse, AddedAll(h, m, ns), e), e)
    ensures SameIds(h, Create(h, parse, AddedAll(h, m, ns), e), e, Create(h, parse, AddedAll(h, m, ns), other), other)
  {
    RebuiltDigest(h, parse, m, ns, n);
    CreatedFrom(h, parse, AddedAll(h, m, ns), ns, e, other);
  }

  lemma CreatedFrom(h: Hasher, parse: Parser, advice: Advice, ns: seq<Recipient>, e: NoteEvent, other: NoteEvent)
    requires Header(e).Ok? && Header(e).value.noteType.PublicNote?
    requires Rebuilds(h, parse, ns, e.recipient, Rebuild(parse, advice, e.recipient))
    ensures CreatesAs(h, parse, ns, Create(h, parse, advice, e), e)
    ensures SameIds(h, Create(h, parse, advice, e), e, Create(h, parse, advice, other), other)
  {
  }

  /** The event's note is listed with the ID made of its recipient and asset, if scripts decode. */
  ghost predicate CreatesAs(h: Hasher, parse: Parser, ns: seq<Recipient>, made: Outcome, e: NoteEvent) {
    && (Decodable(parse, ns) ==> made.Listed?)
    && (made.Listed? ==> made.note.Public? && IdOf(h, made.note) == NoteId(h, e.recipient, e.asset))
    && (made.Listed? || made == Refused(MalformedNoteScript))
  }

  /** A private note with the same recipient and asset has the same ID. */
  predicate SameIds(h: Hasher, made: Outcome, e: NoteEvent, private: Outcome, other: NoteEvent) {
    made.Listed? && private.Listed? && private.note.Private? && other.recipient == e.recipient && other.asset == e.asset
    ==> IdOf(h, made.note) == IdOf(h, private.note)
  }

  /** Listed notes that agree with `n` in a commitment agree in what is committed to. */
  ghost predicate CommitsTo(h: Hasher, ns: seq<Recipient>, n: Recipient) {
    forall b | b in ns ::
      && (DigestOf(h, b) == DigestOf(h, n) ==> Details(h, b) == Details(h, n))
      && (b.script.hash == n.script.hash ==> b.script == n.script)
      && (InputsCommitment(h, b.inputs) == InputsCommitment(h, n.inputs) ==> b.inputs == n.inputs)
  }

  /**
    When the commitments of the listed notes do not collide, the whole recipient comes back,
    serial number, script and inputs, exactly when its program survives packing.
   */
  lemma RebuiltRecipient(h: Hasher, parse: Parser, m: Advice, ns: seq<Recipient>, n: Recipient)
    requires KindsApart(h, ns) && Notes(ns) && n in ns && CommitsTo(h, ns, n)
    ensures Rebuild(parse, AddedAll(h, m, ns), DigestOf(h, n)) == Ok(n)
            <==> parse(Recovered(n.script.code)) == Some(n.script.code)
  {
    AddAllHolds(h, m, ns, n);
    RebuildFrom(h, parse, AddedAll(h, m, ns), DigestOf(h, n), n, n.inputs, n.script);
  }
}
