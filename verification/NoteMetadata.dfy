/** Note metadata: the sender, the type, the tag and a free value, and their form as a word. */
module NoteMetadata {
  import opened Base
  import opened AccountIds

  datatype NoteType = OffChainNote | EncryptedNote | PublicNote

  type Tag = x: int | 0 <= x < 0x1_0000_0000

  datatype Metadata = Metadata(sender: Felt, noteType: NoteType, tag: Tag, aux: Felt)

  datatype MetadataError = InvalidNoteSender | InvalidNoteTypeValue | InconsistentNoteTag

  function TypeCode(t: NoteType): Felt {
    match t
    case PublicNote => 1
    case OffChainNote => 2
    case EncryptedNote => 3
  }

  function TypeFromFelt(v: Felt): Option<NoteType> {
    match v
    case 1 => Some(PublicNote)
    case 2 => Some(OffChainNote)
    case 3 => Some(EncryptedNote)
    case _ => None
  }

  /** The two highest bits of the tag have no bit in common with the type's code. */
  predicate TagFits(tag: Tag, t: NoteType) {
    var bits := tag / 0x4000_0000;
    match t
    case PublicNote => bits % 2 == 0
    case OffChainNote => bits < 2
    case EncryptedNote => bits == 0
  }

  /** The tag's two highest bits and the bits of the type's code have none in common. */
  lemma TagMeaning(tag: Tag, t: NoteType)
    ensures TagFits(tag, t) <==>
            && !((tag / 0x4000_0000) % 2 == 1 && TypeCode(t) % 2 == 1)
            && !(tag / 0x8000_0000 == 1 && TypeCode(t) / 2 == 1)
  {
    var bits := tag / 0x4000_0000;
    assert tag / 0x8000_0000 == bits / 2;
  }

  /** The codes of the three types, and that there are no others. */
  lemma TypeCodes(v: Felt)
    ensures TypeFromFelt(v) == if v == 1 then Some(PublicNote) else if v == 2 then Some(OffChainNote)
                               else if v == 3 then Some(EncryptedNote) else None
    ensures forall t :: TypeFromFelt(v) == Some(t) <==> v == TypeCode(t)
  {
  }

  /** What the constructor of metadata and the type of account IDs establish. */
  predicate ValidMetadata(m: Metadata) {
    ValidId(m.sender) && TagFits(m.tag, m.noteType)
  }

  function MetadataWord(m: Metadata): Word {
    Word(m.tag, m.sender, TypeCode(m.noteType), m.aux)
  }

  function FromWord(w: Word): Result<Metadata, MetadataError> {
    if !ValidId(w.e1) then Err(InvalidNoteSender)
    else
      match TypeFromFelt(w.e2)
      case None => Err(InvalidNoteTypeValue)
      case Some(t) =>
        if w.e0 >= 0x1_0000_0000 || !TagFits(w.e0, t) then Err(InconsistentNoteTag)
        else Ok(Metadata(w.e1, t, w.e0, w.e3))
  }

  /** A word decodes to metadata exactly if it is the word of that valid metadata. */
  lemma MetadataExact(w: Word, m: Metadata)
    ensures FromWord(w) == Ok(m) <==> ValidMetadata(m) && MetadataWord(m) == w
  {
  }
}
