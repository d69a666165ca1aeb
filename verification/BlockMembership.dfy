/** Notes a block holds, and notes the membership check takes for them. */
module BlockMembership {
  import opened Base
  import opened MerkleTrees
  import opened NoteTrees
  import opened NoteMetadata
  import opened NoteScripts
  import opened ExpectedNotes

  /** What a created note puts into the block's tree. */
  function EntryOf(h: Hasher, n: OutputNote): NoteEntry {
    NoteEntry(IdOf(h, n), MetadataWord(n.metadata))
  }

  /** The two words of some note with valid metadata. */
  predicate IsNote(entry: NoteEntry) {
    FromWord(entry.metadata).Ok?
  }

  /** A created note is authenticated by its own path, with the length the tree asks for. */
  lemma CreatedNoteIsInBlock(h: Hasher, parse: Parser, m: Advice, e: NoteEvent, depth: nat,
                             entries: seq<BlockEntry>, leaves: Leaves, i: nat)
    returns (path: seq<Word>)
    requires depth >= 1 && Pow2(depth) == BLOCK_LEAVES && BlockTree(entries) == Ok(leaves) && i < |entries|
    requires Create(h, parse, m, e).Listed? && entries[i].entry == EntryOf(h, Create(h, parse, m, e).note)
    ensures |path| == depth - 1 && IsNote(entries[i].entry)
    ensures IsInBlock(h.merge, path, NoteIndex(entries[i].batch, entries[i].note), entries[i].entry,
                      Root(h.merge, depth, leaves))
  {
    NoteAuthenticates(h.merge, depth, entries, leaves, i);
    path := GetNotePath(h.merge, depth, leaves, entries[i].batch, entries[i].note).value;
    ListedIsValid(h, parse, m, e);
  }

  /**
    The recipient of a private note is any word. If it is the hash of the two words of another
    note, then a path of 22 steps, one more than the depth, makes the check accept that other
    note, whether or not it is in the block.
   */
  lemma RecipientPasses(h: Hasher, parse: Parser, m: Advice, e: NoteEvent, depth: nat,
                        entries: seq<BlockEntry>, leaves: Leaves, i: nat, other: NoteEntry)
    returns (path: seq<Word>)
    requires Pow2(depth) == BLOCK_LEAVES && BlockTree(entries) == Ok(leaves) && i < |entries|
    requires Create(h, parse, m, e).Listed? && Create(h, parse, m, e).note.Private?
    requires entries[i].entry == EntryOf(h, Create(h, parse, m, e).note)
    requires e.recipient == (h.merge)(other.id, other.metadata)
    ensures |path| == depth + 1
    ensures IsInBlock(h.merge, path, 2 * LeafIndex(entries[i].batch, entries[i].note), other,
                      Root(h.merge, depth, leaves))
  {
    NoteIsHeld(leaves, entries, i);
    var leaf, ss := LeafIndex(entries[i].batch, entries[i].note), [AssetCommitment(h, e.asset)];
    OneStepAbove(h.merge, leaf, e.recipient, ss[0]);
    LongPathPasses(h.merge, depth, leaves, 2 * leaf, ss, other);
    path := ss + Path(h.merge, LeafOf(leaves), 0, depth, Above(2 * leaf, 1));
  }

  lemma OneStepAbove(merge: Merge, leaf: nat, node: Word, s: Word)
    ensures Above(2 * leaf, 1) == leaf && Fold(merge, [s], 2 * leaf, node) == merge(node, s)
  {
    assert [s][1..] == [] && (2 * leaf) / 2 == leaf;
  }

  lemma OneEntryBlock(entry: NoteEntry)
    ensures BlockTree([BlockEntry(0, 0, entry)]).Ok?
  {
    var entries := [BlockEntry(0, 0, entry)];
    BlockTreeExact(entries);
    assert NoteIndex(0, 0) == 0;
  }

  /**
    So for every note there are blocks without it for which the check accepts it: a block with
    one private note is enough, unless that note has the very same ID and metadata.
   */
  lemma AcceptedWithoutBeingThere(h: Hasher, parse: Parser, m: Advice, e: NoteEvent, depth: nat, other: NoteEntry)
    returns (entries: seq<BlockEntry>, path: seq<Word>)
    requires Pow2(depth) == BLOCK_LEAVES && IsNote(other)
    requires Header(e).Ok? && Header(e).value.noteType.OffChainNote?
    requires e.recipient == (h.merge)(other.id, other.metadata)
    ensures |entries| == 1 && IsNote(entries[0].entry) && BlockTree(entries).Ok?
    ensures IsInBlock(h.merge, path, 0, other, Root(h.merge, depth, BlockTree(entries).value))
    ensures entries[0].entry == EntryOf(h, Create(h, parse, m, e).note)
    ensures entries[0].entry.id == NoteId(h, (h.merge)(other.id, other.metadata), e.asset)
  {
    ListedIsValid(h, parse, m, e);
    entries := [BlockEntry(0, 0, EntryOf(h, Create(h, parse, m, e).note))];
    OneEntryBlock(entries[0].entry);
    path := RecipientPasses(h, parse, m, e, depth, entries, BlockTree(entries).value, 0, other);
  }
}
