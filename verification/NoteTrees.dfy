/**
  Note trees. The batch tree has depth 13 and the block tree depth 21 = 13 + 8. Depths appear as
  parameters with the right number of leaves.
 */
module NoteTrees {
  import opened Base
  import opened MerkleTrees

  const MAX_NOTES_PER_BATCH := 4096
  const MAX_BATCHES_PER_BLOCK := 256
  const BATCH_LEAVES := 8192
  const BLOCK_LEAVES := 0x20_0000

  /** The depths of the repository's trees, and the numbers of leaves they give. */
  lemma Depths()
    ensures Pow2(13) == BATCH_LEAVES == 2 * MAX_NOTES_PER_BATCH
    ensures Pow2(8) == MAX_BATCHES_PER_BLOCK
    ensures Pow2(13 + 8) == BLOCK_LEAVES == BATCH_LEAVES * MAX_BATCHES_PER_BLOCK
  {
    assert Pow2(4) == 16;
    assert Pow2(8) == 256;
    assert Pow2(12) == 4096;
    assert Pow2(16) == 65536;
    assert Pow2(20) == 0x10_0000;
  }

  // ---------- the block tree and the batch tree ----------

  /** The two words a note puts into the tree. */
  datatype NoteEntry = NoteEntry(id: Word, metadata: Word)

  datatype BlockEntry = BlockEntry(batch: nat, note: nat, entry: NoteEntry)

  function NoteIndex(batch: nat, note: nat): nat {
    batch * MAX_NOTES_PER_BATCH + note
  }

  function LeafIndex(batch: nat, note: nat): nat {
    NoteIndex(batch, note) * 2
  }

  function Interleave(entries: seq<BlockEntry>): (r: seq<(nat, Word)>)
    ensures |r| == 2 * |entries|
    ensures forall i | 0 <= i < |entries| ::
              var index := LeafIndex(entries[i].batch, entries[i].note);
              r[2 * i] == (index, entries[i].entry.id) && r[2 * i + 1] == (index + 1, entries[i].entry.metadata)
  {
    if entries == [] then []
    else
      var e := entries[|entries| - 1];
      var index := LeafIndex(e.batch, e.note);
      Interleave(entries[..|entries| - 1]) + [(index, e.entry.id), (index + 1, e.entry.metadata)]
  }

  function BlockTree(entries: seq<BlockEntry>): Result<Leaves, MerkleError> {
    WithLeaves(BLOCK_LEAVES, Interleave(entries))
  }

  function Flatten(notes: seq<NoteEntry>): (r: seq<Word>)
    ensures |r| == 2 * |notes|
    ensures forall k | 0 <= k < |r| :: r[k] == if k % 2 == 0 then notes[k / 2].id else notes[k / 2].metadata
  {
    if notes == [] then []
    else
      var e := notes[|notes| - 1];
      Flatten(notes[..|notes| - 1]) + [e.id, e.metadata]
  }

  function BatchTree(notes: seq<NoteEntry>): Result<Leaves, MerkleError> {
    WithLeaves(BATCH_LEAVES, Contiguous(Flatten(notes)))
  }

  predicate InRange(batch: nat, note: nat) {
    batch < MAX_BATCHES_PER_BLOCK && note < MAX_NOTES_PER_BATCH
  }

  /** Notes in range get different pairs of leaves, all of them in the tree. */
  lemma LeafPairs(b1: nat, n1: nat, b2: nat, n2: nat)
    requires InRange(b1, n1) && InRange(b2, n2)
    ensures LeafIndex(b1, n1) + 1 < BLOCK_LEAVES
    ensures NoteIndex(b1, n1) == NoteIndex(b2, n2) <==> (b1, n1) == (b2, n2)
    ensures LeafIndex(b1, n1) != LeafIndex(b2, n2) + 1
  {
  }

  /** Beyond the batch capacity the index runs into the next batch. */
  lemma OverfullBatchAliases(batch: nat, note: nat)
    ensures NoteIndex(batch, note + MAX_NOTES_PER_BATCH) == NoteIndex(batch + 1, note)
  {
  }

  /** Different notes, in any batches, get different indexes exactly up to the batch capacity. */
  lemma IndexesDifferExactly(n: nat)
    ensures (forall b1: nat, n1: nat, b2: nat, n2: nat | n1 < n && n2 < n ::
               NoteIndex(b1, n1) == NoteIndex(b2, n2) ==> b1 == b2 && n1 == n2) <==> n <= MAX_NOTES_PER_BATCH
  {
    if n > MAX_NOTES_PER_BATCH {
      OverfullBatchAliases(0, 0);
      assert NoteIndex(0, 0 + MAX_NOTES_PER_BATCH) == NoteIndex(0 + 1, 0);
    }
  }

  /** What a built block tree holds: at each note's two leaves its words, elsewhere nothing. */
  ghost predicate HoldsNotes(leaves: Leaves, entries: seq<BlockEntry>) {
    && (forall i | 0 <= i < |entries| ::
          var index := LeafIndex(entries[i].batch, entries[i].note);
          && Leaf(leaves, index) == entries[i].entry.id && Leaf(leaves, index + 1) == entries[i].entry.metadata)
    && (forall k :: k in leaves ==> exists i :: 0 <= i < |entries| && NoteIndex(entries[i].batch, entries[i].note) == k / 2)
  }

  predicate DistinctNotes(entries: seq<BlockEntry>) {
    forall i, j | 0 <= i < j < |entries| ::
      NoteIndex(entries[i].batch, entries[i].note) != NoteIndex(entries[j].batch, entries[j].note)
  }

  predicate NotesBelow(entries: seq<BlockEntry>, n: nat) {
    forall i | 0 <= i < |entries| :: NoteIndex(entries[i].batch, entries[i].note) < n
  }

  lemma InterleavedAt(entries: seq<BlockEntry>, k: nat)
    requires k < 2 * |entries|
    ensures var e := entries[k / 2];
            Interleave(entries)[k] == (LeafIndex(e.batch, e.note) + k % 2, if k % 2 == 0 then e.entry.id else e.entry.metadata)
  {
    var i := k / 2;
    assert i < |entries| && (k == 2 * i || k == 2 * i + 1);
    assert Interleave(entries)[2 * i] == (LeafIndex(entries[i].batch, entries[i].note), entries[i].entry.id);
  }

  function IndexAt(entries: seq<BlockEntry>, i: nat): nat
    requires i < |entries|
  {
    NoteIndex(entries[i].batch, entries[i].note)
  }

  lemma InterleavedDistinct(entries: seq<BlockEntry>)
    ensures DistinctIndexes(Interleave(entries)) <==> DistinctNotes(entries)
  {
    var es := Interleave(entries);
    if DistinctIndexes(es) {
      forall i, j | 0 <= i < j < |entries| ensures IndexAt(entries, i) != IndexAt(entries, j) {
        assert es[2 * i].0 != es[2 * j].0;
      }
    }
    if DistinctNotes(entries) {
      forall k, l | 0 <= k < l < |es| ensures es[k].0 != es[l].0 {
        InterleavedAt(entries, k);
        InterleavedAt(entries, l);
        if k / 2 < l / 2 {
          assert IndexAt(entries, k / 2) != IndexAt(entries, l / 2);
        }
      }
    }
  }

  lemma InterleavedBelow(entries: seq<BlockEntry>)
    ensures IndexesBelow(Interleave(entries), BLOCK_LEAVES) <==> NotesBelow(entries, BLOCK_LEAVES / 2)
  {
    var es := Interleave(entries);
    if IndexesBelow(es, BLOCK_LEAVES) {
      forall i | 0 <= i < |entries| ensures IndexAt(entries, i) < BLOCK_LEAVES / 2 {
        assert es[2 * i].0 < BLOCK_LEAVES;
      }
    }
    if NotesBelow(entries, BLOCK_LEAVES / 2) {
      forall k | 0 <= k < |es| ensures es[k].0 < BLOCK_LEAVES {
        InterleavedAt(entries, k);
        assert IndexAt(entries, k / 2) < BLOCK_LEAVES / 2;
      }
    }
  }

  /** The block tree is built exactly when the notes' indexes are below 2^20 and all different. */
  lemma BlockTreeExact(entries: seq<BlockEntry>)
    ensures BlockTree(entries).Ok? <==> DistinctNotes(entries) && NotesBelow(entries, BLOCK_LEAVES / 2)
    ensures BlockTree(entries).Ok? ==> HoldsNotes(BlockTree(entries).value, entries)
  {
    WithLeavesExact(BLOCK_LEAVES, Interleave(entries));
    InterleavedDistinct(entries);
    InterleavedBelow(entries);
    if BlockTree(entries).Ok? {
      NotesAreHeld(BlockTree(entries).value, entries);
    }
  }

  lemma NotesAreHeld(leaves: Leaves, entries: seq<BlockEntry>)
    requires HoldsEntries(leaves, Interleave(entries))
    ensures HoldsNotes(leaves, entries)
  {
    var es := Interleave(entries);
    forall i | 0 <= i < |entries|
      ensures var index := LeafIndex(entries[i].batch, entries[i].note);
              && Leaf(leaves, index) == entries[i].entry.id && Leaf(leaves, index + 1) == entries[i].entry.metadata
    {
      assert es[2 * i].0 in leaves && es[2 * i + 1].0 in leaves;
    }
    forall k | k in leaves ensures exists i :: 0 <= i < |entries| && NoteIndex(entries[i].batch, entries[i].note) == k / 2 {
      var i :| 0 <= i < |es| && es[i].0 == k;
      InterleavedAt(entries, i);
    }
  }

  /** A batch tree is built exactly when its notes fit. */
  lemma BatchTreeExact(notes: seq<NoteEntry>)
    ensures BatchTree(notes).Ok? <==> |notes| <= MAX_NOTES_PER_BATCH
    ensures BatchTree(notes).Ok? ==>
              forall k: nat :: Leaf(BatchTree(notes).value, k) ==
                               if k < 2 * |notes| then Flatten(notes)[k] else EMPTY_WORD
  {
    WithLeavesExact(BATCH_LEAVES, Contiguous(Flatten(notes)));
    ContiguousFits(Flatten(notes), BATCH_LEAVES);
    if BatchTree(notes).Ok? {
      forall k: nat ensures Leaf(BatchTree(notes).value, k) == if k < 2 * |notes| then Flatten(notes)[k] else EMPTY_WORD {
        ContiguousHeld(BatchTree(notes).value, Flatten(notes), k);
      }
    }
  }

  // ---------- the block tree is a tree of batch trees ----------

  predicate Fits(batches: seq<seq<NoteEntry>>) {
    |batches| <= MAX_BATCHES_PER_BLOCK && forall b | 0 <= b < |batches| :: |batches[b]| <= MAX_NOTES_PER_BATCH
  }

  predicate IsNoteOf(e: BlockEntry, batches: seq<seq<NoteEntry>>) {
    e.batch < |batches| && e.note < |batches[e.batch]| && e.entry == batches[e.batch][e.note]
  }

  ghost predicate AllListed(entries: seq<BlockEntry>, batches: seq<seq<NoteEntry>>) {
    forall e :: IsNoteOf(e, batches) ==> e in entries
  }

  /** The entries, in whatever order, are the notes of the batches. */
  ghost predicate ListsBatches(entries: seq<BlockEntry>, batches: seq<seq<NoteEntry>>) {
    && Fits(batches)
    && (forall i | 0 <= i < |entries| :: IsNoteOf(entries[i], batches))
    && (forall i, j | 0 <= i < j < |entries| :: entries[i] != entries[j])
    && AllListed(entries, batches)
  }

  lemma ListedIsBuilt(entries: seq<BlockEntry>, batches: seq<seq<NoteEntry>>)
    requires ListsBatches(entries, batches)
    ensures BlockTree(entries).Ok? && HoldsNotes(BlockTree(entries).value, entries)
  {
    BlockTreeExact(entries);
    forall i, j | 0 <= i < j < |entries|
      ensures NoteIndex(entries[i].batch, entries[i].note) != NoteIndex(entries[j].batch, entries[j].note)
    {
      LeafPairs(entries[i].batch, entries[i].note, entries[j].batch, entries[j].note);
    }
    forall i | 0 <= i < |entries| ensures NoteIndex(entries[i].batch, entries[i].note) < BLOCK_LEAVES / 2 {
      LeafPairs(entries[i].batch, entries[i].note, entries[i].batch, entries[i].note);
    }
  }

  function BatchLeaves(batches: seq<seq<NoteEntry>>, b: nat): Leaves
    requires forall b | 0 <= b < |batches| :: BatchTree(batches[b]).Ok?
  {
    if b < |batches| then BatchTree(batches[b]).value else map[]
  }

  lemma LeafOfNote(leaves: Leaves, entries: seq<BlockEntry>, batches: seq<seq<NoteEntry>>, b: nat, k: nat)
    requires AllListed(entries, batches) && HoldsNotes(leaves, entries)
    requires b < |batches| && k < 2 * |batches[b]|
    ensures Leaf(leaves, b * BATCH_LEAVES + k) == Flatten(batches[b])[k]
  {
    var n := k / 2;
    var note := batches[b][n];
    var e := BlockEntry(b, n, note);
    assert IsNoteOf(e, batches);
    var i :| 0 <= i < |entries| && entries[i] == e;
    LeafOfEntry(leaves, entries, i);
  }

  lemma LeafOfEntry(leaves: Leaves, entries: seq<BlockEntry>, i: nat)
    requires HoldsNotes(leaves, entries) && i < |entries|
    ensures var e := entries[i];
            && Leaf(leaves, e.batch * BATCH_LEAVES + 2 * e.note) == e.entry.id
            && Leaf(leaves, e.batch * BATCH_LEAVES + 2 * e.note + 1) == e.entry.metadata
  {
    var e := entries[i];
    assert LeafIndex(e.batch, e.note) == e.batch * BATCH_LEAVES + 2 * e.note;
  }

  lemma NoLeafElsewhere(leaves: Leaves, entries: seq<BlockEntry>, batches: seq<seq<NoteEntry>>, b: nat, k: nat)
    requires Fits(batches) && HoldsNotes(leaves, entries)
    requires forall i | 0 <= i < |entries| :: IsNoteOf(entries[i], batches)
    requires b < MAX_BATCHES_PER_BLOCK && k < BATCH_LEAVES && (b < |batches| ==> k >= 2 * |batches[b]|)
    ensures b * BATCH_LEAVES + k !in leaves
  {
    var x := b * BATCH_LEAVES + k;
    if x in leaves {
      var i :| 0 <= i < |entries| && NoteIndex(entries[i].batch, entries[i].note) == x / 2;
      var e := entries[i];
      assert IsNoteOf(e, batches);
      assert x / 2 == NoteIndex(b, k / 2);
      LeafPairs(e.batch, e.note, b, k / 2);
    }
  }

  /** Leaf `k` of batch `b` is leaf `8192 b + k` of the block. */
  lemma LeafOfBatch(leaves: Leaves, entries: seq<BlockEntry>, batches: seq<seq<NoteEntry>>, b: nat, k: nat)
    requires ListsBatches(entries, batches) && HoldsNotes(leaves, entries)
    requires b < MAX_BATCHES_PER_BLOCK && k < BATCH_LEAVES
    requires forall b | 0 <= b < |batches| :: BatchTree(batches[b]).Ok?
    ensures Leaf(leaves, b * BATCH_LEAVES + k) == Leaf(BatchLeaves(batches, b), k)
  {
    if b < |batches| {
      BatchTreeExact(batches[b]);
    }
    if b < |batches| && k < 2 * |batches[b]| {
      LeafOfNote(leaves, entries, batches, b, k);
    } else {
      NoLeafElsewhere(leaves, entries, batches, b, k);
    }
  }

  /** Below leaf `b` of the upper tree is batch b's own tree. */
  lemma BatchNode(merge: Merge, depth: nat, leaves: Leaves, entries: seq<BlockEntry>, batches: seq<seq<NoteEntry>>, b: nat)
    requires ListsBatches(entries, batches) && HoldsNotes(leaves, entries)
    requires b < MAX_BATCHES_PER_BLOCK && Pow2(depth) == BATCH_LEAVES
    requires forall b | 0 <= b < |batches| :: BatchTree(batches[b]).Ok?
    ensures Node(merge, LeafOf(leaves), depth, b) == Root(merge, depth, BatchLeaves(batches, b))
  {
    var f, g, base := LeafOf(leaves), LeafOf(BatchLeaves(batches, b)), b * BATCH_LEAVES;
    forall k: nat | k < BATCH_LEAVES ensures At(f, base, k) == At(g, 0, k) {
      LeafOfBatch(leaves, entries, batches, b, k);
    }
    SameLeaves(merge, f, base, b, g, 0, 0, depth);
  }

  /**
    Tree composition: the block note root is the root of a depth-8 tree whose leaf `b` is the
    root of batch b's own note tree, and of an empty depth-13 tree where there is no batch.
   */
  lemma Composition(merge: Merge, batchDepth: nat, upperDepth: nat, entries: seq<BlockEntry>, batches: seq<seq<NoteEntry>>)
    requires Pow2(batchDepth) == BATCH_LEAVES && Pow2(upperDepth) == MAX_BATCHES_PER_BLOCK
    requires ListsBatches(entries, batches)
    ensures forall b | 0 <= b < |batches| :: BatchTree(batches[b]).Ok?
    ensures BlockTree(entries).Ok?
    ensures Root(merge, batchDepth + upperDepth, BlockTree(entries).value) ==
            Node(merge, (b: nat) => Root(merge, batchDepth, BatchLeaves(batches, b)), upperDepth, 0)
  {
    ListedIsBuilt(entries, batches);
    forall b | 0 <= b < |batches| ensures BatchTree(batches[b]).Ok? {
      BatchTreeExact(batches[b]);
    }
    var leaves := BlockTree(entries).value;
    var f := LeafOf(leaves);
    Layers(merge, f, batchDepth, upperDepth, 0);
    var inner := (j: nat) => Node(merge, f, batchDepth, j);
    var outer := (b: nat) => Root(merge, batchDepth, BatchLeaves(batches, b));
    forall b: nat | b < Pow2(upperDepth) ensures At(inner, 0, b) == At(outer, 0, b) {
      BatchNode(merge, batchDepth, leaves, entries, batches, b);
    }
    SameLeaves(merge, inner, 0, 0, outer, 0, 0, upperDepth);
  }

  // ---------- authenticating a note ----------

  /** The path to the parent of a note's two leaves: the leaf's path without its first step. */
  function GetNotePath(merge: Merge, depth: nat, leaves: Leaves, batch: nat, note: nat)
    : (r: Result<seq<Word>, MerkleError>)
    requires depth >= 1
    ensures r.Err? ==> r.error == InvalidIndex(LeafIndex(batch, note))
  {
    var index := LeafIndex(batch, note);
    if index >= Pow2(depth) then Err(InvalidIndex(index))
    else Ok(Path(merge, LeafOf(leaves), 0, depth, index)[1..])
  }

  /** The note's path verifies, at the note's index, the hash of its ID and metadata. */
  predicate Authenticated(merge: Merge, depth: nat, leaves: Leaves, e: BlockEntry)
    requires depth >= 1
  {
    var path := GetNotePath(merge, depth, leaves, e.batch, e.note);
    && path.Ok? && |path.value| == depth - 1
    && Verify(merge, path.value, NoteIndex(e.batch, e.note), merge(e.entry.id, e.entry.metadata),
              Root(merge, depth, leaves))
  }

  /** The two leaves of the note are in the tree and hold its ID and metadata. */
  predicate IsHeld(leaves: Leaves, size: nat, e: BlockEntry) {
    var index := LeafIndex(e.batch, e.note);
    index < size && Leaf(leaves, index) == e.entry.id && Leaf(leaves, index + 1) == e.entry.metadata
  }

  /** Every note of a block is authenticated by its own path. */
  lemma NoteAuthenticates(merge: Merge, depth: nat, entries: seq<BlockEntry>, leaves: Leaves, i: nat)
    requires depth >= 1 && Pow2(depth) == BLOCK_LEAVES && BlockTree(entries) == Ok(leaves) && i < |entries|
    ensures Authenticated(merge, depth, leaves, entries[i])
  {
    NoteIsHeld(leaves, entries, i);
    HeldIsAuthenticated(merge, depth, leaves, entries[i]);
  }

  lemma NoteIsHeld(leaves: Leaves, entries: seq<BlockEntry>, i: nat)
    requires BlockTree(entries) == Ok(leaves) && i < |entries|
    ensures IsHeld(leaves, BLOCK_LEAVES, entries[i])
  {
    BlockTreeExact(entries);
  }

  lemma HeldIsAuthenticated(merge: Merge, depth: nat, leaves: Leaves, e: BlockEntry)
    requires depth >= 1 && IsHeld(leaves, Pow2(depth), e)
    ensures Authenticated(merge, depth, leaves, e)
  {
    PairIsAuthenticated(merge, depth, LeafOf(leaves), NoteIndex(e.batch, e.note));
  }

  lemma PairIsAuthenticated(merge: Merge, depth: nat, f: nat -> Word, index: nat)
    requires depth >= 1 && 2 * index < Pow2(depth)
    ensures var path := Path(merge, f, 0, depth, 2 * index)[1..];
            && |path| == depth - 1
            && Verify(merge, path, index, merge(f(2 * index), f(2 * index + 1)), Node(merge, f, depth, 0))
  {
    assert index < Pow2(depth - 1);
    PathLeadsUp(merge, f, 1, depth, index);
    ParentPath(merge, f, depth, index);
  }

  lemma ParentPath(merge: Merge, f: nat -> Word, depth: nat, index: nat)
    requires depth >= 1
    ensures Path(merge, f, 0, depth, 2 * index)[1..] == Path(merge, f, 1, depth, index)
    ensures Node(merge, f, 1, index) == merge(f(2 * index), f(2 * index + 1))
  {
    assert (2 * index) / 2 == index;
    assert Node(merge, f, 0, 2 * index) == f(2 * index) && Node(merge, f, 0, 2 * index + 1) == f(2 * index + 1);
  }

  /** What a transaction's input note is checked for: the length of the path is not looked at. */
  predicate IsInBlock(merge: Merge, path: seq<Word>, index: nat, note: NoteEntry, root: Word) {
    Verify(merge, path, index, merge(note.id, note.metadata), root)
  }

  /** The two children of the node at height `h + 1`. */
  function Children(merge: Merge, leaves: Leaves, h: nat, index: nat): NoteEntry {
    NoteEntry(Node(merge, LeafOf(leaves), h, 2 * index), Node(merge, LeafOf(leaves), h, 2 * index + 1))
  }

  /** A path no longer than the tree is deep binds the node at that height, or shows a collision. */
  lemma ShortPathBinds(merge: Merge, depth: nat, leaves: Leaves, index: nat, path: seq<Word>, note: NoteEntry)
    returns (x: Option<Collision>)
    requires |path| < depth && IsInBlock(merge, path, index, note, Root(merge, depth, leaves))
    ensures x.Some? ==> Collides(merge, x.value)
    ensures x.None? ==> note == Children(merge, leaves, depth - |path| - 1, index)
  {
    var f, h := LeafOf(leaves), depth - |path|;
    x := PathBinds(merge, f, h, depth, index, path, merge(note.id, note.metadata));
    var c := Children(merge, leaves, h - 1, index);
    assert Node(merge, f, h, index) == merge(c.id, c.metadata);
    if x.None? && note != c {
      x := Some(Collision(note.id, note.metadata, c.id, c.metadata));
    }
  }

  /** A longer path runs through the leaf above which it is as long as the tree is deep. */
  lemma LongPathBinds(merge: Merge, depth: nat, leaves: Leaves, index: nat, path: seq<Word>, note: NoteEntry)
    returns (x: Option<Collision>)
    requires |path| >= depth && IsInBlock(merge, path, index, note, Root(merge, depth, leaves))
    ensures x.Some? ==> Collides(merge, x.value)
    ensures x.None? ==> var k := |path| - depth;
                        Fold(merge, path[..k], index, merge(note.id, note.metadata)) == Leaf(leaves, Above(index, k))
  {
    var k := |path| - depth;
    var hash := merge(note.id, note.metadata);
    AboveInRange(index, k, depth);
    FoldInTwo(merge, path, k, index, hash);
    x := PathBinds(merge, LeafOf(leaves), 0, depth, Above(index, k), path[k..], Fold(merge, path[..k], index, hash));
  }

  /** And every path that runs through a leaf like this, and on as the tree does, verifies. */
  lemma LongPathPasses(merge: Merge, depth: nat, leaves: Leaves, index: nat, ss: seq<Word>, note: NoteEntry)
    requires index < Pow2(|ss| + depth)
    requires Leaf(leaves, Above(index, |ss|)) == Fold(merge, ss, index, merge(note.id, note.metadata))
    ensures var path := ss + Path(merge, LeafOf(leaves), 0, depth, Above(index, |ss|));
            |path| == |ss| + depth && IsInBlock(merge, path, index, note, Root(merge, depth, leaves))
  {
    var k, f := |ss|, LeafOf(leaves);
    var path := ss + Path(merge, f, 0, depth, Above(index, k));
    AboveInRange(index, k, depth);
    PathLeadsUp(merge, f, 0, depth, Above(index, k));
    FoldInTwo(merge, path, k, index, merge(note.id, note.metadata));
    assert path[..k] == ss && path[k..] == Path(merge, f, 0, depth, Above(index, k));
  }

  /**
    What `is_in_block` proves, for paths of every length: one of 20 steps, one less than the
    depth, proves the note's two leaves; a shorter one two inner nodes; a longer one only that
    the hashes above the note lead to a leaf. Anything else comes with a hash collision.
   */
  lemma NotePathBinds(merge: Merge, depth: nat, leaves: Leaves, index: nat, path: seq<Word>, note: NoteEntry)
    returns (x: Option<Collision>)
    requires IsInBlock(merge, path, index, note, Root(merge, depth, leaves))
    ensures x.Some? ==> Collides(merge, x.value)
    ensures x.None? && |path| + 1 == depth ==>
              note == NoteEntry(Leaf(leaves, 2 * index), Leaf(leaves, 2 * index + 1))
    ensures x.None? && |path| < depth ==> note == Children(merge, leaves, depth - |path| - 1, index)
    ensures x.None? && |path| >= depth ==>
              var k := |path| - depth;
              Fold(merge, path[..k], index, merge(note.id, note.metadata)) == Leaf(leaves, Above(index, k))
  {
    if |path| < depth {
      x := ShortPathBinds(merge, depth, leaves, index, path, note);
    } else {
      x := LongPathBinds(merge, depth, leaves, index, path, note);
    }
  }

  /**
    Shorter paths do verify: for every tree, height and index in range, so does the pair of inner
    nodes there. The pair need not be the ID and metadata of any note.
   */
  lemma InnerNodesPass(merge: Merge, depth: nat, leaves: Leaves, h: nat, index: nat) returns (path: seq<Word>)
    requires h < depth && index < Pow2(depth - h - 1)
    ensures |path| == depth - h - 1
    ensures IsInBlock(merge, path, index, Children(merge, leaves, h, index), Root(merge, depth, leaves))
  {
    var f := LeafOf(leaves);
    path := Path(merge, f, h + 1, depth, index);
    PathLeadsUp(merge, f, h + 1, depth, index);
    var c := Children(merge, leaves, h, index);
    assert Node(merge, f, h + 1, index) == merge(c.id, c.metadata);
  }

  /** So does, with a path of full depth, any pair of words whose hash is a leaf. */
  lemma HashedLeafPasses(merge: Merge, depth: nat, leaves: Leaves, index: nat, pre: NoteEntry) returns (path: seq<Word>)
    requires index < Pow2(depth) && Leaf(leaves, index) == merge(pre.id, pre.metadata)
    ensures |path| == depth && IsInBlock(merge, path, index, pre, Root(merge, depth, leaves))
  {
    path := Path(merge, LeafOf(leaves), 0, depth, index);
    PathLeadsUp(merge, LeafOf(leaves), 0, depth, index);
  }

  /** In the empty tree a shorter path passes for a pair of words that is not in it. */
  lemma ShortPathWithoutNote(merge: Merge, depth: nat, h: nat) returns (path: seq<Word>, note: NoteEntry)
    requires h < depth && Node(merge, LeafOf(map[]), h, 0) != EMPTY_WORD
    ensures |path| == depth - h - 1 && IsInBlock(merge, path, 0, note, Root(merge, depth, map[]))
    ensures note.id != Leaf(map[], 0)
  {
    Pow2Positive(depth - h - 1);
    path := InnerNodesPass(merge, depth, map[], h, 0);
    note := Children(merge, map[], h, 0);
  }
}
