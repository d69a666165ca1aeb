/**
  What the commitments of the system commit to: the elements that are hashed, in which order,
  and that two equal commitments have equal contents or show a hash collision.
 */
module Commitments {
  import opened Base
  import opened AccountStorages
  import opened AccountIds
  import opened ExpectedNotes
  import opened NoteScripts
  import opened SeedSearch

  // ---------- the layout of a storage ----------

  /** The high half of a type's element is the arity, the low half 0, 1 or the depth. */
  lemma TypeElement(t: SlotType)
    ensures t.ToFelt() / 0x1_0000_0000 == t.valueArity
    ensures t.ToFelt() % 0x1_0000_0000 == if t.Value? then 0 else if t.Map? then 1 else t.depth
  {
  }

  /** An array of depth 0 or 1 has the element of a plain value or a map. */
  predicate Tellable(t: SlotType) {
    t.Array? ==> t.depth >= 2
  }

  /** Types have different elements if they differ, except for arrays of depth 0 or 1. */
  lemma TypeElementBinds(t: SlotType, u: SlotType)
    ensures Tellable(t) && Tellable(u) ==> (t.ToFelt() == u.ToFelt() <==> t == u)
    ensures !Tellable(t) ==> exists v :: v != t && Tellable(v) && v.ToFelt() == t.ToFelt()
  {
    TypeElement(t);
    TypeElement(u);
    if !Tellable(t) {
      var v := if t.depth == 0 then Value(t.valueArity) else Map(t.valueArity);
      assert v != t && Tellable(v) && v.ToFelt() == t.ToFelt();
    }
  }

  /** The layout commitment is the hash of one element for each slot, in the order of the slots. */
  lemma LayoutElements(hash: Hash, layout: seq<SlotType>, els: seq<Felt>)
    requires |els| == |layout|
    requires forall i | 0 <= i < |els| ::
               && els[i] / 0x1_0000_0000 == layout[i].valueArity
               && els[i] % 0x1_0000_0000 == if layout[i].Value? then 0 else if layout[i].Map? then 1 else layout[i].depth
    ensures LayoutCommitment(hash, layout) == hash(els)
  {
    var codes := seq(|layout|, i requires 0 <= i < |layout| => layout[i].ToFelt());
    forall i | 0 <= i < |els| ensures codes[i] == els[i] {
      TypeElement(layout[i]);
      assert els[i] == 0x1_0000_0000 * (els[i] / 0x1_0000_0000) + els[i] % 0x1_0000_0000;
    }
    assert codes == els;
  }

  /** Storages without such arrays and with equal slot 255 have equal layouts, or the hash collides. */
  lemma LayoutBinds(hash: Hash, s1: Storage, s2: Storage) returns (x: Option<HashCollision>)
    requires ValidStorage(hash, s1) && ValidStorage(hash, s2)
    requires forall i | 0 <= i < NUM_STORAGE_SLOTS :: Tellable(s1.layout[i]) && Tellable(s2.layout[i])
    requires s1.slots[LAYOUT_COMMITMENT_INDEX] == s2.slots[LAYOUT_COMMITMENT_INDEX]
    ensures x.Some? ==> HashCollides(hash, x.value)
    ensures x.None? ==> s1.layout == s2.layout
  {
    var e1 := seq(NUM_STORAGE_SLOTS, i requires 0 <= i < NUM_STORAGE_SLOTS => s1.layout[i].ToFelt());
    var e2 := seq(NUM_STORAGE_SLOTS, i requires 0 <= i < NUM_STORAGE_SLOTS => s2.layout[i].ToFelt());
    TypesOfElements(hash, s1.layout, e1);
    TypesOfElements(hash, s2.layout, e2);
    x := None;
    if e1 != e2 {
      x := Some(HashCollision(e1, e2));
    } else {
      forall i | 0 <= i < NUM_STORAGE_SLOTS ensures s1.layout[i] == s2.layout[i] {
        assert e1[i] == e2[i];
        TypeElementBinds(s1.layout[i], s2.layout[i]);
      }
      assert s1.layout == s2.layout;
    }
  }

  lemma TypesOfElements(hash: Hash, layout: seq<SlotType>, els: seq<Felt>)
    requires |els| == |layout| && forall i | 0 <= i < |els| :: els[i] == layout[i].ToFelt()
    ensures LayoutCommitment(hash, layout) == hash(els)
  {
    forall i | 0 <= i < |els|
      ensures els[i] / 0x1_0000_0000 == layout[i].valueArity
      ensures els[i] % 0x1_0000_0000 == if layout[i].Value? then 0 else if layout[i].Map? then 1 else layout[i].depth
    {
      TypeElement(layout[i]);
    }
    LayoutElements(hash, layout, els);
  }

  // ---------- recipients ----------

  /** Two pairs with the same hash are equal, or the hash collides. */
  lemma MergeBinds(merge: Merge, a: Word, b: Word, c: Word, d: Word) returns (x: Option<Collision>)
    requires merge(a, b) == merge(c, d)
    ensures x.Some? ==> Collides(merge, x.value)
    ensures x.None? ==> a == c && b == d
  {
    x := if (a, b) == (c, d) then None else Some(Collision(a, b, c, d));
  }

  /** A recipient's digest binds the serial number, the script hash and the inputs commitment. */
  lemma DigestBinds(h: Hasher, s1: Word, c1: Word, i1: Word, s2: Word, c2: Word, i2: Word) returns (x: Option<Collision>)
    requires Digest(h, s1, c1, i1) == Digest(h, s2, c2, i2)
    ensures x.Some? ==> Collides(h.merge, x.value)
    ensures x.None? ==> s1 == s2 && c1 == c2 && i1 == i2
  {
    var a1, a2 := (h.merge)(s1, EMPTY_WORD), (h.merge)(s2, EMPTY_WORD);
    var b1, b2 := (h.merge)(a1, c1), (h.merge)(a2, c2);
    x := MergeBinds(h.merge, b1, i1, b2, i2);
    if x.None? {
      x := MergeBinds(h.merge, a1, c1, a2, c2);
    }
    if x.None? {
      x := MergeBinds(h.merge, s1, EMPTY_WORD, s2, EMPTY_WORD);
    }
  }

  /** The serial number is on the left of everything, the inputs commitment on the right. */
  lemma DigestOrder(hash: Hash, serial: Word, scriptHash: Word, inputs: Word)
    ensures Digest(Hasher(hash, (l, r) => r), serial, scriptHash, inputs) == inputs
    ensures Digest(Hasher(hash, (l, r) => l), serial, scriptHash, inputs) == serial
    ensures Digest(Hasher(hash, (l: Word, r: Word) => if r == inputs then l else r), serial, scriptHash, inputs)
         == if scriptHash == inputs then (if inputs == EMPTY_WORD then serial else EMPTY_WORD) else scriptHash
  {
  }

  /** A note's ID binds the recipient and the asset; the recipient is on the left. */
  lemma NoteIdBinds(h: Hasher, r1: Word, a1: Word, r2: Word, a2: Word)
    returns (x: Option<Collision>, y: Option<HashCollision>)
    requires NoteId(h, r1, a1) == NoteId(h, r2, a2)
    ensures (x.Some? ==> Collides(h.merge, x.value)) && (y.Some? ==> HashCollides(h.hash, y.value))
    ensures x.None? && y.None? ==> r1 == r2 && a1 == a2
  {
    y := None;
    x := MergeBinds(h.merge, r1, AssetCommitment(h, a1), r2, AssetCommitment(h, a2));
    if x.None? && a1 != a2 {
      var e1, e2 := WordElements(a1) + [0, 0, 0, 0], WordElements(a2) + [0, 0, 0, 0];
      assert e1 != e2 by {
        assert e1[0] == a1.e0 && e1[1] == a1.e1 && e1[2] == a1.e2 && e1[3] == a1.e3;
        assert e2[0] == a2.e0 && e2[1] == a2.e1 && e2[2] == a2.e2 && e2[3] == a2.e3;
      }
      y := Some(HashCollision(e1, e2));
    }
  }

  lemma NoteIdOrder(hash: Hash, recipient: Word, asset: Word)
    ensures NoteId(Hasher(hash, (l, r) => l), recipient, asset) == recipient
    ensures NoteId(Hasher(hash, (l, r) => r), recipient, asset)
         == hash([asset.e0, asset.e1, asset.e2, asset.e3, 0, 0, 0, 0])
  {
    assert WordElements(asset) + [0, 0, 0, 0] == [asset.e0, asset.e1, asset.e2, asset.e3, 0, 0, 0, 0];
  }

  /** The key of inputs differs from their commitment in the last element only, by one. */
  lemma KeyIsNext(w: Word)
    ensures var k := CommitmentToKey(w);
            k.e0 == w.e0 && k.e1 == w.e1 && k.e2 == w.e2 && (k.e3 - w.e3 - 1) % MODULUS == 0
  {
  }

  /** The inputs commitment is the hash of the inputs and zeros, to a multiple of eight. */
  lemma InputsElements(h: Hasher, values: seq<Felt>, els: seq<Felt>)
    requires values <= els && |els| % 8 == 0 && |els| < |values| + 8
    requires forall i | |values| <= i < |els| :: els[i] == 0
    ensures InputsCommitment(h, values) == (h.hash)(els)
  {
    assert els == PadInputs(values);
  }

  /** Inputs with the same commitment agree up to zeros at the end, or the hash collides. */
  lemma InputsBind(h: Hasher, v: seq<Felt>, w: seq<Felt>) returns (x: Option<HashCollision>)
    requires InputsCommitment(h, v) == InputsCommitment(h, w)
    ensures x.Some? ==> HashCollides(h.hash, x.value)
    ensures x.None? ==> PadInputs(v) == PadInputs(w)
  {
    x := if PadInputs(v) == PadInputs(w) then None else Some(HashCollision(PadInputs(v), PadInputs(w)));
  }

  /** Equal paddings mean equal inputs exactly if the numbers of inputs are equal. */
  lemma PaddingExact(v: seq<Felt>, w: seq<Felt>)
    requires PadInputs(v) == PadInputs(w)
    ensures v == w <==> |v| == |w|
  {
    if |v| == |w| {
      assert v == PadInputs(v)[..|v|] && w == PadInputs(w)[..|w|];
    }
  }

  // ---------- the whole recipient comes back ----------

  /** Listed notes that share a script hash or an inputs commitment with `n` share the contents. */
  ghost predicate SharesContents(h: Hasher, ns: seq<Recipient>, n: Recipient) {
    forall b | b in ns ::
      && (b.script.hash == n.script.hash ==> b.script == n.script)
      && (InputsCommitment(h, b.inputs) == InputsCommitment(h, n.inputs) ==> b.inputs == n.inputs)
  }

  /**
    The whole recipient comes back, serial number, script and inputs, exactly when its program
    survives packing; otherwise two listed recipients show a hash collision.
   */
  lemma RecipientComesBack(h: Hasher, parse: Parser, m: Advice, ns: seq<Recipient>, n: Recipient)
    returns (x: Option<Collision>)
    requires KindsApart(h, ns) && Notes(ns) && n in ns && SharesContents(h, ns, n)
    ensures x.Some? ==> Collides(h.merge, x.value)
    ensures x.None? ==> (Rebuild(parse, AddedAll(h, m, ns), DigestOf(h, n)) == Ok(n)
                         <==> parse(Recovered(n.script.code)) == Some(n.script.code))
  {
    var advice, digest := AddedAll(h, m, ns), DigestOf(h, n);
    AddAllHolds(h, m, ns, n);
    var b :| b in ns && DigestOf(h, b) == digest && advice[digest] == Details(h, b);
    x := DigestBinds(h, b.serial, b.script.hash, InputsCommitment(h, b.inputs),
                     n.serial, n.script.hash, InputsCommitment(h, n.inputs));
    if x.None? {
      RebuildFrom(h, parse, advice, digest, n, n.inputs, n.script);
    }
  }

  /**
    Zeros at the end of inputs are not committed to: of two notes that differ in one such zero,
    the one listed last decides what inputs the other comes back with.
   */
  lemma TrailingZeroIsLost(h: Hasher, parse: Parser, m: Advice, n: Recipient, more: Recipient)
    requires |n.inputs| % 8 != 0 && |n.inputs| < MAX_INPUTS_PER_NOTE
    requires more == n.(inputs := n.inputs + [0]) && ApartFrom(h, more, more)
    requires parse(Recovered(n.script.code)) == Some(n.script.code)
    ensures DigestOf(h, n) == DigestOf(h, more) && n != more
    ensures Rebuild(parse, AddedAll(h, m, [n, more]), DigestOf(h, n)) == Ok(more)
  {
    ZeroIsPadding(n.inputs);
    assert |more.inputs| != |n.inputs|;
    TwoAdded(h, m, n, more);
    JustAdded(h, parse, AddedAll(h, m, [n]), more);
  }

  lemma ZeroIsPadding(values: seq<Felt>)
    requires |values| % 8 != 0
    ensures PadInputs(values + [0]) == PadInputs(values)
  {
    var n := |values|;
    var one, zeros, fewer: seq<Felt> := [0], seq(8 - n % 8, _ => 0), seq(7 - n % 8, _ => 0);
    assert |values + one| % 8 == (n % 8 + 1) % 8;
    assert zeros == one + fewer;
    assert values + (one + fewer) == (values + one) + fewer;
  }

  lemma TwoAdded(h: Hasher, m: Advice, a: Recipient, b: Recipient)
    ensures AddedAll(h, m, [a, b]) == Added(h, AddedAll(h, m, [a]), b)
  {
    assert [a, b][..1] == [a];
  }

  /** The note added last comes back as it is. */
  lemma JustAdded(h: Hasher, parse: Parser, m: Advice, n: Recipient)
    requires ApartFrom(h, n, n) && |n.inputs| <= MAX_INPUTS_PER_NOTE
    requires parse(Recovered(n.script.code)) == Some(n.script.code)
    ensures Rebuild(parse, Added(h, m, n), DigestOf(h, n)) == Ok(n)
  {
    RebuildFrom(h, parse, Added(h, m, n), DigestOf(h, n), n, n.inputs, n.script);
  }

  // ---------- account IDs ----------

  /** A seed's digest is the hash of the seed, the code root, the storage root and zeros. */
  lemma DigestElements(q: Query, seed: Word, els: seq<Felt>)
    requires |els| == 16
    requires WordAt(els, 0) == seed && WordAt(els, 4) == q.codeRoot && WordAt(els, 8) == q.storageRoot
    requires WordAt(els, 12) == EMPTY_WORD
    ensures ComputeDigest(q, seed) == (q.hash)(els)
  {
    assert els == WordElements(seed) + WordElements(q.codeRoot) + WordElements(q.storageRoot) + [0, 0, 0, 0];
  }

  /** The digest binds all three, so an ID belongs to one seed, code and storage, or hashes collide. */
  lemma SeedDigestBinds(q1: Query, s1: Word, q2: Query, s2: Word) returns (x: Option<HashCollision>)
    requires q1.hash == q2.hash && ComputeDigest(q1, s1) == ComputeDigest(q2, s2)
    ensures x.Some? ==> HashCollides(q1.hash, x.value)
    ensures x.None? ==> s1 == s2 && q1.codeRoot == q2.codeRoot && q1.storageRoot == q2.storageRoot
  {
    var e1 := WordElements(s1) + WordElements(q1.codeRoot) + WordElements(q1.storageRoot) + [0, 0, 0, 0];
    var e2 := WordElements(s2) + WordElements(q2.codeRoot) + WordElements(q2.storageRoot) + [0, 0, 0, 0];
    DigestElements(q1, s1, e1);
    DigestElements(q2, s2, e2);
    x := None;
    if e1 != e2 {
      x := Some(HashCollision(e1, e2));
    } else {
      assert WordAt(e1, 0) == s1 && WordAt(e1, 4) == q1.codeRoot && WordAt(e1, 8) == q1.storageRoot;
      assert WordAt(e2, 0) == s2 && WordAt(e2, 4) == q2.codeRoot && WordAt(e2, 8) == q2.storageRoot;
    }
  }
}
