/**
  Simple sparse Merkle trees: leaves, roots, construction and authentication paths. A tree is
  given by its leaves; the hash function that merges two nodes is a parameter.
 */
module MerkleTrees {
  import opened Base

  /** Leaves by index; absent leaves are empty. */
  type Leaves = map<nat, Word>

  function Leaf(leaves: Leaves, i: nat): Word {
    if i in leaves then leaves[i] else EMPTY_WORD
  }

  function Pow2(n: nat): nat {
    if n == 0 then 1 else 2 * Pow2(n - 1)
  }

  /** The value of the node at height `h` above the leaves, with index `i` at that height. */
  function Node(merge: Merge, leaf: nat -> Word, h: nat, i: nat): Word {
    if h == 0 then leaf(i) else merge(Node(merge, leaf, h - 1, 2 * i), Node(merge, leaf, h - 1, 2 * i + 1))
  }

  function LeafOf(leaves: Leaves): nat -> Word {
    (i: nat) => Leaf(leaves, i)
  }

  function Root(merge: Merge, depth: nat, leaves: Leaves): Word {
    Node(merge, LeafOf(leaves), depth, 0)
  }

  /** Even children are on the left: merging to the left gives the first leaf below a node. */
  lemma {:induction false} LeftmostLeaf(leaf: nat -> Word, h: nat, i: nat)
    ensures Node((l, r) => l, leaf, h, i) == leaf(i * Pow2(h))
  {
    if h > 0 {
      LeftmostLeaf(leaf, h - 1, 2 * i);
      Halves(i, Pow2(h - 1));
    }
  }

  // ---------- building trees ----------

  datatype MerkleError =
    | DuplicateValuesForIndex(index: nat)
    | InvalidIndex(index: nat)
    | TooManyEntries

  /** Inserts the entries one by one into a tree with `size` leaves. */
  function WithLeaves(size: nat, entries: seq<(nat, Word)>): Result<Leaves, MerkleError>
    decreases |entries|
  {
    if entries == [] then Ok(map[])
    else
      var n := |entries| - 1;
      match WithLeaves(size, entries[..n])
      case Err(e) => Err(e)
      case Ok(leaves) =>
        var (index, value) := entries[n];
        if n >= size then Err(TooManyEntries)
        else if index >= size then Err(InvalidIndex(index))
        else if index in leaves then Err(DuplicateValuesForIndex(index))
        else Ok(leaves[index := value])
  }

  predicate DistinctIndexes(entries: seq<(nat, Word)>) {
    forall i, j | 0 <= i < j < |entries| :: entries[i].0 != entries[j].0
  }

  predicate IndexesBelow(entries: seq<(nat, Word)>, n: nat) {
    forall i | 0 <= i < |entries| :: entries[i].0 < n
  }

  /** Different numbers below `n` are at most `n` many. */
  lemma {:induction false} Pigeonhole(entries: seq<(nat, Word)>, n: nat)
    requires DistinctIndexes(entries) && IndexesBelow(entries, n)
    ensures |entries| <= n
  {
    if entries != [] {
      assert entries[0].0 < n;
      if i :| 0 <= i < |entries| && entries[i].0 == n - 1 {
        var rest := entries[..i] + entries[i + 1..];
        assert forall j | 0 <= j < |rest| :: rest[j] == entries[if j < i then j else j + 1];
        Pigeonhole(rest, n - 1);
      } else {
        Pigeonhole(entries, n - 1);
      }
    }
  }

  /** The leaves hold exactly the entries. */
  ghost predicate HoldsEntries(leaves: Leaves, entries: seq<(nat, Word)>) {
    && (forall i | 0 <= i < |entries| :: entries[i].0 in leaves && leaves[entries[i].0] == entries[i].1)
    && (forall k :: k in leaves ==> exists i :: 0 <= i < |entries| && entries[i].0 == k)
  }

  lemma LastEntry(entries: seq<(nat, Word)>, size: nat)
    requires entries != []
    ensures var n := |entries| - 1;
            && (IndexesBelow(entries, size) <==> IndexesBelow(entries[..n], size) && entries[n].0 < size)
            && (DistinctIndexes(entries) <==>
                  DistinctIndexes(entries[..n]) && forall i | 0 <= i < n :: entries[..n][i].0 != entries[n].0)
  {
    var n := |entries| - 1;
    var front := entries[..n];
    assert forall i | 0 <= i < n :: front[i] == entries[i];
  }

  lemma HoldsOneMore(leaves: Leaves, entries: seq<(nat, Word)>)
    requires entries != [] && HoldsEntries(leaves, entries[..|entries| - 1]) && entries[|entries| - 1].0 !in leaves
    ensures HoldsEntries(leaves[entries[|entries| - 1].0 := entries[|entries| - 1].1], entries)
  {
    var n := |entries| - 1;
    var front := entries[..n];
    assert forall i | 0 <= i < n :: front[i] == entries[i];
  }

  lemma {:induction false} WithLeavesStep(size: nat, entries: seq<(nat, Word)>)
    ensures WithLeaves(size, entries).Ok? <==>
            |entries| <= size && DistinctIndexes(entries) && IndexesBelow(entries, size)
    ensures WithLeaves(size, entries).Ok? ==> HoldsEntries(WithLeaves(size, entries).value, entries)
    decreases |entries|
  {
    if entries != [] {
      var n := |entries| - 1;
      WithLeavesStep(size, entries[..n]);
      LastEntry(entries, size);
      if WithLeaves(size, entries).Ok? {
        HoldsOneMore(WithLeaves(size, entries[..n]).value, entries);
      }
    }
  }

  /** The tree is built exactly when all indexes are in range and no index is given twice. */
  lemma WithLeavesExact(size: nat, entries: seq<(nat, Word)>)
    ensures WithLeaves(size, entries).Ok? <==> DistinctIndexes(entries) && IndexesBelow(entries, size)
    ensures WithLeaves(size, entries).Ok? ==> HoldsEntries(WithLeaves(size, entries).value, entries)
  {
    WithLeavesStep(size, entries);
    if DistinctIndexes(entries) && IndexesBelow(entries, size) {
      Pigeonhole(entries, size);
    }
  }

  /** The entry that cannot be inserted after the `n` entries before it, and the error it gives. */
  ghost predicate FaultAt(size: nat, entries: seq<(nat, Word)>, n: nat, e: MerkleError) {
    && n < |entries| && DistinctIndexes(entries[..n]) && IndexesBelow(entries[..n], size)
    && var index := entries[n].0;
    if n >= size then e == TooManyEntries
    else if index >= size then e == InvalidIndex(index)
    else e == DuplicateValuesForIndex(index) && exists i :: 0 <= i < n && entries[i].0 == index
  }

  lemma {:induction false} WithLeavesFault(size: nat, entries: seq<(nat, Word)>) returns (n: nat)
    requires WithLeaves(size, entries).Err?
    ensures FaultAt(size, entries, n, WithLeaves(size, entries).error)
    decreases |entries|
  {
    n := |entries| - 1;
    WithLeavesStep(size, entries[..n]);
    if WithLeaves(size, entries[..n]).Err? {
      var m := WithLeavesFault(size, entries[..n]);
      assert entries[..n][..m] == entries[..m];
      n := m;
    }
  }

  /** `SimpleSmt::with_contiguous_leaves`: the i-th value goes to leaf i. */
  function Contiguous(values: seq<Word>): (r: seq<(nat, Word)>)
    ensures |r| == |values| && forall i | 0 <= i < |r| :: r[i] == (i, values[i])
  {
    seq(|values|, i requires 0 <= i < |values| => (i, values[i]))
  }

  lemma ContiguousFits(values: seq<Word>, size: nat)
    ensures DistinctIndexes(Contiguous(values))
    ensures IndexesBelow(Contiguous(values), size) <==> |values| <= size
  {
    var es := Contiguous(values);
    if |values| > size {
      assert es[size].0 == size;
    }
  }

  lemma ContiguousHeld(leaves: Leaves, values: seq<Word>, k: nat)
    requires HoldsEntries(leaves, Contiguous(values))
    ensures Leaf(leaves, k) == if k < |values| then values[k] else EMPTY_WORD
  {
    var es := Contiguous(values);
    if k < |values| {
      assert es[k].0 in leaves;
    }
  }

  // ---------- trees over trees ----------

  /** A tree of height `g + h` is a tree of height `h` over the nodes at height `g`. */
  lemma {:induction false} Layers(merge: Merge, leaf: nat -> Word, g: nat, h: nat, i: nat)
    ensures Node(merge, leaf, g + h, i) == Node(merge, (j: nat) => Node(merge, leaf, g, j), h, i)
  {
    if h > 0 {
      Layers(merge, leaf, g, h - 1, 2 * i);
      Layers(merge, leaf, g, h - 1, 2 * i + 1);
    }
  }

  function At(f: nat -> Word, base: nat, k: nat): Word {
    f(base + k)
  }

  ghost predicate Agree(f: nat -> Word, a: nat, g: nat -> Word, b: nat, n: nat) {
    forall k: nat :: k < n ==> At(f, a, k) == At(g, b, k)
  }

  lemma Halves(i: nat, p: nat)
    ensures i * (2 * p) == (2 * i) * p && i * (2 * p) + p == (2 * i + 1) * p
  {
  }

  /** A node only depends on the leaves below it. */
  lemma {:induction false} SameLeaves(merge: Merge, f: nat -> Word, a: nat, i: nat, g: nat -> Word, b: nat, j: nat, h: nat)
    requires a == i * Pow2(h) && b == j * Pow2(h) && Agree(f, a, g, b, Pow2(h))
    ensures Node(merge, f, h, i) == Node(merge, g, h, j)
    decreases h
  {
    if h == 0 {
      assert At(f, a, 0) == At(g, b, 0);
    } else {
      var p := Pow2(h - 1);
      Halves(i, p);
      Halves(j, p);
      assert Agree(f, a, g, b, p);
      var a', b' := a + p, b + p;
      forall k: nat | k < p ensures At(f, a', k) == At(g, b', k) {
        assert At(f, a, p + k) == At(g, b, p + k);
      }
      SameLeaves(merge, f, a, 2 * i, g, b, 2 * j, h - 1);
      SameLeaves(merge, f, a', 2 * i + 1, g, b', 2 * j + 1, h - 1);
    }
  }

  // ---------- authentication paths ----------

  function Sibling(i: nat): nat {
    if i % 2 == 0 then i + 1 else i - 1
  }

  /** The siblings on the way from the node at height `h` up to height `top`. */
  function Path(merge: Merge, leaf: nat -> Word, h: nat, top: nat, i: nat): (p: seq<Word>)
    requires h <= top
    ensures |p| == top - h
    decreases top - h
  {
    if h == top then [] else [Node(merge, leaf, h, Sibling(i))] + Path(merge, leaf, h + 1, top, i / 2)
  }

  /** The root computed from a node and the path above it. */
  function Fold(merge: Merge, path: seq<Word>, i: nat, node: Word): Word {
    if path == [] then node
    else Fold(merge, path[1..], i / 2, if i % 2 == 0 then merge(node, path[0]) else merge(path[0], node))
  }

  /** `MerklePath::verify`: an index out of range for the path's depth is refused. */
  predicate Verify(merge: Merge, path: seq<Word>, i: nat, node: Word, root: Word) {
    i < Pow2(|path|) && Fold(merge, path, i, node) == root
  }

  lemma ParentOf(merge: Merge, leaf: nat -> Word, h: nat, i: nat)
    ensures var n, s := Node(merge, leaf, h, i), Node(merge, leaf, h, Sibling(i));
            Node(merge, leaf, h + 1, i / 2) == if i % 2 == 0 then merge(n, s) else merge(s, n)
  {
    assert i == 2 * (i / 2) + i % 2;
  }

  /** The path from the tree leads from the node to the root. */
  lemma {:induction false} PathLeadsUp(merge: Merge, leaf: nat -> Word, h: nat, top: nat, i: nat)
    requires h <= top && i < Pow2(top - h)
    ensures Fold(merge, Path(merge, leaf, h, top, i), i, Node(merge, leaf, h, i)) == Node(merge, leaf, top, 0)
    decreases top - h
  {
    if h < top {
      ParentOf(merge, leaf, h, i);
      var path := Path(merge, leaf, h, top, i);
      assert path[1..] == Path(merge, leaf, h + 1, top, i / 2);
      PathLeadsUp(merge, leaf, h + 1, top, i / 2);
    }
  }

  /**
    Binding: a path of the right length that leads from a value to the root either starts at
    the node's own value or exhibits a hash collision.
   */
  lemma {:induction false} PathBinds(merge: Merge, leaf: nat -> Word, h: nat, top: nat, i: nat, path: seq<Word>, node: Word)
    returns (x: Option<Collision>)
    requires h <= top && |path| == top - h && i < Pow2(top - h)
    requires Fold(merge, path, i, node) == Node(merge, leaf, top, 0)
    ensures x.Some? ==> Collides(merge, x.value)
    ensures x.None? ==> node == Node(merge, leaf, h, i)
    decreases top - h
  {
    if h == top {
      return None;
    }
    var s := path[0];
    var up := if i % 2 == 0 then merge(node, s) else merge(s, node);
    ParentOf(merge, leaf, h, i);
    x := PathBinds(merge, leaf, h + 1, top, i / 2, path[1..], up);
    if x.None? && node != Node(merge, leaf, h, i) {
      var n', s' := Node(merge, leaf, h, i), Node(merge, leaf, h, Sibling(i));
      x := Some(if i % 2 == 0 then Collision(node, s, n', s') else Collision(s, node, s', n'));
    }
  }

  /** The index `k` levels further up. */
  function Above(i: nat, k: nat): nat {
    if k == 0 then i else Above(i / 2, k - 1)
  }

  lemma {:induction false} FoldInTwo(merge: Merge, path: seq<Word>, k: nat, i: nat, node: Word)
    requires k <= |path|
    ensures Fold(merge, path, i, node) == Fold(merge, path[k..], Above(i, k), Fold(merge, path[..k], i, node))
    decreases k
  {
    if k > 0 {
      var up := if i % 2 == 0 then merge(node, path[0]) else merge(path[0], node);
      FoldInTwo(merge, path[1..], k - 1, i / 2, up);
      assert path[1..][k - 1..] == path[k..] && path[1..][..k - 1] == path[..k][1..];
    } else {
      assert path[0..] == path;
    }
  }

  lemma {:induction false} AboveInRange(i: nat, k: nat, n: nat)
    requires i < Pow2(k + n)
    ensures Above(i, k) < Pow2(n)
    decreases k
  {
    if k > 0 {
      AboveInRange(i / 2, k - 1, n);
    }
  }

  lemma {:induction false} Pow2Positive(n: nat)
    ensures Pow2(n) > 0
  {
    if n > 0 {
      Pow2Positive(n - 1);
    }
  }
}
