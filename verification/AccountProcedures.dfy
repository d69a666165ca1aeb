/** The procedure tree of an account's code and the index the transaction host builds from it. */
module AccountProcedures {
  import opened Base
  import opened Codec
  import opened Assets
  import opened MerkleTrees

  const MAX_NUM_PROCEDURES := 256

  datatype CodeError = NoProcedures | TooManyProcedures(actual: nat)

  // ---------- the order of digests ----------

  /** Lexicographic order of byte strings. */
  predicate LexLe(a: Bytes, b: Bytes) {
    a == [] || (b != [] && (a[0] < b[0] || (a[0] == b[0] && LexLe(a[1..], b[1..]))))
  }

  /** Digests are compared through their 32 bytes. */
  predicate DigestLe(v: Word, w: Word) {
    LexLe(WriteWord(v), WriteWord(w))
  }

  lemma {:induction false} LexTransitive(a: Bytes, b: Bytes, c: Bytes)
    requires LexLe(a, b) && LexLe(b, c)
    ensures LexLe(a, c)
  {
    if a != [] && a[0] == b[0] == c[0] {
      LexTransitive(a[1..], b[1..], c[1..]);
    }
  }

  lemma {:induction false} LexTotal(a: Bytes, b: Bytes)
    ensures LexLe(a, b) || LexLe(b, a)
    ensures LexLe(a, b) && LexLe(b, a) ==> a == b
  {
    if a != [] && b != [] {
      LexTotal(a[1..], b[1..]);
      assert a == [a[0]] + a[1..] && b == [b[0]] + b[1..];
    }
  }

  lemma DigestTotal(v: Word, w: Word)
    ensures DigestLe(v, w) || DigestLe(w, v)
    ensures DigestLe(v, w) && DigestLe(w, v) ==> v == w
  {
    LexTotal(WriteWord(v), WriteWord(w));
    if WriteWord(v) == WriteWord(w) {
      assert WriteWord(v) + [] == WriteWord(w) + [];
      ReadWordExact(WriteWord(v) + [], v, []);
      ReadWordExact(WriteWord(v) + [], w, []);
    }
  }

  /** Two strings of one length differ first at some place, and the bytes there decide. */
  lemma {:induction false} LexMeaning(a: Bytes, b: Bytes)
    requires |a| == |b|
    ensures LexLe(a, b) <==> a == b || exists k: nat :: LowerAt(a, b, k)
  {
    if a != [] {
      LexMeaning(a[1..], b[1..]);
      assert a == [a[0]] + a[1..] && b == [b[0]] + b[1..];
      if k: nat :| LowerAt(a[1..], b[1..], k) {
        if a[0] == b[0] {
          assert LowerAt(a, b, k + 1);
        }
      }
      if k: nat :| LowerAt(a, b, k) {
        if k == 0 {
          assert a[0] < b[0];
        } else {
          assert LowerAt(a[1..], b[1..], k - 1);
        }
      }
      if a[0] < b[0] {
        assert LowerAt(a, b, 0);
      }
    }
  }

  predicate LowerAt(a: Bytes, b: Bytes, k: nat) {
    k < |a| && k < |b| && a[k] < b[k] && forall j | 0 <= j < k :: a[j] == b[j]
  }

  /** Byte `i` of a digest: elements in order, each from its lowest byte up. */
  function DigestByte(w: Word, i: nat): nat
    requires i < 32
  {
    Digit(Element(w, i / 8), i % 8)
  }

  predicate DigestLowerAt(v: Word, w: Word, k: nat) {
    k < 32 && DigestByte(v, k) < DigestByte(w, k) && forall j | 0 <= j < k :: DigestByte(v, j) == DigestByte(w, j)
  }

  /** One digest comes before another exactly if the first byte in which they differ is lower. */
  lemma DigestOrderMeaning(v: Word, w: Word)
    ensures DigestLe(v, w) <==> v == w || exists k: nat :: DigestLowerAt(v, w, k)
  {
    var a, b := WriteWord(v), WriteWord(w);
    forall i: nat | i < 32 ensures |a| == |b| == 32 && a[i] == DigestByte(v, i) && b[i] == DigestByte(w, i) {
      WordBytesAt(v, i);
      WordBytesAt(w, i);
    }
    WordBytesAt(v, 0);
    WordBytesAt(w, 0);
    LexMeaning(a, b);
    DigestTotal(v, w);
    forall k: nat ensures LowerAt(a, b, k) <==> DigestLowerAt(v, w, k) {
    }
    if a == b {
      assert LexLe(b, a) by { LexMeaning(b, a); }
    }
  }

  lemma {:induction false} ZerosLexLe(n: nat, b: Bytes)
    requires n <= |b|
    ensures LexLe(Zeros(n), b)
  {
    if n > 0 {
      assert Zeros(n)[0] == 0 && Zeros(n)[1..] == Zeros(n - 1);
      ZerosLexLe(n - 1, b[1..]);
    }
  }

  /** The empty digest comes before every digest. */
  lemma EmptyIsLeast(w: Word)
    ensures DigestLe(EMPTY_WORD, w)
  {
    ZeroBytes(8);
    assert WriteWord(EMPTY_WORD) == Zeros(32);
    ZerosLexLe(32, WriteWord(w));
  }

  // ---------- the tree ----------

  type Order = (Word, Word) -> bool

  ghost predicate TotalOrder(le: Order) {
    && (forall a, b, c :: le(a, b) && le(b, c) ==> le(a, c))
    && (forall a, b :: le(a, b) || le(b, a))
    && (forall a, b :: le(a, b) && le(b, a) ==> a == b)
  }

  lemma DigestOrder()
    ensures TotalOrder(DigestLe)
  {
    forall a: Word, b: Word, c: Word | DigestLe(a, b) && DigestLe(b, c) ensures DigestLe(a, c) {
      LexTransitive(WriteWord(a), WriteWord(b), WriteWord(c));
    }
    forall a: Word, b: Word
      ensures DigestLe(a, b) || DigestLe(b, a)
      ensures DigestLe(a, b) && DigestLe(b, a) ==> a == b
    {
      DigestTotal(a, b);
    }
  }

  ghost predicate Sorted(le: Order, s: seq<Word>) {
    forall i, j | 0 <= i < j < |s| :: le(s[i], s[j])
  }

  /** `s` holds the procedures, as often as they are given, in ascending order. */
  ghost predicate IsSorting(le: Order, procs: seq<Word>, s: seq<Word>) {
    multiset(s) == multiset(procs) && Sorted(le, s)
  }

  lemma SortingMembers(le: Order, procs: seq<Word>, s: seq<Word>, p: Word)
    requires IsSorting(le, procs, s)
    ensures |s| == |procs|
    ensures p in s <==> p in procs
  {
    assert |s| == |multiset(s)| && |procs| == |multiset(procs)|;
    assert p in s <==> p in multiset(s);
  }

  /** Putting an element between those below it and those above it keeps the list sorted. */
  lemma InsertKeepsSorted(le: Order, s: seq<Word>, x: Word, i: nat)
    requires i <= |s| && Sorted(le, s)
    requires forall k | 0 <= k < i :: le(s[k], x)
    requires forall k | i <= k < |s| :: le(x, s[k])
    ensures Sorted(le, s[..i] + [x] + s[i..])
  {
    var r := s[..i] + [x] + s[i..];
    assert forall k | 0 <= k < i :: r[k] == s[k];
    assert forall k | i < k < |r| :: r[k] == s[k - 1];
  }

  lemma InsertKeepsElements(s: seq<Word>, x: Word, i: nat)
    requires i <= |s|
    ensures multiset(s[..i] + [x] + s[i..]) == multiset(s + [x])
  {
    assert s == s[..i] + s[i..];
  }

  lemma BelowLast(le: Order, s: seq<Word>, i: nat, x: Word)
    requires TotalOrder(le) && Sorted(le, s) && i <= |s| && (i > 0 ==> le(s[i - 1], x))
    ensures forall k | 0 <= k < i :: le(s[k], x)
  {
    forall k | 0 <= k < i ensures le(s[k], x) {
      assert k < i - 1 ==> le(s[k], s[i - 1]);
    }
  }

  method InsertSorted(le: Order, s: seq<Word>, x: Word) returns (r: seq<Word>)
    requires TotalOrder(le) && Sorted(le, s)
    ensures IsSorting(le, s + [x], r)
  {
    var i := |s|;
    while i > 0 && !le(s[i - 1], x)
      invariant 0 <= i <= |s|
      invariant forall k | i <= k < |s| :: le(x, s[k])
    {
      i := i - 1;
    }
    BelowLast(le, s, i, x);
    InsertKeepsSorted(le, s, x, i);
    InsertKeepsElements(s, x, i);
    r := s[..i] + [x] + s[i..];
  }

  /** Leaf `i` is the procedure in place `i` of the sorted list. */
  ghost predicate IsTree(s: seq<Word>, leaves: Leaves) {
    forall i: nat :: Leaf(leaves, i) == if i < |s| then s[i] else EMPTY_WORD
  }

  lemma NumberedTree(s: seq<Word>)
    requires |s| <= MAX_NUM_PROCEDURES
    ensures WithLeaves(MAX_NUM_PROCEDURES, Contiguous(s)).Ok?
    ensures IsTree(s, WithLeaves(MAX_NUM_PROCEDURES, Contiguous(s)).value)
  {
    var entries := Contiguous(s);
    WithLeavesExact(MAX_NUM_PROCEDURES, entries);
    var leaves := WithLeaves(MAX_NUM_PROCEDURES, entries).value;
    forall i: nat ensures Leaf(leaves, i) == if i < |s| then s[i] else EMPTY_WORD {
      if i < |s| {
        assert entries[i] == (i, s[i]);
      }
    }
  }

  /** What the sorted tree of the procedures is. */
  ghost predicate TreeOf(procs: seq<Word>, leaves: Leaves) {
    exists s :: IsSorting(DigestLe, procs, s) && IsTree(s, leaves)
  }

  method BuildProcedureTree(procs: seq<Word>) returns (leaves: Leaves)
    requires |procs| <= MAX_NUM_PROCEDURES
    ensures TreeOf(procs, leaves)
  {
    DigestOrder();
    var sorted := [];
    for i := 0 to |procs|
      invariant IsSorting(DigestLe, procs[..i], sorted)
    {
      sorted := InsertSorted(DigestLe, sorted, procs[i]);
      assert procs[..i + 1] == procs[..i] + [procs[i]];
    }
    assert procs[..|procs|] == procs;
    SortingMembers(DigestLe, procs, sorted, EMPTY_WORD);
    NumberedTree(sorted);
    leaves := WithLeaves(MAX_NUM_PROCEDURES, Contiguous(sorted)).value;
    assert IsSorting(DigestLe, procs, sorted) && IsTree(sorted, leaves);
  }

  method NewCode(procs: seq<Word>) returns (r: Result<Leaves, CodeError>)
    ensures r.Ok? <==> 1 <= |procs| <= MAX_NUM_PROCEDURES
    ensures r.Ok? ==> TreeOf(procs, r.value)
    ensures r.Err? ==> r.error == if procs == [] then NoProcedures else TooManyProcedures(|procs|)
  {
    if procs == [] {
      return Err(NoProcedures);
    } else if |procs| > MAX_NUM_PROCEDURES {
      return Err(TooManyProcedures(|procs|));
    }
    var leaves := BuildProcedureTree(procs);
    return Ok(leaves);
  }

  lemma SortedTail(le: Order, s: seq<Word>)
    requires s != [] && Sorted(le, s)
    ensures Sorted(le, s[1..]) && multiset(s[1..]) == multiset(s) - multiset{s[0]}
  {
    assert s == [s[0]] + s[1..];
  }

  /** The first elements of two sorted lists of the same elements are below each other. */
  lemma SameHead(le: Order, s: seq<Word>, t: seq<Word>)
    requires TotalOrder(le) && Sorted(le, s) && s != [] && t != [] && multiset(s) == multiset(t)
    ensures le(s[0], t[0])
  {
    assert t[0] in multiset(s);
    var j :| 0 <= j < |s| && s[j] == t[0];
    assert le(s[0], s[0]);
  }

  lemma SameTails(le: Order, s: seq<Word>, t: seq<Word>)
    requires TotalOrder(le) && Sorted(le, s) && Sorted(le, t)
    requires s != [] && t != [] && multiset(s) == multiset(t)
    ensures s[0] == t[0] && Sorted(le, s[1..]) && Sorted(le, t[1..]) && multiset(s[1..]) == multiset(t[1..])
  {
    SameHead(le, s, t);
    SameHead(le, t, s);
    SortedTail(le, s);
    SortedTail(le, t);
  }

  lemma {:induction false} SortingIsUnique(le: Order, s: seq<Word>, t: seq<Word>)
    requires TotalOrder(le) && Sorted(le, s) && Sorted(le, t) && multiset(s) == multiset(t)
    ensures s == t
  {
    assert |s| == |multiset(s)| && |t| == |multiset(t)|;
    if s != [] {
      SameTails(le, s, t);
      SortingIsUnique(le, s[1..], t[1..]);
      assert s == [s[0]] + s[1..] && t == [t[0]] + t[1..];
    }
  }

  /** The tree does not depend on the order in which the procedures are listed. */
  lemma Reproducible(merge: Merge, depth: nat, p: seq<Word>, q: seq<Word>, l: Leaves, k: Leaves)
    requires TreeOf(p, l) && TreeOf(q, k) && multiset(p) == multiset(q)
    requires Pow2(depth) == MAX_NUM_PROCEDURES
    ensures Root(merge, depth, l) == Root(merge, depth, k)
  {
    var s :| IsSorting(DigestLe, p, s) && IsTree(s, l);
    var t :| IsSorting(DigestLe, q, t) && IsTree(t, k);
    DigestOrder();
    SortingIsUnique(DigestLe, s, t);
    assert Agree(LeafOf(l), 0, LeafOf(k), 0, Pow2(depth)) by {
      forall i: nat ensures At(LeafOf(l), 0, i) == At(LeafOf(k), 0, i) {
        assert Leaf(l, i) == Leaf(k, i);
      }
    }
    SameLeaves(merge, LeafOf(l), 0, 0, LeafOf(k), 0, 0, depth);
  }

  // ---------- the index ----------

  /** Leaves as far as the advice provider has them. */
  type Store = nat -> Option<Word>

  /** The scan stops before the first empty leaf it can see. */
  ghost predicate EndsAt(store: Store, n: nat) {
    && n <= MAX_NUM_PROCEDURES
    && (forall k: nat | k < n :: store(k) != Some(EMPTY_WORD))
    && (n < MAX_NUM_PROCEDURES ==> store(n) == Some(EMPTY_WORD))
  }

  /** The map takes each leaf seen among the first `n` to the last index where it was seen. */
  ghost predicate Indexes(store: Store, n: nat, m: map<Word, u8>) {
    && (forall d | d in m :: m[d] < n && store(m[d]) == Some(d))
    && (forall k: nat | k < n && store(k).Some? :: store(k).value in m && k <= m[store(k).value])
  }

  ghost predicate IsIndexMap(store: Store, m: map<Word, u8>) {
    exists n: nat :: EndsAt(store, n) && Indexes(store, n, m)
  }

  method NewIndexMap(store: Store) returns (m: map<Word, u8>)
    ensures IsIndexMap(store, m)
  {
    m := map[];
    for i := 0 to MAX_NUM_PROCEDURES
      invariant Indexes(store, i, m)
      invariant forall k: nat | k < i :: store(k) != Some(EMPTY_WORD)
    {
      match store(i)
      case None =>
      case Some(root) =>
        if root == EMPTY_WORD {
          assert EndsAt(store, i);
          return;
        }
        m := m[root := i];
    }
    assert EndsAt(store, MAX_NUM_PROCEDURES);
  }

  function GetProcIndex(m: map<Word, u8>, root: Word): Result<u8, Word> {
    if root in m then Ok(m[root]) else Err(root)
  }

  /** The scan leaves no freedom: one store has one index. */
  lemma IndexMapIsUnique(store: Store, m: map<Word, u8>, m': map<Word, u8>)
    requires IsIndexMap(store, m) && IsIndexMap(store, m')
    ensures m == m'
  {
    var n: nat :| EndsAt(store, n) && Indexes(store, n, m);
    var n': nat :| EndsAt(store, n') && Indexes(store, n', m');
    assert n == n';
    forall d | d in m ensures d in m' && m[d] == m'[d] {
      assert store(m[d]).Some?;
      assert store(m'[d]).Some?;
    }
    forall d | d in m' ensures d in m {
      assert store(m'[d]).Some?;
    }
    assert m.Keys == m'.Keys;
  }

  /** The store holds part of the tree. */
  ghost predicate PartOf(store: Store, leaves: Leaves) {
    forall k: nat | k < MAX_NUM_PROCEDURES && store(k).Some? :: store(k).value == Leaf(leaves, k)
  }

  ghost predicate Complete(store: Store) {
    forall k: nat | k < MAX_NUM_PROCEDURES :: store(k).Some?
  }

  /** A procedure is loaded when some leaf that holds it is. */
  ghost predicate Loaded(store: Store, p: Word) {
    exists k: nat :: k < MAX_NUM_PROCEDURES && store(k) == Some(p)
  }

  lemma ScanPasses(s: seq<Word>, leaves: Leaves, store: Store, n: nat)
    requires |s| <= MAX_NUM_PROCEDURES && EMPTY_WORD !in s
    requires IsTree(s, leaves) && PartOf(store, leaves) && EndsAt(store, n)
    ensures |s| <= n
  {
    assert n < MAX_NUM_PROCEDURES ==> Leaf(leaves, n) == EMPTY_WORD;
    assert forall i: nat | i < |s| :: Leaf(leaves, i) == s[i] && s[i] in s;
  }

  /**
    Whatever part of the tree is loaded, the index maps every loaded procedure, and no other
    digest, to a place where the tree holds it, provided none of the procedures is empty.
   */
  lemma IndexAgreesWithTree(procs: seq<Word>, leaves: Leaves, store: Store, m: map<Word, u8>, root: Word)
    requires |procs| <= MAX_NUM_PROCEDURES && TreeOf(procs, leaves) && PartOf(store, leaves)
    requires IsIndexMap(store, m) && EMPTY_WORD !in procs
    ensures var r := GetProcIndex(m, root);
            && (r.Ok? <==> root in procs && Loaded(store, root))
            && (r.Ok? ==> Leaf(leaves, r.value) == root)
  {
    var n: nat :| EndsAt(store, n) && Indexes(store, n, m);
    var s :| IsSorting(DigestLe, procs, s) && IsTree(s, leaves);
    SortingMembers(DigestLe, procs, s, root);
    SortingMembers(DigestLe, procs, s, EMPTY_WORD);
    if root in m {
      assert store(m[root]) == Some(root) && Leaf(leaves, m[root]) == root;
    }
    if root in procs && Loaded(store, root) {
      var k: nat :| k < MAX_NUM_PROCEDURES && store(k) == Some(root);
      assert Leaf(leaves, k) == root && k < |s|;
      ScanPasses(s, leaves, store, n);
    }
  }

  lemma EmptySortsFirst(procs: seq<Word>, s: seq<Word>)
    requires IsSorting(DigestLe, procs, s) && EMPTY_WORD in procs
    ensures s != [] && s[0] == EMPTY_WORD
  {
    SortingMembers(DigestLe, procs, s, EMPTY_WORD);
    var i :| 0 <= i < |s| && s[i] == EMPTY_WORD;
    EmptyIsLeast(s[0]);
    DigestTotal(s[0], EMPTY_WORD);
  }

  lemma EmptyHidesAll(procs: seq<Word>, leaves: Leaves, store: Store, m: map<Word, u8>)
    requires TreeOf(procs, leaves) && PartOf(store, leaves) && Complete(store)
    requires IsIndexMap(store, m) && EMPTY_WORD in procs
    ensures m == map[]
  {
    var n: nat :| EndsAt(store, n) && Indexes(store, n, m);
    var s :| IsSorting(DigestLe, procs, s) && IsTree(s, leaves);
    EmptySortsFirst(procs, s);
    assert store(0) == Some(Leaf(leaves, 0));
    assert n == 0;
  }

  /**
    With the whole tree loaded the index knows exactly the account's procedures if and only if
    none of them is the empty digest; otherwise it is empty, as that digest is sorted first.
   */
  lemma IndexExact(procs: seq<Word>, leaves: Leaves, store: Store, m: map<Word, u8>)
    requires 1 <= |procs| <= MAX_NUM_PROCEDURES && TreeOf(procs, leaves)
    requires PartOf(store, leaves) && Complete(store) && IsIndexMap(store, m)
    ensures (forall p :: p in m <==> p in procs) <==> EMPTY_WORD !in procs
    ensures EMPTY_WORD in procs ==> m == map[]
    ensures forall p | p in m :: Leaf(leaves, m[p]) == p
  {
    if EMPTY_WORD in procs {
      EmptyHidesAll(procs, leaves, store, m);
    } else {
      forall p ensures p in m <==> p in procs
               ensures p in m ==> Leaf(leaves, m[p]) == p
      {
        IndexAgreesWithTree(procs, leaves, store, m, p);
        if p in procs {
          AllLoaded(procs, leaves, store, p);
        }
      }
    }
  }

  lemma AllLoaded(procs: seq<Word>, leaves: Leaves, store: Store, p: Word)
    requires |procs| <= MAX_NUM_PROCEDURES && TreeOf(procs, leaves)
    requires PartOf(store, leaves) && Complete(store) && p in procs
    ensures Loaded(store, p)
  {
    var s :| IsSorting(DigestLe, procs, s) && IsTree(s, leaves);
    SortingMembers(DigestLe, procs, s, p);
    var k :| 0 <= k < |s| && s[k] == p;
    assert Leaf(leaves, k) == p && store(k) == Some(p);
  }
}
