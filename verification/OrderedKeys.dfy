/** Iteration over an ordered map: its keys in ascending order. */
module OrderedKeys {

  ghost predicate StrictOrder<K(!new)>(less: (K, K) -> bool) {
    && (forall a :: !less(a, a))
    && (forall a, b, c :: less(a, b) && less(b, c) ==> less(a, c))
    && (forall a, b :: a == b || less(a, b) || less(b, a))
  }

  ghost predicate IsLeast<K(!new)>(s: set<K>, less: (K, K) -> bool, m: K) {
    m in s && forall k :: k in s && k != m ==> less(m, k)
  }

  lemma {:induction false} LeastExists<K(!new)>(s: set<K>, less: (K, K) -> bool)
    requires StrictOrder(less) && s != {}
    ensures exists m :: IsLeast(s, less, m)
  {
    var x :| x in s;
    if s == {x} {
      assert IsLeast(s, less, x);
    } else {
      LeastExists(s - {x}, less);
      var m :| IsLeast(s - {x}, less, m);
      var least := if less(x, m) then x else m;
      forall k | k in s && k != least ensures less(least, k) {
        if k != x && k != m {
          assert k in s - {x} && less(m, k);
        }
      }
      assert IsLeast(s, less, least);
    }
  }

  /** The keys in ascending order. */
  ghost function Ascending<K(!new)>(s: set<K>, less: (K, K) -> bool): (r: seq<K>)
    requires StrictOrder(less)
    ensures |r| == |s|
    ensures forall k :: k in r <==> k in s
    ensures forall i, j | 0 <= i < j < |r| :: r[i] != r[j]
    decreases |s|
  {
    if s == {} then []
    else
      LeastExists(s, less);
      var m :| IsLeast(s, less, m);
      [m] + Ascending(s - {m}, less)
  }

  lemma AscendingStep<K(!new)>(s: set<K>, less: (K, K) -> bool, m: K)
    requires StrictOrder(less) && IsLeast(s, less, m)
    ensures Ascending(s, less) == [m] + Ascending(s - {m}, less)
  {
    var n :| IsLeast(s, less, n) && Ascending(s, less) == [n] + Ascending(s - {n}, less);
    LeastIsUnique(s, less, m, n);
  }

  lemma LeastIsUnique<K(!new)>(s: set<K>, less: (K, K) -> bool, m: K, n: K)
    requires StrictOrder(less) && IsLeast(s, less, m) && IsLeast(s, less, n)
    ensures m == n
  {
  }

  predicate InOrder<K>(r: seq<K>, less: (K, K) -> bool) {
    forall i, j | 0 <= i < j < |r| :: less(r[i], r[j])
  }

  lemma InOrderCons<K>(m: K, tail: seq<K>, less: (K, K) -> bool)
    requires InOrder(tail, less) && forall j | 0 <= j < |tail| :: less(m, tail[j])
    ensures InOrder([m] + tail, less)
  {
    var r := [m] + tail;
    assert forall j | 0 < j < |r| :: r[j] == tail[j - 1];
  }

  /** The list is in ascending order. */
  lemma {:induction false} AscendingIsSorted<K(!new)>(s: set<K>, less: (K, K) -> bool)
    requires StrictOrder(less)
    ensures InOrder(Ascending(s, less), less)
    decreases |s|
  {
    if s != {} {
      LeastExists(s, less);
      var m :| IsLeast(s, less, m);
      AscendingStep(s, less, m);
      AscendingIsSorted(s - {m}, less);
      var tail := Ascending(s - {m}, less);
      assert forall j | 0 <= j < |tail| :: tail[j] in tail;
      InOrderCons(m, tail, less);
    }
  }

  method PickLeast<K(==, !new)>(s: set<K>, less: (K, K) -> bool) returns (m: K)
    requires StrictOrder(less) && s != {}
    ensures IsLeast(s, less, m)
  {
    LeastExists(s, less);
    ghost var l :| IsLeast(s, less, l);
    assert l in s && forall k | k in s && k != l :: less(l, k);
    m :| m in s && forall k | k in s && k != m :: less(m, k);
  }

  /** The order in which an ordered map is iterated. */
  method SortedKeys<K(==, !new)>(s: set<K>, less: (K, K) -> bool) returns (r: seq<K>)
    requires StrictOrder(less)
    ensures r == Ascending(s, less)
    decreases |s|
  {
    if s == {} {
      return [];
    }
    var m := PickLeast(s, less);
    AscendingStep(s, less, m);
    var rest := SortedKeys(s - {m}, less);
    r := [m] + rest;
  }
}
