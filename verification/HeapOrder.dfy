/** Binary-heap order on a sequence of keys, and what each exchange of the sift loops keeps. */
module HeapOrder {

  function Parent(j: nat): (p: nat)
    requires j > 0
    ensures p < j
  {
    (j - 1) / 2
  }

  predicate Edge(t: seq<int>, k: nat)
    requires 0 < k < |t|
  {
    t[Parent(k)] <= t[k]
  }

  predicate IsHeap(t: seq<int>) {
    forall k :: 0 < k < |t| ==> Edge(t, k)
  }

  /** Children of `j` are no smaller than the parent of `j`, so `j` can be filled from either side. */
  predicate Spans(t: seq<int>, n: nat, j: nat)
    requires n <= |t|
  {
    0 < j < n ==> forall k :: 0 < k < n && Parent(k) == j ==> t[Parent(j)] <= t[k]
  }

  /** Only the edge above `j` may be out of order. */
  predicate HeapButUp(t: seq<int>, j: nat) {
    && (forall k :: 0 < k < |t| && k != j ==> Edge(t, k))
    && Spans(t, |t|, j)
  }

  /**
    Among the first `n` keys only edges below `i` may be out of order, and the one above it while `i` is still
    `start`.
   */
  predicate HeapButDown(t: seq<int>, n: nat, i: nat, start: nat)
    requires n <= |t|
  {
    && (forall k :: 0 < k < n && Parent(k) != i && !(k == i == start) ==> Edge(t, k))
    && Spans(t, n, i)
  }

  function Swapped(t: seq<int>, i: nat, j: nat): (r: seq<int>)
    requires i < |t| && j < |t|
    ensures |r| == |t|
  {
    t[i := t[j]][j := t[i]]
  }

  lemma SiftUpStep(t: seq<int>, j: nat)
    requires 0 < j < |t| && HeapButUp(t, j) && t[j] < t[Parent(j)]
    ensures HeapButUp(Swapped(t, Parent(j), j), Parent(j))
  {
    var i, r := Parent(j), Swapped(t, Parent(j), j);
    forall k | 0 < k < |t| && k != i ensures Edge(r, k) {
      if k != j && Parent(k) == i {
        assert Edge(t, k);
      } else if k != j {
        assert Edge(t, k);
        assert Parent(k) == j ==> t[i] <= t[k];
      }
    }
    if i > 0 {
      assert Edge(t, i);
      forall k | 0 < k < |t| && Parent(k) == i ensures r[Parent(i)] <= r[k] {
        assert k != j ==> Edge(t, k);
      }
    }
  }

  lemma SiftDownStep(t: seq<int>, n: nat, i: nat, j: nat, start: nat)
    requires n <= |t| && start <= i && 0 < j < n && Parent(j) == i && HeapButDown(t, n, i, start) && t[j] < t[i]
    requires forall k :: 0 < k < n && Parent(k) == i ==> t[j] <= t[k]
    ensures HeapButDown(Swapped(t, i, j), n, j, start)
  {
    var r := Swapped(t, i, j);
    forall k | 0 < k < n && Parent(k) != j ensures Edge(r, k) {
      if k != i && Parent(k) != i {
        assert Edge(t, k);
      } else if k == i {
        assert t[Parent(i)] <= t[j];
      }
    }
    forall k | 0 < k < n && Parent(k) == j ensures r[Parent(j)] <= r[k] {
      assert Edge(t, k);
    }
  }

  /** The root is a least key. */
  lemma {:induction false} RootIsLeast(t: seq<int>, k: nat)
    requires IsHeap(t) && k < |t|
    ensures t[0] <= t[k]
    decreases k
  {
    if k > 0 {
      assert Edge(t, k);
      RootIsLeast(t, Parent(k));
    }
  }
}
