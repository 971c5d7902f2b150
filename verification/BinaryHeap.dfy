/** The binary-heap algorithms of Go's container/heap, which nonceHeap and
    priceHeap of core/tx_list.go are driven by. A heap is a sequence kept in
    heap order with respect to a strict weak order `less`. */
module BinaryHeap {

  /** `less` is a strict weak order: asymmetric, with a transitive complement. */
  ghost predicate WeakOrder<T(!new)>(less: (T, T) -> bool) {
    && (forall a, b :: less(a, b) ==> !less(b, a))
    && (forall a, b, c :: !less(b, a) && !less(c, b) ==> !less(c, a))
  }

  predicate NumberLess(a: nat, b: nat) { a < b }

  lemma NumberOrder()
    ensures WeakOrder(NumberLess)
  {
  }

  function Parent(j: int): int { (j - 1) / 2 }

  /** The element at `j` is not below its parent. */
  ghost predicate Edge<T>(h: seq<T>, less: (T, T) -> bool, j: int) {
    0 < j < |h| ==> !less(h[j], h[Parent(j)])
  }

  /** Heap order on all edges whose parent is at `lo` or later. */
  ghost predicate HeapFrom<T>(h: seq<T>, less: (T, T) -> bool, lo: int) {
    forall j :: 0 < j < |h| && Parent(j) >= lo ==> Edge(h, less, j)
  }

  /** No element is below its parent. */
  ghost predicate IsHeap<T>(h: seq<T>, less: (T, T) -> bool) {
    HeapFrom(h, less, 0)
  }

  /** Heap order from `lo` on, except on the edges that touch `k`; across `k`, its
      children are still not below its parent. */
  ghost predicate HeapAround<T>(h: seq<T>, less: (T, T) -> bool, lo: int, k: int) {
    && (forall j :: 0 < j < |h| && Parent(j) >= lo && j != k && Parent(j) != k ==> Edge(h, less, j))
    && (forall j :: 0 < j < |h| && Parent(j) == k && 0 < k && Parent(k) >= lo ==> !less(h[j], h[Parent(k)]))
  }

  ghost predicate EdgesBelow<T>(h: seq<T>, less: (T, T) -> bool, k: int) {
    forall j :: 0 < j < |h| && Parent(j) == k ==> Edge(h, less, j)
  }

  function Swap<T>(h: seq<T>, i: nat, j: nat): (r: seq<T>)
    requires i < |h| && j < |h|
    ensures |r| == |h| && multiset(r) == multiset(h)
  {
    h[i := h[j]][j := h[i]]
  }

  /** The root of a heap is a least element. */
  lemma {:induction false} RootIsLeast<T(!new)>(h: seq<T>, less: (T, T) -> bool, k: nat)
    requires WeakOrder(less) && IsHeap(h, less) && k < |h|
    ensures !less(h[k], h[0])
  {
    if k > 0 {
      RootIsLeast(h, less, Parent(k));
      assert Edge(h, less, k);
    }
  }

  /** Swapping `k` with a larger parent moves the disorder one level up. */
  lemma UpStep<T(!new)>(h: seq<T>, less: (T, T) -> bool, k: nat)
    requires WeakOrder(less) && 0 < k < |h| && less(h[k], h[Parent(k)])
    requires HeapAround(h, less, 0, k) && EdgesBelow(h, less, k)
    ensures HeapAround(Swap(h, Parent(k), k), less, 0, Parent(k))
    ensures EdgesBelow(Swap(h, Parent(k), k), less, Parent(k))
  {
    var p := Parent(k);
    var r := Swap(h, p, k);
    forall j | 0 < j < |r| && j != p ensures Edge(r, less, j) {
      assert j != k && Parent(j) != k ==> Edge(h, less, j);
    }
    forall j | 0 < j < |r| && Parent(j) == p && 0 < p ensures !less(r[j], r[Parent(p)]) {
      assert Edge(h, less, p) && (j != k ==> Edge(h, less, j));
    }
  }

  method Up<T(!new)>(h: seq<T>, less: (T, T) -> bool, k: nat) returns (r: seq<T>)
    requires WeakOrder(less) && k < |h|
    requires HeapAround(h, less, 0, k) && EdgesBelow(h, less, k)
    ensures IsHeap(r, less) && multiset(r) == multiset(h)
  {
    r := h;
    var j := k;
    while j > 0 && less(r[j], r[Parent(j)])
      invariant 0 <= j < |r| && multiset(r) == multiset(h)
      invariant HeapAround(r, less, 0, j) && EdgesBelow(r, less, j)
    {
      UpStep(r, less, j);
      r := Swap(r, Parent(j), j);
      j := Parent(j);
    }
  }

  /** Swapping `i` with its least child `c` moves the disorder one level down. */
  lemma DownStep<T(!new)>(h: seq<T>, less: (T, T) -> bool, lo: nat, i: nat, c: nat)
    requires WeakOrder(less) && HeapAround(h, less, lo, i)
    requires lo <= i < |h| && 0 < c < |h| && Parent(c) == i && less(h[c], h[i])
    requires forall j :: 0 < j < |h| && Parent(j) == i ==> !less(h[j], h[c])
    ensures HeapAround(Swap(h, i, c), less, lo, c)
    ensures 0 < i && Parent(i) >= lo ==> Edge(Swap(h, i, c), less, i)
    ensures Edge(Swap(h, i, c), less, c)
  {
    var r := Swap(h, i, c);
    forall j | 0 < j < |r| && Parent(j) >= lo && j != c && Parent(j) != c ensures Edge(r, less, j) {
      if j != i && Parent(j) != i { assert Edge(h, less, j); }
    }
    forall j | 0 < j < |r| && Parent(j) == c ensures !less(r[j], r[i]) {
      assert Edge(h, less, j);
    }
  }

  /** Moves the element at `k` down among the edges from `lo` on; `moved` tells
      whether it moved. When it did not, only the edge above `k` may be out of order. */
  method Down<T(!new)>(h: seq<T>, less: (T, T) -> bool, lo: nat, k: nat) returns (r: seq<T>, moved: bool)
    requires WeakOrder(less) && lo <= k && HeapAround(h, less, lo, k)
    ensures |r| == |h| && multiset(r) == multiset(h)
    ensures !moved ==> r == h && EdgesBelow(r, less, k)
    ensures moved || k == 0 || Parent(k) < lo ==> HeapFrom(r, less, lo)
  {
    hide HeapAround;
    r := h;
    var i := k;
    while true
      invariant k <= i && |r| == |h| && multiset(r) == multiset(h)
      invariant HeapAround(r, less, lo, i)
      invariant i == k ==> r == h
      invariant i > k ==> i < |r| && Edge(r, less, i)
      decreases |h| - i
    {
      var c := 2 * i + 1;
      if c >= |r| { break; }
      if c + 1 < |r| && less(r[c + 1], r[c]) { c := c + 1; }
      assert forall j :: 0 < j < |r| && Parent(j) == i ==> j == 2 * i + 1 || j == 2 * i + 2;
      if !less(r[c], r[i]) { break; }
      DownStep(r, less, lo, i, c);
      r := Swap(r, i, c);
      i := c;
    }
    moved := i > k;
    assert EdgesBelow(r, less, i) by {
      forall j | 0 < j < |r| && Parent(j) == i ensures Edge(r, less, j) {
        assert j == 2 * i + 1 || j == 2 * i + 2;
      }
    }
    DownDone(r, less, lo, i);
  }

  lemma DownDone<T>(h: seq<T>, less: (T, T) -> bool, lo: nat, i: nat)
    requires HeapAround(h, less, lo, i) && EdgesBelow(h, less, i)
    ensures Edge(h, less, i) || Parent(i) < lo ==> HeapFrom(h, less, lo)
    ensures i == 0 ==> HeapFrom(h, less, lo)
  {
  }

  /** heap.Push */
  method Push<T(!new)>(h: seq<T>, less: (T, T) -> bool, x: T) returns (r: seq<T>)
    requires WeakOrder(less) && IsHeap(h, less)
    ensures IsHeap(r, less) && multiset(r) == multiset(h) + multiset{x}
    ensures |r| == |h| + 1
  {
    hide WeakOrder;
    var s := h + [x];
    forall j | 0 < j < |h| ensures Edge(s, less, j) { assert Edge(h, less, j); }
    r := Up(s, less, |h|);
    assert |multiset(r)| == |multiset(h)| + 1;
  }

  lemma CutLast<T>(h: seq<T>, less: (T, T) -> bool)
    requires IsHeap(h, less) && h != []
    ensures IsHeap(h[..|h| - 1], less)
    ensures multiset(h[..|h| - 1]) == multiset(h) - multiset{h[|h| - 1]}
  {
    var r := h[..|h| - 1];
    assert h == r + [h[|h| - 1]];
    forall j | 0 < j < |r| ensures Edge(r, less, j) { assert Edge(h, less, j); }
  }

  /** Moving the last element of a heap to `i` disturbs only the edges at `i`. */
  lemma LastMoved<T(!new)>(h: seq<T>, less: (T, T) -> bool, i: nat)
    requires WeakOrder(less) && IsHeap(h, less) && i < |h| - 1
    ensures HeapAround(Swap(h, i, |h| - 1)[..|h| - 1], less, 0, i)
    ensures multiset(Swap(h, i, |h| - 1)[..|h| - 1]) == multiset(h) - multiset{h[i]}
  {
    var s := Swap(h, i, |h| - 1);
    var t := s[..|h| - 1];
    assert s == t + [h[i]];
    forall j | 0 < j < |t| && j != i && Parent(j) != i ensures Edge(t, less, j) { assert Edge(h, less, j); }
    forall j | 0 < j < |t| && Parent(j) == i && 0 < i ensures !less(t[j], t[Parent(i)]) {
      assert Edge(h, less, j) && Edge(h, less, i);
    }
  }

  /** heap.Remove: the element at `i` is swapped with the last and cut off. */
  method RemoveAt<T(!new)>(h: seq<T>, less: (T, T) -> bool, i: nat) returns (x: T, r: seq<T>)
    requires WeakOrder(less) && IsHeap(h, less) && i < |h|
    ensures x == h[i] && IsHeap(r, less) && multiset(r) == multiset(h) - multiset{x}
    ensures |r| == |h| - 1
  {
    hide WeakOrder, HeapAround, HeapFrom;
    x := h[i];
    var n := |h| - 1;
    if i == n {
      r := h[..n];
      CutLast(h, less);
    } else {
      var t := Swap(h, i, n)[..n];
      LastMoved(h, less, i);
      var moved;
      r, moved := Down(t, less, 0, i);
      if !moved { r := Up(r, less, i); }
    }
    assert |multiset(r)| == |multiset(h)| - 1;
  }

  /** heap.Pop: removes a least element. */
  method Pop<T(!new)>(h: seq<T>, less: (T, T) -> bool) returns (x: T, r: seq<T>)
    requires WeakOrder(less) && IsHeap(h, less) && |h| > 0
    ensures x == h[0] && IsHeap(r, less) && multiset(r) == multiset(h) - multiset{x}
    ensures |r| == |h| - 1
    ensures forall y :: y in h ==> !less(y, x)
  {
    hide WeakOrder, HeapFrom;
    x, r := RemoveAt(h, less, 0);
    forall y | y in h ensures !less(y, x) {
      var k :| 0 <= k < |h| && h[k] == y;
      RootIsLeast(h, less, k);
    }
  }

  /** heap.Init: orders an arbitrary sequence bottom up. */
  method Init<T(!new)>(h: seq<T>, less: (T, T) -> bool) returns (r: seq<T>)
    requires WeakOrder(less)
    ensures IsHeap(r, less) && multiset(r) == multiset(h) && |r| == |h|
  {
    hide WeakOrder;
    r := h;
    var i := |h| / 2;
    while i > 0
      invariant 0 <= i && |r| == |h| && multiset(r) == multiset(h)
      invariant HeapFrom(r, less, i)
    {
      i := i - 1;
      var moved;
      r, moved := Down(r, less, i, i);
    }
  }

  ghost predicate Ordered<T>(s: seq<T>, less: (T, T) -> bool) {
    forall i, j :: 0 <= i < j < |s| ==> !less(s[j], s[i])
  }

  /** Sorting in ascending order, as sort.Sort promises it. */
  method Sort<T(!new)>(s: seq<T>, less: (T, T) -> bool) returns (r: seq<T>)
    requires WeakOrder(less)
    ensures Ordered(r, less) && multiset(r) == multiset(s) && |r| == |s|
  {
    hide WeakOrder, IsHeap;
    var h := Init(s, less);
    r := [];
    while h != []
      invariant IsHeap(h, less) && Ordered(r, less)
      invariant multiset(r) + multiset(h) == multiset(s) && |r| + |h| == |s|
      invariant forall x, y :: x in r && y in h ==> !less(y, x)
      decreases |h|
    {
      var x;
      ghost var before := h;
      x, h := Pop(h, less);
      forall y | y in h ensures y in before { assert y in multiset(h); assert y in multiset(before); }
      assert x in before;
      r := r + [x];
    }
    assert multiset(h) == multiset{};
  }
}
