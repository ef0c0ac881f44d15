/** A binary heap of interval ends, earliest end first. */
module EndHeap {

  datatype End = End(at: int, index: nat)

  predicate NotAfter(a: End, b: End)
  {
    a.at < b.at || (a.at == b.at && a.index <= b.index)
  }

  function Parent(k: nat): nat
    requires k > 0
  {
    (k - 1) / 2
  }

  ghost predicate IsHeap(heap: seq<End>)
  {
    forall k :: 1 <= k < |heap| ==> NotAfter(heap[Parent(k)], heap[k])
  }

  lemma {:induction false} RootIsLeast(heap: seq<End>, k: nat)
    requires IsHeap(heap) && k < |heap|
    ensures NotAfter(heap[0], heap[k])
  {
    if k > 0 {
      RootIsLeast(heap, Parent(k));
    }
  }

  function Swapped(heap: seq<End>, i: nat, j: nat): seq<End>
    requires i < |heap| && j < |heap|
  {
    heap[i := heap[j]][j := heap[i]]
  }

  lemma SwapPermutes(heap: seq<End>, i: nat, j: nat)
    requires i < |heap| && j < |heap|
    ensures multiset(Swapped(heap, i, j)) == multiset(heap)
  {
  }

  /** Only `pos` may be earlier than its parent, and its children are not earlier
      than that parent. */
  ghost predicate Rising(heap: seq<End>, pos: nat)
  {
    && pos < |heap|
    && (forall k :: 1 <= k < |heap| && k != pos ==> NotAfter(heap[Parent(k)], heap[k]))
    && (pos > 0 ==> forall k :: 1 <= k < |heap| && Parent(k) == pos ==> NotAfter(heap[Parent(pos)], heap[k]))
  }

  lemma RiseOne(heap: seq<End>, pos: nat)
    requires Rising(heap, pos) && pos > 0 && !NotAfter(heap[Parent(pos)], heap[pos])
    ensures Rising(Swapped(heap, Parent(pos), pos), Parent(pos))
  {
    var up := Parent(pos);
    var r := Swapped(heap, up, pos);
    forall k | 1 <= k < |r| && k != up ensures NotAfter(r[Parent(k)], r[k]) {
      assert k != pos ==> NotAfter(heap[Parent(k)], heap[k]);
    }
    forall k | 1 <= k < |r| && Parent(k) == up && up > 0 ensures NotAfter(r[Parent(up)], r[k]) {
      assert NotAfter(heap[Parent(up)], heap[up]);
      assert k != pos ==> NotAfter(heap[up], heap[k]);
    }
  }

  /** Only `pos` may be later than its children, which are not earlier than its
      parent. */
  ghost predicate Sinking(heap: seq<End>, pos: nat)
  {
    && pos < |heap|
    && (forall k :: 1 <= k < |heap| && Parent(k) != pos ==> NotAfter(heap[Parent(k)], heap[k]))
    && (pos > 0 ==> forall k :: 1 <= k < |heap| && Parent(k) == pos ==> NotAfter(heap[Parent(pos)], heap[k]))
  }

  predicate LeastChild(heap: seq<End>, pos: nat, child: nat)
  {
    && 1 <= child < |heap| && pos < |heap| && Parent(child) == pos
    && (2 * pos + 1 < |heap| ==> NotAfter(heap[child], heap[2 * pos + 1]))
    && (2 * pos + 2 < |heap| ==> NotAfter(heap[child], heap[2 * pos + 2]))
  }

  /** The pairs below the sunk element, given by value: the new element at `pos` is
      the old child, and nothing else in the pair has moved. */
  lemma SunkPair(heap: seq<End>, pos: nat, child: nat, k: nat)
    requires Sinking(heap, pos) && LeastChild(heap, pos, child)
    requires !NotAfter(heap[pos], heap[child])
    requires 1 <= k < |heap| && Parent(k) != child
    ensures k == child ==> NotAfter(heap[child], heap[pos])
    ensures k == pos ==> NotAfter(heap[Parent(k)], heap[child])
    ensures k != child && k != pos && Parent(k) == pos ==> NotAfter(heap[child], heap[k])
    ensures k != child && k != pos && Parent(k) != pos ==> NotAfter(heap[Parent(k)], heap[k])
  {
    if Parent(k) == pos {
      assert k == 2 * pos + 1 || k == 2 * pos + 2;
    }
  }

  lemma SinkOne(heap: seq<End>, pos: nat, child: nat)
    requires Sinking(heap, pos) && LeastChild(heap, pos, child)
    requires !NotAfter(heap[pos], heap[child])
    ensures Sinking(Swapped(heap, pos, child), child)
  {
    var r := Swapped(heap, pos, child);
    forall k | 1 <= k < |r| && Parent(k) != child ensures NotAfter(r[Parent(k)], r[k]) {
      SunkPair(heap, pos, child, k);
    }
    forall k | 1 <= k < |r| && Parent(k) == child ensures NotAfter(r[Parent(child)], r[k]) {
      assert NotAfter(heap[child], heap[k]);
    }
  }

  lemma SinkEnds(heap: seq<End>, pos: nat)
    requires Sinking(heap, pos)
    requires 2 * pos + 1 < |heap| ==> NotAfter(heap[pos], heap[2 * pos + 1])
    requires 2 * pos + 2 < |heap| ==> NotAfter(heap[pos], heap[2 * pos + 2])
    ensures IsHeap(heap)
  {
    forall k | 1 <= k < |heap| ensures NotAfter(heap[Parent(k)], heap[k]) {
      if Parent(k) == pos {
        assert k == 2 * pos + 1 || k == 2 * pos + 2;
      }
    }
  }

  /** Adds one end and moves it up to its place. */
  method Push(heap: seq<End>, x: End) returns (r: seq<End>)
    requires IsHeap(heap)
    ensures IsHeap(r)
    ensures multiset(r) == multiset(heap) + multiset{x}
  {
    r := heap + [x];
    var pos: nat := |heap|;
    while pos > 0 && !NotAfter(r[Parent(pos)], r[pos])
      invariant Rising(r, pos)
      invariant multiset(r) == multiset(heap) + multiset{x}
    {
      RiseOne(r, pos);
      SwapPermutes(r, Parent(pos), pos);
      r := Swapped(r, Parent(pos), pos);
      pos := Parent(pos);
    }
  }

  /** Moves the root down to its place. */
  method SinkRoot(heap: seq<End>) returns (r: seq<End>)
    requires Sinking(heap, 0)
    ensures IsHeap(r)
    ensures multiset(r) == multiset(heap)
  {
    r := heap;
    var pos := 0;
    while 2 * pos + 1 < |r|
      invariant Sinking(r, pos)
      invariant multiset(r) == multiset(heap)
      decreases |r| - pos
    {
      var child := 2 * pos + 1;
      if child + 1 < |r| && NotAfter(r[child + 1], r[child]) { child := child + 1; }
      if NotAfter(r[pos], r[child]) {
        SinkEnds(r, pos);
        return;
      }
      SinkOne(r, pos, child);
      SwapPermutes(r, pos, child);
      r := Swapped(r, pos, child);
      pos := child;
    }
    SinkEnds(r, pos);
  }

  /** Takes the earliest end out. */
  method Pop(heap: seq<End>) returns (least: End, r: seq<End>)
    requires IsHeap(heap) && heap != []
    ensures IsHeap(r)
    ensures forall e :: e in heap ==> NotAfter(least, e)
    ensures multiset(heap) == multiset(r) + multiset{least}
  {
    least := heap[0];
    forall e | e in heap ensures NotAfter(least, e) {
      var k :| 0 <= k < |heap| && heap[k] == e;
      RootIsLeast(heap, k);
    }
    var n := |heap| - 1;
    assert heap == heap[..n] + [heap[n]];
    if n == 0 { return least, []; }
    var moved := heap[..n][0 := heap[n]];
    assert heap[..n] == [least] + heap[1..n] && moved == [heap[n]] + heap[1..n];
    r := SinkRoot(moved);
  }
}
