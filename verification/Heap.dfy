/** The part of Python's `heapq` that the schedulers rely on. */
module Heap {
  import opened Sequences
  import opened Sorting

  /** `heapq.heappop`: remove a least element. */
  method PopLeast<T(!new)>(leq: (T, T) -> bool, heap: seq<T>) returns (least: T, rest: seq<T>)
    requires heap != [] && TotalPreorder(leq)
    ensures least in heap && multiset(heap) == multiset(rest) + multiset{least}
    ensures forall e :: e in heap ==> leq(least, e)
  {
    var best := 0;
    for k := 1 to |heap|
      invariant best < |heap|
      invariant forall j :: 0 <= j < k ==> leq(heap[best], heap[j])
    {
      if !leq(heap[best], heap[k]) {
        best := k;
      }
    }
    WithoutOne(heap, best);
    return heap[best], Without(heap, best);
  }

  lemma UpdatedMultiset<T>(s: seq<T>, k: nat, x: T)
    requires k < |s|
    ensures multiset(s[k := x]) + multiset{s[k]} == multiset(s) + multiset{x}
  {
    WithoutOne(s, k);
    WithoutOne(s[k := x], k);
    assert Without(s[k := x], k) == Without(s, k);
  }
}
