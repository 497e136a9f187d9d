/** The 4-ary heap of common.h: upheap, downheap, adjustheap and buildheap, in place on an array, for any strict weak
    order given as a comparator. The sifts move elements into a hole and write the saved element once, at the end;
    the proofs follow the sequence the array would be with the saved element in the hole. */
module QuadHeap {

  const DHEAD: nat := 4

  function Parent(p: nat): nat
    requires p > 0
    ensures Parent(p) < p
  {
    (p - 1) / DHEAD
  }

  function LChild(p: nat): nat { DHEAD * p + 1 }

  ghost predicate StrictWeakOrder<T(!new)>(less: (T, T) -> bool) {
    && (forall a :: !less(a, a))
    && (forall a, b, c :: less(a, b) && less(b, c) ==> less(a, c))
    && (forall a, b, c :: less(a, c) ==> less(a, b) || less(b, c))
  }

  /** The first n elements are in heap order. */
  ghost predicate IsHeap<T>(s: seq<T>, n: nat, less: (T, T) -> bool)
    requires n <= |s|
  {
    forall i :: 0 < i < n ==> !less(s[i], s[Parent(i)])
  }

  /** Heap order everywhere but around pos, whose element may be anything. */
  ghost predicate IsHeapExcept<T>(s: seq<T>, n: nat, pos: nat, less: (T, T) -> bool)
    requires n <= |s|
  {
    && (forall i :: 0 < i < n && i != pos && Parent(i) != pos ==> !less(s[i], s[Parent(i)]))
    && (forall i :: 0 < i < n && Parent(i) == pos && 0 < pos ==> !less(s[i], s[Parent(pos)]))
  }

  /** What the element at pos may be too small for: only its parent. */
  ghost predicate UpInv<T>(s: seq<T>, n: nat, pos: nat, less: (T, T) -> bool)
    requires n <= |s|
  {
    IsHeapExcept(s, n, pos, less) && forall i :: 0 < i < n && Parent(i) == pos ==> !less(s[i], s[pos])
  }

  /** What the element at pos may be too large for: only its children. */
  ghost predicate DownInv<T>(s: seq<T>, n: nat, pos: nat, less: (T, T) -> bool)
    requires n <= |s|
  {
    IsHeapExcept(s, n, pos, less) && (0 < pos < n ==> !less(s[pos], s[Parent(pos)]))
  }

  function Swap<T>(s: seq<T>, i: nat, j: nat): seq<T>
    requires i < |s| && j < |s|
  {
    s[i := s[j]][j := s[i]]
  }

  ghost predicate Permutation<T>(s: seq<T>, t: seq<T>) { multiset(s) == multiset(t) }

  lemma SwapPermutes<T>(s: seq<T>, i: nat, j: nat, t: seq<T>)
    requires i < |s| && j < |s| && Permutation(s, t)
    ensures Permutation(Swap(s, i, j), t)
  {
  }

  /** Whatever replaces an element of a heap, the rest stays in order: what adjustheap starts from. */
  lemma ReplaceInHeap<T(!new)>(s: seq<T>, n: nat, pos: nat, x: T, less: (T, T) -> bool)
    requires n <= |s| && pos < n && IsHeap(s, n, less) && StrictWeakOrder(less)
    ensures IsHeapExcept(s[pos := x], n, pos, less)
  {
  }

  lemma UpStep<T(!new)>(s: seq<T>, n: nat, pos: nat, less: (T, T) -> bool)
    requires n <= |s| && 0 < pos < n && StrictWeakOrder(less)
    requires UpInv(s, n, pos, less) && !less(s[Parent(pos)], s[pos])
    ensures UpInv(Swap(s, pos, Parent(pos)), n, Parent(pos), less)
  {
  }

  lemma UpDone<T(!new)>(s: seq<T>, n: nat, pos: nat, less: (T, T) -> bool)
    requires n <= |s| && pos < n && StrictWeakOrder(less)
    requires UpInv(s, n, pos, less) && (pos == 0 || less(s[Parent(pos)], s[pos]))
    ensures IsHeap(s, n, less)
  {
  }

  /** No child of pos is below s[m]. */
  ghost predicate IsMinChild<T>(s: seq<T>, n: nat, pos: nat, m: nat, less: (T, T) -> bool)
    requires n <= |s|
  {
    0 < m < n && Parent(m) == pos && forall i :: 0 < i < n && Parent(i) == pos ==> !less(s[i], s[m])
  }

  lemma DownStep<T(!new)>(s: seq<T>, n: nat, pos: nat, m: nat, less: (T, T) -> bool)
    requires n <= |s| && pos < n && StrictWeakOrder(less)
    requires DownInv(s, n, pos, less) && IsMinChild(s, n, pos, m, less) && !less(s[pos], s[m])
    ensures DownInv(Swap(s, pos, m), n, m, less)
  {
  }

  lemma DownDone<T(!new)>(s: seq<T>, n: nat, pos: nat, m: nat, less: (T, T) -> bool)
    requires n <= |s| && pos < n && StrictWeakOrder(less) && DownInv(s, n, pos, less)
    requires LChild(pos) >= n || (IsMinChild(s, n, pos, m, less) && less(s[pos], s[m]))
    ensures IsHeap(s, n, less)
  {
  }

  /** The root of a heap is a minimum. */
  lemma {:induction false} RootIsMinimum<T(!new)>(s: seq<T>, n: nat, i: nat, less: (T, T) -> bool)
    requires n <= |s| && i < n && StrictWeakOrder(less) && IsHeap(s, n, less)
    ensures !less(s[i], s[0])
  {
    if i > 0 {
      RootIsMinimum(s, n, Parent(i), less);
      assert !less(s[i], s[Parent(i)]);
    }
  }

  lemma BelowAllChildren<T>(s: seq<T>, n: nat, pos: nat, hi: nat, m: nat, less: (T, T) -> bool)
    requires n <= |s| && LChild(pos) <= m < hi && m < n && hi <= LChild(pos) + DHEAD
    requires hi >= LChild(pos) + DHEAD || hi >= n
    requires BelowNone(s[..n], LChild(pos), hi, m, less)
    ensures IsMinChild(s, n, pos, m, less)
  {
  }

  lemma WiderMin<T(!new)>(s: seq<T>, lo: nat, hi: nat, m: nat, less: (T, T) -> bool)
    requires StrictWeakOrder(less) && lo <= m < hi && m < |s| && BelowNone(s, lo, hi, m, less)
    ensures BelowNone(s, lo, hi + 1, if hi < |s| && less(s[hi], s[m]) then hi else m, less)
  {
  }

  lemma NoneBelowItself<T(!new)>(s: seq<T>, m: nat, less: (T, T) -> bool)
    requires StrictWeakOrder(less) && m < |s|
    ensures BelowNone(s, m, m + 1, m, less)
  {
  }

  /** The scan for the least child; up to four of them, as many as fit below size. */
  method MinChild<T(!new)>(heap: array<T>, size: nat, pos: nat, lchild: nat, less: (T, T) -> bool) returns (min: nat)
    requires StrictWeakOrder(less) && size <= heap.Length && lchild == LChild(pos) < size
    ensures IsMinChild(heap[..], size, pos, min, less) && pos < min < size
  {
    hide BelowNone, StrictWeakOrder, IsMinChild, Parent;
    min := lchild;
    ghost var s := heap[..size];
    NoneBelowItself(s, lchild, less);
    if lchild + DHEAD - 1 < size {
      WiderMin(s, lchild, lchild + 1, min, less);
      min := if less(heap[lchild + 1], heap[min]) then lchild + 1 else min;
      WiderMin(s, lchild, lchild + 2, min, less);
      min := if less(heap[lchild + 2], heap[min]) then lchild + 2 else min;
      WiderMin(s, lchild, lchild + 3, min, less);
      min := if less(heap[lchild + 3], heap[min]) then lchild + 3 else min;
      BelowAllChildren(heap[..], size, pos, lchild + 4, min, less);
    } else {
      WiderMin(s, lchild, lchild + 1, min, less);
      min := if lchild + 1 < size && less(heap[lchild + 1], heap[min]) then lchild + 1 else min;
      WiderMin(s, lchild, lchild + 2, min, less);
      min := if lchild + 2 < size && less(heap[lchild + 2], heap[min]) then lchild + 2 else min;
      BelowAllChildren(heap[..], size, pos, lchild + 3, min, less);
    }
  }

  /** None of the elements from lo up to hi, as far as there are any, is below s[m]. */
  ghost predicate BelowNone<T>(s: seq<T>, lo: nat, hi: nat, m: nat, less: (T, T) -> bool)
    requires m < |s|
  {
    forall i :: lo <= i < hi && i < |s| ==> !less(s[i], s[m])
  }

  /** What the hole holds does not matter to its children. */
  lemma SameMinChild<T>(h: seq<T>, s: seq<T>, n: nat, pos: nat, m: nat, less: (T, T) -> bool)
    requires n <= |h| == |s| && pos < n && IsMinChild(h, n, pos, m, less)
    requires forall i :: 0 <= i < |s| && i != pos ==> s[i] == h[i]
    ensures IsMinChild(s, n, pos, m, less)
  {
  }

  method DownHeap<T(!new)>(heap: array<T>, size: nat, start: nat, less: (T, T) -> bool)
    requires StrictWeakOrder(less) && start < size <= heap.Length
    requires DownInv(heap[..], size, start, less)
    modifies heap
    ensures IsHeap(heap[..], size, less)
    ensures Permutation(heap[..], old(heap[..])) && heap[size..] == old(heap[size..])
  {
    hide StrictWeakOrder, DownInv, IsMinChild, IsHeap, Permutation, LChild, Parent;
    var pos := start;
    var bak := heap[pos];
    var lchild := LChild(pos);
    ghost var s := heap[..];
    ghost var min' := 0;
    NothingSifted(s, less);
    while true
      invariant pos < size && lchild == LChild(pos)
      invariant |s| == heap.Length && forall i :: 0 <= i < |s| ==> s[i] == if i == pos then bak else heap[i]
      invariant DownInv(s, size, pos, less)
      invariant Permutation(s, old(heap[..])) && s[size..] == old(heap[size..])
      decreases size - pos
    {
      if lchild >= size {
        break;
      }
      var min := MinChild(heap, size, pos, lchild, less);
      SameMinChild(heap[..], s, size, pos, min, less);
      if less(bak, heap[min]) {
        min' := min;
        break;
      }
      DownStep(s, size, pos, min, less);
      SwapPermutes(s, pos, min, old(heap[..]));
      s := Swap(s, pos, min);
      heap[pos] := heap[min];
      lchild := LChild(min);
      pos := min;
    }
    heap[pos] := bak;
    assert heap[..] == s;
    DownDone(s, size, pos, min', less);
  }

  method UpHeap<T(!new)>(heap: array<T>, start: nat, less: (T, T) -> bool, ghost size: nat)
    requires StrictWeakOrder(less) && start < size <= heap.Length
    requires UpInv(heap[..], size, start, less)
    modifies heap
    ensures IsHeap(heap[..], size, less)
    ensures Permutation(heap[..], old(heap[..]))
    ensures forall i :: start < i < heap.Length ==> heap[i] == old(heap[i])
  {
    hide StrictWeakOrder, UpInv, IsHeap, Permutation, Parent;
    var pos := start;
    var bak := heap[pos];
    ghost var s := heap[..];
    NothingSifted(s, less);
    while pos != 0
      invariant pos <= start
      invariant |s| == heap.Length && forall i :: 0 <= i < |s| ==> s[i] == if i == pos then bak else heap[i]
      invariant UpInv(s, size, pos, less)
      invariant Permutation(s, old(heap[..]))
      invariant forall i :: start < i < heap.Length ==> s[i] == old(heap[i])
    {
      var parent := Parent(pos);
      if less(heap[parent], bak) {
        break;
      }
      UpStep(s, size, pos, less);
      SwapPermutes(s, pos, parent, old(heap[..]));
      s := Swap(s, pos, parent);
      heap[pos] := heap[parent];
      pos := parent;
    }
    heap[pos] := bak;
    assert heap[..] == s;
    UpDone(s, size, pos, less);
  }

  /** Restores the heap after the element at pos has been replaced by anything. */
  method AdjustHeap<T(!new)>(heap: array<T>, size: nat, pos: nat, less: (T, T) -> bool)
    requires StrictWeakOrder(less) && pos < size <= heap.Length
    requires IsHeapExcept(heap[..], size, pos, less)
    modifies heap
    ensures IsHeap(heap[..], size, less)
    ensures Permutation(heap[..], old(heap[..])) && heap[size..] == old(heap[size..])
  {
    if pos != 0 && less(heap[pos], heap[Parent(pos)]) {
      SmallerThanParent(heap[..], size, pos, less);
      UpHeap(heap, pos, less, size);
    } else {
      DownHeap(heap, size, pos, less);
    }
  }

  lemma SmallerThanParent<T(!new)>(s: seq<T>, n: nat, pos: nat, less: (T, T) -> bool)
    requires n <= |s| && 0 < pos < n && StrictWeakOrder(less)
    requires IsHeapExcept(s, n, pos, less) && less(s[pos], s[Parent(pos)])
    ensures UpInv(s, n, pos, less)
  {
  }

  /** Makes a heap of any array, of the same elements; so the root becomes a minimum. */
  method BuildHeap<T(!new)>(heap: array<T>, size: nat, less: (T, T) -> bool)
    requires StrictWeakOrder(less) && size <= heap.Length
    modifies heap
    ensures IsHeap(heap[..], size, less)
    ensures Permutation(heap[..], old(heap[..])) && heap[size..] == old(heap[size..])
    ensures forall i :: 0 <= i < size ==> !less(heap[i], heap[0])
  {
    hide IsHeap, Permutation, StrictWeakOrder, UpInv;
    NothingSifted(heap[..], less);
    for i := 0 to size
      invariant IsHeap(heap[..], i, less) && Permutation(heap[..], old(heap[..]))
      invariant forall k :: i <= k < heap.Length ==> heap[k] == old(heap[k])
    {
      ghost var before := heap[..];
      LeafChildren(heap[..], i, less);
      UpHeap(heap, i, less, i + 1);
      PermutedAgain(heap[..], before, old(heap[..]));
    }
    forall i | 0 <= i < size ensures !less(heap[i], heap[0]) {
      RootIsMinimum(heap[..], size, i, less);
    }
  }

  lemma NothingSifted<T>(s: seq<T>, less: (T, T) -> bool)
    ensures IsHeap(s, 0, less) && Permutation(s, s)
  {
  }

  lemma PermutedAgain<T>(s: seq<T>, t: seq<T>, u: seq<T>)
    requires Permutation(s, t) && Permutation(t, u)
    ensures Permutation(s, u)
  {
  }

  /** Appending one element below a heap leaves only that element out of place. */
  lemma LeafChildren<T>(s: seq<T>, pos: nat, less: (T, T) -> bool)
    requires pos < |s| && IsHeap(s, pos, less)
    ensures UpInv(s, pos + 1, pos, less)
  {
  }
}
