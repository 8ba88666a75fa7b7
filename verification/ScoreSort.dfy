/** sampler/heap.go processScoreSort: the heapsort behind TopN, in place on an array. */
module ScoreSort {
  import opened HeapOrder

  /** Element `k` does not score above its parent. */
  ghost predicate Under(s: seq<Process>, k: int)
    requires 1 <= k < |s|
  {
    s[k].score <= s[Parent(k)].score
  }

  /** The first `n` elements are in max-heap order as far as parents from `lo` on are concerned. */
  ghost predicate MaxHeap(s: seq<Process>, lo: int, n: nat)
    requires n <= |s|
  {
    forall k :: 1 <= k < n && Parent(k) >= lo ==> Under(s, k)
  }

  /** Max-heap order but for element `i`, which may score below its children. */
  ghost predicate MaxHeapBut(s: seq<Process>, lo: int, n: nat, i: nat)
    requires n <= |s|
  {
    && (forall k :: 1 <= k < n && Parent(k) >= lo && Parent(k) != i ==> Under(s, k))
    && (forall k :: 1 <= k < n && Parent(k) == i && Parent(i) >= lo && i >= 1 ==> s[k].score <= s[Parent(i)].score)
  }

  /** The highest of element `i` and its children, with the tie-breaking of heapify. */
  function Largest(s: seq<Process>, n: nat, i: nat): (l: nat)
    requires i < |s| && n <= |s|
    ensures l == i || (i < l < n && Parent(l) == i && s[l].score > s[i].score)
    ensures forall k :: 1 <= k < n && Parent(k) == i ==> s[k].score <= s[l].score
  {
    var left, right := 2 * i + 1, 2 * i + 2;
    assert forall k :: 1 <= k < n && Parent(k) == i ==> k == left || k == right;
    var first := if left < n && s[left].score > s[i].score then left else i;
    if right < n && s[right].score > s[first].score then right else first
  }

  /** heapify as a function on the contents of the array. */
  function Heapified(s: seq<Process>, n: nat, i: nat): (t: seq<Process>)
    requires i < |s| && n <= |s|
    ensures |t| == |s|
    decreases if i < n then n - i else 0
  {
    var l := Largest(s, n, i);
    if l == i then s else Heapified(Swapped(s, i, l), n, l)
  }

  lemma SwapDown(s: seq<Process>, lo: int, n: nat, i: nat)
    requires lo <= i < n <= |s| && MaxHeapBut(s, lo, n, i) && Largest(s, n, i) != i
    ensures var l := Largest(s, n, i); MaxHeapBut(Swapped(s, i, l), lo, n, l)
  {
    var l := Largest(s, n, i);
    var t := Swapped(s, i, l);
    forall k | 1 <= k < n && Parent(k) >= lo && Parent(k) != l ensures Under(t, k) {
      if Parent(k) != i {
        assert Under(s, k);
      }
    }
    forall k | 1 <= k < n && Parent(k) == l && Parent(l) >= lo ensures t[k].score <= t[Parent(l)].score {
      assert Under(s, k);
    }
  }

  lemma SwapWithin(s: seq<Process>, n: nat, i: nat, l: nat)
    requires i < n <= |s| && l < n
    ensures Swapped(s, i, l)[n..] == s[n..] && multiset(Swapped(s, i, l)[..n]) == multiset(s[..n])
  {
    SwapPermutes(s[..n], i, l);
    assert Swapped(s, i, l)[..n] == Swapped(s[..n], i, l);
  }

  /** heapify restores the order, permuting the first `n` elements and leaving the rest alone. */
  lemma {:induction false} HeapifySound(s: seq<Process>, lo: int, n: nat, i: nat)
    requires lo <= i < n <= |s| && MaxHeapBut(s, lo, n, i)
    ensures var t := Heapified(s, n, i);
            MaxHeap(t, lo, n) && t[n..] == s[n..] && multiset(t[..n]) == multiset(s[..n])
    decreases n - i
  {
    var l := Largest(s, n, i);
    if l != i {
      SwapDown(s, lo, n, i);
      SwapWithin(s, n, i, l);
      HeapifySound(Swapped(s, i, l), lo, n, l);
    }
  }

  /** A max-heap has its highest score at the root. */
  lemma {:induction false} RootIsHighest(s: seq<Process>, n: nat, k: nat)
    requires k < n <= |s| && MaxHeap(s, 0, n)
    ensures s[k].score <= s[0].score
    decreases k
  {
    if k == 0 {
    } else {
      assert Under(s, k);
      RootIsHighest(s, n, Parent(k));
    }
  }

  method Heapify(a: array<Process>, n: nat, i: nat)
    requires n <= a.Length && i < a.Length
    modifies a
    ensures a[..] == Heapified(old(a[..]), n, i)
    decreases if i < n then n - i else 0
  {
    var largest, left, right := i, 2 * i + 1, 2 * i + 2;
    if left < n && a[left].score > a[largest].score {
      largest := left;
    }
    if right < n && a[right].score > a[largest].score {
      largest := right;
    }
    assert largest == Largest(a[..], n, i);
    if largest != i {
      ghost var swapped := Swapped(a[..], i, largest);
      a[i], a[largest] := a[largest], a[i];
      assert a[..] == swapped;
      Heapify(a, n, largest);
    }
  }

  ghost predicate Ascending(s: seq<Process>) {
    forall i, j :: 0 <= i < j < |s| ==> s[i].score <= s[j].score
  }

  /** No element of the first `n` scores above a later one. */
  ghost predicate Split(s: seq<Process>, n: nat)
    requires n <= |s|
  {
    forall i, j :: 0 <= i < n <= j < |s| ==> s[i].score <= s[j].score
  }

  /** The state of the second loop of Sort: a max-heap of `n` elements, then a sorted rest that no element of the heap
      scores above. */
  ghost predicate HeapThenSorted(s: seq<Process>, n: nat)
    requires n <= |s|
  {
    && MaxHeap(s, 0, n)
    && Ascending(s[n..])
    && Split(s, n)
  }

  /** Moving the root behind the heap leaves a heap but for the new root. */
  lemma ExtractHeap(s: seq<Process>, n: nat)
    requires 0 < n <= |s| && MaxHeap(s, 0, n)
    ensures MaxHeapBut(Swapped(s, 0, n - 1), 0, n - 1, 0)
  {
    var t := Swapped(s, 0, n - 1);
    forall k | 1 <= k < n - 1 && Parent(k) != 0 ensures Under(t, k) {
      assert Under(s, k);
    }
  }

  /** And it extends the sorted part. */
  lemma ExtractSorted(s: seq<Process>, n: nat)
    requires 0 < n <= |s| && HeapThenSorted(s, n)
    ensures var t := Swapped(s, 0, n - 1); Ascending(t[n - 1..]) && Split(t, n - 1)
  {
    hide MaxHeap;
    var t := Swapped(s, 0, n - 1);
    forall k | 0 <= k < n ensures s[k].score <= s[0].score {
      RootIsHighest(s, n, k);
    }
    assert t[n - 1..] == [s[0]] + s[n..];
  }

  /** Permuting the first `n` elements keeps bounds on them. */
  lemma PermutedBound(s: seq<Process>, t: seq<Process>, n: nat)
    requires |s| == |t| && n <= |s| && t[n..] == s[n..] && multiset(t[..n]) == multiset(s[..n])
    requires Split(s, n)
    ensures Split(t, n)
  {
    forall i, j | 0 <= i < n <= j < |t| ensures t[i].score <= t[j].score {
      assert t[..n][i] in multiset(t[..n]);
      assert t[i] in multiset(s[..n]);
      var k :| 0 <= k < n && s[..n][k] == t[i];
      assert t[j] == t[n..][j - n] == s[j];
    }
  }

  /** heapify within no elements does nothing, and no elements are a heap. */
  lemma HeapifyNothing(s: seq<Process>)
    requires s != []
    ensures Heapified(s, 0, 0) == s && MaxHeap(s, 0, 0)
  {
    assert Largest(s, 0, 0) == 0;
  }

  /** One round of the second loop. */
  lemma ExtractSound(s: seq<Process>, n: nat)
    requires 0 < n <= |s| && HeapThenSorted(s, n)
    ensures var t := Heapified(Swapped(s, 0, n - 1), n - 1, 0);
            HeapThenSorted(t, n - 1) && multiset(t) == multiset(s)
  {
    hide MaxHeap, MaxHeapBut, Ascending, Split, Swapped, Heapified;
    var u := Swapped(s, 0, n - 1);
    ExtractHeap(s, n);
    ExtractSorted(s, n);
    SwapPermutes(s, 0, n - 1);
    var t := Heapified(u, n - 1, 0);
    if n > 1 {
      HeapifySound(u, 0, n - 1, 0);
    } else {
      HeapifyNothing(u);
    }
    PermutedBound(u, t, n - 1);
    assert t == t[..n - 1] + t[n - 1..] && u == u[..n - 1] + u[n - 1..];
  }

  /** One round of the first loop. */
  lemma BuildStep(s: seq<Process>, i: nat)
    requires i < |s| && MaxHeap(s, i + 1, |s|)
    ensures var t := Heapified(s, |s|, i); MaxHeap(t, i, |s|) && multiset(t) == multiset(s)
  {
    hide Heapified;
    HeapifySound(s, i, |s|, i);
    var t := Heapified(s, |s|, i);
    assert t[..|s|] == t && s[..|s|] == s;
  }

  /** The first loop starts from the leaves, which are in order; the second from a heap and an empty sorted part, and it
      ends with an empty heap. */
  lemma LoopEnds(s: seq<Process>)
    ensures MaxHeap(s, |s| / 2, |s|)
    ensures MaxHeap(s, 0, |s|) ==> HeapThenSorted(s, |s|)
    ensures HeapThenSorted(s, 0) ==> Ascending(s)
  {
    assert s[0..] == s;
  }

  /** Sorts by score, lowest first. The comparison puts the higher score at the root of the heap, and each round moves
      the root to the back. */
  method Sort(a: array<Process>)
    modifies a
    ensures Ascending(a[..]) && multiset(a[..]) == multiset(old(a[..]))
  {
    hide MaxHeap, HeapThenSorted, Ascending, Heapified;
    var n := a.Length;
    var i := n / 2 - 1;
    LoopEnds(a[..]);
    while i >= 0
      invariant -1 <= i < n
      invariant MaxHeap(a[..], i + 1, n) && multiset(a[..]) == multiset(old(a[..]))
    {
      BuildStep(a[..], i);
      Heapify(a, n, i);
      i := i - 1;
    }
    i := n - 1;
    LoopEnds(a[..]);
    while i >= 0
      invariant -1 <= i < n
      invariant HeapThenSorted(a[..], i + 1) && multiset(a[..]) == multiset(old(a[..]))
    {
      ExtractSound(a[..], i + 1);
      ghost var swapped := Swapped(a[..], 0, i);
      a[0], a[i] := a[i], a[0];
      assert a[..] == swapped;
      Heapify(a, i, 0);
      i := i - 1;
    }
    LoopEnds(a[..]);
  }
}
