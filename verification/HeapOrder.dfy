/** The order of an array heap of processes, and what one swap of a sift does to it. */
module HeapOrder {

  /** sampler.go ProcessInfo. */
  datatype Process = Process(pid: int, name: string, command: string, cpu: real, rss: int, startTime: int,
                             score: real)

  function Parent(k: int): int { (k - 1) / 2 }

  /** Element `k` is not below its parent. */
  ghost predicate Above(a: seq<Process>, k: int)
    requires 1 <= k < |a|
  {
    a[Parent(k)].score <= a[k].score
  }

  /** The first `n` elements are a min-heap by score. */
  ghost predicate IsHeap(a: seq<Process>, n: nat)
    requires n <= |a|
  {
    forall k :: 1 <= k < n ==> Above(a, k)
  }

  /** A heap but for element `i`, which may be out of order with its parent and with its children. */
  ghost predicate HeapBut(a: seq<Process>, n: nat, i: int)
    requires n <= |a|
  {
    && (forall k :: 1 <= k < n && k != i && Parent(k) != i ==> Above(a, k))
    && (forall k :: 1 <= k < n && Parent(k) == i && i >= 1 ==> a[Parent(i)].score <= a[k].score)
  }

  ghost predicate BelowChildren(a: seq<Process>, n: nat, i: int)
    requires n <= |a|
  {
    forall k :: 1 <= k < n && Parent(k) == i ==> Above(a, k)
  }

  ghost predicate AboveParent(a: seq<Process>, n: nat, i: int)
    requires n <= |a|
  {
    1 <= i < n ==> Above(a, i)
  }

  function Swapped(a: seq<Process>, i: nat, j: nat): (b: seq<Process>)
    requires i < |a| && j < |a|
    ensures |b| == |a|
  {
    a[i := a[j]][j := a[i]]
  }

  lemma SwapPermutes(a: seq<Process>, i: nat, j: nat)
    requires i < |a| && j < |a|
    ensures multiset(Swapped(a, i, j)) == multiset(a)
  {}

  lemma HeapButDone(a: seq<Process>, n: nat, i: int)
    requires n <= |a| && HeapBut(a, n, i) && BelowChildren(a, n, i) && AboveParent(a, n, i)
    ensures IsHeap(a, n)
  {}

  lemma RootDone(a: seq<Process>, n: nat)
    requires n <= |a| && HeapBut(a, n, 0) && BelowChildren(a, n, 0)
    ensures IsHeap(a, n)
  {}

  /** Changing one element of a heap leaves a heap but for that element. */
  lemma ChangeOne(a: seq<Process>, b: seq<Process>, n: nat, i: nat)
    requires n <= |a| && n <= |b| && i < n && IsHeap(a, n)
    requires forall k :: 0 <= k < n && k != i ==> b[k] == a[k]
    ensures HeapBut(b, n, i)
  {
    forall k | 1 <= k < n && k != i && Parent(k) != i ensures Above(b, k) {
      assert Above(a, k);
    }
    forall k | 1 <= k < n && Parent(k) == i && i >= 1 ensures b[Parent(i)].score <= b[k].score {
      assert Above(a, k) && Above(a, i);
    }
  }

  /** A new last element leaves a heap but for that element, which has no children. */
  lemma AddLast(a: seq<Process>, p: Process)
    requires IsHeap(a, |a|)
    ensures HeapBut(a + [p], |a| + 1, |a|) && BelowChildren(a + [p], |a| + 1, |a|)
  {
    forall k | 1 <= k < |a| ensures Above(a + [p], k) {
      assert Above(a, k);
    }
  }

  lemma PrefixHeap(a: seq<Process>, b: seq<Process>, n: nat)
    requires n <= |a| && n <= |b| && a[..n] == b[..n] && IsHeap(a, n)
    ensures IsHeap(b, n)
  {
    forall k | 1 <= k < n ensures Above(b, k) {
      assert Above(a, k);
      assert b[k] == b[..n][k] && b[Parent(k)] == b[..n][Parent(k)];
    }
  }

  /** The child of `i` with the lower score, the left one on a tie. */
  function SmallerChild(a: seq<Process>, n: nat, i: nat): (j: nat)
    requires 2 * i + 1 < n <= |a|
    ensures i < j < n && Parent(j) == i
  {
    if 2 * i + 2 < n && a[2 * i + 2].score < a[2 * i + 1].score then 2 * i + 2 else 2 * i + 1
  }

  lemma SmallerChildIsLeast(a: seq<Process>, n: nat, i: nat)
    requires 2 * i + 1 < n <= |a|
    ensures forall k :: 1 <= k < n && Parent(k) == i ==> a[SmallerChild(a, n, i)].score <= a[k].score
  {
    assert forall k :: 1 <= k < n && Parent(k) == i ==> k == 2 * i + 1 || k == 2 * i + 2;
  }

  /** Without a lower child there is nothing to sift down. */
  lemma DownDone(a: seq<Process>, n: nat, i: nat)
    requires n <= |a|
    requires 2 * i + 1 < n ==> a[i].score <= a[SmallerChild(a, n, i)].score
    ensures BelowChildren(a, n, i)
  {
    if 2 * i + 1 < n {
      SmallerChildIsLeast(a, n, i);
    }
  }

  /** Swapping an element with its smaller child moves the disorder down to the child. */
  lemma DownStep(a: seq<Process>, n: nat, i: nat, j: nat)
    requires 2 * i + 1 < n <= |a| && j == SmallerChild(a, n, i) && HeapBut(a, n, i)
    requires a[j].score < a[i].score
    ensures HeapBut(Swapped(a, i, j), n, j) && AboveParent(Swapped(a, i, j), n, j)
    ensures Swapped(a, i, j)[n..] == a[n..]
  {
    SmallerChildIsLeast(a, n, i);
    var b := Swapped(a, i, j);
    forall k | 1 <= k < n && k != j && Parent(k) != j ensures Above(b, k) {
      if k != i && Parent(k) != i {
        assert Above(a, k);
      }
    }
    forall k | 1 <= k < n && Parent(k) == j ensures b[Parent(j)].score <= b[k].score {
      assert Above(a, k);
    }
  }

  /** Swapping an element with its larger parent moves the disorder up to the parent. */
  lemma UpStep(a: seq<Process>, n: nat, i: nat, j: nat)
    requires i < j < n <= |a| && Parent(j) == i && HeapBut(a, n, j) && BelowChildren(a, n, j)
    requires a[j].score < a[i].score
    ensures HeapBut(Swapped(a, i, j), n, i) && BelowChildren(Swapped(a, i, j), n, i)
    ensures Swapped(a, i, j)[n..] == a[n..]
  {
    var b := Swapped(a, i, j);
    forall k | 1 <= k < n && Parent(k) == i ensures Above(b, k) {
      if k != j {
        assert Above(a, k);
      }
    }
    forall k | 1 <= k < n && k != i && Parent(k) != i ensures Above(b, k) {
      if k != j && Parent(k) != j {
        assert Above(a, k);
      }
    }
    forall k | 1 <= k < n && Parent(k) == i && i >= 1 ensures b[Parent(i)].score <= b[k].score {
      assert Above(a, i);
      if k != j {
        assert Above(a, k);
      }
    }
  }

  /** The root of a heap has the lowest score. */
  lemma {:induction false} RootIsLowest(a: seq<Process>, n: nat, k: nat)
    requires k < n <= |a| && IsHeap(a, n)
    ensures a[0].score <= a[k].score
    decreases k
  {
    if k == 0 {
    } else {
      assert Above(a, k);
      RootIsLowest(a, n, Parent(k));
    }
  }
}
