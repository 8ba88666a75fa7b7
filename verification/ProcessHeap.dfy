/** sampler/heap.go ProcessHeap: a bounded min-heap by score with an index from PID to position, driven by the sifts
    of Go's container/heap. */
module ProcessHeaps {
  import opened HeapOrder
  import opened TopScores

  /** `m` maps exactly the PIDs of `a` to their positions; so no PID occurs twice. */
  ghost predicate Indexed(a: seq<Process>, m: map<int, int>) {
    && (forall i :: 0 <= i < |a| ==> a[i].pid in m && m[a[i].pid] == i)
    && (forall p <- m :: 0 <= m[p] < |a| && a[m[p]].pid == p)
  }

  lemma SwapIndexed(a: seq<Process>, m: map<int, int>, i: nat, j: nat)
    requires Indexed(a, m) && i < |a| && j < |a|
    ensures Indexed(Swapped(a, i, j), m[a[j].pid := i][a[i].pid := j])
  {}

  lemma IndexKnows(a: seq<Process>, m: map<int, int>, pid: int)
    requires Indexed(a, m)
    ensures pid in m <==> Knows(multiset(a), pid)
    ensures pid in m ==> 0 <= m[pid] < |a| && a[m[pid]].pid == pid
  {
    if pid in m {
      assert a[m[pid]] in multiset(a);
    }
    if Knows(multiset(a), pid) {
      var q :| q in multiset(a) && q.pid == pid;
      var i :| 0 <= i < |a| && a[i] == q;
    }
  }

  lemma RootIsMinimum(a: seq<Process>)
    requires a != [] && IsHeap(a, |a|)
    ensures Lowest(multiset(a), a[0])
  {
    forall x <- multiset(a) ensures a[0].score <= x.score {
      var i :| 0 <= i < |a| && a[i] == x;
      RootIsLowest(a, |a|, i);
    }
  }

  /** A PID that was not in the heap is not in it after a removal either. */
  lemma PidGone(a: seq<Process>, m: map<int, int>, b: seq<Process>, n: map<int, int>, pid: int, q: Process)
    requires Indexed(a, m) && Indexed(b, n) && pid !in m && multiset(b) == multiset(a) - multiset{q}
    ensures pid !in n
  {
    IndexKnows(a, m, pid);
    IndexKnows(b, n, pid);
  }

  /** Without the entry at `i`, the others have other PIDs. */
  lemma OtherPids(a: seq<Process>, m: map<int, int>, i: nat, x: Process)
    requires Indexed(a, m) && i < |a| && x in a[..i] + a[i + 1..]
    ensures x.pid != a[i].pid
  {
    var rest := a[..i] + a[i + 1..];
    var j :| 0 <= j < |rest| && rest[j] == x;
    assert x == a[if j < i then j else j + 1];
  }

  lemma WithoutOne(a: seq<Process>, i: nat)
    requires i < |a|
    ensures multiset(a) - multiset{a[i]} == multiset(a[..i] + a[i + 1..])
  {
    assert a == a[..i] + [a[i]] + a[i + 1..];
  }

  /** With one entry of a PID removed, none is left. */
  lemma RemovedPid(a: seq<Process>, m: map<int, int>, b: seq<Process>, q: Process)
    requires Indexed(a, m) && q in a && multiset(b) == multiset(a) - multiset{q}
    ensures !Knows(multiset(b), q.pid)
  {
    hide Indexed;
    var i :| 0 <= i < |a| && a[i] == q;
    WithoutOne(a, i);
    forall x <- multiset(b) ensures x.pid != q.pid {
      OtherPids(a, m, i, x);
    }
  }

  lemma SwapEnds(a: seq<Process>, n: nat)
    requires n + 1 == |a|
    ensures Swapped(a, 0, n)[n..] == [a[0]]
  {}

  lemma ChangeOneOfPrefix(a: seq<Process>, n: nat)
    requires n + 1 == |a| && IsHeap(a, |a|)
    ensures HeapBut(Swapped(a, 0, n), n, 0)
  {
    if n > 0 {
      ChangeOne(a, Swapped(a, 0, n), n, 0);
    }
  }

  class ProcessHeap {
    var processes: seq<Process>
    var pidMap: map<int, int>
    const maxSize: nat

    ghost predicate Valid()
      reads this
    {
      && IsHeap(processes, |processes|)
      && Indexed(processes, pidMap)
      && |processes| <= maxSize
    }

    constructor (maxSize: nat)
      ensures Valid() && processes == [] && this.maxSize == maxSize
    {
      processes, pidMap, this.maxSize := [], map[], maxSize;
    }

    /** Swap, Push and Pop of heap.Interface. */
    method Swap(i: nat, j: nat)
      requires i < |processes| && j < |processes| && Indexed(processes, pidMap)
      modifies this
      ensures processes == Swapped(old(processes), i, j) && Indexed(processes, pidMap)
      ensures multiset(processes) == multiset(old(processes))
    {
      SwapIndexed(processes, pidMap, i, j);
      SwapPermutes(processes, i, j);
      processes := processes[i := processes[j]][j := processes[i]];
      pidMap := pidMap[processes[i].pid := i];
      pidMap := pidMap[processes[j].pid := j];
    }

    method PushBack(p: Process)
      requires Indexed(processes, pidMap) && p.pid !in pidMap
      modifies this
      ensures processes == old(processes) + [p] && Indexed(processes, pidMap)
    {
      processes := processes + [p];
      pidMap := pidMap[p.pid := |processes| - 1];
    }

    method PopBack() returns (p: Process)
      requires Indexed(processes, pidMap) && processes != []
      modifies this
      ensures processes + [p] == old(processes) && Indexed(processes, pidMap)
    {
      p := processes[|processes| - 1];
      processes := processes[..|processes| - 1];
      pidMap := pidMap - {p.pid};
    }

    /** container/heap up: sifts element `start` towards the root. It looks at ancestors only, so elements from `n` on
        do not matter. */
    method Up(start: nat, ghost n: nat)
      requires start < n <= |processes| && Indexed(processes, pidMap)
      requires HeapBut(processes, n, start) && BelowChildren(processes, n, start)
      modifies this
      ensures |processes| == |old(processes)| && processes[n..] == old(processes)[n..]
      ensures Indexed(processes, pidMap) && multiset(processes) == multiset(old(processes))
      ensures IsHeap(processes, n)
    {
      var j := start;
      while j > 0 && processes[j].score < processes[Parent(j)].score
        invariant j < n <= |processes| == |old(processes)| && processes[n..] == old(processes)[n..]
        invariant Indexed(processes, pidMap) && multiset(processes) == multiset(old(processes))
        invariant HeapBut(processes, n, j) && BelowChildren(processes, n, j)
        decreases j
      {
        UpStep(processes, n, Parent(j), j);
        Swap(Parent(j), j);
        j := Parent(j);
      }
      HeapButDone(processes, n, j);
    }

    /** container/heap down: sifts element `start` towards the leaves, within the first `n` elements. */
    method Down(start: nat, n: nat) returns (moved: bool)
      requires start <= n <= |processes| && Indexed(processes, pidMap) && HeapBut(processes, n, start)
      modifies this
      ensures |processes| == |old(processes)| && processes[n..] == old(processes)[n..]
      ensures Indexed(processes, pidMap) && multiset(processes) == multiset(old(processes))
      ensures moved ==> IsHeap(processes, n)
      ensures !moved ==> processes == old(processes) && BelowChildren(processes, n, start)
    {
      hide HeapBut, AboveParent, BelowChildren, IsHeap, Indexed, Swapped;
      var i := start;
      while 2 * i + 1 < n
        invariant start <= i <= n <= |processes| == |old(processes)|
        invariant processes[n..] == old(processes)[n..]
        invariant Indexed(processes, pidMap) && multiset(processes) == multiset(old(processes))
        invariant HeapBut(processes, n, i)
        invariant if i > start then AboveParent(processes, n, i) else processes == old(processes)
        decreases n - i
      {
        var j := SmallerChild(processes, n, i);
        if !(processes[j].score < processes[i].score) {
          break;
        }
        DownStep(processes, n, i, j);
        Swap(i, j);
        i := j;
      }
      DownDone(processes, n, i);
      moved := i > start;
      if moved {
        HeapButDone(processes, n, i);
      }
    }

    /** down, then up if nothing moved: what Fix and Remove share. */
    method Sift(i: nat, n: nat)
      requires i < n <= |processes| && Indexed(processes, pidMap) && HeapBut(processes, n, i)
      modifies this
      ensures |processes| == |old(processes)| && processes[n..] == old(processes)[n..]
      ensures Indexed(processes, pidMap) && multiset(processes) == multiset(old(processes))
      ensures IsHeap(processes, n)
    {
      var moved := Down(i, n);
      if !moved {
        Up(i, n);
      }
    }

    method HeapPush(p: Process)
      requires Indexed(processes, pidMap) && IsHeap(processes, |processes|) && p.pid !in pidMap
      modifies this
      ensures Indexed(processes, pidMap) && IsHeap(processes, |processes|)
      ensures multiset(processes) == multiset(old(processes)) + multiset{p} && |processes| == |old(processes)| + 1
    {
      AddLast(processes, p);
      PushBack(p);
      Up(|processes| - 1, |processes|);
    }

    /** Removes the element at `i`; for the root this is also what Pop does. */
    method HeapRemove(i: nat) returns (p: Process)
      requires i < |processes| && Indexed(processes, pidMap) && IsHeap(processes, |processes|)
      modifies this
      ensures Indexed(processes, pidMap) && IsHeap(processes, |processes|)
      ensures p == old(processes)[i]
      ensures multiset(processes) == multiset(old(processes)) - multiset{p} && |processes| == |old(processes)| - 1
    {
      hide HeapBut, BelowChildren, Indexed;
      var n := |processes| - 1;
      if n != i {
        ChangeOne(processes, Swapped(processes, i, n), n, i);
        Swap(i, n);
        Sift(i, n);
      }
      ghost var before := processes;
      p := PopBack();
      assert before[n..][0] == p;
      PrefixHeap(before, processes, n);
    }

    method HeapPop() returns (p: Process)
      requires processes != [] && Indexed(processes, pidMap) && IsHeap(processes, |processes|)
      modifies this
      ensures Indexed(processes, pidMap) && IsHeap(processes, |processes|)
      ensures p == old(processes)[0]
      ensures multiset(processes) == multiset(old(processes)) - multiset{p} && |processes| == |old(processes)| - 1
    {
      hide HeapBut, BelowChildren, IsHeap, Indexed, Swapped;
      var n := |processes| - 1;
      ghost var a := processes;
      SwapEnds(a, n);
      ChangeOneOfPrefix(processes, n);
      Swap(0, n);
      var moved := Down(0, n);
      if !moved {
        RootDone(processes, n);
      }
      ghost var before := processes;
      p := PopBack();
      assert before[n..][0] == p;
      PrefixHeap(before, processes, n);
    }

    method Contains(pid: int) returns (r: bool)
      requires Valid()
      ensures r <==> Knows(multiset(processes), pid)
    {
      IndexKnows(processes, pidMap, pid);
      r := pid in pidMap;
    }

    /** Update of a process already in the heap: rewrite its entry and Fix the heap. */
    method UpdateAt(i: nat, p: Process) returns (ghost change: Change)
      requires Valid() && i < |processes| && processes[i].pid == p.pid
      modifies this
      ensures Valid() && change == Refresh(old(processes)[i])
      ensures Updates(multiset(old(processes)), maxSize, p, change, multiset(processes))
    {
      ghost var before := processes;
      var q := processes[i];
      ChangeOne(before, before[i := Refreshed(q, p)], |before|, i);
      processes := processes[i := Refreshed(q, p)];
      assert multiset(processes) == multiset(before) - multiset{q} + multiset{Refreshed(q, p)};
      Sift(i, |processes|);
      change := Refresh(q);
    }

    /** Tracks a process; see Updates for the four outcomes. */
    method Update(p: Process) returns (kept: bool, ghost change: Change)
      requires Valid()
      modifies this
      ensures Valid()
      ensures Updates(multiset(old(processes)), maxSize, p, change, multiset(processes))
      ensures kept <==> !change.Ignore?
    {
      hide IsHeap, Indexed;
      IndexKnows(processes, pidMap, p.pid);
      if p.pid !in pidMap {
        if |processes| < maxSize {
          HeapPush(p);
          return true, Insert;
        } else if |processes| > 0 && p.score > processes[0].score {
          RootIsMinimum(processes);
          var q := HeapPop();
          PidGone(old(processes), old(pidMap), processes, pidMap, p.pid, q);
          HeapPush(p);
          return true, Replace(q);
        }
        if |processes| > 0 {
          RootIsMinimum(processes);
        }
        return false, Ignore;
      }
      change := UpdateAt(pidMap[p.pid], p);
      kept := true;
    }

    /** Stops tracking a PID. */
    method Remove(pid: int) returns (found: bool)
      requires Valid()
      modifies this
      ensures Valid() && found == Knows(multiset(old(processes)), pid)
      ensures !found ==> processes == old(processes)
      ensures found ==> exists q :: q in old(processes) && q.pid == pid &&
                          multiset(processes) == multiset(old(processes)) - multiset{q}
      ensures !Knows(multiset(processes), pid)
    {
      IndexKnows(processes, pidMap, pid);
      if pid !in pidMap {
        return false;
      }
      var q := HeapRemove(pidMap[pid]);
      found := true;
      RemovedPid(old(processes), old(pidMap), processes, q);
    }
  }
}
