/** The tracked processes as a multiset: what one Update or Remove may do, and what a whole feed leaves. */
module TopScores {
  import opened HeapOrder

  type Bag = multiset<Process>

  /** What Update writes into the entry it finds. The start time stays. */
  function Refreshed(q: Process, p: Process): Process {
    q.(score := p.score, cpu := p.cpu, rss := p.rss, command := p.command, name := p.name)
  }

  /** So it is the newer record of the PID, with the start time of the older one. */
  lemma RefreshedIs(q: Process, p: Process)
    requires q.pid == p.pid
    ensures Refreshed(q, p) == p.(startTime := q.startTime)
  {}

  ghost predicate Knows(m: Bag, pid: int) {
    exists q <- m :: q.pid == pid
  }

  ghost predicate Lowest(m: Bag, q: Process) {
    q in m && forall x <- m :: q.score <= x.score
  }

  datatype Change = Refresh(q: Process) | Insert | Replace(q: Process) | Ignore

  /** One call of Update: it refreshes a known PID, fills a free place, replaces a lowest process by a strictly higher
      one, or leaves everything alone. */
  ghost predicate Updates(before: Bag, maxSize: nat, p: Process, change: Change, after: Bag) {
    match change
    case Refresh(q) => q in before && q.pid == p.pid && after == before - multiset{q} + multiset{Refreshed(q, p)}
    case Insert => !Knows(before, p.pid) && |before| < maxSize && after == before + multiset{p}
    case Replace(q) =>
      && !Knows(before, p.pid) && |before| >= maxSize && Lowest(before, q) && q.score < p.score
      && after == before - multiset{q} + multiset{p}
    case Ignore =>
      && !Knows(before, p.pid) && |before| >= maxSize && (forall x <- before :: p.score <= x.score)
      && after == before
  }

  /** `kept` are `k` processes of highest score among `all`, or all of them if there are fewer. */
  ghost predicate IsTop(kept: Bag, all: Bag, k: nat) {
    && kept <= all
    && |kept| == (if |all| < k then |all| else k)
    && forall x, y :: x in kept && y in all - kept ==> y.score <= x.score
  }

  /** A run of Update calls from the tracked processes `start`. */
  ghost predicate Feeds(start: Bag, ps: seq<Process>, k: nat, changes: seq<Change>, states: seq<Bag>) {
    && |changes| == |ps| && |states| == |ps| + 1 && states[0] == start
    && forall i :: 0 <= i < |ps| ==> Updates(states[i], k, ps[i], changes[i], states[i + 1])
  }

  ghost predicate DistinctPids(ps: seq<Process>) {
    forall i, j :: 0 <= i < j < |ps| ==> ps[i].pid != ps[j].pid
  }

  lemma TopIgnore(kept: Bag, all: Bag, k: nat, p: Process)
    requires IsTop(kept, all, k) && |kept| >= k && forall x <- kept :: p.score <= x.score
    ensures IsTop(kept, all + multiset{p}, k)
  {
    assert all + multiset{p} - kept == all - kept + multiset{p};
  }

  lemma TopInsert(kept: Bag, all: Bag, k: nat, p: Process)
    requires IsTop(kept, all, k) && |kept| < k
    ensures IsTop(kept + multiset{p}, all + multiset{p}, k)
  {
    assert all == kept + (all - kept);
    assert |all - kept| == 0;
    assert all + multiset{p} - (kept + multiset{p}) == all - kept;
  }

  lemma TopReplace(kept: Bag, all: Bag, k: nat, p: Process, q: Process)
    requires IsTop(kept, all, k) && |kept| >= k && Lowest(kept, q) && q.score < p.score
    ensures IsTop(kept - multiset{q} + multiset{p}, all + multiset{p}, k)
  {
    var after := kept - multiset{q} + multiset{p};
    assert all + multiset{p} - after == all - kept + multiset{q};
    assert |after| == |kept|;
  }

  /** One more process with a new PID keeps the tracked ones at the top of everything fed. */
  lemma TopStep(kept: Bag, all: Bag, k: nat, p: Process, change: Change, after: Bag)
    requires IsTop(kept, all, k) && Updates(kept, k, p, change, after) && !Knows(all, p.pid)
    ensures IsTop(after, all + multiset{p}, k)
  {
    match change {
      case Refresh(q) =>
        assert false;
      case Insert =>
        TopInsert(kept, all, k, p);
      case Replace(q) =>
        TopReplace(kept, all, k, p, q);
      case Ignore =>
        TopIgnore(kept, all, k, p);
    }
  }

  /** Feeding processes with pairwise distinct PIDs into an empty heap leaves `k` of the highest scores. */
  lemma {:induction false} FeedKeepsTop(ps: seq<Process>, k: nat, changes: seq<Change>, states: seq<Bag>)
    requires Feeds(multiset{}, ps, k, changes, states) && DistinctPids(ps)
    ensures IsTop(states[|ps|], multiset(ps), k)
  {
    if ps == [] {
    } else {
      var n := |ps| - 1;
      assert ps == ps[..n] + [ps[n]];
      FeedKeepsTop(ps[..n], k, changes[..n], states[..n + 1]);
      TopStep(states[n], multiset(ps[..n]), k, ps[n], changes[n], states[n + 1]);
    }
  }

  /** One more call extends a run. */
  lemma FeedsSnoc(start: Bag, ps: seq<Process>, k: nat, changes: seq<Change>, states: seq<Bag>,
                  p: Process, change: Change, after: Bag)
    requires Feeds(start, ps, k, changes, states) && Updates(states[|ps|], k, p, change, after)
    ensures Feeds(start, ps + [p], k, changes + [change], states + [after])
  {}

  /** A run tracks no PID that was neither tracked before nor fed. */
  lemma {:induction false} FeedPids(start: Bag, ps: seq<Process>, k: nat, changes: seq<Change>, states: seq<Bag>,
                                    x: Process)
    requires Feeds(start, ps, k, changes, states) && x in states[|ps|]
    ensures Knows(start, x.pid) || exists i :: 0 <= i < |ps| && ps[i].pid == x.pid
  {
    if ps == [] {
    } else {
      var n := |ps| - 1;
      if ps[n].pid != x.pid {
        assert Updates(states[n], k, ps[n], changes[n], states[n + 1]);
        assert x in states[n];
        FeedPids(start, ps[..n], k, changes[..n], states[..n + 1], x);
      }
    }
  }

  // ----- refreshes and removals -----

  /** No two entries of a bag share a PID. */
  ghost predicate OnePerPid(m: Bag) {
    && (forall x <- m :: m[x] == 1)
    && forall x, y :: x in m && y in m && x.pid == y.pid ==> x == y
  }

  /** The record of a PID after a call of Update for it. */
  function Newest(p: Process, change: Change): Process {
    if change.Refresh? then Refreshed(change.q, p) else p
  }

  /** `later` is `all` with the newest record of the PID, in place of an older one if there is one. */
  ghost predicate Records(all: Bag, p: Process, change: Change, later: Bag) {
    if Knows(all, p.pid)
    then exists o <- all :: o.pid == p.pid && later == all - multiset{o} + multiset{Newest(p, change)}
    else later == all + multiset{p}
  }

  /** The condition under which Update keeps the tracked processes at the top: the new score of a tracked process is not
      below that of an untracked one. New or untracked PIDs need no condition. */
  ghost predicate StaysOnTop(kept: Bag, all: Bag, p: Process) {
    Knows(kept, p.pid) ==> forall y <- all - kept :: y.score <= p.score
  }

  lemma RefreshIffKnown(before: Bag, maxSize: nat, p: Process, change: Change, after: Bag)
    requires Updates(before, maxSize, p, change, after)
    ensures change.Refresh? <==> Knows(before, p.pid)
  {}

  lemma RefreshKeepsTopIff(kept: Bag, all: Bag, k: nat, p: Process, q: Process)
    requires IsTop(kept, all, k) && q in kept
    ensures var r := Refreshed(q, p);
            IsTop(kept - multiset{q} + multiset{r}, all - multiset{q} + multiset{r}, k) <==>
            forall y <- all - kept :: y.score <= p.score
  {
    var r := Refreshed(q, p);
    var after, later := kept - multiset{q} + multiset{r}, all - multiset{q} + multiset{r};
    assert later - after == all - kept;
    assert |after| == |kept| && |later| == |all|;
    assert r in after && r.score == p.score;
  }

  /** Forgetting an untracked process leaves the tracked ones at the top, and all places are taken. */
  lemma ForgetUntracked(kept: Bag, all: Bag, k: nat, o: Process)
    requires IsTop(kept, all, k) && o in all && o !in kept
    ensures IsTop(kept, all - multiset{o}, k) && |kept| == k
  {
    var dropped := all - kept;
    assert all == kept + dropped && o in dropped;
    assert |dropped| > 0;
    assert all - multiset{o} - kept == dropped - multiset{o};
  }

  /** For an untracked PID with an older record the tracked processes stay at the top. */
  lemma UntrackedKeepsTop(kept: Bag, all: Bag, k: nat, p: Process, change: Change, after: Bag, o: Process)
    requires IsTop(kept, all, k) && Updates(kept, k, p, change, after) && !change.Refresh?
    requires o in all && o.pid == p.pid
    ensures IsTop(after, all - multiset{o} + multiset{p}, k)
  {
    hide IsTop;
    assert o !in kept;
    ForgetUntracked(kept, all, k, o);
    if change.Replace? {
      TopReplace(kept, all - multiset{o}, k, p, change.q);
    } else {
      TopIgnore(kept, all - multiset{o}, k, p);
    }
  }

  lemma TopIsPart(kept: Bag, all: Bag, k: nat)
    requires IsTop(kept, all, k)
    ensures kept <= all
  {}

  /** One call of Update, for every PID: with the tracked processes at the top of the newest records of all PIDs seen,
      they are so afterwards if and only if the call does not refresh a tracked process to a score below an untracked
      one. */
  lemma UpdateKeepsTopIff(kept: Bag, all: Bag, k: nat, p: Process, change: Change, after: Bag, later: Bag)
    requires IsTop(kept, all, k) && OnePerPid(all)
    requires Updates(kept, k, p, change, after) && Records(all, p, change, later)
    ensures IsTop(after, later, k) <==> StaysOnTop(kept, all, p)
  {
    hide IsTop;
    RefreshIffKnown(kept, k, p, change, after);
    if !Knows(all, p.pid) {
      TopIsPart(kept, all, k);
      TopStep(kept, all, k, p, change, after);
    } else {
      var o :| o in all && o.pid == p.pid && later == all - multiset{o} + multiset{Newest(p, change)};
      if change.Refresh? {
        TopIsPart(kept, all, k);
        RefreshKeepsTopIff(kept, all, k, p, change.q);
      } else {
        UntrackedKeepsTop(kept, all, k, p, change, after, o);
      }
    }
  }

  /** The newest records of a run. */
  ghost predicate RecordsRun(all: Bag, ps: seq<Process>, changes: seq<Change>, records: seq<Bag>) {
    && |changes| == |ps| && |records| == |ps| + 1 && records[0] == all
    && forall i :: 0 <= i < |ps| ==> Records(records[i], ps[i], changes[i], records[i + 1])
  }

  lemma RecordsOnePerPid(all: Bag, p: Process, change: Change, later: Bag)
    requires OnePerPid(all) && Records(all, p, change, later) && (change.Refresh? ==> change.q.pid == p.pid)
    ensures OnePerPid(later)
  {}

  /** A whole run, with repeated PIDs and from any heap that is at the top of the records so far, keeps it there as long
      as every refreshed score stays on top. */
  lemma {:induction false} RunKeepsTop(start: Bag, all: Bag, ps: seq<Process>, k: nat, changes: seq<Change>,
                                       states: seq<Bag>, records: seq<Bag>)
    requires Feeds(start, ps, k, changes, states) && RecordsRun(all, ps, changes, records)
    requires IsTop(start, all, k) && OnePerPid(all)
    requires forall i :: 0 <= i < |ps| ==> StaysOnTop(states[i], records[i], ps[i])
    ensures IsTop(states[|ps|], records[|ps|], k) && OnePerPid(records[|ps|])
  {
    hide IsTop, OnePerPid, Records, StaysOnTop;
    if ps == [] {
    } else {
      var n := |ps| - 1;
      RunKeepsTop(start, all, ps[..n], k, changes[..n], states[..n + 1], records[..n + 1]);
      UpdateKeepsTopIff(states[n], records[n], k, ps[n], changes[n], states[n + 1], records[n + 1]);
      RecordsOnePerPid(records[n], ps[n], changes[n], records[n + 1]);
    }
  }

  lemma UpdatesOnePerPid(before: Bag, k: nat, p: Process, change: Change, after: Bag)
    requires OnePerPid(before) && Updates(before, k, p, change, after)
    ensures OnePerPid(after)
  {
    hide Lowest;
    if change.Refresh? {
      RefreshedIs(change.q, p);
    }
  }

  /** What is tracked of the PID that was just fed is the record that was fed, but for the start time; of other PIDs,
      what was tracked before. */
  lemma UpdateNewest(before: Bag, k: nat, p: Process, change: Change, after: Bag, x: Process)
    requires OnePerPid(before) && Updates(before, k, p, change, after) && x in after
    ensures if x.pid == p.pid then x == p.(startTime := x.startTime) else x in before
  {
    hide Lowest;
    if change.Refresh? {
      RefreshedIs(change.q, p);
    }
  }

  lemma {:induction false} FeedsPrefix(start: Bag, ps: seq<Process>, k: nat, changes: seq<Change>, states: seq<Bag>)
    requires Feeds(start, ps, k, changes, states) && OnePerPid(start) && ps != []
    ensures var n := |ps| - 1;
            Feeds(start, ps[..n], k, changes[..n], states[..n + 1]) && OnePerPid(states[n])
  {
    hide Updates, OnePerPid;
    var n := |ps| - 1;
    if n > 0 {
      FeedsPrefix(start, ps[..n], k, changes[..n], states[..n + 1]);
      assert Updates(states[n - 1], k, ps[n - 1], changes[n - 1], states[n]);
      UpdatesOnePerPid(states[n - 1], k, ps[n - 1], changes[n - 1], states[n]);
    }
  }

  /** Over every run of Update, a tracked process carries the last record that was fed of its PID, but for the start
      time. */
  lemma {:induction false} FeedsNewest(start: Bag, ps: seq<Process>, k: nat, changes: seq<Change>, states: seq<Bag>,
                                       x: Process, i: nat)
    requires Feeds(start, ps, k, changes, states) && OnePerPid(start) && x in states[|ps|]
    requires i < |ps| && ps[i].pid == x.pid && forall j :: i < j < |ps| ==> ps[j].pid != x.pid
    ensures x == ps[i].(startTime := x.startTime)
  {
    hide Updates, OnePerPid;
    var n := |ps| - 1;
    FeedsPrefix(start, ps, k, changes, states);
    assert Updates(states[n], k, ps[n], changes[n], states[n + 1]);
    UpdateNewest(states[n], k, ps[n], changes[n], states[n + 1], x);
    if i < n {
      FeedsNewest(start, ps[..n], k, changes[..n], states[..n + 1], x, i);
    }
  }

  /** A tracked process whose score does not fall stays on top. */
  lemma RisingStaysOnTop(kept: Bag, all: Bag, k: nat, p: Process)
    requires IsTop(kept, all, k) && forall q <- kept :: q.pid == p.pid ==> q.score <= p.score
    ensures StaysOnTop(kept, all, p)
  {}

  /** A part of a bag is no larger, and the whole bag if it is as large. */
  lemma BagSizes(part: Bag, whole: Bag)
    requires part <= whole
    ensures |part| <= |whole| && (|part| == |whole| ==> part == whole)
  {
    var rest := whole - part;
    assert whole == part + rest;
    if |part| == |whole| {
      assert |rest| == 0;
      assert rest == multiset{};
    }
  }

  /** Removing a tracked PID for good leaves the tracked processes at the top of the rest if and only if none had been
      left out: the free place is not filled. */
  lemma RemoveKeepsTopIff(kept: Bag, all: Bag, k: nat, q: Process)
    requires IsTop(kept, all, k) && q in kept
    ensures IsTop(kept - multiset{q}, all - multiset{q}, k) <==> |all| <= k
  {
    var kept', all' := kept - multiset{q}, all - multiset{q};
    assert |kept'| == |kept| - 1 && |all'| == |all| - 1;
    assert all' - kept' == all - kept;
    BagSizes(kept, all);
  }

  /** Exactly the entries of some PIDs are gone. */
  ghost predicate Cleaned(before: Bag, after: Bag, gone: set<int>) {
    forall x: Process :: after[x] == if x.pid in gone then 0 else before[x]
  }

  /** Before a clean-up: every untracked process goes, or all places are taken and no tracked one goes. */
  ghost predicate SparesTop(kept: Bag, all: Bag, k: nat, gone: set<int>) {
    || (forall y <- all - kept :: y.pid in gone)
    || (|kept| == k && forall x <- kept :: x.pid !in gone)
  }

  lemma CleanedWhole(kept: Bag, all: Bag, gone: set<int>, kept': Bag, all': Bag)
    requires kept <= all && Cleaned(kept, kept', gone) && Cleaned(all, all', gone)
    ensures kept' == all' <==> forall y <- all - kept :: y.pid in gone
  {
    forall y ensures y in all - kept && y.pid !in gone <==> kept'[y] != all'[y] {}
  }

  lemma CleanedSame(kept: Bag, gone: set<int>, kept': Bag)
    requires Cleaned(kept, kept', gone)
    ensures kept' <= kept && (kept' == kept <==> forall x <- kept :: x.pid !in gone)
  {
    forall x ensures x in kept && x.pid in gone <==> kept'[x] != kept[x] {}
  }

  lemma CleanedTop(kept: Bag, all: Bag, k: nat, gone: set<int>, kept': Bag, all': Bag)
    requires IsTop(kept, all, k) && Cleaned(kept, kept', gone) && Cleaned(all, all', gone)
    ensures kept <= all && |kept| <= k && (IsTop(kept', all', k) <==> kept' == all' || |kept'| == k)
  {
    assert kept' <= all' && kept' <= kept;
    BagSizes(kept', all');
    BagSizes(kept', kept);
    forall x, y | x in kept' && y in all' - kept' ensures y.score <= x.score {
      assert x in kept && y in all - kept;
    }
  }

  lemma CleanedOnePerPid(all: Bag, gone: set<int>, all': Bag)
    requires OnePerPid(all) && Cleaned(all, all', gone)
    ensures OnePerPid(all')
  {}

  /** Removing all entries of some PIDs, tracked or not, leaves the tracked processes at the top of the rest if and
      only if every untracked process goes, or all places were taken and no tracked one goes: places that a clean-up
      frees are not filled. */
  lemma CleanKeepsTopIff(kept: Bag, all: Bag, k: nat, gone: set<int>, kept': Bag, all': Bag)
    requires IsTop(kept, all, k) && OnePerPid(all) && Cleaned(kept, kept', gone) && Cleaned(all, all', gone)
    ensures IsTop(kept', all', k) <==> SparesTop(kept, all, k, gone)
    ensures OnePerPid(all')
  {
    hide Cleaned, IsTop, OnePerPid;
    CleanedTop(kept, all, k, gone, kept', all');
    CleanedWhole(kept, all, gone, kept', all');
    CleanedSame(kept, gone, kept');
    CleanedOnePerPid(all, gone, all');
    BagSizes(kept', kept);
  }

  // ----- counting scores -----

  /** How many processes of a bag score at least `t`. */
  ghost function AtLeast(m: Bag, t: real): nat
    decreases |m|
  {
    if x :| x in m then AtLeast(m - multiset{x}, t) + (if x.score >= t then 1 else 0) else 0
  }

  lemma AnyProcess(m: Bag) returns (x: Process)
    requires |m| > 0
    ensures x in m
  {
    x :| x in m;
  }

  /** The first step of the count, whichever process it takes. */
  lemma AtLeastChoice(m: Bag, t: real) returns (y: Process)
    requires |m| > 0
    ensures y in m && AtLeast(m, t) == AtLeast(m - multiset{y}, t) + (if y.score >= t then 1 else 0)
  {
    var x := AnyProcess(m);
    y :| y in m && AtLeast(m, t) == AtLeast(m - multiset{y}, t) + (if y.score >= t then 1 else 0);
  }

  lemma RemoveTwo(m: Bag, x: Process, y: Process)
    requires x in m && y in m && x != y
    ensures x in m - multiset{y} && y in m - multiset{x}
    ensures m - multiset{y} - multiset{x} == m - multiset{x} - multiset{y}
    ensures |m - multiset{x}| == |m - multiset{y}| == |m| - 1
  {}

  lemma {:induction false} AtLeastSplit(m: Bag, t: real, x: Process)
    requires x in m
    ensures AtLeast(m, t) == AtLeast(m - multiset{x}, t) + (if x.score >= t then 1 else 0)
    decreases |m|
  {
    hide AtLeast;
    assert |m| > 0;
    var y := AtLeastChoice(m, t);
    if y != x {
      RemoveTwo(m, x, y);
      AtLeastSplit(m - multiset{y}, t, x);
      AtLeastSplit(m - multiset{x}, t, y);
    }
  }

  lemma {:induction false} AtLeastSum(a: Bag, b: Bag, t: real)
    ensures AtLeast(a + b, t) == AtLeast(a, t) + AtLeast(b, t)
    decreases |b|
  {
    if x :| x in b {
      AtLeastSplit(b, t, x);
      AtLeastSplit(a + b, t, x);
      assert a + b - multiset{x} == a + (b - multiset{x});
      AtLeastSum(a, b - multiset{x}, t);
    } else {
      assert a + b == a;
    }
  }

  lemma {:induction false} AtLeastBounds(m: Bag, t: real)
    ensures AtLeast(m, t) <= |m|
    ensures (forall x <- m :: x.score >= t) ==> AtLeast(m, t) == |m|
    ensures (forall x <- m :: x.score < t) ==> AtLeast(m, t) == 0
    decreases |m|
  {
    if x :| x in m {
      AtLeastSplit(m, t, x);
      AtLeastBounds(m - multiset{x}, t);
    } else {
      assert m == multiset{};
    }
  }

  lemma TopParts(kept: Bag, all: Bag, k: nat)
    requires IsTop(kept, all, k)
    ensures all == kept + (all - kept) && |kept| <= k && (|kept| < k ==> |all - kept| == 0)
  {
    assert all == kept + (all - kept);
  }

  /** If a process is left out, all places are taken, and by processes that do not score below it. */
  lemma TopAbove(kept: Bag, all: Bag, k: nat, y: Process)
    requires IsTop(kept, all, k) && y in all - kept
    ensures |kept| == k && forall x <- kept :: y.score <= x.score
  {
    assert all == kept + (all - kept);
    assert |all - kept| > 0;
  }

  /** The scores kept are the `k` highest, ties included: at every threshold the kept processes number as many as all
      processes do, up to `k`. */
  lemma TopScoresExact(kept: Bag, all: Bag, k: nat, t: real)
    requires IsTop(kept, all, k)
    ensures AtLeast(kept, t) == (if AtLeast(all, t) < k then AtLeast(all, t) else k)
  {
    hide AtLeast, IsTop;
    var dropped := all - kept;
    TopParts(kept, all, k);
    AtLeastSum(kept, dropped, t);
    AtLeastBounds(kept, t);
    AtLeastBounds(dropped, t);
    if y :| y in dropped && y.score >= t {
      TopAbove(kept, all, k, y);
    }
  }
}
