/** sampler/topn.go: TopN queries, and the sampler that feeds the heap from process scans. */
module TopNSamplers {
  import opened HeapOrder
  import opened ProcessHeaps
  import opened Ranging
  import opened SamplerSpec
  import opened ScoreSort
  import opened TopScores

  function Min(x: nat, y: nat): nat { if x < y then x else y }

  /** heap.go TopN: the first `n` of the tracked processes in the order Sort produces. The heap does not change. */
  method TopN(h: ProcessHeap, n: nat) returns (top: seq<Process>)
    ensures exists sorted :: Ascending(sorted) && multiset(sorted) == multiset(h.processes) &&
                             |sorted| == |h.processes| && top == sorted[..Min(n, |sorted|)]
  {
    var processes := h.processes;
    var a := new Process[|processes|](i requires 0 <= i < |processes| => processes[i]);
    assert a[..] == processes;
    Sort(a);
    ghost var sorted := a[..];
    assert |multiset(sorted)| == |multiset(processes)|;
    top := a[..Min(n, a.Length)];
  }

  /** No element of `rest` scores above one of `kept`. */
  ghost predicate Dominates(kept: seq<Process>, rest: seq<Process>) {
    forall i, j :: 0 <= i < |kept| && 0 <= j < |rest| ==> rest[j].score <= kept[i].score
  }

  lemma DominatesBag(kept: seq<Process>, rest: seq<Process>)
    ensures Dominates(kept, rest) <==>
            forall x, y :: x in multiset(kept) && y in multiset(rest) ==> y.score <= x.score
  {
    assert forall i :: 0 <= i < |kept| ==> kept[i] in multiset(kept);
    assert forall j :: 0 <= j < |rest| ==> rest[j] in multiset(rest);
    assert forall x :: x in multiset(kept) ==> exists i :: 0 <= i < |kept| && kept[i] == x;
    assert forall y :: y in multiset(rest) ==> exists j :: 0 <= j < |rest| && rest[j] == y;
  }

  /** A split into two parts is at the top exactly when the first part dominates the second. */
  lemma PrefixIsTop(kept: seq<Process>, rest: seq<Process>, n: nat)
    requires |kept| == Min(n, |kept + rest|)
    ensures IsTop(multiset(kept), multiset(kept + rest), n) <==> Dominates(kept, rest)
  {
    hide Dominates;
    assert multiset(kept + rest) - multiset(kept) == multiset(rest);
    DominatesBag(kept, rest);
  }

  /** TopN promises the `n` highest scores. Because Sort is ascending it returns the lowest ones instead, which are
      also the highest exactly when none or all are asked for, or all tracked scores are equal. */
  lemma TopNPromise(sorted: seq<Process>, n: nat)
    requires Ascending(sorted)
    ensures IsTop(multiset(sorted[..Min(n, |sorted|)]), multiset(sorted), n) <==>
            n == 0 || n >= |sorted| || sorted[0].score == sorted[|sorted| - 1].score
  {
    hide IsTop;
    var m := Min(n, |sorted|);
    var kept, rest := sorted[..m], sorted[m..];
    assert sorted == kept + rest;
    PrefixIsTop(kept, rest, n);
    if 0 < n < |sorted| {
      assert kept[0] == sorted[0] && rest[|rest| - 1] == sorted[|sorted| - 1];
    }
  }

  /** Two processes of different score, asked for the top one: the lower one comes back. */
  lemma TopNReturnsTheLowest()
    ensures var low, high := Process(1, "", "", 0.0, 0, 0, 1.0), Process(2, "", "", 0.0, 0, 0, 2.0);
            && Ascending([low, high])
            && !IsTop(multiset([low, high][..1]), multiset([low, high]), 1)
  {
    var low, high := Process(1, "", "", 0.0, 0, 0, 1.0), Process(2, "", "", 0.0, 0, 0, 2.0);
    TopNPromise([low, high], 1);
  }

  /** A run of heap updates, after which exactly the entries of some PIDs are removed. */
  ghost predicate FedAndCleaned(start: seq<Process>, fed: seq<Process>, k: nat, changes: seq<Change>, states: seq<Bag>,
                                gone: set<int>, after: seq<Process>)
  {
    && Feeds(multiset(start), fed, k, changes, states)
    && Cleaned(states[|fed|], multiset(after), gone)
  }

  lemma ForgetNone(seen: map<int, int>, now: int)
    ensures Forgotten(seen, {}, now) == seen
  {}

  /** One round of the clean-up. */
  lemma ForgetOne(seen: map<int, int>, gone: set<int>, pid: int, now: int)
    ensures var s := Forgotten(seen, gone, now);
            Forgotten(seen, gone + {pid}, now) == if pid in s && now - s[pid] > MINUTE then s - {pid} else s
  {}

  lemma GoneGrows(history: set<int>, todo: set<int>, pids: set<int>, pid: int)
    requires pid in todo && todo <= history
    ensures history - (todo - {pid}) - pids ==
            if pid in pids then history - todo - pids else history - todo - pids + {pid}
  {}

  lemma NothingFed(start: Bag, k: nat)
    ensures Feeds(start, [], k, [], [start]) && TotalCpu([]) == 0.0 && TotalRss([]) == 0
  {}

  lemma TotalsSnoc(ps: seq<Process>, p: Process)
    ensures TotalCpu(ps + [p]) == TotalCpu(ps) + p.cpu && TotalRss(ps + [p]) == TotalRss(ps) + p.rss
  {
    assert (ps + [p])[..|ps|] == ps;
  }

  function Pids(ps: seq<Process>): set<int> {
    if ps == [] then {} else Pids(ps[..|ps| - 1]) + {ps[|ps| - 1].pid}
  }

  /** No other PIDs. */
  lemma {:induction false} PidsFrom(ps: seq<Process>, pid: int) returns (i: nat)
    requires pid in Pids(ps)
    ensures i < |ps| && ps[i].pid == pid
  {
    if ps[|ps| - 1].pid == pid {
      i := |ps| - 1;
    } else {
      i := PidsFrom(ps[..|ps| - 1], pid);
    }
  }

  ghost predicate PidsWithin(ps: seq<Process>, pids: set<int>) {
    forall i :: 0 <= i < |ps| ==> ps[i].pid in pids
  }

  /** What an open breaker leaves of a scan: a tenth, but at least ten processes: `int(math.Max(10, len * 0.1))`. */
  function SampleSize(n: nat): nat { if n < 100 then 10 else n / 10 }

  /** It is the most that is no more than ten or no more than a tenth. */
  lemma SampleSizeIs(n: nat, k: nat)
    ensures k <= SampleSize(n) <==> k <= 10 || 10 * k <= n
  {}

  function Sample(scan: seq<Process>): seq<Process> {
    scan[..Min(SampleSize(|scan|), |scan|)]
  }

  lemma {:induction false} PrefixPids(ps: seq<Process>, n: nat)
    requires n <= |ps|
    ensures Pids(ps[..n]) <= Pids(ps)
  {
    if n < |ps| {
      PrefixPids(ps[..|ps| - 1], n);
      assert ps[..|ps| - 1][..n] == ps[..n];
    } else {
      assert ps[..n] == ps;
    }
  }

  lemma SamplePids(scan: seq<Process>)
    ensures Pids(Sample(scan)) <= Pids(scan)
  {
    PrefixPids(scan, Min(SampleSize(|scan|), |scan|));
  }

  lemma {:induction false} ScoredPids(config: Config, totalRss: int, ps: seq<Process>)
    ensures Pids(Scored(config, totalRss, ps)) == Pids(ps)
  {
    hide Score;
    if ps == [] {
    } else {
      ScoredPids(config, totalRss, ps[..|ps| - 1]);
      var r := Scored(config, totalRss, ps);
      assert r[..|r| - 1] == Scored(config, totalRss, ps[..|ps| - 1]);
    }
  }

  lemma CleanedNone(before: Bag)
    ensures Cleaned(before, before, {})
  {}

  lemma CleanedNothing(before: Bag, after: Bag, gone: set<int>)
    requires Cleaned(before, after, gone)
    ensures gone == {} ==> after == before
  {}

  /** One more PID removed. */
  lemma CleanedOne(start: Bag, before: Bag, after: Bag, gone: set<int>, pid: int, found: bool)
    requires Cleaned(start, before, gone) && found == Knows(before, pid) && !Knows(after, pid)
    requires !found ==> after == before
    requires found ==> exists q <- before :: q.pid == pid && after == before - multiset{q}
    ensures Cleaned(start, after, gone + {pid})
  {
    forall x: Process ensures after[x] == if x.pid in gone + {pid} then 0 else start[x] {
      if x.pid == pid {
        assert x !in after;
      } else {
        assert after[x] == before[x];
      }
    }
  }

  lemma {:induction false} PidsMember(ps: seq<Process>, i: nat)
    requires i < |ps|
    ensures ps[i].pid in Pids(ps)
  {
    if i < |ps| - 1 {
      PidsMember(ps[..|ps| - 1], i);
    }
  }

  /** After feeding, every tracked PID was tracked before or fed. */
  lemma FedPids(before: seq<Process>, fed: seq<Process>, k: nat, changes: seq<Change>, states: seq<Bag>,
                after: seq<Process>)
    requires Feeds(multiset(before), fed, k, changes, states) && states[|fed|] == multiset(after)
    ensures forall i :: 0 <= i < |after| ==> Knows(multiset(before), after[i].pid) || after[i].pid in Pids(fed)
  {
    forall i | 0 <= i < |after| ensures Knows(multiset(before), after[i].pid) || after[i].pid in Pids(fed) {
      assert after[i] in multiset(after);
      FeedPids(multiset(before), fed, k, changes, states, after[i]);
      if !Knows(multiset(before), after[i].pid) {
        var j :| 0 <= j < |fed| && fed[j].pid == after[i].pid;
        PidsMember(fed, j);
      }
    }
  }

  /** Cleaning up leaves only PIDs of the new scan. */
  lemma CleanedPids(before: seq<Process>, history: set<int>, tracked: seq<Process>, after: seq<Process>,
                    fed: set<int>, newPids: set<int>)
    requires PidsWithin(before, history) && fed <= newPids
    requires Cleaned(multiset(tracked), multiset(after), history - newPids)
    requires forall i :: 0 <= i < |tracked| ==> Knows(multiset(before), tracked[i].pid) || tracked[i].pid in fed
    ensures PidsWithin(after, newPids)
  {
    forall i | 0 <= i < |after| ensures after[i].pid in newPids {
      assert after[i] in multiset(after) && after[i] in multiset(tracked);
      var j :| 0 <= j < |tracked| && tracked[j] == after[i];
      if tracked[j].pid !in fed {
        var q :| q in multiset(before) && q.pid == tracked[j].pid;
        var k :| 0 <= k < |before| && before[k] == q;
        assert before[k].pid in history;
      }
    }
  }

  class TopNSampler {
    const config: Config
    const heap: ProcessHeap
    var pidHistory: set<int>
    var seenPids: map<int, int>
    var churnRate: real
    var lastUpdate: int
    var circuitOpen: bool
    var updateSeconds: real
    var totalCpu: real
    var totalRss: int

    /** What the sampler remembers of the scans. */
    ghost function Memory(): SamplerSpec.Memory
      reads this
    {
      SamplerSpec.Memory(seenPids, pidHistory, lastUpdate)
    }

    /** With churn handling, only PIDs of the last scan are tracked; and all PIDs of the last scan were seen then. */
    ghost predicate Valid()
      reads this, heap
    {
      && heap.Valid() && heap.maxSize == config.maxProcesses
      && (config.churnHandlingEnabled ==> PidsWithin(heap.processes, pidHistory))
      && Memory().Valid()
    }

    /** What its circuit breaker goes by. */
    ghost function Pressure(): SamplerSpec.Pressure
      reads this
    {
      SamplerSpec.Pressure(churnRate, circuitOpen, updateSeconds)
    }

    constructor (config: Config, now: int)
      ensures Valid() && fresh(heap) && heap.processes == [] && pidHistory == {} && seenPids == map[]
      ensures this.config == config && lastUpdate == now && !circuitOpen && churnRate == updateSeconds == 0.0
      ensures totalCpu == 0.0 && totalRss == 0
    {
      this.config := config;
      heap := new ProcessHeap(config.maxProcesses);
      pidHistory, seenPids, churnRate, lastUpdate, circuitOpen := {}, map[], 0.0, now, false;
      updateSeconds, totalCpu, totalRss := 0.0, 0.0, 0;
    }

    method CheckCircuitBreaker()
      modifies `circuitOpen
      ensures circuitOpen == Trips(config, old(circuitOpen), updateSeconds, churnRate)
    {
      if !circuitOpen {
        if updateSeconds * 100.0 > config.maxSamplerCpu ||
           (config.churnHandlingEnabled && churnRate > config.churnThreshold as real) {
          circuitOpen := true;
        }
      } else if updateSeconds * 100.0 < config.maxSamplerCpu * 0.7 &&
                (!config.churnHandlingEnabled || churnRate < config.churnThreshold as real * 0.7) {
        circuitOpen := false;
      }
    }

    method TrackPids(scan: seq<Process>, now: int) returns (newPids: set<int>)
      modifies `seenPids
      ensures newPids == Pids(scan) && seenPids == Seen(old(seenPids), newPids, now)
    {
      newPids := {};
      for i := 0 to |scan|
        invariant newPids == Pids(scan[..i]) && seenPids == Seen(old(seenPids), newPids, now)
      {
        assert scan[..i + 1][..i] == scan[..i];
        newPids := newPids + {scan[i].pid};
        seenPids := seenPids[scan[i].pid := now];
      }
      assert scan[..|scan|] == scan;
    }

    /** An exponential average of new PIDs per second. */
    method UpdateChurn(newPids: set<int>, now: int)
      modifies `churnRate, `lastUpdate
      ensures lastUpdate == now
      ensures churnRate == Churn(config, old(churnRate), |newPids - pidHistory|, now - old(lastUpdate))
    {
      var elapsed := now - lastUpdate;
      lastUpdate := now;
      if config.churnHandlingEnabled && elapsed > 0 {
        churnRate := 0.7 * churnRate + 0.3 * |newPids - pidHistory| as real / Seconds(elapsed);
      }
    }

    /** Update before the heap is touched: which PIDs there are, and how many processes to look at. */
    method Prepare(scan: seq<Process>, now: int) returns (newPids: set<int>, processed: seq<Process>)
      modifies `seenPids, `churnRate, `lastUpdate, `circuitOpen
      ensures newPids == Pids(scan) && seenPids == Seen(old(seenPids), newPids, now) && lastUpdate == now
      ensures churnRate == Churn(config, old(churnRate), |newPids - pidHistory|, now - old(lastUpdate))
      ensures circuitOpen == Trips(config, old(circuitOpen), updateSeconds, churnRate)
      ensures processed == (if circuitOpen then Sample(scan) else scan) && Pids(processed) <= newPids
    {
      newPids := TrackPids(scan, now);
      UpdateChurn(newPids, now);
      CheckCircuitBreaker();
      processed := if circuitOpen then Sample(scan) else scan;
      SamplePids(scan);
    }

    /** Scores the processes and hands them to the heap one by one. */
    method Feed(processed: seq<Process>)
      returns (cpu: real, rss: int, ghost fed: seq<Process>, ghost changes: seq<Change>, ghost states: seq<Bag>)
      requires heap.Valid() && heap.maxSize == config.maxProcesses
      modifies heap
      ensures heap.Valid() && fed == Scored(config, totalRss, processed)
      ensures Feeds(multiset(old(heap.processes)), fed, config.maxProcesses, changes, states)
      ensures |states| == |fed| + 1 && states[|fed|] == multiset(heap.processes)
      ensures cpu == TotalCpu(fed) && rss == TotalRss(fed)
    {
      hide TotalCpu, TotalRss, IsHeap, Indexed, Feeds, Updates;
      cpu, rss, fed, changes, states := 0.0, 0, [], [], [multiset(heap.processes)];
      NothingFed(multiset(heap.processes), config.maxProcesses);
      for i := 0 to |processed|
        invariant heap.Valid() && fed == Scored(config, totalRss, processed[..i])
        invariant Feeds(multiset(old(heap.processes)), fed, config.maxProcesses, changes, states)
        invariant |states| == |fed| + 1 && states[|fed|] == multiset(heap.processes)
        invariant cpu == TotalCpu(fed) && rss == TotalRss(fed)
      {
        var p := processed[i].(score := Score(config, totalRss, processed[i]));
        var kept;
        ghost var change;
        kept, change := heap.Update(p);
        FeedsSnoc(multiset(old(heap.processes)), fed, config.maxProcesses, changes, states,
                  p, change, multiset(heap.processes));
        assert processed[..i + 1][..i] == processed[..i];
        TotalsSnoc(fed, p);
        fed, changes, states := fed + [p], changes + [change], states + [multiset(heap.processes)];
        cpu, rss := cpu + p.cpu, rss + p.rss;
      }
      assert processed[..|processed|] == processed;
    }

    /** Removes the PIDs of the last scan that are missing from this one, in any order. */
    method CleanUp(newPids: set<int>, now: int)
      requires heap.Valid()
      modifies `seenPids, heap
      ensures heap.Valid() && Cleaned(multiset(old(heap.processes)), multiset(heap.processes), pidHistory - newPids)
      ensures seenPids == Forgotten(old(seenPids), pidHistory - newPids, now)
    {
      hide Forgotten, IsHeap, Indexed, Knows, Cleaned;
      var todo := pidHistory;
      ForgetNone(seenPids, now);
      CleanedNone(multiset(heap.processes));
      assert pidHistory - todo - newPids == {};
      while todo != {}
        invariant todo <= pidHistory
        invariant seenPids == Forgotten(old(seenPids), pidHistory - todo - newPids, now)
        invariant heap.Valid()
        invariant Cleaned(multiset(old(heap.processes)), multiset(heap.processes), pidHistory - todo - newPids)
      {
        var pid := Pick(todo);
        ghost var gone := pidHistory - todo - newPids;
        ForgetOne(old(seenPids), gone, pid, now);
        GoneGrows(pidHistory, todo, newPids, pid);
        todo := todo - {pid};
        if pid !in newPids {
          ghost var before := heap.processes;
          var found := heap.Remove(pid);
          CleanedOne(multiset(old(heap.processes)), multiset(before), multiset(heap.processes), gone, pid, found);
          if pid in seenPids && now - seenPids[pid] > MINUTE {
            seenPids := seenPids - {pid};
          }
        }
      }
      assert pidHistory - todo - newPids == pidHistory - newPids;
    }

    /** Feeding, cleaning up and what is kept for the next scan. */
    method Track(processed: seq<Process>, newPids: set<int>, now: int)
      returns (ghost fed: seq<Process>, ghost changes: seq<Change>, ghost states: seq<Bag>)
      requires heap.Valid() && heap.maxSize == config.maxProcesses && Pids(processed) <= newPids
      requires config.churnHandlingEnabled ==> PidsWithin(heap.processes, pidHistory)
      modifies `seenPids, `pidHistory, `totalCpu, `totalRss, heap
      ensures heap.Valid() && |heap.processes| <= config.maxProcesses && fed == Scored(config, old(totalRss), processed)
      ensures pidHistory == newPids && totalCpu == TotalCpu(fed) && totalRss == TotalRss(fed)
      ensures seenPids == Forgotten(old(seenPids), Gone(config, old(pidHistory), newPids), now)
      ensures FedAndCleaned(old(heap.processes), fed, config.maxProcesses, changes, states,
                            Gone(config, old(pidHistory), newPids), heap.processes)
      ensures config.churnHandlingEnabled ==> PidsWithin(heap.processes, newPids)
      ensures old(heap.processes) == [] && old(pidHistory) == {} && DistinctPids(fed) ==>
                IsTop(multiset(heap.processes), multiset(fed), config.maxProcesses)
    {
      hide Scored, IsHeap, Indexed, IsTop, PidsWithin, DistinctPids, Pids, Feeds, Knows, Cleaned;
      ghost var before := heap.processes;
      var cpu, rss;
      cpu, rss, fed, changes, states := Feed(processed);
      ghost var tracked := heap.processes;
      FedPids(before, fed, config.maxProcesses, changes, states, tracked);
      ScoredPids(config, totalRss, processed);
      CleanedNone(multiset(tracked));
      ForgetNone(seenPids, now);
      if config.churnHandlingEnabled {
        CleanUp(newPids, now);
        CleanedPids(before, pidHistory, tracked, heap.processes, Pids(fed), newPids);
      }
      CleanedNothing(multiset(tracked), multiset(heap.processes), Gone(config, pidHistory, newPids));
      if before == [] && DistinctPids(fed) {
        FeedKeepsTop(fed, config.maxProcesses, changes, states);
      }
      pidHistory, totalCpu, totalRss := newPids, cpu, rss;
    }

    /** Takes in a scan. With churn handling on, every tracked PID is in the scan afterwards, whether or not the open
        breaker cut the scan short; and never more than maxProcesses are tracked. A new sampler tracks exactly the
        maxProcesses highest scores of what it was given to process; any sampler makes a run of heap updates and then
        drops exactly the PIDs that left the scans. `seconds` is the measured duration. */
    method Update(scan: seq<Process>, now: int, seconds: real)
      returns (ghost fed: seq<Process>, ghost changes: seq<Change>, ghost states: seq<Bag>)
      requires Valid()
      modifies this, heap
      ensures Valid() && pidHistory == Pids(scan) && |heap.processes| <= config.maxProcesses
      ensures Memory() == Remember(config, old(Memory()), Scan(Pids(scan), now))
      ensures Pressure() == Respond(config, old(Pressure()), Load(|Pids(scan) - old(pidHistory)|, now - old(lastUpdate),
                                                                  seconds))
      ensures totalCpu == TotalCpu(fed) && totalRss == TotalRss(fed)
      ensures config.churnHandlingEnabled ==> PidsWithin(heap.processes, Pids(scan))
      ensures fed == Scored(config, old(totalRss), if circuitOpen then Sample(scan) else scan)
      ensures FedAndCleaned(old(heap.processes), fed, config.maxProcesses, changes, states,
                            Gone(config, old(pidHistory), Pids(scan)), heap.processes)
      ensures old(heap.processes) == [] && old(pidHistory) == {} && DistinctPids(fed) ==>
                IsTop(multiset(heap.processes), multiset(fed), config.maxProcesses)
    {
      hide Scored, IsHeap, Indexed, IsTop, PidsWithin, DistinctPids, Pids, Sample, Churn, Trips, Seen, Forgotten,
        TotalCpu, TotalRss, FedAndCleaned, Gone, ProcessHeap.Valid;
      StillSeen(config, Memory(), Scan(Pids(scan), now));
      var newPids, processed := Prepare(scan, now);
      fed, changes, states := Track(processed, newPids, now);
      updateSeconds := seconds;
    }
  }

  /** Later scans: the tracked processes are at the top of the newest records `all` of the PIDs seen and not gone, at
      most one for each. If every fed process stays on top, the scan leaves them at the top of the records that are
      left, if and only if, when clean-up starts, every untracked record is of a PID that is gone, or all places are
      taken by PIDs that are not; and then the same holds for the next scan. */
  lemma LaterScanKeepsTop(start: seq<Process>, all: Bag, fed: seq<Process>, k: nat, changes: seq<Change>,
                          states: seq<Bag>, records: seq<Bag>, gone: set<int>, after: seq<Process>, left: Bag)
    requires FedAndCleaned(start, fed, k, changes, states, gone, after)
    requires IsTop(multiset(start), all, k) && OnePerPid(all) && RecordsRun(all, fed, changes, records)
    requires forall i :: 0 <= i < |fed| ==> StaysOnTop(states[i], records[i], fed[i])
    requires Cleaned(records[|fed|], left, gone)
    ensures IsTop(multiset(after), left, k) <==> SparesTop(states[|fed|], records[|fed|], k, gone)
    ensures OnePerPid(left)
  {
    hide IsTop, OnePerPid, Records, StaysOnTop, Cleaned, Updates, SparesTop;
    RunKeepsTop(multiset(start), all, fed, k, changes, states, records);
    CleanKeepsTopIff(states[|fed|], records[|fed|], k, gone, multiset(after), left);
  }

  const PLACES_1: Config := Config(1, 0.7, 0.3, 0.001, true, 2000, 0.5)

  function Example(pid: int, cpu: real, score: real): Process {
    Process(pid, "", "", cpu, 0, 0, score)
  }

  lemma ExampleScored()
    ensures Scored(PLACES_1, 0, [Example(1, 50.0, 0.0)]) == [Example(1, 50.0, 35.0)]
    ensures Scored(PLACES_1, 0, [Example(2, 40.0, 0.0), Example(1, 10.0, 0.0)]) ==
            [Example(2, 40.0, 28.0), Example(1, 10.0, 7.0)]
  {
    var a, b := Example(2, 40.0, 0.0), Example(1, 10.0, 0.0);
    assert [a, b][..1] == [a];
    assert [a][..0] == [];
  }

  /** Two scans with one place and otherwise default weights: the first has a process of 50 percent CPU, the second
      one of 40 percent and then the first at 10. The lower one stays tracked: the other was turned away by a score
      that the tracked one no longer has. */
  lemma SecondScanMissesTop()
    ensures var scan1, scan2 := [Example(1, 50.0, 0.0)], [Example(2, 40.0, 0.0), Example(1, 10.0, 0.0)];
            var first, other, later := Example(1, 50.0, 35.0), Example(2, 40.0, 28.0), Example(1, 10.0, 7.0);
            && FedAndCleaned([], Scored(PLACES_1, 0, scan1), 1, [Insert], [multiset{}, multiset{first}],
                             Gone(PLACES_1, {}, Pids(scan1)), [first])
            && FedAndCleaned([first], Scored(PLACES_1, 0, scan2), 1, [Ignore, Refresh(first)],
                             [multiset{first}, multiset{first}, multiset{later}],
                             Gone(PLACES_1, Pids(scan1), Pids(scan2)), [later])
            && !IsTop(multiset([later]), multiset(Scored(PLACES_1, 0, scan2)), 1)
  {
    hide Scored;
    var scan1, scan2 := [Example(1, 50.0, 0.0)], [Example(2, 40.0, 0.0), Example(1, 10.0, 0.0)];
    var first, other, later := Example(1, 50.0, 35.0), Example(2, 40.0, 28.0), Example(1, 10.0, 7.0);
    ExampleScored();
    assert Pids(scan1) == {1} by { assert scan1[..0] == []; }
    PidsMember(scan2, 1);
    assert Refreshed(first, later) == later;
    assert multiset([first]) == multiset{first} && multiset([later]) == multiset{later};
    assert other in multiset([other, later]) - multiset{later};
  }
}
