/** sampler/topn.go: what the sampler computes and remembers besides its heap, and what comes of it over whole runs. */
module SamplerSpec {
  import opened HeapOrder

  /** sampler/config.go TopNConfig, as far as Update uses it, with MaxSamplerCPU. The source declares that field in
      Config and not in TopNConfig, so sampler/topn.go:239 does not compile as written; the model takes it as meant. */
  datatype Config = Config(maxProcesses: nat, cpuWeight: real, rssWeight: real, minScore: real,
                           churnHandlingEnabled: bool, churnThreshold: int, maxSamplerCpu: real)

  const MINUTE: int := 60_000_000_000

  /** The memory of a process in percent of the total, to be in the range of a CPU percentage. */
  function NormalizedRss(rss: int, totalRss: int): real {
    if totalRss > 0 then rss as real / totalRss as real * 100.0 else 0.0
  }

  function CpuPart(config: Config, cpu: real): real { config.cpuWeight * cpu }

  function MemoryPart(config: Config, rss: int, totalRss: int): real {
    config.rssWeight * NormalizedRss(rss, totalRss)
  }

  function Score(config: Config, totalRss: int, p: Process): real {
    var score := CpuPart(config, p.cpu) + MemoryPart(config, p.rss, totalRss);
    if score < config.minScore then 0.0 else score
  }

  function Scored(config: Config, totalRss: int, ps: seq<Process>): (r: seq<Process>)
    ensures |r| == |ps|
  {
    if ps == [] then []
    else
      var p := ps[|ps| - 1];
      Scored(config, totalRss, ps[..|ps| - 1]) + [p.(score := Score(config, totalRss, p))]
  }

  function TotalCpu(ps: seq<Process>): real {
    if ps == [] then 0.0 else TotalCpu(ps[..|ps| - 1]) + ps[|ps| - 1].cpu
  }

  function TotalRss(ps: seq<Process>): int {
    if ps == [] then 0 else TotalRss(ps[..|ps| - 1]) + ps[|ps| - 1].rss
  }

  lemma {:induction false} ScoredAt(config: Config, totalRss: int, ps: seq<Process>, i: nat)
    requires i < |ps|
    ensures Scored(config, totalRss, ps)[i] == ps[i].(score := Score(config, totalRss, ps[i]))
  {
    hide Score;
    if i == |ps| - 1 {
    } else {
      ScoredAt(config, totalRss, ps[..|ps| - 1], i);
    }
  }

  lemma PartsIgnoreCutOff(config: Config, totalRss: int, p: Process)
    ensures CpuPart(config.(minScore := 0.0), p.cpu) == CpuPart(config, p.cpu)
    ensures MemoryPart(config.(minScore := 0.0), p.rss, totalRss) == MemoryPart(config, p.rss, totalRss)
  {}

  /** The minimum score cuts off: no score lies strictly between 0 and it, and scores from it on are as without it. */
  lemma ScoreCutOff(config: Config, totalRss: int, p: Process)
    requires config.minScore >= 0.0
    ensures var s, free := Score(config, totalRss, p), Score(config.(minScore := 0.0), totalRss, p);
            && (s == 0.0 || s >= config.minScore)
            && s == if free < config.minScore then 0.0 else free
  {
    PartsIgnoreCutOff(config, totalRss, p);
    hide CpuPart, MemoryPart;
  }

  lemma MoreWeighted(weight: real, x: real, y: real)
    requires weight > 0.0 && x < y
    ensures weight * x < weight * y
  {}

  lemma MoreCpu(config: Config, x: real, y: real)
    requires config.cpuWeight > 0.0 && x < y
    ensures CpuPart(config, x) < CpuPart(config, y)
  {
    MoreWeighted(config.cpuWeight, x, y);
  }

  lemma MoreMemory(config: Config, x: int, y: int, total: int)
    requires config.rssWeight > 0.0 && total > 0 && x < y
    ensures MemoryPart(config, x, total) < MemoryPart(config, y, total)
  {
    var a, b, t := x as real, y as real, total as real;
    assert b / t - a / t == (b - a) / t;
    assert (b - a) / t > 0.0;
    MoreWeighted(config.rssWeight, NormalizedRss(x, total), NormalizedRss(y, total));
  }

  /** Of two processes with the same CPU share the one with more memory scores higher, as soon as the other one
      scores. */
  lemma MoreMemoryScoresHigher(config: Config, totalRss: int, p: Process, q: Process)
    requires config.minScore >= 0.0 && config.rssWeight > 0.0 && totalRss > 0
    requires p.cpu == q.cpu && p.rss < q.rss && Score(config, totalRss, p) > 0.0
    ensures Score(config, totalRss, p) < Score(config, totalRss, q)
  {
    hide CpuPart, MemoryPart;
    MoreMemory(config, p.rss, q.rss, totalRss);
    assert CpuPart(config, p.cpu) == CpuPart(config, q.cpu);
  }

  /** And with the same memory the one with more CPU does. */
  lemma MoreCpuScoresHigher(config: Config, totalRss: int, p: Process, q: Process)
    requires config.minScore >= 0.0 && config.cpuWeight > 0.0
    requires p.rss == q.rss && p.cpu < q.cpu && Score(config, totalRss, p) > 0.0
    ensures Score(config, totalRss, p) < Score(config, totalRss, q)
  {
    hide CpuPart, MemoryPart;
    MoreCpu(config, p.cpu, q.cpu);
    assert MemoryPart(config, p.rss, totalRss) == MemoryPart(config, q.rss, totalRss);
  }

  function TotalScore(ps: seq<Process>): real {
    if ps == [] then 0.0 else TotalScore(ps[..|ps| - 1]) + ps[|ps| - 1].score
  }

  ghost predicate Measured(ps: seq<Process>) {
    forall i :: 0 <= i < |ps| ==> ps[i].cpu >= 0.0 && ps[i].rss >= 0
  }

  /** Weights that do not cut anything off. */
  ghost predicate NoCutOff(config: Config) {
    config.minScore == 0.0 && config.cpuWeight >= 0.0 && config.rssWeight >= 0.0
  }

  lemma ProductNotNegative(x: real, y: real)
    requires x >= 0.0 && y >= 0.0
    ensures x * y >= 0.0
  {}

  lemma FreeScore(config: Config, totalRss: int, p: Process)
    requires NoCutOff(config) && p.cpu >= 0.0 && p.rss >= 0
    ensures Score(config, totalRss, p) == CpuPart(config, p.cpu) + MemoryPart(config, p.rss, totalRss)
  {
    ProductNotNegative(config.cpuWeight, p.cpu);
    assert NormalizedRss(p.rss, totalRss) >= 0.0;
    ProductNotNegative(config.rssWeight, NormalizedRss(p.rss, totalRss));
  }

  lemma Distributes(w: real, x: real, y: real)
    ensures w * (x + y) == w * x + w * y
  {}

  lemma MemoryAdds(config: Config, a: int, b: int, totalRss: int)
    ensures MemoryPart(config, a + b, totalRss) == MemoryPart(config, a, totalRss) + MemoryPart(config, b, totalRss)
  {
    if totalRss > 0 {
      assert (a + b) as real / totalRss as real == a as real / totalRss as real + b as real / totalRss as real;
    }
    Distributes(config.rssWeight, NormalizedRss(a, totalRss), NormalizedRss(b, totalRss));
  }

  lemma CpuAdds(config: Config, a: real, b: real)
    ensures CpuPart(config, a + b) == CpuPart(config, a) + CpuPart(config, b)
  {
    Distributes(config.cpuWeight, a, b);
  }

  lemma NoParts(config: Config, totalRss: int)
    ensures CpuPart(config, 0.0) == 0.0 && MemoryPart(config, 0, totalRss) == 0.0
  {}

  /** Without a cut-off, the scores of a scan add up to the part of the CPU in all and of the memory in all. */
  lemma {:induction false} ScoresAddUp(config: Config, totalRss: int, ps: seq<Process>)
    requires NoCutOff(config) && Measured(ps)
    ensures TotalScore(Scored(config, totalRss, ps)) ==
            CpuPart(config, TotalCpu(ps)) + MemoryPart(config, TotalRss(ps), totalRss)
  {
    hide Score, MemoryPart, CpuPart;
    if ps == [] {
      NoParts(config, totalRss);
    } else {
      var n := |ps| - 1;
      ScoresAddUp(config, totalRss, ps[..n]);
      FreeScore(config, totalRss, ps[n]);
      MemoryAdds(config, TotalRss(ps[..n]), ps[n].rss, totalRss);
      CpuAdds(config, TotalCpu(ps[..n]), ps[n].cpu);
      assert Scored(config, totalRss, ps)[..n] == Scored(config, totalRss, ps[..n]);
    }
  }

  /** If the memory in use is that of the scan before, memory makes up exactly 100 times its weight. */
  lemma MemoryMakesUp(config: Config, ps: seq<Process>)
    requires NoCutOff(config) && Measured(ps) && TotalRss(ps) > 0
    ensures TotalScore(Scored(config, TotalRss(ps), ps)) ==
            config.cpuWeight * TotalCpu(ps) + config.rssWeight * 100.0
  {
    hide Scored, TotalScore, TotalRss, TotalCpu;
    ScoresAddUp(config, TotalRss(ps), ps);
    assert NormalizedRss(TotalRss(ps), TotalRss(ps)) == 100.0;
  }

  /** Before there is a total, which a new sampler does not have, the memory of a process plays no part. */
  lemma FirstScanByCpu(config: Config, p: Process, rss: int)
    ensures Score(config, 0, p) == Score(config, 0, p.(rss := rss))
  {}

  // ----- the PIDs it has seen -----

  /** The time each PID of a scan was seen, on top of earlier times. */
  function Seen(seen: map<int, int>, pids: set<int>, now: int): map<int, int> {
    seen + map pid | pid in pids :: now
  }

  /** Clean-up forgets PIDs that left the scans and were last seen more than a minute ago. */
  function Forgotten(seen: map<int, int>, gone: set<int>, now: int): map<int, int> {
    map pid | pid in seen && !(pid in gone && now - seen[pid] > MINUTE) :: seen[pid]
  }

  /** The PIDs that clean-up removes: with churn handling, those of the last scan that are missing from this one. */
  function Gone(config: Config, history: set<int>, pids: set<int>): set<int> {
    if config.churnHandlingEnabled then history - pids else {}
  }

  datatype Scan = Scan(pids: set<int>, time: int)

  /** When each PID was last seen, the PIDs of the last scan, and its time. */
  datatype Memory = Memory(seen: map<int, int>, history: set<int>, last: int) {

    /** All PIDs of the last scan were seen at its time. */
    ghost predicate Valid() {
      forall pid <- history :: pid in seen && seen[pid] == last
    }
  }

  /** The memory after a scan. */
  function Remember(config: Config, m: Memory, scan: Scan): Memory {
    Memory(Forgotten(Seen(m.seen, scan.pids, scan.time), Gone(config, m.history, scan.pids), scan.time),
           scan.pids, scan.time)
  }

  lemma StillSeen(config: Config, m: Memory, scan: Scan)
    ensures Remember(config, m, scan).Valid()
  {}

  /** A PID that was seen is forgotten by a scan exactly when churn handling is on, the PID was in the scan before and
      is not in this one, and more than a minute lies between the two. */
  lemma ForgottenIff(config: Config, m: Memory, scan: Scan, pid: int)
    requires m.Valid() && pid in m.seen
    ensures pid !in Remember(config, m, scan).seen <==>
            config.churnHandlingEnabled && pid in m.history && pid !in scan.pids && scan.time - m.last > MINUTE
  {}

  /** The memory after a sequence of scans from a new sampler. */
  function AfterScans(config: Config, start: int, scans: seq<Scan>): Memory {
    if scans == [] then Memory(map[], {}, start)
    else Remember(config, AfterScans(config, start, scans[..|scans| - 1]), scans[|scans| - 1])
  }

  lemma AfterScansValid(config: Config, start: int, scans: seq<Scan>)
    ensures AfterScans(config, start, scans).Valid()
    ensures scans != [] ==>
              var m, last := AfterScans(config, start, scans), scans[|scans| - 1];
              m.history == last.pids && m.last == last.time
  {
    if scans == [] {
    } else {
      StillSeen(config, AfterScans(config, start, scans[..|scans| - 1]), scans[|scans| - 1]);
    }
  }

  /** Scan `i` is the last one with the PID. */
  ghost predicate LastIn(scans: seq<Scan>, pid: int, i: int) {
    && 0 <= i < |scans| && pid in scans[i].pids
    && forall j :: i < j < |scans| ==> pid !in scans[j].pids
  }

  /** The scan behind scan `i`, if there is one, came within a minute, or nothing is ever cleaned up. */
  ghost predicate SoonFollowed(config: Config, scans: seq<Scan>, i: int)
    requires 0 <= i < |scans|
  {
    !config.churnHandlingEnabled || i + 1 == |scans| || scans[i + 1].time - scans[i].time <= MINUTE
  }

  ghost predicate Remembered(config: Config, scans: seq<Scan>, pid: int) {
    exists i :: LastIn(scans, pid, i) && SoonFollowed(config, scans, i)
  }

  lemma LastInUnique(scans: seq<Scan>, pid: int, i: int)
    requires LastIn(scans, pid, i)
    ensures forall j :: LastIn(scans, pid, j) ==> j == i
  {}

  lemma ScanHistory(config: Config, m: Memory, scan: Scan)
    ensures Remember(config, m, scan).history == scan.pids
  {}

  lemma NeverSeen(config: Config, m: Memory, scan: Scan, pid: int)
    requires pid !in m.seen && pid !in scan.pids
    ensures pid !in Remember(config, m, scan).seen
  {}

  /** Over every sequence of scans: the time of a PID is kept if and only if the PID was in some scan, and the scan
      right behind the last one with it, if there is one, came within a minute. What comes later plays no part. */
  lemma {:induction false} RememberedIff(config: Config, start: int, scans: seq<Scan>, pid: int)
    ensures pid in AfterScans(config, start, scans).seen <==> Remembered(config, scans, pid)
  {
    hide Remember;
    if scans == [] {
    } else {
      var n := |scans| - 1;
      var before, scan := scans[..n], scans[n];
      var m := AfterScans(config, start, before);
      RememberedIff(config, start, before, pid);
      AfterScansValid(config, start, before);
      if pid in scan.pids {
        StillSeen(config, m, scan);
        ScanHistory(config, m, scan);
        assert LastIn(scans, pid, n) && SoonFollowed(config, scans, n);
      } else if pid in m.seen {
        ForgottenIff(config, m, scan, pid);
        var i :| LastIn(before, pid, i) && SoonFollowed(config, before, i);
        assert LastIn(scans, pid, i);
        LastInUnique(scans, pid, i);
        assert pid in m.history <==> i + 1 == n;
      } else {
        NeverSeen(config, m, scan, pid);
        forall i | LastIn(scans, pid, i) ensures !SoonFollowed(config, scans, i) {
          assert LastIn(before, pid, i);
          assert !SoonFollowed(config, before, i);
        }
      }
    }
  }

  /** So a PID whose time has survived one scan without it is kept for good, as long as it stays away. */
  lemma KeptForGood(config: Config, start: int, scans: seq<Scan>, more: seq<Scan>, pid: int)
    requires scans != [] && pid !in scans[|scans| - 1].pids && pid in AfterScans(config, start, scans).seen
    requires forall i :: 0 <= i < |more| ==> pid !in more[i].pids
    ensures pid in AfterScans(config, start, scans + more).seen
  {
    hide AfterScans;
    RememberedIff(config, start, scans, pid);
    RememberedIff(config, start, scans + more, pid);
    var i :| LastIn(scans, pid, i) && SoonFollowed(config, scans, i);
    assert i + 1 < |scans|;
    var all := scans + more;
    assert LastIn(all, pid, i) && SoonFollowed(config, all, i);
  }

  /** Process 1 is in the first scan only. The next comes 15 seconds later, the last one a day later: its time is still
      kept, with churn handling on. */
  lemma KeptForADay(config: Config)
    requires config.churnHandlingEnabled
    ensures 1 in AfterScans(config, 0, [Scan({1}, 0), Scan({2}, 15_000_000_000), Scan({3}, 86_400_000_000_000)]).seen
  {
    hide AfterScans;
    var scans := [Scan({1}, 0), Scan({2}, 15_000_000_000), Scan({3}, 86_400_000_000_000)];
    assert LastIn(scans, 1, 0) && SoonFollowed(config, scans, 0);
    RememberedIff(config, 0, scans, 1);
  }

  /** With a scan behind it, its time is kept for a minute exactly. */
  lemma KeptForAMinute(config: Config, time: int)
    requires config.churnHandlingEnabled
    ensures 1 in AfterScans(config, 0, [Scan({1}, 0), Scan({2}, time)]).seen <==> time <= 60_000_000_000
  {
    hide AfterScans;
    var scans := [Scan({1}, 0), Scan({2}, time)];
    assert LastIn(scans, 1, 0);
    LastInUnique(scans, 1, 0);
    RememberedIff(config, 0, scans, 1);
  }

  // ----- its circuit breaker -----

  function Seconds(t: int): real { t as real / 1_000_000_000.0 }

  /** The exponential average of new PIDs per second. */
  function Churn(config: Config, rate: real, added: nat, elapsed: int): real {
    if config.churnHandlingEnabled && elapsed > 0 then 0.7 * rate + 0.3 * added as real / Seconds(elapsed) else rate
  }

  /** The breaker of the sampler opens above either limit, and closes only below 70 percent of both. */
  predicate Trips(config: Config, open: bool, seconds: real, churn: real) {
    if open
    then !(seconds * 100.0 < config.maxSamplerCpu * 0.7 &&
           (!config.churnHandlingEnabled || churn < config.churnThreshold as real * 0.7))
    else seconds * 100.0 > config.maxSamplerCpu ||
         (config.churnHandlingEnabled && churn > config.churnThreshold as real)
  }

  /** The churn rate, whether the breaker is open, and how long the last update took. */
  datatype Pressure = Pressure(churn: real, open: bool, seconds: real)

  /** What one update brings: new PIDs, the time since the last one, and how long it takes. */
  datatype Load = Load(added: nat, elapsed: int, seconds: real)

  /** The breaker goes by the new churn rate and by the duration of the update before. */
  function Respond(config: Config, p: Pressure, l: Load): Pressure {
    var churn := Churn(config, p.churn, l.added, l.elapsed);
    Pressure(churn, Trips(config, p.open, p.seconds, churn), l.seconds)
  }

  function AfterLoads(config: Config, p: Pressure, ls: seq<Load>): Pressure {
    if ls == [] then p else Respond(config, AfterLoads(config, p, ls[..|ls| - 1]), ls[|ls| - 1])
  }

  /** No update brings more new PIDs than `rate` per second. */
  ghost predicate RatesWithin(ls: seq<Load>, rate: real) {
    forall i :: 0 <= i < |ls| ==> ls[i].elapsed > 0 ==> ls[i].added as real <= rate * Seconds(ls[i].elapsed)
  }

  lemma QuotientWithin(x: real, y: real, z: real)
    requires y > 0.0 && 0.0 <= x <= z * y
    ensures 0.0 <= x / y <= z
  {
    assert x / y * y == x;
  }

  lemma ChurnStep(config: Config, c: real, l: Load, rate: real)
    requires 0.0 <= c <= rate && (l.elapsed > 0 ==> l.added as real <= rate * Seconds(l.elapsed))
    ensures 0.0 <= Churn(config, c, l.added, l.elapsed) <= rate
  {
    if config.churnHandlingEnabled && l.elapsed > 0 {
      var x, y := l.added as real, Seconds(l.elapsed);
      QuotientWithin(x, y, rate);
      assert 0.3 * x / y == 0.3 * (x / y);
    }
  }

  /** The churn rate is an average: over every run it stays within the highest rate of new PIDs, whatever the times
      between the updates. */
  lemma {:induction false} ChurnWithinRates(config: Config, p: Pressure, ls: seq<Load>, rate: real)
    requires 0.0 <= p.churn <= rate && RatesWithin(ls, rate)
    ensures 0.0 <= AfterLoads(config, p, ls).churn <= rate
  {
    hide Churn, Trips;
    if ls == [] {
    } else {
      var n := |ls| - 1;
      ChurnWithinRates(config, p, ls[..n], rate);
      ChurnStep(config, AfterLoads(config, p, ls[..n]).churn, ls[n], rate);
    }
  }

  ghost predicate DurationsWithin(config: Config, ls: seq<Load>) {
    forall i :: 0 <= i < |ls| ==> ls[i].seconds * 100.0 <= config.maxSamplerCpu
  }

  /** So a closed breaker never opens while updates are short enough and new PIDs do not come faster than the
      threshold. */
  lemma {:induction false} NeverOpens(config: Config, p: Pressure, ls: seq<Load>)
    requires !p.open && 0.0 <= p.churn <= config.churnThreshold as real && p.seconds * 100.0 <= config.maxSamplerCpu
    requires DurationsWithin(config, ls) && RatesWithin(ls, config.churnThreshold as real)
    ensures var q := AfterLoads(config, p, ls); !q.open && q.seconds * 100.0 <= config.maxSamplerCpu
  {
    hide Churn;
    if ls == [] {
    } else {
      NeverOpens(config, p, ls[..|ls| - 1]);
      ChurnWithinRates(config, p, ls, config.churnThreshold as real);
    }
  }

  /** An update without new PIDs that takes less than 70 percent of the limit. */
  ghost predicate Quiet(config: Config, l: Load) {
    l.added == 0 && l.elapsed > 0 && l.seconds * 100.0 < config.maxSamplerCpu * 0.7
  }

  ghost predicate AllQuiet(config: Config, ls: seq<Load>) {
    forall i :: 0 <= i < |ls| ==> Quiet(config, ls[i])
  }

  lemma QuietStep(config: Config, c: real, l: Load)
    requires config.churnHandlingEnabled && Quiet(config, l)
    ensures Churn(config, c, l.added, l.elapsed) == 0.7 * c
  {
    assert 0.3 * 0.0 / Seconds(l.elapsed) == 0.0;
  }

  /** While the churn rate is at least `t`, each quiet update takes 0.3 t off it. */
  lemma {:induction false} ChurnFalls(config: Config, p: Pressure, ls: seq<Load>, t: real)
    requires config.churnHandlingEnabled && AllQuiet(config, ls) && t > 0.0
    ensures var c := AfterLoads(config, p, ls).churn; c < t || c <= p.churn - 0.3 * t * |ls| as real
  {
    hide Churn, Trips;
    if ls == [] {
    } else {
      var n := |ls| - 1;
      var c := AfterLoads(config, p, ls[..n]).churn;
      ChurnFalls(config, p, ls[..n], t);
      QuietStep(config, c, ls[n]);
      assert 0.3 * t * |ls| as real == 0.3 * t * n as real + 0.3 * t;
    }
  }

  /** After finitely many quiet updates the breaker is closed: at least two, and so many that 0.3 times 70 percent of
      the churn threshold for each of them make up the churn rate at the start. */
  lemma QuietCloses(config: Config, p: Pressure, ls: seq<Load>)
    requires AllQuiet(config, ls) && |ls| >= 2 && config.maxSamplerCpu > 0.0
    requires config.churnHandlingEnabled ==>
               config.churnThreshold > 0 && p.churn <= 0.3 * (config.churnThreshold as real * 0.7) * |ls| as real
    ensures !AfterLoads(config, p, ls).open
  {
    hide Churn;
    var n, t := |ls| - 1, config.churnThreshold as real * 0.7;
    var q := AfterLoads(config, p, ls[..n]);
    assert q.seconds == ls[..n][n - 1].seconds;
    if config.churnHandlingEnabled {
      ChurnFalls(config, p, ls, t);
      assert AfterLoads(config, p, ls).churn < t;
    }
  }

  /** Updates that each bring at least `rate` new PIDs per second. */
  ghost predicate RatesAtLeast(ls: seq<Load>, rate: real) {
    forall i :: 0 <= i < |ls| ==> ls[i].elapsed > 0 && ls[i].added as real >= rate * Seconds(ls[i].elapsed)
  }

  lemma QuotientAtLeast(x: real, y: real, z: real)
    requires y > 0.0 && x >= z * y
    ensures x / y >= z
  {
    assert x / y * y == x;
  }

  lemma BusyStep(config: Config, c: real, l: Load, rate: real)
    requires config.churnHandlingEnabled && l.elapsed > 0 && l.added as real >= rate * Seconds(l.elapsed)
    ensures Churn(config, c, l.added, l.elapsed) >= 0.7 * c + 0.3 * rate
  {
    var x, y := l.added as real, Seconds(l.elapsed);
    QuotientAtLeast(x, y, rate);
    assert 0.3 * x / y == 0.3 * (x / y);
  }

  /** While the churn rate is below `t`, each busy update adds 0.3 times what `t` is short of the rate of new PIDs. */
  lemma {:induction false} ChurnRises(config: Config, p: Pressure, ls: seq<Load>, rate: real, t: real)
    requires config.churnHandlingEnabled && RatesAtLeast(ls, rate) && t <= rate
    ensures var c := AfterLoads(config, p, ls).churn; c >= t || c >= p.churn + 0.3 * (rate - t) * |ls| as real
  {
    hide Churn, Trips;
    if ls == [] {
    } else {
      var n := |ls| - 1;
      var c := AfterLoads(config, p, ls[..n]).churn;
      ChurnRises(config, p, ls[..n], rate, t);
      BusyStep(config, c, ls[n], rate);
      assert 0.3 * (rate - t) * |ls| as real == 0.3 * (rate - t) * n as real + 0.3 * (rate - t);
    }
  }

  /** So new PIDs that keep coming faster than the threshold open the breaker in a bounded number of updates, whatever
      it was, and keep it open. */
  lemma BusyOpens(config: Config, p: Pressure, ls: seq<Load>, rate: real, t: real)
    requires config.churnHandlingEnabled && config.churnThreshold >= 0 && RatesAtLeast(ls, rate)
    requires config.churnThreshold as real < t <= rate && ls != [] && p.churn + 0.3 * (rate - t) * |ls| as real >= t
    ensures AfterLoads(config, p, ls).open
  {
    hide Churn;
    ChurnRises(config, p, ls, rate, t);
  }

  /** An update that takes longer than the limit opens the breaker for the next one. */
  lemma SlowOpens(config: Config, p: Pressure, slow: Load, next: Load)
    requires config.maxSamplerCpu >= 0.0 && slow.seconds * 100.0 > config.maxSamplerCpu
    ensures Respond(config, Respond(config, p, slow), next).open
  {
    hide Churn;
  }

  lemma ChurnNotNegative(config: Config, c: real, l: Load)
    requires c >= 0.0
    ensures Churn(config, c, l.added, l.elapsed) >= 0.0
  {
    if l.elapsed > 0 {
      QuotientWithin(0.3 * l.added as real, Seconds(l.elapsed), 0.3 * l.added as real / Seconds(l.elapsed));
    }
  }

  /** Without a positive churn threshold, which configuration does not demand, an open breaker with churn handling never
      closes again, whatever happens. */
  lemma {:induction false} OpenForever(config: Config, p: Pressure, ls: seq<Load>)
    requires config.churnHandlingEnabled && config.churnThreshold <= 0 && p.open && p.churn >= 0.0
    ensures var q := AfterLoads(config, p, ls); q.open && q.churn >= 0.0
  {
    if ls == [] {
    } else {
      var n := |ls| - 1;
      OpenForever(config, p, ls[..n]);
      ChurnNotNegative(config, AfterLoads(config, p, ls[..n]).churn, ls[n]);
    }
  }

  /** The default configuration without a churn threshold. */
  const NO_THRESHOLD: Config := Config(500, 0.7, 0.3, 0.001, true, 0, 0.5)

  /** One new PID, a second after the start, opens such a breaker, and it stays open over every further run. */
  lemma OnePidOpensForGood(seconds: real, ls: seq<Load>)
    ensures var p := Respond(NO_THRESHOLD, Pressure(0.0, false, 0.0), Load(1, 1_000_000_000, seconds));
            p.open && AfterLoads(NO_THRESHOLD, p, ls).open
  {
    assert Churn(NO_THRESHOLD, 0.0, 1, 1_000_000_000) == 0.3;
    OpenForever(NO_THRESHOLD, Respond(NO_THRESHOLD, Pressure(0.0, false, 0.0), Load(1, 1_000_000_000, seconds)), ls);
  }
}
