/** collector/process_scanner.go and process_info.go: the scan differ as an event source. */
module ProcessScanner {
  import opened Options
  import opened Ranging

  datatype ProcessInfo = ProcessInfo(
    pid: int, ppid: int, name: string, executable: string, command: string, user: string, cpu: real, rss: int, vms: int,
    fds: int, threads: int, startTime: int, state: string, lastUpdated: int, ioReadBytes: int, ioWriteBytes: int,
    labels: map<string, string>)

  /** Equal up to the time of the last update. */
  ghost predicate Same(p: ProcessInfo, q: ProcessInfo) {
    p == q.(lastUpdated := p.lastUpdated)
  }

  /** Nothing else may differ. */
  lemma SameMeans(p: ProcessInfo, q: ProcessInfo, time: int)
    ensures Same(p, p.(lastUpdated := time))
    ensures Same(p, q) && p.lastUpdated == q.lastUpdated ==> p == q
    ensures Same(p, q) ==> q == p.(lastUpdated := q.lastUpdated)
  {}

  lemma {:induction false} SubsetSize<T>(a: set<T>, b: set<T>)
    requires a <= b
    ensures |a| <= |b|
    decreases |a|
  {
    if x :| x in a {
      SubsetSize(a - {x}, b - {x});
    }
  }

  lemma {:induction false} SubsetOfSameSize<T>(a: set<T>, b: set<T>)
    requires a <= b && |a| == |b|
    ensures a == b
    decreases |b|
  {
    if x :| x in b {
      if x in a {
        SubsetOfSameSize(a - {x}, b - {x});
        assert a == a - {x} + {x} && b == b - {x} + {x};
      } else {
        assert a <= b - {x};
        SubsetSize(a, b - {x});
      }
    }
  }

  method SameLabels(a: map<string, string>, b: map<string, string>) returns (r: bool)
    ensures r <==> a == b
  {
    if |a| != |b| {
      return false;
    }
    var todo := a.Keys;
    while todo != {}
      invariant todo <= a.Keys
      invariant forall k <- a :: k in todo || (k in b && b[k] == a[k])
    {
      var k := Pick(todo);
      todo := todo - {k};
      if k !in b || a[k] != b[k] {
        return false;
      }
    }
    SubsetOfSameSize(a.Keys, b.Keys);
    r := true;
  }

  /** Field by field, then the labels entry by entry. */
  method EqualFields(p: ProcessInfo, q: ProcessInfo) returns (r: bool)
    ensures r <==> Same(p, q)
  {
    if p.pid != q.pid || p.ppid != q.ppid || p.name != q.name || p.executable != q.executable ||
       p.command != q.command || p.user != q.user || p.cpu != q.cpu || p.rss != q.rss || p.vms != q.vms ||
       p.fds != q.fds || p.threads != q.threads || p.state != q.state || p.ioReadBytes != q.ioReadBytes ||
       p.ioWriteBytes != q.ioWriteBytes || p.startTime != q.startTime {
      return false;
    }
    r := SameLabels(p.labels, q.labels);
  }

  /** Equal of two pointers: both nil, or both set and the same up to the time of the last update. */
  method Equal(a: Option<ProcessInfo>, b: Option<ProcessInfo>) returns (r: bool)
    ensures r <==> a == b || (a.Some? && b.Some? && Same(a.value, b.value))
  {
    if a.None? && b.None? {
      return true;
    }
    if a.None? || b.None? {
      return false;
    }
    r := EqualFields(a.value, b.value);
  }

  // ----- caches and events -----

  type Cache = map<int, ProcessInfo>

  datatype ProcessEvent =
    | Created(process: ProcessInfo)
    | Updated(process: ProcessInfo)
    | Terminated(process: ProcessInfo)

  /** Every process is filed under its PID. */
  ghost predicate Keyed(m: Cache) {
    forall pid <- m :: m[pid].pid == pid
  }

  /** What a consumer does with an event. */
  function Apply(m: Cache, e: ProcessEvent): Cache {
    match e
    case Created(p) => m[p.pid := p]
    case Updated(p) => m[p.pid := p]
    case Terminated(p) => m - {p.pid}
  }

  /** An event that makes sense to a consumer: created for an unknown PID, updated for a known one with a change to
      report, terminated with the last known process. */
  ghost predicate Sensible(m: Cache, e: ProcessEvent) {
    match e
    case Created(p) => p.pid !in m
    case Updated(p) => p.pid in m && !Same(m[p.pid], p)
    case Terminated(p) => p.pid in m && m[p.pid] == p
  }

  ghost function Replay(m: Cache, es: seq<ProcessEvent>): Cache {
    if es == [] then m else Apply(Replay(m, es[..|es| - 1]), es[|es| - 1])
  }

  ghost predicate AllSensible(m: Cache, es: seq<ProcessEvent>) {
    es != [] ==>
      AllSensible(m, es[..|es| - 1]) && Sensible(Replay(m, es[..|es| - 1]), es[|es| - 1])
  }

  lemma ReplaySnoc(m: Cache, es: seq<ProcessEvent>, e: ProcessEvent)
    ensures Replay(m, es + [e]) == Apply(Replay(m, es), e)
    ensures AllSensible(m, es + [e]) <==> AllSensible(m, es) && Sensible(Replay(m, es), e)
  {
    assert (es + [e])[..|es|] == es;
  }

  lemma {:induction false} ReplayConcat(m: Cache, es: seq<ProcessEvent>, fs: seq<ProcessEvent>)
    requires AllSensible(m, es) && AllSensible(Replay(m, es), fs)
    ensures Replay(m, es + fs) == Replay(Replay(m, es), fs) && AllSensible(m, es + fs)
  {
    if fs == [] {
      assert es + fs == es;
    } else {
      var n := |fs| - 1;
      ReplayConcat(m, es, fs[..n]);
      ReplaySnoc(m, es + fs[..n], fs[n]);
      assert es + fs == es + fs[..n] + [fs[n]];
    }
  }

  datatype Kind = Creation | Change | Termination

  function KindOf(e: ProcessEvent): Kind {
    match e
    case Created(_) => Creation
    case Updated(_) => Change
    case Terminated(_) => Termination
  }

  /** How many events of a kind there are. */
  function Num(es: seq<ProcessEvent>, k: Kind): nat {
    if es == [] then 0 else Num(es[..|es| - 1], k) + (if KindOf(es[|es| - 1]) == k then 1 else 0)
  }

  lemma NumSnoc(es: seq<ProcessEvent>, e: ProcessEvent, k: Kind)
    ensures Num(es + [e], k) == Num(es, k) + (if KindOf(e) == k then 1 else 0)
  {
    assert (es + [e])[..|es|] == es;
  }

  lemma {:induction false} NumConcat(es: seq<ProcessEvent>, fs: seq<ProcessEvent>, k: Kind)
    ensures Num(es + fs, k) == Num(es, k) + Num(fs, k)
  {
    if fs == [] {
      assert es + fs == es;
    } else {
      var n := |fs| - 1;
      NumConcat(es, fs[..n], k);
      NumSnoc(es + fs[..n], fs[n], k);
      assert es + fs == es + fs[..n] + [fs[n]];
    }
  }

  lemma ApplySize(m: Cache, e: ProcessEvent)
    requires Sensible(m, e)
    ensures |Apply(m, e)| == |m| + (if e.Created? then 1 else 0) - (if e.Terminated? then 1 else 0)
  {
    if e.Terminated? {
      assert m == (m - {e.process.pid})[e.process.pid := e.process];
    }
  }

  /** The size of the cache changes by creations less terminations. */
  lemma {:induction false} ReplaySize(m: Cache, es: seq<ProcessEvent>)
    requires AllSensible(m, es)
    ensures |Replay(m, es)| == |m| + Num(es, Creation) - Num(es, Termination)
  {
    if es == [] {
    } else {
      var n := |es| - 1;
      ReplaySize(m, es[..n]);
      ApplySize(Replay(m, es[..n]), es[n]);
    }
  }

  /** No two events are about the same PID. */
  ghost predicate OnePerPid(es: seq<ProcessEvent>) {
    forall i, j :: 0 <= i < j < |es| ==> es[i].process.pid != es[j].process.pid
  }

  ghost predicate About(es: seq<ProcessEvent>, pids: set<int>) {
    forall i :: 0 <= i < |es| ==> es[i].process.pid in pids
  }

  lemma {:induction false} ReplayElsewhere(m: Cache, es: seq<ProcessEvent>, pid: int)
    requires forall i :: 0 <= i < |es| ==> es[i].process.pid != pid
    ensures (pid in Replay(m, es) <==> pid in m) && (pid in m ==> Replay(m, es)[pid] == m[pid])
  {
    if es == [] {
    } else {
      ReplayElsewhere(m, es[..|es| - 1], pid);
    }
  }

  /** What sensible events with one per PID say of a PID: created if it is new, updated if its process has changed,
      terminated if it is gone. */
  lemma {:induction false} EventTells(m: Cache, es: seq<ProcessEvent>, i: nat)
    requires AllSensible(m, es) && OnePerPid(es) && i < |es|
    ensures var e, after := es[i], Replay(m, es);
            match e
            case Created(p) => p.pid !in m && p.pid in after && after[p.pid] == p
            case Updated(p) => p.pid in m && p.pid in after && after[p.pid] == p && !Same(m[p.pid], p)
            case Terminated(p) => p.pid in m && m[p.pid] == p && p.pid !in after
  {
    hide Same;
    var n := |es| - 1;
    if i == n {
      ReplayElsewhere(m, es[..n], es[n].process.pid);
    } else {
      EventTells(m, es[..n], i);
      assert es[i].process.pid != es[n].process.pid;
    }
  }

  /** Exactly the differences between two caches are reported, each once. */
  ghost predicate Reports(before: Cache, es: seq<ProcessEvent>, after: Cache) {
    && OnePerPid(es)
    && (forall p :: Created(p) in es <==> p.pid !in before && p.pid in after && after[p.pid] == p)
    && (forall p :: Updated(p) in es <==> p.pid in before && p.pid in after && after[p.pid] == p && before[p.pid] != p)
    && (forall p :: Terminated(p) in es <==> p.pid in before && before[p.pid] == p && p.pid !in after)
  }

  lemma SomethingTold(before: Cache, es: seq<ProcessEvent>, after: Cache, pid: int) returns (i: nat)
    requires AllSensible(before, es) && Replay(before, es) == after
    requires (pid in before) != (pid in after) || (pid in before && before[pid] != after[pid])
    ensures i < |es| && es[i].process.pid == pid
  {
    hide AllSensible, Replay;
    if forall i :: 0 <= i < |es| ==> es[i].process.pid != pid {
      ReplayElsewhere(before, es, pid);
      assert false;
    }
    i :| i < |es| && es[i].process.pid == pid;
  }

  lemma ReportsAll(before: Cache, es: seq<ProcessEvent>, after: Cache)
    requires AllSensible(before, es) && Replay(before, es) == after && OnePerPid(es)
    ensures Reports(before, es, after)
  {
    hide AllSensible, Replay;
    forall i | 0 <= i < |es|
      ensures match es[i]
              case Created(p) => p.pid !in before && p.pid in after && after[p.pid] == p
              case Updated(p) => p.pid in before && p.pid in after && after[p.pid] == p && before[p.pid] != p
              case Terminated(p) => p.pid in before && before[p.pid] == p && p.pid !in after
    {
      EventTells(before, es, i);
    }
    forall p: ProcessInfo | p.pid !in before && p.pid in after && after[p.pid] == p ensures Created(p) in es {
      var i := SomethingTold(before, es, after, p.pid);
      assert es[i] == Created(p);
    }
    forall p: ProcessInfo | p.pid in before && p.pid in after && after[p.pid] == p && before[p.pid] != p
      ensures Updated(p) in es
    {
      var i := SomethingTold(before, es, after, p.pid);
      assert es[i] == Updated(p);
    }
    forall p: ProcessInfo | p.pid in before && before[p.pid] == p && p.pid !in after ensures Terminated(p) in es {
      var i := SomethingTold(before, es, after, p.pid);
      assert es[i] == Terminated(p);
    }
  }

  /** The events so far lead from the cache `m` to `now`: sensible, one for each PID, about `pids` only, so many of each
      kind. */
  ghost predicate Told(m: Cache, es: seq<ProcessEvent>, now: Cache, pids: set<int>, created: nat, updated: nat,
                       terminated: nat)
  {
    && AllSensible(m, es) && Replay(m, es) == now && OnePerPid(es) && About(es, pids)
    && created == Num(es, Creation) && updated == Num(es, Change) && terminated == Num(es, Termination)
  }

  lemma ToldNothing(m: Cache)
    ensures Told(m, [], m, {}, 0, 0, 0)
  {}

  /** One more event, about a PID that was not told of. */
  lemma ToldOne(m: Cache, es: seq<ProcessEvent>, now: Cache, pids: set<int>, created: nat, updated: nat,
                terminated: nat, e: ProcessEvent)
    requires Told(m, es, now, pids, created, updated, terminated) && Sensible(now, e) && e.process.pid !in pids
    ensures Told(m, es + [e], Apply(now, e), pids + {e.process.pid}, created + (if e.Created? then 1 else 0),
                 updated + (if e.Updated? then 1 else 0), terminated + (if e.Terminated? then 1 else 0))
  {
    hide Num, Replay, AllSensible, Sensible, Apply;
    ReplaySnoc(m, es, e);
    NumSnoc(es, e, Creation);
    NumSnoc(es, e, Change);
    NumSnoc(es, e, Termination);
  }

  lemma ToldMore(m: Cache, es: seq<ProcessEvent>, now: Cache, pids: set<int>, created: nat, updated: nat,
                 terminated: nat, more: set<int>)
    requires Told(m, es, now, pids, created, updated, terminated) && pids <= more
    ensures Told(m, es, now, more, created, updated, terminated)
  {}

  lemma OnePerPidConcat(es: seq<ProcessEvent>, pids: set<int>, fs: seq<ProcessEvent>, others: set<int>)
    requires OnePerPid(es) && About(es, pids) && OnePerPid(fs) && About(fs, others) && pids !! others
    ensures OnePerPid(es + fs)
  {}

  /** What both loops tell, together. */
  lemma ToldBoth(m: Cache, gone: seq<ProcessEvent>, middle: Cache, pids: set<int>, terminated: nat,
                 news: seq<ProcessEvent>, now: Cache, created: nat, updated: nat)
    requires Told(m, gone, middle, m.Keys - pids, 0, 0, terminated)
    requires Told(middle, news, now, pids, created, updated, 0)
    ensures var es := gone + news;
            && AllSensible(m, es) && Replay(m, es) == now && Reports(m, es, now) && |now| == |m| + created - terminated
            && created == Num(es, Creation) && updated == Num(es, Change) && terminated == Num(es, Termination)
  {
    hide Num, Replay, AllSensible, Reports;
    ReplayConcat(m, gone, news);
    NumConcat(gone, news, Creation);
    NumConcat(gone, news, Change);
    NumConcat(gone, news, Termination);
    OnePerPidConcat(gone, m.Keys - pids, news, pids);
    ReplaySize(m, gone + news);
    ReportsAll(m, gone + news, now);
  }

  /** A scan by PID; a repeated PID counts with its last entry. */
  function Latest(ps: seq<ProcessInfo>): Cache {
    if ps == [] then map[] else Latest(ps[..|ps| - 1])[ps[|ps| - 1].pid := ps[|ps| - 1]]
  }

  /** No later entry of the scan has the same PID. */
  ghost predicate LastOf(ps: seq<ProcessInfo>, i: int) {
    0 <= i < |ps| && forall j :: i < j < |ps| ==> ps[j].pid != ps[i].pid
  }

  /** Every process of a scan is filed, unless its PID comes again. */
  lemma {:induction false} LatestHas(ps: seq<ProcessInfo>, i: int)
    requires LastOf(ps, i)
    ensures ps[i].pid in Latest(ps) && Latest(ps)[ps[i].pid] == ps[i]
  {
    var n := |ps| - 1;
    if i == n {
    } else {
      assert LastOf(ps[..n], i);
      LatestHas(ps[..n], i);
      assert ps[n].pid != ps[i].pid;
    }
  }

  /** And nothing else is. */
  lemma {:induction false} LatestFrom(ps: seq<ProcessInfo>, pid: int) returns (i: int)
    requires pid in Latest(ps)
    ensures LastOf(ps, i) && ps[i].pid == pid && Latest(ps)[pid] == ps[i]
  {
    var n := |ps| - 1;
    if ps[n].pid == pid {
      i := n;
    } else {
      i := LatestFrom(ps[..n], pid);
      assert forall j :: i < j < n ==> ps[..n][j] == ps[j];
    }
  }

  /** A cache that has exactly the processes of a scan, up to the time of the last update; of a repeated PID the
      last. */
  ghost predicate Mirrors(m: Cache, ps: seq<ProcessInfo>) {
    && (forall i :: LastOf(ps, i) ==> ps[i].pid in m && Same(m[ps[i].pid], ps[i]))
    && (forall pid <- m :: exists i :: LastOf(ps, i) && ps[i].pid == pid)
  }

  /** The entry of a scanned PID after a scan. */
  ghost function Entry(m: Cache, latest: Cache, pid: int): ProcessInfo
    requires pid in latest
  {
    if pid in m && Same(m[pid], latest[pid]) then m[pid] else latest[pid]
  }

  /** The cache after a scan: the scanned PIDs, each with its old entry if that is the same up to the update time. */
  ghost function Refreshed(m: Cache, latest: Cache): Cache {
    map pid | pid in latest :: Entry(m, latest, pid)
  }

  /** One scan: the events tell exactly how the cache changed. */
  ghost predicate Scans(before: Cache, ps: seq<ProcessInfo>, es: seq<ProcessEvent>, after: Cache) {
    && after == Refreshed(before, Latest(ps))
    && AllSensible(before, es) && Replay(before, es) == after
  }

  lemma LastInside(ps: seq<ProcessInfo>, i: int)
    requires LastOf(ps, i)
    ensures 0 <= i < |ps|
  {}

  /** After a scan the cache has the processes of the scan. */
  lemma ScanMirrors(before: Cache, ps: seq<ProcessInfo>, es: seq<ProcessEvent>, after: Cache)
    requires Scans(before, ps, es, after)
    ensures Mirrors(after, ps)
  {
    hide Latest, Replay, AllSensible, LastOf;
    forall i | LastOf(ps, i) ensures 0 <= i < |ps| && ps[i].pid in after && Same(after[ps[i].pid], ps[i]) {
      LastInside(ps, i);
      LatestHas(ps, i);
    }
    forall pid <- after ensures exists i :: LastOf(ps, i) && 0 <= i < |ps| && ps[i].pid == pid {
      var i := LatestFrom(ps, pid);
      LastInside(ps, i);
    }
  }

  method ByPid(ps: seq<ProcessInfo>) returns (m: Cache)
    ensures m == Latest(ps) && Keyed(m)
  {
    m := map[];
    for i := 0 to |ps|
      invariant m == Latest(ps[..i]) && Keyed(m)
    {
      assert ps[..i + 1][..i] == ps[..i];
      m := m[ps[i].pid := ps[i]];
    }
    assert ps[..|ps|] == ps;
  }

  function Restricted(m: Cache, pids: set<int>): Cache {
    m - (m.Keys - pids)
  }

  /** The cache in the first loop: PIDs still to do, and those of the scan. */
  function Remaining(m: Cache, pids: set<int>, todo: set<int>): Cache {
    m - (m.Keys - pids - todo)
  }

  lemma RemovalStarts(m: Cache, pids: set<int>)
    ensures Remaining(m, pids, m.Keys) == m
  {
    assert m.Keys - pids - m.Keys == {};
  }

  lemma RemovalEnds(m: Cache, pids: set<int>)
    ensures Remaining(m, pids, {}) == Restricted(m, pids) && Restricted(m, pids).Keys <= pids
  {
    assert m.Keys - pids - {} == m.Keys - pids;
  }

  /** One round of the first loop. */
  lemma RemoveOne(m: Cache, pids: set<int>, todo: set<int>, pid: int)
    requires pid in todo && todo <= m.Keys
    ensures var now, then' := Remaining(m, pids, todo), Remaining(m, pids, todo - {pid});
            pid in now && now[pid] == m[pid] && then' == if pid in pids then now else now - {pid}
  {
    if pid in pids {
      assert m.Keys - pids - (todo - {pid}) == m.Keys - pids - todo;
    } else {
      assert m.Keys - pids - (todo - {pid}) == (m.Keys - pids - todo) + {pid};
    }
  }

  /** The cache in the second loop: entries in `done` are refreshed, the others as before. */
  ghost function HalfRefreshed(m: Cache, latest: Cache, done: set<int>): Cache
    requires done <= latest.Keys
  {
    map pid | pid in m.Keys + done :: if pid in done then Entry(m, latest, pid) else m[pid]
  }

  lemma RefreshStarts(m: Cache, latest: Cache)
    ensures HalfRefreshed(m, latest, {}) == m
  {}

  lemma RefreshEnds(m: Cache, latest: Cache)
    requires m.Keys <= latest.Keys
    ensures HalfRefreshed(m, latest, latest.Keys) == Refreshed(m, latest)
  {}

  /** One round of the second loop. */
  lemma RefreshOne(m: Cache, latest: Cache, done: set<int>, pid: int)
    requires done <= latest.Keys && pid in latest && pid !in done
    ensures var now, then' := HalfRefreshed(m, latest, done), HalfRefreshed(m, latest, done + {pid});
            && (pid in now <==> pid in m) && (pid in m ==> now[pid] == m[pid])
            && then' == if pid in m && Same(m[pid], latest[pid]) then now else now[pid := latest[pid]]
  {}

  lemma NumNone()
    ensures forall k :: Num([], k) == 0
  {}

  lemma RefreshedRestricted(m: Cache, latest: Cache)
    ensures Refreshed(Restricted(m, latest.Keys), latest) == Refreshed(m, latest)
  {}

  class Scanner {
    var processCache: Cache
    /** The events handed to consumers, and how many were given up because the channel stayed full. */
    var channel: seq<ProcessEvent>
    var dropped: nat
    /** Every event so far, handed over or not. */
    ghost var emitted: seq<ProcessEvent>

    ghost predicate Valid()
      reads this
    {
      Keyed(processCache) && (dropped == 0 ==> channel == emitted)
    }

    constructor ()
      ensures Valid() && processCache == map[] && channel == [] && emitted == [] && dropped == 0
    {
      processCache, channel, dropped, emitted := map[], [], 0, [];
    }

    /** Waits for room in the channel for a limited time; whether there is any is up to the consumers. */
    method QueueEvent(e: ProcessEvent)
      requires dropped == 0 ==> channel == emitted
      modifies `channel, `dropped, `emitted
      ensures emitted == old(emitted) + [e] && (dropped == 0 ==> channel == emitted)
      ensures (channel == old(channel) + [e] && dropped == old(dropped)) ||
              (channel == old(channel) && dropped == old(dropped) + 1)
    {
      emitted := emitted + [e];
      if * {
        channel := channel + [e];
      } else {
        dropped := dropped + 1;
      }
    }

    /** The first loop: cached processes missing from the scan, in any order. */
    method RemoveMissing(latest: Cache) returns (terminated: nat, ghost es: seq<ProcessEvent>)
      requires Valid()
      modifies this
      ensures Valid() && emitted == old(emitted) + es
      ensures processCache == Restricted(old(processCache), latest.Keys) && processCache.Keys <= latest.Keys
      ensures Told(old(processCache), es, processCache, old(processCache).Keys - latest.Keys, 0, 0, terminated)
    {
      hide Remaining, Restricted, Same, Told;
      RemovalStarts(processCache, latest.Keys);
      ToldNothing(processCache);
      terminated, es := 0, [];
      ghost var before := processCache;
      var todo := processCache.Keys;
      assert before.Keys - latest.Keys - todo == {};
      while todo != {}
        invariant todo <= before.Keys && processCache == Remaining(before, latest.Keys, todo)
        invariant Valid() && emitted == old(emitted) + es
        invariant Told(before, es, processCache, before.Keys - latest.Keys - todo, 0, 0, terminated)
      {
        var pid := Pick(todo);
        RemoveOne(before, latest.Keys, todo, pid);
        ghost var done := before.Keys - latest.Keys - todo;
        todo := todo - {pid};
        if pid !in latest {
          var e := Terminated(processCache[pid]);
          ToldOne(before, es, processCache, done, 0, 0, terminated, e);
          assert before.Keys - latest.Keys - todo == done + {pid};
          terminated := terminated + 1;
          processCache := processCache - {pid};
          QueueEvent(e);
          es := es + [e];
        } else {
          assert before.Keys - latest.Keys - todo == done;
        }
      }
      RemovalEnds(before, latest.Keys);
      assert before.Keys - latest.Keys - todo == before.Keys - latest.Keys;
    }

    /** The second loop: scanned processes that are new or changed, in any order. */
    method AddNew(latest: Cache) returns (created: nat, updated: nat, ghost es: seq<ProcessEvent>)
      requires Valid() && Keyed(latest) && processCache.Keys <= latest.Keys
      modifies this
      ensures Valid() && emitted == old(emitted) + es
      ensures processCache == Refreshed(old(processCache), latest)
      ensures Told(old(processCache), es, processCache, latest.Keys, created, updated, 0)
    {
      hide Refreshed, HalfRefreshed, Same, Told;
      created, updated, es := 0, 0, [];
      RefreshStarts(processCache, latest);
      ToldNothing(processCache);
      ghost var before := processCache;
      var todo := latest.Keys;
      assert latest.Keys - todo == {};
      while todo != {}
        invariant todo <= latest.Keys
        invariant processCache == HalfRefreshed(before, latest, latest.Keys - todo)
        invariant Valid() && emitted == old(emitted) + es
        invariant Told(before, es, processCache, latest.Keys - todo, created, updated, 0)
      {
        var pid := Pick(todo);
        ghost var done := latest.Keys - todo;
        RefreshOne(before, latest, done, pid);
        todo := todo - {pid};
        assert latest.Keys - todo == done + {pid};
        ToldMore(before, es, processCache, done, created, updated, 0, done + {pid});
        var e;
        var changed := false;
        if pid !in processCache {
          e, changed := Created(latest[pid]), true;
        } else {
          e := Updated(latest[pid]);
          var same := Equal(Some(processCache[pid]), Some(latest[pid]));
          changed := !same;
        }
        if changed {
          ToldOne(before, es, processCache, done, created, updated, 0, e);
          if e.Created? {
            created := created + 1;
          } else {
            updated := updated + 1;
          }
          processCache := processCache[pid := latest[pid]];
          QueueEvent(e);
          es := es + [e];
        }
      }
      assert latest.Keys - todo == latest.Keys;
      RefreshEnds(before, latest);
    }

    /** Compares a scan with the cache, brings the cache up to date, and reports every difference as an event. */
    method ProcessNewScan(scan: seq<ProcessInfo>)
      returns (count: nat, created: nat, updated: nat, terminated: nat, ghost events: seq<ProcessEvent>)
      requires Valid()
      modifies this
      ensures Valid() && emitted == old(emitted) + events
      ensures Scans(old(processCache), scan, events, processCache)
      ensures Reports(old(processCache), events, processCache) && Mirrors(processCache, scan)
      ensures count == |processCache| == |old(processCache)| + created - terminated
      ensures created == Num(events, Creation) && updated == Num(events, Change)
      ensures terminated == Num(events, Termination)
    {
      hide Refreshed, Same, Num, Replay, AllSensible, Restricted, Keyed, Latest, Told, Reports, Mirrors;
      ghost var before := processCache;
      var latest := ByPid(scan);
      ghost var gone, news;
      terminated, gone := RemoveMissing(latest);
      ghost var middle := processCache;
      created, updated, news := AddNew(latest);
      events := gone + news;
      count := |processCache|;
      ToldBoth(before, gone, middle, latest.Keys, terminated, news, processCache, created, updated);
      RefreshedRestricted(before, latest);
      ScanMirrors(before, scan, events, processCache);
    }
  }

  /** A sequence of scans from the empty cache, each with its events. */
  ghost predicate ScansAll(scans: seq<seq<ProcessInfo>>, events: seq<seq<ProcessEvent>>, caches: seq<Cache>) {
    && |events| == |scans| && |caches| == |scans| + 1 && caches[0] == map[]
    && forall i :: 0 <= i < |scans| ==> Scans(caches[i], scans[i], events[i], caches[i + 1])
  }

  ghost function AllEvents(events: seq<seq<ProcessEvent>>): seq<ProcessEvent> {
    if events == [] then [] else AllEvents(events[..|events| - 1]) + events[|events| - 1]
  }

  /** For every sequence of scans, a consumer that replays all events from nothing rebuilds the cache exactly. */
  lemma {:induction false} ReplayRebuildsCache(scans: seq<seq<ProcessInfo>>, events: seq<seq<ProcessEvent>>,
                                               caches: seq<Cache>)
    requires ScansAll(scans, events, caches)
    ensures AllSensible(map[], AllEvents(events)) && Replay(map[], AllEvents(events)) == caches[|scans|]
  {
    hide Refreshed, Latest, Sensible;
    if scans == [] {
    } else {
      var n := |scans| - 1;
      ReplayRebuildsCache(scans[..n], events[..n], caches[..n + 1]);
      assert Scans(caches[n], scans[n], events[n], caches[n + 1]);
      ReplayConcat(map[], AllEvents(events[..n]), events[n]);
    }
  }

  /** After any sequence of scans the cache has exactly the processes of the last one, up to the time of the last
      update. */
  lemma CacheMatchesLastScan(scans: seq<seq<ProcessInfo>>, events: seq<seq<ProcessEvent>>, caches: seq<Cache>)
    requires ScansAll(scans, events, caches) && scans != []
    ensures Mirrors(caches[|scans|], scans[|scans| - 1])
  {
    hide Scans, Mirrors;
    var n := |scans| - 1;
    assert Scans(caches[n], scans[n], events[n], caches[n + 1]);
    ScanMirrors(caches[n], scans[n], events[n], caches[n + 1]);
  }

  lemma ScansSnoc(scans: seq<seq<ProcessInfo>>, i: nat, events: seq<seq<ProcessEvent>>, caches: seq<Cache>,
                  es: seq<ProcessEvent>, after: Cache)
    requires i < |scans| && ScansAll(scans[..i], events, caches) && Scans(caches[i], scans[i], es, after)
    ensures ScansAll(scans[..i + 1], events + [es], caches + [after])
    ensures AllEvents(events + [es]) == AllEvents(events) + es
  {
    hide Scans;
    assert (events + [es])[..i] == events;
  }

  /** A new scanner over any sequence of scans: if no event was dropped, what the consumers got replays to its cache;
      and the cache has the processes of the last scan. */
  method ScanAll(s: Scanner, scans: seq<seq<ProcessInfo>>)
    returns (ghost events: seq<seq<ProcessEvent>>, ghost caches: seq<Cache>)
    requires s.Valid() && s.processCache == map[] && s.emitted == []
    modifies s
    ensures s.Valid() && ScansAll(scans, events, caches)
    ensures s.processCache == caches[|scans|] && s.emitted == AllEvents(events)
    ensures s.dropped == 0 ==> AllSensible(map[], s.channel) && Replay(map[], s.channel) == s.processCache
    ensures scans != [] ==> Mirrors(s.processCache, scans[|scans| - 1])
  {
    hide Scans, Mirrors, Replay, AllSensible, Keyed, Num;
    events, caches := [], [map[]];
    for i := 0 to |scans|
      invariant s.Valid() && ScansAll(scans[..i], events, caches)
      invariant s.processCache == caches[i] && s.emitted == AllEvents(events)
    {
      var count, created, updated, terminated;
      ghost var es;
      count, created, updated, terminated, es := s.ProcessNewScan(scans[i]);
      ScansSnoc(scans, i, events, caches, es, s.processCache);
      events, caches := events + [es], caches + [s.processCache];
    }
    assert scans[..|scans|] == scans;
    ReplayRebuildsCache(scans, events, caches);
    if scans != [] {
      CacheMatchesLastScan(scans, events, caches);
    }
  }
}
