/** export/circuit_breaker.go: the circuit breaker, over supplied clock readings. */
module CircuitBreakers {

  datatype Config = Config(enabled: bool, failureThreshold: int, resetTimeout: int, halfOpenSuccessThreshold: int) {
    /** What config.go Validate demands of an enabled breaker. */
    predicate Valid() {
      enabled ==> failureThreshold > 0 && resetTimeout > 0 && halfOpenSuccessThreshold > 0
    }
  }

  /** export/config.go DefaultConfig: five failures open, 60 seconds, two successes close. */
  const DEFAULT_CONFIG: Config := Config(true, 5, 60_000_000_000, 2)

  datatype CircuitState = Closed | Open | HalfOpen

  datatype Breaker = Breaker(state: CircuitState, failures: int, successesInHalfOpen: int, openUntil: int)

  const INITIAL: Breaker := Breaker(Closed, 0, 0, 0)

  datatype Op = AllowRequest | RecordSuccess | RecordFailure | Reset

  function ToOpen(c: Config, b: Breaker, now: int): Breaker {
    if b.state.Open? then b else b.(state := Open, openUntil := now + c.resetTimeout)
  }

  function ToHalfOpen(b: Breaker): Breaker {
    if b.state.HalfOpen? then b else b.(state := HalfOpen, successesInHalfOpen := 0)
  }

  function ToClosed(b: Breaker): Breaker {
    if b.state.Closed? then b else b.(state := Closed, failures := 0, successesInHalfOpen := 0)
  }

  /** AllowRequest's answer. */
  predicate Admits(c: Config, b: Breaker, now: int) {
    !c.enabled || b.state.Closed? || (b.state.Open? && now > b.openUntil) ||
    (b.state.HalfOpen? && b.successesInHalfOpen == 0)
  }

  function Next(c: Config, b: Breaker, op: Op, now: int): Breaker {
    if op.Reset? then ToClosed(b)
    else if !c.enabled then b
    else
      match op
      case AllowRequest => if b.state.Open? && now > b.openUntil then ToHalfOpen(b) else b
      case RecordSuccess =>
        (match b.state
         case Closed => b.(failures := 0)
         case Open => b
         case HalfOpen =>
           var b' := b.(successesInHalfOpen := b.successesInHalfOpen + 1);
           if b'.successesInHalfOpen >= c.halfOpenSuccessThreshold then ToClosed(b') else b')
      case RecordFailure =>
        (match b.state
         case Closed =>
           var b' := b.(failures := b.failures + 1);
           if b'.failures >= c.failureThreshold then ToOpen(c, b', now) else b'
         case Open => b
         case HalfOpen => ToOpen(c, b, now))
  }

  /** The object: each method takes the step of the same name. */
  class CircuitBreaker {
    const config: Config
    var state: CircuitState
    var failures: int
    var successesInHalfOpen: int
    var openUntil: int

    function Value(): Breaker
      reads this
    {
      Breaker(state, failures, successesInHalfOpen, openUntil)
    }

    constructor (config: Config)
      ensures Value() == INITIAL && this.config == config
    {
      this.config := config;
      state, failures, successesInHalfOpen, openUntil := Closed, 0, 0, 0;
    }

    /** toOpen, toHalfOpen and toClosed. */
    method Become(target: CircuitState, now: int)
      modifies this
      ensures Value() == match target
                         case Open => ToOpen(config, old(Value()), now)
                         case HalfOpen => ToHalfOpen(old(Value()))
                         case Closed => ToClosed(old(Value()))
    {
      if state == target {
        return;
      }
      state := target;
      match target
      case Open => openUntil := now + config.resetTimeout;
      case HalfOpen => successesInHalfOpen := 0;
      case Closed => failures, successesInHalfOpen := 0, 0;
    }

    method AllowRequest(now: int) returns (allowed: bool)
      modifies this
      ensures allowed == Admits(config, old(Value()), now)
      ensures Value() == Next(config, old(Value()), Op.AllowRequest, now)
    {
      if !config.enabled {
        return true;
      }
      match state
      case Closed => return true;
      case Open =>
        if now > openUntil {
          Become(HalfOpen, now);
          return true;
        }
        return false;
      case HalfOpen => return successesInHalfOpen == 0;
    }

    method RecordSuccess(now: int)
      modifies this
      ensures Value() == Next(config, old(Value()), Op.RecordSuccess, now)
    {
      if !config.enabled {
        return;
      }
      match state
      case Closed => failures := 0;
      case Open =>
      case HalfOpen =>
        successesInHalfOpen := successesInHalfOpen + 1;
        if successesInHalfOpen >= config.halfOpenSuccessThreshold {
          Become(Closed, now);
        }
    }

    method RecordFailure(now: int)
      modifies this
      ensures Value() == Next(config, old(Value()), Op.RecordFailure, now)
    {
      if !config.enabled {
        return;
      }
      match state
      case Closed =>
        failures := failures + 1;
        if failures >= config.failureThreshold {
          Become(Open, now);
        }
      case Open =>
      case HalfOpen => Become(Open, now);
    }

    method Reset(now: int)
      modifies this
      ensures Value() == Next(config, old(Value()), Op.Reset, now)
    {
      Become(Closed, now);
    }
  }

  // ----- runs -----

  datatype Event = Event(op: Op, time: int)

  function After(c: Config, b: Breaker, es: seq<Event>): Breaker {
    if es == [] then b
    else
      var e := es[|es| - 1];
      Next(c, After(c, b, es[..|es| - 1]), e.op, e.time)
  }

  /** The run of failures at the end of a history, counted since the breaker last closed. Requests and resets of a
      closed breaker do not break it. */
  function Streak(c: Config, es: seq<Event>): nat {
    if es == [] then 0
    else
      var before := es[..|es| - 1];
      if !After(c, INITIAL, before).state.Closed? then 0
      else
        match es[|es| - 1].op
        case RecordSuccess => 0
        case RecordFailure => Streak(c, before) + 1
        case _ => Streak(c, before)
  }

  function Failures(es: seq<Event>): nat {
    if es == [] then 0 else Failures(es[..|es| - 1]) + if es[|es| - 1].op.RecordFailure? then 1 else 0
  }

  /** A streak may start here: at the start of the history, right behind a success, or right behind a step of a breaker
      that was not closed. */
  ghost predicate StreakStart(c: Config, es: seq<Event>, j: nat)
    requires j <= |es|
  {
    j == 0 || es[j - 1].op.RecordSuccess? || !After(c, INITIAL, es[..j - 1]).state.Closed?
  }

  /** From here on the breaker is closed and nothing succeeds. */
  ghost predicate Unbroken(c: Config, es: seq<Event>, j: nat) {
    forall i :: j <= i < |es| ==> After(c, INITIAL, es[..i]).state.Closed? && !es[i].op.RecordSuccess?
  }

  lemma StreakGoesOn(c: Config, es: seq<Event>, e: Event, j: nat)
    requires j <= |es| && StreakStart(c, es, j) && Unbroken(c, es, j)
    requires After(c, INITIAL, es).state.Closed? && !e.op.RecordSuccess?
    ensures StreakStart(c, es + [e], j) && Unbroken(c, es + [e], j)
    ensures Failures((es + [e])[j..]) == Failures(es[j..]) + if e.op.RecordFailure? then 1 else 0
  {
    hide After;
    var all := es + [e];
    assert all[j..][..|es| - j] == es[j..];
    forall i | 0 <= i <= |es| ensures all[..i] == es[..i] {
    }
    assert es[..|es|] == es;
  }

  lemma NothingBroken(c: Config, es: seq<Event>)
    ensures Unbroken(c, es, |es|)
  {}

  /** What the streak counts: the failures from its start on. */
  lemma {:induction false} StreakCounts(c: Config, es: seq<Event>) returns (j: nat)
    ensures j <= |es| && StreakStart(c, es, j) && Unbroken(c, es, j) && Streak(c, es) == Failures(es[j..])
  {
    hide After, Unbroken;
    var n := |es| - 1;
    if es == [] {
      j := 0;
      NothingBroken(c, es);
    } else if !After(c, INITIAL, es[..n]).state.Closed? || es[n].op.RecordSuccess? {
      j := |es|;
      NothingBroken(c, es);
    } else {
      j := StreakCounts(c, es[..n]);
      assert es == es[..n] + [es[n]];
      StreakGoesOn(c, es[..n], es[n], j);
    }
  }

  /** While closed, the counter is the current run of failures and below the threshold. */
  lemma {:induction false} ClosedCountsStreak(c: Config, es: seq<Event>)
    requires c.Valid() && c.enabled
    ensures var b := After(c, INITIAL, es);
            b.state.Closed? ==> b.failures == Streak(c, es) < c.failureThreshold
  {
    if es == [] {
    } else {
      ClosedCountsStreak(c, es[..|es| - 1]);
    }
  }

  /** A closed breaker opens exactly with the failure that makes the run reach the threshold. */
  lemma OpensAtThreshold(c: Config, es: seq<Event>, e: Event)
    requires c.Valid() && c.enabled && After(c, INITIAL, es).state.Closed?
    ensures var b := After(c, INITIAL, es + [e]);
            b.state.Open? <==> e.op.RecordFailure? && Streak(c, es + [e]) >= c.failureThreshold
  {
    assert (es + [e])[..|es|] == es;
    ClosedCountsStreak(c, es);
  }

  ghost predicate Monotone(es: seq<Event>, start: int) {
    && (forall i :: 0 <= i < |es| ==> start <= es[i].time)
    && (forall i, j :: 0 <= i < j < |es| ==> es[i].time <= es[j].time)
  }

  ghost predicate NoReset(es: seq<Event>) {
    forall i :: 0 <= i < |es| ==> !es[i].op.Reset?
  }

  /** Until the time-out has passed an open breaker stays as it is, whatever happens short of a Reset. */
  lemma {:induction false} StaysOpen(c: Config, b: Breaker, es: seq<Event>)
    requires c.enabled && b.state.Open? && NoReset(es)
    requires forall i :: 0 <= i < |es| ==> es[i].time <= b.openUntil
    ensures After(c, b, es) == b
  {
    if es == [] {
    } else {
      StaysOpen(c, b, es[..|es| - 1]);
    }
  }

  /** Whenever the breaker opens, no request is admitted until resetTimeout has passed since, unless it is reset. */
  lemma RejectsUntilTimeout(c: Config, b: Breaker, e: Event, es: seq<Event>, now: int)
    requires c.enabled && !b.state.Open? && Next(c, b, e.op, e.time).state.Open?
    requires Monotone(es, e.time) && NoReset(es) && (forall i :: 0 <= i < |es| ==> es[i].time <= now)
    requires Admits(c, After(c, Next(c, b, e.op, e.time), es), now)
    ensures now > e.time + c.resetTimeout
  {
    var b' := Next(c, b, e.op, e.time);
    if now <= b'.openUntil {
      StaysOpen(c, b', es);
    }
  }

  /** And from then on requests are admitted again: as long as nothing else happens after the time-out, exactly then. */
  lemma AdmitsAgainIff(c: Config, b: Breaker, e: Event, es: seq<Event>, now: int)
    requires c.enabled && !b.state.Open? && Next(c, b, e.op, e.time).state.Open? && NoReset(es)
    requires forall i :: 0 <= i < |es| ==> es[i].time <= e.time + c.resetTimeout
    ensures Admits(c, After(c, Next(c, b, e.op, e.time), es), now) <==> now > e.time + c.resetTimeout
  {
    StaysOpen(c, Next(c, b, e.op, e.time), es);
  }

  /** A disabled breaker admits every request and, short of a Reset, never changes. */
  lemma {:induction false} DisabledAdmits(c: Config, b: Breaker, es: seq<Event>, now: int)
    requires !c.enabled && NoReset(es)
    ensures After(c, b, es) == b && Admits(c, b, now)
  {
    if es == [] {
    } else {
      DisabledAdmits(c, b, es[..|es| - 1], now);
    }
  }

  /** After a Reset at any point of a run, requests are admitted, whatever the breaker was. */
  lemma ResetAdmits(c: Config, b: Breaker, es: seq<Event>, time: int, now: int)
    ensures var after := After(c, b, es + [Event(Reset, time)]); after.state.Closed? && Admits(c, after, now)
  {
    assert (es + [Event(Reset, time)])[..|es|] == es;
  }

  // ----- exporter.go Export: one request at a time -----

  /** One Export call: ask, and if admitted record how it went. */
  function Export(c: Config, b: Breaker, now: int, succeeds: bool): Breaker {
    var asked := Next(c, b, AllowRequest, now);
    if Admits(c, b, now) then Next(c, asked, if succeeds then RecordSuccess else RecordFailure, now) else asked
  }

  datatype Call = Call(time: int, succeeds: bool)

  function AfterExports(c: Config, b: Breaker, calls: seq<Call>): Breaker {
    if calls == [] then b
    else
      var call := calls[|calls| - 1];
      Export(c, AfterExports(c, b, calls[..|calls| - 1]), call.time, call.succeeds)
  }

  /** A half-open breaker with a success on record, but not enough, admits nothing. */
  ghost predicate Stuck(c: Config, b: Breaker) {
    c.enabled && b.state.HalfOpen? && 0 < b.successesInHalfOpen < c.halfOpenSuccessThreshold
  }

  /** A stuck breaker stays stuck: every later Export is rejected, at any time and whatever it would have done. */
  lemma {:induction false} StuckForever(c: Config, b: Breaker, calls: seq<Call>, now: int)
    requires Stuck(c, b)
    ensures AfterExports(c, b, calls) == b && !Admits(c, b, now)
  {
    if calls == [] {
    } else {
      StuckForever(c, b, calls[..|calls| - 1], now);
    }
  }

  /** Recovery: after the time-out, a successful Export closes an open breaker if and only if one success is enough.
      Otherwise it leaves the breaker stuck. */
  lemma RecoversIff(c: Config, b: Breaker, now: int)
    requires c.enabled && b.state.Open? && now > b.openUntil
    ensures Export(c, b, now, true).state.Closed? <==> c.halfOpenSuccessThreshold <= 1
    ensures c.halfOpenSuccessThreshold > 1 ==> Stuck(c, Export(c, b, now, true))
  {}

  /** With a threshold above 1, an open breaker never closes again, over every sequence of Exports at any times and with
      any outcomes: it is open or stuck. */
  lemma {:induction false} NeverClosesAgain(c: Config, b: Breaker, calls: seq<Call>)
    requires c.enabled && c.halfOpenSuccessThreshold > 1 && b.state.Open?
    ensures var b' := AfterExports(c, b, calls); b'.state.Open? || Stuck(c, b')
  {
    if calls == [] {
    } else {
      NeverClosesAgain(c, b, calls[..|calls| - 1]);
    }
  }

  lemma OneExport(c: Config, b: Breaker, call: Call)
    ensures AfterExports(c, b, [call]) == Export(c, b, call.time, call.succeeds)
  {
    assert [call][..0] == [];
  }

  /** So an open breaker can close again at all, if Exports do not overlap, if and only if one success is enough. */
  lemma ClosesAgainIff(c: Config, b: Breaker)
    requires c.enabled && b.state.Open?
    ensures (exists calls :: AfterExports(c, b, calls).state.Closed?) <==> c.halfOpenSuccessThreshold <= 1
  {
    hide AfterExports, Export;
    if c.halfOpenSuccessThreshold <= 1 {
      OneExport(c, b, Call(b.openUntil + 1, true));
      RecoversIff(c, b, b.openUntil + 1);
    } else {
      forall calls ensures !AfterExports(c, b, calls).state.Closed? {
        NeverClosesAgain(c, b, calls);
      }
    }
  }

  /** With the default configuration an Export breaker that has opened once and then succeeds never admits a request
      again. */
  lemma DefaultNeverRecovers(b: Breaker, now: int, calls: seq<Call>, later: int)
    requires b.state.Open? && now > b.openUntil
    ensures var stuck := Export(DEFAULT_CONFIG, b, now, true);
            AfterExports(DEFAULT_CONFIG, stuck, calls) == stuck && !Admits(DEFAULT_CONFIG, stuck, later)
  {
    RecoversIff(DEFAULT_CONFIG, b, now);
    StuckForever(DEFAULT_CONFIG, Export(DEFAULT_CONFIG, b, now, true), calls, later);
  }

  // ----- exporter.go Export: requests that overlap -----

  /** A breaker with the requests it has admitted and not yet heard of. */
  datatype Exporter = Exporter(b: Breaker, inFlight: nat)

  /** One half of an Export call: asking the breaker, or recording how an admitted request went. */
  datatype Half = Ask(time: int) | Finish(time: int, succeeds: bool)

  function Advance(c: Config, e: Exporter, h: Half): Exporter {
    match h
    case Ask(now) =>
      Exporter(Next(c, e.b, AllowRequest, now), if Admits(c, e.b, now) then e.inFlight + 1 else e.inFlight)
    case Finish(now, succeeds) =>
      if e.inFlight == 0 then e
      else Exporter(Next(c, e.b, if succeeds then RecordSuccess else RecordFailure, now), e.inFlight - 1)
  }

  function Interleaved(c: Config, e: Exporter, hs: seq<Half>): Exporter {
    if hs == [] then e else Advance(c, Interleaved(c, e, hs[..|hs| - 1]), hs[|hs| - 1])
  }

  /** Half-open with a success on record, and too few requests in flight to reach the threshold. */
  ghost predicate Starved(c: Config, e: Exporter) {
    && c.enabled && e.b.state.HalfOpen?
    && 0 < e.b.successesInHalfOpen && e.b.successesInHalfOpen + e.inFlight < c.halfOpenSuccessThreshold
  }

  ghost predicate NoneFails(hs: seq<Half>) {
    forall i :: 0 <= i < |hs| ==> hs[i].Finish? ==> hs[i].succeeds
  }

  /** Success alone never ends starvation: over every interleaving of asking and succeeding the breaker stays half-open
      and admits nothing more. */
  lemma {:induction false} StarvedForever(c: Config, e: Exporter, hs: seq<Half>, now: int)
    requires Starved(c, e) && NoneFails(hs)
    ensures var e' := Interleaved(c, e, hs);
            Starved(c, e') && e'.inFlight <= e.inFlight && !Admits(c, e'.b, now)
  {
    if hs == [] {
    } else {
      StarvedForever(c, e, hs[..|hs| - 1], now);
    }
  }

  /** `n` admitted requests succeed one after the other. */
  function Succeed(n: nat, now: int): seq<Half> {
    seq(n, _ => Finish(now, true))
  }

  /** When the requests in flight all succeed, a half-open breaker closes if and only if it is not starved of them. */
  lemma {:induction false} ClosesIffEnoughInFlight(c: Config, e: Exporter, n: nat, now: int)
    requires c.enabled && e.b.state.HalfOpen? && 0 <= e.b.successesInHalfOpen < c.halfOpenSuccessThreshold
    requires n <= e.inFlight
    ensures var e' := Interleaved(c, e, Succeed(n, now));
            && e'.inFlight == e.inFlight - n
            && (e'.b.state.Closed? <==> e.b.successesInHalfOpen + n >= c.halfOpenSuccessThreshold)
            && (e'.b.state.HalfOpen? <==> !e'.b.state.Closed?)
            && (e'.b.state.HalfOpen? ==> e'.b.successesInHalfOpen == e.b.successesInHalfOpen + n)
  {
    if n == 0 {
    } else {
      ClosesIffEnoughInFlight(c, e, n - 1, now);
      assert Succeed(n, now)[..n - 1] == Succeed(n - 1, now);
    }
  }
}
