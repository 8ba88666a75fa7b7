/** internal/agent/event_sender.go: the two-queue event pipeline as a state machine. Every step is one atomic action of
    a caller, of the accumulator goroutine or of the sender goroutine; a run is any interleaving. */
module EventPipeline {

  const MAX_EVENT_BATCH_COUNT: nat := 500

  /** One event: its entity, its marshalled data, and the entity id the accumulator may stamp on it (0 for none). */
  datatype Event = Event(entityKey: string, agentKey: string, data: string, entityId: int)

  type Batch = seq<Event>

  datatype Config = Config(maxBytes: nat, eventCapacity: nat, batchCapacity: nat, connectEnabled: bool)

  /** Where the accumulator goroutine is: not running, waiting in its outer select, waiting to queue a full batch with
      the next event in hand, or waiting to queue a batch because the timer fired. */
  datatype Accumulator = Exited | Idle | Holding(event: Event) | Flushing

  datatype Status = Stopped | Running | Stopping

  /** What became of an accepted event that left the accumulator. */
  datatype Fate = Queued(event: Event) | Lost(event: Event)

  /** The pipeline, and the history the theorems speak of: what QueueEvent accepted, what was handed to the HTTP post,
      the fate of every event in between, and the number of Stop calls. */
  datatype State = State(status: Status, accumulator: Accumulator, senderRunning: bool,
                         eventQueue: seq<Event>, batchQueue: seq<Batch>, batch: Batch, batchBytes: nat,
                         accepted: seq<Event>, posted: seq<Batch>, ledger: seq<Fate>, stops: nat)

  datatype Step =
    | QueueEvent(entityKey: string, agentKey: string, data: string)
    | Receive(agentId: int)
    | QueueFullBatch
    | TimerFires
    | FlushBatch
    | Post
    | Stop
    | AccumulatorExits
    | SenderExits
    | StopReturns
    | Start

  const INITIAL: State := State(Stopped, Exited, false, [], [], [], 0, [], [], [], 0)

  /** The event QueueEvent builds: without a key it belongs to the agent's own entity. */
  function NewEvent(entityKey: string, agentKey: string, data: string): Event {
    Event(if entityKey == "" then agentKey else entityKey, agentKey, data, 0)
  }

  /** Events of the agent's own entity get the agent id when connect is enabled. */
  function Stamped(c: Config, e: Event, agentId: int): Event {
    if c.connectEnabled && e.entityKey == e.agentKey then e.(entityId := agentId) else e
  }

  /** The test before an event joins the batch in progress. */
  predicate Overflows(c: Config, s: State, e: Event) {
    s.batchBytes + |e.data| > c.maxBytes || |s.batch| == MAX_EVENT_BATCH_COUNT
  }

  function Fates(b: Batch): seq<Fate> {
    seq(|b|, i requires 0 <= i < |b| => Queued(b[i]))
  }

  function Losses(b: Batch): seq<Fate> {
    seq(|b|, i requires 0 <= i < |b| => Lost(b[i]))
  }

  /** The event the accumulator holds outside its batch. */
  function InHand(s: State): Batch {
    if s.accumulator.Holding? then [s.accumulator.event] else []
  }

  /** Queues the batch in progress and goes on with `next`. */
  function QueueBatch(s: State, next: Batch, bytes: nat): State {
    s.(batchQueue := s.batchQueue + [s.batch], ledger := s.ledger + Fates(s.batch),
       batch := next, batchBytes := bytes, accumulator := Idle)
  }

  /** Whether the step can happen, and the state it leads to. */
  ghost predicate Next(c: Config, s: State, step: Step, t: State) {
    match step
    case QueueEvent(key, agentKey, data) =>
      // Too large or a full queue: an error, and nothing changes.
      if |data| > c.maxBytes || |s.eventQueue| >= c.eventCapacity then t == s
      else
        var e := NewEvent(key, agentKey, data);
        t == s.(eventQueue := s.eventQueue + [e], accepted := s.accepted + [e])
    case Receive(agentId) =>
      && s.accumulator.Idle? && s.eventQueue != []
      && var e := Stamped(c, s.eventQueue[0], agentId);
         var u := s.(eventQueue := s.eventQueue[1..]);
         if Overflows(c, s, e) then t == u.(accumulator := Holding(e))
         else t == u.(batch := s.batch + [e], batchBytes := s.batchBytes + |e.data|)
    case QueueFullBatch =>
      && s.accumulator.Holding? && |s.batchQueue| < c.batchCapacity
      && t == QueueBatch(s, [s.accumulator.event], |s.accumulator.event.data|)
    case TimerFires =>
      s.accumulator.Idle? && t == (if |s.batch| > 0 then s.(accumulator := Flushing) else s)
    case FlushBatch =>
      s.accumulator.Flushing? && |s.batchQueue| < c.batchCapacity && t == QueueBatch(s, [], 0)
    case Post =>
      // The post is made once; a failed one is not repeated.
      && s.senderRunning && s.batchQueue != []
      && t == s.(batchQueue := s.batchQueue[1..], posted := s.posted + [s.batchQueue[0]])
    case Stop =>
      // An error, and no change, when nothing runs.
      if s.status.Stopped? then t == s
      else s.status.Running? && t == s.(status := Stopping, stops := s.stops + 1)
    case AccumulatorExits =>
      // Every select of the accumulator may take the closed stop channel; its local batch is gone with it.
      && s.status.Stopping? && !s.accumulator.Exited?
      && t == s.(accumulator := Exited, batch := [], batchBytes := 0,
                 ledger := s.ledger + Losses(s.batch + InHand(s)))
    case SenderExits =>
      s.status.Stopping? && s.senderRunning && t == s.(senderRunning := false)
    case StopReturns =>
      s.status.Stopping? && s.accumulator.Exited? && !s.senderRunning && t == s.(status := Stopped)
    case Start =>
      // An error, and no change, until Stop has returned.
      if !s.status.Stopped? then t == s
      else t == s.(status := Running, accumulator := Idle, batch := [], batchBytes := 0, senderRunning := true)
  }

  /** A run of the pipeline from a state. */
  ghost predicate Runs(c: Config, s: State, steps: seq<Step>, states: seq<State>) {
    && |states| == |steps| + 1 && states[0] == s
    && forall i :: 0 <= i < |steps| ==> Next(c, states[i], steps[i], states[i + 1])
  }

  // ----- readings of the history -----

  function Flat(bs: seq<Batch>): Batch {
    if bs == [] then [] else Flat(bs[..|bs| - 1]) + bs[|bs| - 1]
  }

  /** The events of a ledger, and the ones among them that were queued for posting. */
  function Events(ledger: seq<Fate>): Batch {
    seq(|ledger|, i requires 0 <= i < |ledger| => ledger[i].event)
  }

  function Kept(ledger: seq<Fate>): Batch {
    if ledger == [] then []
    else
      var last := ledger[|ledger| - 1];
      Kept(ledger[..|ledger| - 1]) + (if last.Queued? then [last.event] else [])
  }

  function Bytes(b: Batch): nat {
    if b == [] then 0 else Bytes(b[..|b| - 1]) + |b[|b| - 1].data|
  }

  /** Events as they were accepted, without stamps. */
  function Unstamped(b: Batch): Batch {
    seq(|b|, i requires 0 <= i < |b| => b[i].(entityId := 0))
  }

  /** Everything in the pipeline, oldest first, with lost events marked. */
  function Trail(s: State): Batch {
    Events(s.ledger) + s.batch + InHand(s) + s.eventQueue
  }

  ghost predicate GoodBatch(c: Config, b: Batch) {
    1 <= |b| <= MAX_EVENT_BATCH_COUNT && Bytes(b) <= c.maxBytes
  }

  ghost predicate GoodBatches(c: Config, bs: seq<Batch>) {
    forall i :: 0 <= i < |bs| ==> GoodBatch(c, bs[i])
  }

  // ----- the invariant -----

  /** Every accepted event is accounted for, in order, and the posted and queued batches are exactly the events not
      lost, in the same order. */
  ghost predicate Conserved(s: State) {
    && s.accepted == Unstamped(Trail(s))
    && Flat(s.posted + s.batchQueue) == Kept(s.ledger)
  }

  ghost predicate Bounded(c: Config, s: State) {
    && GoodBatches(c, s.posted) && GoodBatches(c, s.batchQueue)
    && |s.batch| <= MAX_EVENT_BATCH_COUNT && s.batchBytes == Bytes(s.batch) <= c.maxBytes
    && (forall i :: 0 <= i < |s.eventQueue| ==> |s.eventQueue[i].data| <= c.maxBytes)
    && (s.accumulator.Holding? ==> s.batch != [] && |s.accumulator.event.data| <= c.maxBytes)
    && (s.accumulator.Flushing? ==> s.batch != [])
    && |s.eventQueue| <= c.eventCapacity && |s.batchQueue| <= c.batchCapacity
  }

  /** Each Stop costs at most the batch in progress and the event in hand. */
  ghost predicate LossBounded(s: State) {
    && (s.status.Stopped? ==> s.accumulator.Exited? && !s.senderRunning)
    && (s.status.Running? ==> !s.accumulator.Exited? && s.senderRunning)
    && (s.accumulator.Exited? ==> s.batch == [])
    && |s.ledger| - |Kept(s.ledger)| <=
       (MAX_EVENT_BATCH_COUNT + 1) * (if s.status.Stopping? && !s.accumulator.Exited? then s.stops - 1 else s.stops)
    && (s.status.Stopping? ==> s.stops > 0)
  }

  ghost predicate Inv(c: Config, s: State) {
    Conserved(s) && Bounded(c, s) && LossBounded(s)
  }

  lemma {:induction false} KeptFates(ledger: seq<Fate>, b: Batch)
    ensures Kept(ledger + Fates(b)) == Kept(ledger) + b
    ensures Events(ledger + Fates(b)) == Events(ledger) + b
  {
    if b == [] {
      assert ledger + Fates(b) == ledger;
    } else {
      var n := |b| - 1;
      KeptFates(ledger, b[..n]);
      assert (ledger + Fates(b))[..|ledger| + n] == ledger + Fates(b[..n]);
      assert b == b[..n] + [b[n]];
    }
  }

  lemma {:induction false} KeptLosses(ledger: seq<Fate>, b: Batch)
    ensures Kept(ledger + Losses(b)) == Kept(ledger)
    ensures Events(ledger + Losses(b)) == Events(ledger) + b
  {
    if b == [] {
      assert ledger + Losses(b) == ledger;
    } else {
      var n := |b| - 1;
      KeptLosses(ledger, b[..n]);
      assert (ledger + Losses(b))[..|ledger| + n] == ledger + Losses(b[..n]);
      assert b == b[..n] + [b[n]];
    }
  }

  lemma FlatSnoc(bs: seq<Batch>, b: Batch)
    ensures Flat(bs + [b]) == Flat(bs) + b
  {
    assert (bs + [b])[..|bs|] == bs;
  }

  lemma QueueBatchConserves(s: State, next: Batch, bytes: nat)
    requires Conserved(s) && next == InHand(s)
    ensures Conserved(QueueBatch(s, next, bytes))
  {
    hide Kept, Events, Flat, Fates, Unstamped;
    var t := QueueBatch(s, next, bytes);
    KeptFates(s.ledger, s.batch);
    FlatSnoc(s.posted + s.batchQueue, s.batch);
    assert t.posted + t.batchQueue == s.posted + s.batchQueue + [s.batch];
    assert Trail(t) == Trail(s);
  }

  lemma StampInvisible(older: Batch, e: Event, stamped: Event, newer: Batch)
    requires stamped.(entityId := 0) == e.(entityId := 0)
    ensures Unstamped(older + [stamped] + newer) == Unstamped(older + [e] + newer)
  {}

  lemma ReceiveConserves(c: Config, s: State, agentId: int, t: State)
    requires Conserved(s) && Next(c, s, Receive(agentId), t)
    ensures Conserved(t)
  {
    hide Kept, Events, Flat, Unstamped;
    var e := s.eventQueue[0];
    var older := Events(s.ledger) + s.batch;
    assert Trail(s) == older + [e] + s.eventQueue[1..];
    assert Trail(t) == older + [Stamped(c, e, agentId)] + s.eventQueue[1..];
    StampInvisible(older, e, Stamped(c, e, agentId), s.eventQueue[1..]);
  }

  lemma ExitConserves(c: Config, s: State, t: State)
    requires Conserved(s) && Next(c, s, AccumulatorExits, t)
    ensures Conserved(t)
  {
    hide Kept, Events, Flat, Losses, Unstamped;
    KeptLosses(s.ledger, s.batch + InHand(s));
    assert Trail(t) == Trail(s);
  }

  lemma QueueEventConserves(c: Config, s: State, step: Step, t: State)
    requires Conserved(s) && step.QueueEvent? && Next(c, s, step, t)
    ensures Conserved(t)
  {
    hide Kept, Events, Flat;
    if t != s {
      var e := NewEvent(step.entityKey, step.agentKey, step.data);
      assert Trail(t) == Trail(s) + [e];
      assert Unstamped(Trail(s) + [e]) == Unstamped(Trail(s)) + [e];
    }
  }

  lemma StepConserves(c: Config, s: State, step: Step, t: State)
    requires Conserved(s) && Bounded(c, s) && LossBounded(s) && Next(c, s, step, t)
    ensures Conserved(t)
  {
    hide Kept, Events, Flat, Losses, Fates, Unstamped, Bytes;
    match step {
      case QueueEvent(_, _, _) => QueueEventConserves(c, s, step, t);
      case Receive(agentId) => ReceiveConserves(c, s, agentId, t);
      case QueueFullBatch => QueueBatchConserves(s, t.batch, t.batchBytes);
      case FlushBatch => QueueBatchConserves(s, [], 0);
      case AccumulatorExits => ExitConserves(c, s, t);
      case Post => assert t.posted + t.batchQueue == s.posted + s.batchQueue;
      case _ => assert Trail(t) == Trail(s);
    }
  }

  lemma BytesEmpty()
    ensures Bytes([]) == 0
  {}

  lemma BytesSnoc(b: Batch, e: Event)
    ensures Bytes(b + [e]) == Bytes(b) + |e.data|
  {
    assert (b + [e])[..|b|] == b;
  }

  /** An event that QueueEvent accepted always fits an empty batch, so no empty batch is ever queued. */
  lemma EmptyBatchNeverOverflows(c: Config, s: State)
    requires Bounded(c, s) && s.eventQueue != []
    ensures s.batch == [] ==> !Overflows(c, s, s.eventQueue[0])
  {}

  lemma StepBounds(c: Config, s: State, step: Step, t: State)
    requires Bounded(c, s) && Next(c, s, step, t)
    ensures Bounded(c, t)
  {
    hide Bytes, Fates, Losses;
    assert Bytes([]) == 0 by { BytesEmpty(); }
    if step.Receive? {
      BytesSnoc(s.batch, Stamped(c, s.eventQueue[0], step.agentId));
      EmptyBatchNeverOverflows(c, s);
    }
    if step.QueueFullBatch? {
      BytesSnoc([], s.accumulator.event);
      assert [] + [s.accumulator.event] == [s.accumulator.event];
    }
  }

  lemma StepLosses(c: Config, s: State, step: Step, t: State)
    requires LossBounded(s) && Bounded(c, s) && Next(c, s, step, t)
    ensures LossBounded(t)
  {
    hide Kept, Bytes, Fates, Losses;
    if step.QueueFullBatch? || step.FlushBatch? {
      KeptFates(s.ledger, s.batch);
    }
    if step.AccumulatorExits? {
      KeptLosses(s.ledger, s.batch + InHand(s));
    }
  }

  lemma InitialInv(c: Config)
    ensures Inv(c, INITIAL)
  {}

  /** Over every interleaving of the pipeline the invariant holds in every state. */
  lemma {:induction false} RunKeepsInv(c: Config, steps: seq<Step>, states: seq<State>)
    requires Runs(c, INITIAL, steps, states)
    ensures Inv(c, states[|steps|])
  {
    hide Conserved, Bounded, LossBounded, Next;
    if steps == [] {
      InitialInv(c);
    } else {
      var n := |steps| - 1;
      RunKeepsInv(c, steps[..n], states[..n + 1]);
      StepConserves(c, states[n], steps[n], states[n + 1]);
      StepBounds(c, states[n], steps[n], states[n + 1]);
      StepLosses(c, states[n], steps[n], states[n + 1]);
    }
  }

  lemma {:induction false} NoStops(c: Config, steps: seq<Step>, states: seq<State>)
    requires Runs(c, INITIAL, steps, states)
    requires forall i :: 0 <= i < |steps| ==> !steps[i].Stop?
    ensures states[|steps|].stops == 0
  {
    if steps == [] {
    } else {
      var n := |steps| - 1;
      NoStops(c, steps[..n], states[..n + 1]);
      assert Next(c, states[n], steps[n], states[n + 1]);
    }
  }

  /** A ledger no longer than what it kept has lost nothing. */
  lemma {:induction false} AllKept(ledger: seq<Fate>)
    ensures |Kept(ledger)| <= |ledger|
    ensures |Kept(ledger)| == |ledger| ==> Kept(ledger) == Events(ledger)
  {
    if ledger == [] {
    } else {
      AllKept(ledger[..|ledger| - 1]);
    }
  }

  /** Without a Stop nothing is lost: what was accepted is, in order, what was posted, what is queued for posting, the
      batch in progress, the event in hand, and the event queue. */
  lemma NothingLostWithoutStop(c: Config, steps: seq<Step>, states: seq<State>)
    requires Runs(c, INITIAL, steps, states)
    requires forall i :: 0 <= i < |steps| ==> !steps[i].Stop?
    ensures var s := states[|steps|];
            s.accepted == Unstamped(Flat(s.posted + s.batchQueue) + s.batch + InHand(s) + s.eventQueue)
  {
    RunKeepsInv(c, steps, states);
    NoStops(c, steps, states);
    AllKept(states[|steps|].ledger);
  }

  /** With any number of Stop calls, every batch posted or queued is non-empty and within both limits, and at most 501
      accepted events are lost for each Stop. */
  lemma RunBounds(c: Config, steps: seq<Step>, states: seq<State>)
    requires Runs(c, INITIAL, steps, states)
    ensures var s := states[|steps|];
            && (forall b <- s.posted + s.batchQueue :: 1 <= |b| <= 500 && Bytes(b) <= c.maxBytes)
            && |s.accepted| - |Flat(s.posted + s.batchQueue) + s.batch + InHand(s) + s.eventQueue| <= 501 * s.stops
  {
    hide Bytes, Kept;
    RunKeepsInv(c, steps, states);
    var s := states[|steps|];
    assert |s.accepted| == |Trail(s)| == |s.ledger| + |s.batch| + |InHand(s)| + |s.eventQueue|;
  }

  // ----- what the events are -----

  /** A QueueEvent call that fits and finds room. */
  ghost predicate Accepts(c: Config, s: State, step: Step) {
    step.QueueEvent? && |step.data| <= c.maxBytes && |s.eventQueue| < c.eventCapacity
  }

  /** The event a call asks for: its data under its key, or under that of the agent if it has none. */
  ghost predicate AskedFor(step: Step, e: Event) {
    && step.QueueEvent? && e.data == step.data && e.agentKey == step.agentKey && e.entityId == 0
    && (step.entityKey != "" ==> e.entityKey == step.entityKey)
    && (step.entityKey == "" ==> e.entityKey == step.agentKey)
  }

  /** Numbers of steps in a run of `n`, in order. */
  ghost predicate Ascending(js: seq<nat>, n: nat) {
    && (forall i :: 0 <= i < |js| ==> js[i] < n)
    && (forall i, j :: 0 <= i < j < |js| ==> js[i] < js[j])
  }

  lemma AcceptedStep(c: Config, s: State, step: Step, t: State)
    requires Next(c, s, step, t)
    ensures if Accepts(c, s, step) then |t.accepted| == |s.accepted| + 1 && t.accepted[..|s.accepted|] == s.accepted &&
                                        AskedFor(step, t.accepted[|s.accepted|])
            else t.accepted == s.accepted
  {}

  /** Over every run, the accepted events are exactly those that the calls asked for that fit and found room, in the
      order of the calls. */
  lemma {:induction false} AcceptedAsAsked(c: Config, steps: seq<Step>, states: seq<State>) returns (js: seq<nat>)
    requires Runs(c, INITIAL, steps, states)
    ensures Ascending(js, |steps|) && |js| == |states[|steps|].accepted|
    ensures forall j: nat :: j in js <==> j < |steps| && Accepts(c, states[j], steps[j])
    ensures forall i :: 0 <= i < |js| ==> AskedFor(steps[js[i]], states[|steps|].accepted[i])
  {
    hide Next, Accepts, AskedFor;
    if steps == [] {
      js := [];
    } else {
      var n := |steps| - 1;
      js := AcceptedAsAsked(c, steps[..n], states[..n + 1]);
      AcceptedStep(c, states[n], steps[n], states[n + 1]);
      if Accepts(c, states[n], steps[n]) {
        js := js + [n];
      }
    }
  }

  /** Every event the accumulator took over, oldest first. */
  function Received(s: State): Batch {
    Events(s.ledger) + s.batch + InHand(s)
  }

  /** Queued events have no entity id yet. */
  ghost predicate Fresh(s: State) {
    forall i :: 0 <= i < |s.eventQueue| ==> s.eventQueue[i].entityId == 0
  }

  /** The id that Receive stamps on an event: that of the agent on events of its own entity, if connect is enabled. */
  ghost predicate RightId(c: Config, step: Step, e: Event) {
    step.Receive? && e.entityId == if c.connectEnabled && e.entityKey == e.agentKey then step.agentId else 0
  }

  lemma FreshStep(c: Config, s: State, step: Step, t: State)
    requires Fresh(s) && Next(c, s, step, t)
    ensures Fresh(t)
  {}

  lemma ReceivedStep(c: Config, s: State, step: Step, t: State)
    requires Fresh(s) && LossBounded(s) && Next(c, s, step, t)
    ensures if step.Receive? then |Received(t)| == |Received(s)| + 1 && Received(t)[..|Received(s)|] == Received(s) &&
                                  RightId(c, step, Received(t)[|Received(s)|])
            else Received(t) == Received(s)
  {
    hide Kept, Flat, Fates, Losses, Events;
    match step {
      case QueueFullBatch => KeptFates(s.ledger, s.batch);
      case FlushBatch => KeptFates(s.ledger, s.batch);
      case AccumulatorExits => KeptLosses(s.ledger, s.batch + InHand(s));
      case _ =>
    }
  }

  lemma NothingReceived()
    ensures Received(INITIAL) == [] && Fresh(INITIAL)
  {}

  /** Over every run, the i-th event the accumulator took over has the id that the i-th Receive stamps on it. */
  lemma {:induction false} ReceivedAsStamped(c: Config, steps: seq<Step>, states: seq<State>) returns (js: seq<nat>)
    requires Runs(c, INITIAL, steps, states)
    ensures Ascending(js, |steps|) && |js| == |Received(states[|steps|])| && Fresh(states[|steps|])
    ensures forall j: nat :: j in js <==> j < |steps| && steps[j].Receive?
    ensures forall i :: 0 <= i < |js| ==> RightId(c, steps[js[i]], Received(states[|steps|])[i])
  {
    hide Next, RightId, Received, Fresh, Conserved, Bounded, LossBounded;
    if steps == [] {
      js := [];
      NothingReceived();
    } else {
      var n := |steps| - 1;
      js := ReceivedAsStamped(c, steps[..n], states[..n + 1]);
      RunKeepsInv(c, steps[..n], states[..n + 1]);
      ReceivedStep(c, states[n], steps[n], states[n + 1]);
      FreshStep(c, states[n], steps[n], states[n + 1]);
      if steps[n].Receive? {
        js := js + [n];
      }
    }
  }

  lemma KeptIsReceived(c: Config, steps: seq<Step>, states: seq<State>)
    requires Runs(c, INITIAL, steps, states)
    requires forall i :: 0 <= i < |steps| ==> !steps[i].Stop?
    ensures var s := states[|steps|]; Received(s) == Flat(s.posted + s.batchQueue) + s.batch + InHand(s)
  {
    hide Next, Kept, Flat;
    RunKeepsInv(c, steps, states);
    NoStops(c, steps, states);
    AllKept(states[|steps|].ledger);
  }

  /** End to end, without a Stop: number `i` of all events posted, queued for posting, in the batch in progress or in
      hand is what accepted call number `i` asked for, with the id of Receive number `i`. */
  lemma DeliveredAsAsked(c: Config, steps: seq<Step>, states: seq<State>) returns (js: seq<nat>, ks: seq<nat>)
    requires Runs(c, INITIAL, steps, states)
    requires forall i :: 0 <= i < |steps| ==> !steps[i].Stop?
    ensures Ascending(js, |steps|) && Ascending(ks, |steps|)
    ensures forall j: nat :: j in js <==> j < |steps| && Accepts(c, states[j], steps[j])
    ensures forall j: nat :: j in ks <==> j < |steps| && steps[j].Receive?
    ensures var s := states[|steps|];
            var out := Flat(s.posted + s.batchQueue) + s.batch + InHand(s);
            && |out| == |ks| <= |js| && |js| == |out| + |s.eventQueue|
            && forall i :: 0 <= i < |out| ==>
                 AskedFor(steps[js[i]], out[i].(entityId := 0)) && RightId(c, steps[ks[i]], out[i])
  {
    hide Next, Accepts, AskedFor, RightId, Kept, Flat, Runs, Bounded;
    js := AcceptedAsAsked(c, steps, states);
    ks := ReceivedAsStamped(c, steps, states);
    NothingLostWithoutStop(c, steps, states);
    KeptIsReceived(c, steps, states);
  }

  /** Over every run, an event is held back only from a full batch: one more would be too much, or there are 500. */
  lemma {:induction false} HeldBackFromFull(c: Config, steps: seq<Step>, states: seq<State>)
    requires Runs(c, INITIAL, steps, states)
    ensures var s := states[|steps|];
            s.accumulator.Holding? ==> Bytes(s.batch) + |s.accumulator.event.data| > c.maxBytes || |s.batch| == 500
  {
    hide Bytes, Conserved, LossBounded;
    if steps == [] {
    } else {
      var n := |steps| - 1;
      HeldBackFromFull(c, steps[..n], states[..n + 1]);
      RunKeepsInv(c, steps[..n], states[..n + 1]);
      assert Next(c, states[n], steps[n], states[n + 1]);
    }
  }

  // ----- nothing gets stuck -----

  /** How much is left to do for what was accepted. */
  function ToDo(s: State): nat {
    8 * |s.eventQueue| + 2 * |s.batchQueue| + (if s.accumulator.Holding? then 6 else 0) +
    (if s.batch == [] then 0 else if s.accumulator.Flushing? then 3 else 4)
  }

  ghost predicate Drained(s: State) {
    s.eventQueue == [] && s.batchQueue == [] && s.batch == [] && s.accumulator.Idle?
  }

  /** As long as there is something to do, the accumulator or the sender can take a step that does some of it. */
  lemma CanAdvance(c: Config, s: State, agentId: int) returns (step: Step, t: State)
    requires Inv(c, s) && s.status.Running? && c.batchCapacity > 0 && !Drained(s)
    ensures Next(c, s, step, t) && ToDo(t) < ToDo(s) && t.status.Running? && t.accepted == s.accepted
    ensures !step.QueueEvent? && !step.Stop? && !step.Start?
  {
    hide Conserved, Bytes, Kept, Fates, Losses;
    if s.batchQueue != [] {
      step, t := Post, s.(batchQueue := s.batchQueue[1..], posted := s.posted + [s.batchQueue[0]]);
    } else if s.accumulator.Holding? {
      step, t := QueueFullBatch, QueueBatch(s, [s.accumulator.event], |s.accumulator.event.data|);
    } else if s.accumulator.Flushing? {
      step, t := FlushBatch, QueueBatch(s, [], 0);
    } else if s.eventQueue != [] {
      var e, u := Stamped(c, s.eventQueue[0], agentId), s.(eventQueue := s.eventQueue[1..]);
      step := Receive(agentId);
      t := if Overflows(c, s, e) then u.(accumulator := Holding(e))
           else u.(batch := s.batch + [e], batchBytes := s.batchBytes + |e.data|);
    } else {
      step, t := TimerFires, s.(accumulator := Flushing);
    }
  }

  lemma RunsCons(c: Config, s: State, step: Step, t: State, steps: seq<Step>, states: seq<State>)
    requires Next(c, s, step, t) && Runs(c, t, steps, states)
    ensures Runs(c, s, [step] + steps, [s] + states)
  {
    hide Next;
  }

  /** From every reachable running state, accumulator and sender alone can drain both queues. */
  lemma {:induction false} CanDrain(c: Config, s: State, agentId: int) returns (steps: seq<Step>, states: seq<State>)
    requires Inv(c, s) && s.status.Running? && c.batchCapacity > 0
    ensures Runs(c, s, steps, states) && Drained(states[|steps|]) && states[|steps|].accepted == s.accepted
    ensures forall i :: 0 <= i < |steps| ==> !steps[i].QueueEvent? && !steps[i].Stop? && !steps[i].Start?
    decreases ToDo(s)
  {
    if Drained(s) {
      steps, states := [], [s];
    } else {
      hide Next, Conserved, Bounded, LossBounded;
      var step, t := CanAdvance(c, s, agentId);
      StepConserves(c, s, step, t);
      StepBounds(c, s, step, t);
      StepLosses(c, s, step, t);
      steps, states := CanDrain(c, t, agentId);
      RunsCons(c, s, step, t, steps, states);
      steps, states := [step] + steps, [s] + states;
    }
  }

  lemma {:induction false} RunsConcat(c: Config, s: State, steps: seq<Step>, states: seq<State>, more: seq<Step>,
                                      later: seq<State>)
    requires Runs(c, s, steps, states) && Runs(c, states[|steps|], more, later)
    ensures Runs(c, s, steps + more, states[..|steps|] + later)
  {
    hide Next;
    var all, ts := steps + more, states[..|steps|] + later;
    forall i | 0 <= i < |all| ensures Next(c, ts[i], all[i], ts[i + 1]) {
      if i < |steps| {
        assert Next(c, states[i], steps[i], states[i + 1]);
        assert ts[i + 1] == states[i + 1];
      } else {
        assert Next(c, later[i - |steps|], more[i - |steps|], later[i - |steps| + 1]);
      }
    }
  }

  /** So after any run without a Stop, everything that was accepted can be posted, in order and with nothing else. */
  lemma EverythingCanBePosted(c: Config, steps: seq<Step>, states: seq<State>, agentId: int)
    returns (more: seq<Step>, later: seq<State>)
    requires Runs(c, INITIAL, steps, states) && states[|steps|].status.Running? && c.batchCapacity > 0
    requires forall i :: 0 <= i < |steps| ==> !steps[i].Stop?
    ensures Runs(c, states[|steps|], more, later)
    ensures var t := later[|more|]; t.accepted == states[|steps|].accepted == Unstamped(Flat(t.posted))
  {
    hide Next, Inv;
    RunKeepsInv(c, steps, states);
    more, later := CanDrain(c, states[|steps|], agentId);
    RunsConcat(c, INITIAL, steps, states, more, later);
    var all, ts := steps + more, states[..|steps|] + later;
    assert ts[|all|] == later[|more|];
    NothingLostWithoutStop(c, all, ts);
    var t := later[|more|];
    assert t.posted + t.batchQueue == t.posted;
  }
}
