// Exporting batches of events with retries (src/worker/vm/upgrades/export-events.ts:79-152).
module ExportRetries {
  import opened PluginMetrics

  const MAXIMUM_RETRIES := 15

  type Event = int

  datatype Payload = Payload(batch: seq<Event>, batchId: int, retriesPerformedSoFar: nat)

  datatype Job = Job(payload: Payload, seconds: nat)

  // What becomes of one attempt; a RetryError leads to a job, which may fail to be enqueued.
  datatype Outcome = Delivers | RetryError(enqueued: bool) | OtherError

  datatype State = State(metrics: Metrics, queue: seq<Job>)

  function Power2(n: nat): nat {
    if n == 0 then 1 else 2 * Power2(n - 1)
  }

  function Incremented(hasPlugin: bool, metrics: Metrics, name: string, value: int): Metrics {
    if hasPlugin then Updated(metrics, Increment, name, value) else metrics
  }

  predicate Retries(payload: Payload, outcome: Outcome) {
    outcome.RetryError? && payload.retriesPerformedSoFar < MAXIMUM_RETRIES
  }

  function RetryJob(payload: Payload): Job {
    Job(payload.(retriesPerformedSoFar := payload.retriesPerformedSoFar + 1), Power2(payload.retriesPerformedSoFar + 1) * 3)
  }

  predicate Enqueues(payload: Payload, outcome: Outcome) {
    Retries(payload, outcome) && outcome.enqueued
  }

  function MetricsAfter(hasPlugin: bool, metrics: Metrics, payload: Payload, outcome: Outcome): Metrics {
    var n := |payload.batch|;
    var seen :=
      if payload.retriesPerformedSoFar == 0 then Incremented(hasPlugin, metrics, "events_seen", n) else metrics;
    match outcome
    case Delivers => Incremented(hasPlugin, seen, "events_delivered_successfully", n)
    case RetryError(_) =>
      var counted := Incremented(hasPlugin, seen, "retry_errors", n);
      if Retries(payload, outcome) then counted else Incremented(hasPlugin, counted, "undelivered_events", n)
    case OtherError =>
      Incremented(hasPlugin, Incremented(hasPlugin, seen, "other_errors", n), "undelivered_events", n)
  }

  function AfterAttempt(hasPlugin: bool, s: State, payload: Payload, outcome: Outcome): State {
    State(MetricsAfter(hasPlugin, s.metrics, payload, outcome),
          if Enqueues(payload, outcome) then s.queue + [RetryJob(payload)] else s.queue)
  }

  // The upgraded plugin: its metrics and its queued retry jobs.
  class ExportEvents {
    const manager: PluginMetricsManager
    const pluginConfig: int
    const hasPlugin: bool
    var jobs: seq<Job>

    ghost function Now(): State
      reads this, manager
    {
      State(MetricsOf(manager.metricsPerPluginConfig, pluginConfig), jobs)
    }

    constructor (manager: PluginMetricsManager, pluginConfig: int, hasPlugin: bool)
      ensures this.manager == manager && this.pluginConfig == pluginConfig && this.hasPlugin == hasPlugin
      ensures jobs == []
    {
      this.manager := manager;
      this.pluginConfig := pluginConfig;
      this.hasPlugin := hasPlugin;
      jobs := [];
    }

    method IncrementMetric(name: string, value: int)
      modifies manager
      ensures Now().metrics == Incremented(hasPlugin, old(Now().metrics), name, value)
    {
      manager.UpdateMetric(Increment, pluginConfig, hasPlugin, name, value);
    }

    // throws: the exception that leaves exportEventsWithRetry
    method ExportEventsWithRetry(payload: Payload, outcome: Outcome) returns (throws: bool)
      modifies this, manager
      ensures Now() == AfterAttempt(hasPlugin, old(Now()), payload, outcome)
      ensures throws <==>
              outcome.OtherError? || (outcome.RetryError? && payload.retriesPerformedSoFar < 15 && !outcome.enqueued)
    {
      hide Incremented, Power2;
      if payload.retriesPerformedSoFar == 0 {
        IncrementMetric("events_seen", |payload.batch|);
      }
      throws := false;
      match outcome {
        case Delivers =>
          IncrementMetric("events_delivered_successfully", |payload.batch|);
        case RetryError(enqueued) =>
          IncrementMetric("retry_errors", |payload.batch|);
          if payload.retriesPerformedSoFar < MAXIMUM_RETRIES {
            if enqueued {
              var nextRetrySeconds := Power2(payload.retriesPerformedSoFar + 1) * 3;
              var retry := payload.(retriesPerformedSoFar := payload.retriesPerformedSoFar + 1);
              jobs := jobs + [Job(retry, nextRetrySeconds)];
            } else {
              throws := true;
            }
          } else {
            IncrementMetric("undelivered_events", |payload.batch|);
          }
        case OtherError =>
          IncrementMetric("other_errors", |payload.batch|);
          IncrementMetric("undelivered_events", |payload.batch|);
          throws := true;
      }
    }
  }

  // ----- runs -----

  // A flushed buffer is exported at once; a queued job runs at some time, in any order.
  datatype Step =
    | FlushBuffer(batch: seq<Event>, batchId: int, outcome: Outcome)
    | RunJob(index: nat, outcome: Outcome)

  // The state with its history. Batches are numbered in the order they were flushed: owners names the
  // batch of each queued job, attempts and delays count the attempts and the scheduled seconds of each
  // batch, and lost counts the events whose job could not be enqueued.
  datatype World = World(s: State, owners: seq<nat>, attempts: seq<nat>, delays: seq<nat>, lost: nat)

  const INITIAL := World(State(map[], []), [], [], [], 0)

  predicate Possible(w: World, step: Step) {
    step.RunJob? ==> step.index < |w.s.queue| && step.index < |w.owners|
                     && w.owners[step.index] < |w.attempts| && w.owners[step.index] < |w.delays|
  }

  function Without<T>(s: seq<T>, i: nat): (r: seq<T>)
    requires i < |s|
    ensures |r| == |s| - 1
  {
    s[..i] + s[i + 1..]
  }

  function StepPayload(w: World, step: Step): Payload
    requires Possible(w, step)
  {
    match step
    case FlushBuffer(batch, batchId, _) => Payload(batch, batchId, 0)
    case RunJob(index, _) => w.s.queue[index].payload
  }

  // Before the attempt itself: a new batch gets its number, a job leaves the queue.
  function Taken(w: World, step: Step): World
    requires Possible(w, step)
  {
    match step
    case FlushBuffer(_, _, _) => w.(attempts := w.attempts + [1], delays := w.delays + [0])
    case RunJob(i, _) =>
      var owner := w.owners[i];
      w.(s := w.s.(queue := Without(w.s.queue, i)), owners := Without(w.owners, i),
         attempts := w.attempts[owner := w.attempts[owner] + 1])
  }

  function Owner(w: World, step: Step): nat
    requires Possible(w, step)
  {
    if step.RunJob? then w.owners[step.index] else |w.attempts|
  }

  function Attempted(hasPlugin: bool, w: World, owner: nat, payload: Payload, outcome: Outcome): World
    requires owner < |w.delays|
  {
    var s := AfterAttempt(hasPlugin, w.s, payload, outcome);
    if Enqueues(payload, outcome) then
      w.(s := s, owners := w.owners + [owner],
         delays := w.delays[owner := w.delays[owner] + RetryJob(payload).seconds])
    else
      w.(s := s, lost := w.lost + if Retries(payload, outcome) then |payload.batch| else 0)
  }

  function After(hasPlugin: bool, w: World, step: Step): World {
    if Possible(w, step) && |w.attempts| == |w.delays|
    then Attempted(hasPlugin, Taken(w, step), Owner(w, step), StepPayload(w, step), step.outcome)
    else w
  }

  function Run(hasPlugin: bool, steps: seq<Step>): World {
    if steps == [] then INITIAL
    else After(hasPlugin, Run(hasPlugin, steps[..|steps| - 1]), steps[|steps| - 1])
  }

  // ----- every batch is attempted at most 16 times, over at most 3 * (2^16 - 2) seconds of delay -----

  // The delays before the first n retries.
  function DelayOf(n: nat): nat {
    if n == 0 then 0 else DelayOf(n - 1) + Power2(n) * 3
  }

  lemma {:induction false} DelayIsGeometric(n: nat)
    ensures DelayOf(n) == 3 * (Power2(n + 1) - 2)
  {
    if n > 0 {
      DelayIsGeometric(n - 1);
    }
  }

  lemma DelayStep(n: nat)
    ensures DelayOf(n + 1) == DelayOf(n) + Power2(n + 1) * 3
  {
  }

  lemma {:induction false} DelayGrows(m: nat, n: nat)
    requires m <= n
    ensures DelayOf(m) <= DelayOf(n)
  {
    if m < n {
      DelayGrows(m, n - 1);
    }
  }

  // The job of batch number owner, which was attempted so often and delayed so long.
  predicate JobTracked(job: Job, owner: nat, attempts: seq<nat>, delays: seq<nat>) {
    && owner < |attempts| == |delays|
    && 1 <= job.payload.retriesPerformedSoFar == attempts[owner] <= MAXIMUM_RETRIES
    && delays[owner] == DelayOf(attempts[owner])
  }

  ghost predicate Distinct(owners: seq<nat>) {
    forall i, j :: 0 <= i < j < |owners| ==> owners[i] != owners[j]
  }

  ghost predicate Tracked(w: World) {
    && |w.owners| == |w.s.queue|
    && |w.attempts| == |w.delays|
    && Distinct(w.owners)
    && (forall i :: 0 <= i < |w.owners| ==> JobTracked(w.s.queue[i], w.owners[i], w.attempts, w.delays))
    && (forall b :: 0 <= b < |w.attempts| ==> w.attempts[b] <= MAXIMUM_RETRIES + 1)
    && (forall b :: 0 <= b < |w.delays| ==> w.delays[b] <= DelayOf(MAXIMUM_RETRIES))
  }

  // Between taking a batch and attempting it, only that batch is out of step.
  ghost predicate TrackedBut(w: World, owner: nat, payload: Payload) {
    && |w.owners| == |w.s.queue|
    && owner < |w.attempts| == |w.delays|
    && Distinct(w.owners)
    && owner !in w.owners
    && (forall i :: 0 <= i < |w.owners| ==> JobTracked(w.s.queue[i], w.owners[i], w.attempts, w.delays))
    && (forall b :: 0 <= b < |w.attempts| ==> w.attempts[b] <= MAXIMUM_RETRIES + 1)
    && (forall b :: 0 <= b < |w.delays| ==> w.delays[b] <= DelayOf(MAXIMUM_RETRIES))
    && w.attempts[owner] == payload.retriesPerformedSoFar + 1
    && w.delays[owner] == DelayOf(payload.retriesPerformedSoFar)
  }

  lemma TakenIsTracked(w: World, step: Step)
    requires Tracked(w) && Possible(w, step)
    ensures TrackedBut(Taken(w, step), Owner(w, step), StepPayload(w, step))
  {
    hide DelayOf;
    var taken := Taken(w, step);
    match step {
      case FlushBuffer(batch, batchId, _) =>
        assert DelayOf(0) == 0 by { DelayIsGeometric(0); }
        DelayGrows(0, MAXIMUM_RETRIES);
        forall i | 0 <= i < |w.owners|
          ensures JobTracked(taken.s.queue[i], taken.owners[i], taken.attempts, taken.delays)
        {
          assert JobTracked(w.s.queue[i], w.owners[i], w.attempts, w.delays);
        }
      case RunJob(k, _) =>
        assert JobTracked(w.s.queue[k], w.owners[k], w.attempts, w.delays);
        forall i | 0 <= i < |taken.owners|
          ensures JobTracked(taken.s.queue[i], taken.owners[i], taken.attempts, taken.delays)
          ensures taken.owners[i] != w.owners[k]
        {
          var j := if i < k then i else i + 1;
          assert taken.owners[i] == w.owners[j] && taken.s.queue[i] == w.s.queue[j];
          assert JobTracked(w.s.queue[j], w.owners[j], w.attempts, w.delays);
        }
    }
  }

  lemma StaysTracked(job: Job, o: nat, attempts: seq<nat>, delays: seq<nat>, owner: nat, delay: nat)
    requires JobTracked(job, o, attempts, delays) && o != owner < |delays|
    ensures JobTracked(job, o, attempts, delays[owner := delay])
  {
    hide DelayOf;
  }

  lemma RetryIsTracked(payload: Payload, owner: nat, attempts: seq<nat>, delays: seq<nat>)
    requires owner < |attempts| == |delays| && payload.retriesPerformedSoFar < MAXIMUM_RETRIES
    requires attempts[owner] == payload.retriesPerformedSoFar + 1
    requires delays[owner] == DelayOf(payload.retriesPerformedSoFar)
    ensures var job := RetryJob(payload);
            && JobTracked(job, owner, attempts, delays[owner := delays[owner] + job.seconds])
            && delays[owner] + job.seconds <= DelayOf(MAXIMUM_RETRIES)
  {
    hide DelayOf, Power2;
    DelayStep(payload.retriesPerformedSoFar);
    DelayGrows(payload.retriesPerformedSoFar + 1, MAXIMUM_RETRIES);
  }

  lemma AttemptedIsTracked(hasPlugin: bool, w: World, owner: nat, payload: Payload, outcome: Outcome)
    requires TrackedBut(w, owner, payload)
    ensures Tracked(Attempted(hasPlugin, w, owner, payload, outcome))
  {
    hide MetricsAfter, JobTracked, DelayOf, RetryJob;
    if Enqueues(payload, outcome) {
      var next := Attempted(hasPlugin, w, owner, payload, outcome);
      RetryIsTracked(payload, owner, w.attempts, w.delays);
      forall i | 0 <= i < |next.owners|
        ensures JobTracked(next.s.queue[i], next.owners[i], next.attempts, next.delays)
      {
        if i < |w.owners| {
          StaysTracked(w.s.queue[i], w.owners[i], w.attempts, w.delays, owner, next.delays[owner]);
        }
      }
    }
  }

  lemma {:induction false} RunIsTracked(hasPlugin: bool, steps: seq<Step>)
    ensures Tracked(Run(hasPlugin, steps))
  {
    hide Tracked, TrackedBut, Taken, Attempted, Owner, StepPayload;
    if steps != [] {
      var n := |steps| - 1;
      var w := Run(hasPlugin, steps[..n]);
      RunIsTracked(hasPlugin, steps[..n]);
      if Possible(w, steps[n]) && |w.attempts| == |w.delays| {
        TakenIsTracked(w, steps[n]);
        AttemptedIsTracked(hasPlugin, Taken(w, steps[n]), Owner(w, steps[n]), StepPayload(w, steps[n]), steps[n].outcome);
      }
    } else {
      InitialIsTracked();
    }
  }

  lemma InitialIsTracked()
    ensures Tracked(INITIAL)
  {
  }

  // In every run, whatever the outcomes and in whatever order the jobs run.
  lemma EveryBatchIsGivenUpInTime(hasPlugin: bool, steps: seq<Step>, batch: nat)
    requires batch < |Run(hasPlugin, steps).attempts|
    ensures var w := Run(hasPlugin, steps);
            && w.attempts[batch] <= 16
            && |w.delays| == |w.attempts|
            && w.delays[batch] <= 3 * (Power2(16) - 2)
  {
    hide Run, Power2, DelayOf, JobTracked;
    RunIsTracked(hasPlugin, steps);
    DelayIsGeometric(MAXIMUM_RETRIES);
  }

  // ----- events_seen = delivered + undelivered + still queued -----

  function QueuedEvents(queue: seq<Job>): nat {
    if queue == [] then 0 else QueuedEvents(queue[..|queue| - 1]) + |queue[|queue| - 1].payload.batch|
  }

  lemma {:induction false} QueuedEventsSplit(queue: seq<Job>, i: nat)
    requires i < |queue|
    ensures QueuedEvents(queue) == QueuedEvents(Without(queue, i)) + |queue[i].payload.batch|
    decreases |queue|
  {
    var n := |queue| - 1;
    if i < n {
      QueuedEventsSplit(queue[..n], i);
      assert Without(queue, i)[..n - 1] == Without(queue[..n], i);
    } else {
      assert Without(queue, i) == queue[..n];
    }
  }

  lemma QueuedEventsSnoc(queue: seq<Job>, job: Job)
    ensures QueuedEvents(queue + [job]) == QueuedEvents(queue) + |job.payload.batch|
  {
    assert (queue + [job])[..|queue|] == queue;
  }

  function Seen(metrics: Metrics): int {
    Value(metrics, "events_seen")
  }

  function Settled(metrics: Metrics): int {
    Value(metrics, "events_delivered_successfully") + Value(metrics, "undelivered_events")
  }

  lemma MetricsStep(metrics: Metrics, payload: Payload, outcome: Outcome)
    ensures var next, n := MetricsAfter(true, metrics, payload, outcome), |payload.batch|;
            && Seen(next) == Seen(metrics) + (if payload.retriesPerformedSoFar == 0 then n else 0)
            && Settled(next) == Settled(metrics) + (if Retries(payload, outcome) then 0 else n)
  {
    CountersStep(metrics, payload, outcome);
    hide MetricsAfter, Value;
  }

  predicate Balanced(w: World) {
    Seen(w.s.metrics) == Settled(w.s.metrics) + QueuedEvents(w.s.queue) + w.lost
  }

  lemma StepBalances(w: World, step: Step)
    requires Balanced(w) && Tracked(w) && Possible(w, step)
    ensures Balanced(After(true, w, step))
  {
    hide JobTracked, Seen, Settled, QueuedEvents, MetricsAfter, Without, Power2;
    var payload := StepPayload(w, step);
    var taken := Taken(w, step);
    MetricsStep(w.s.metrics, payload, step.outcome);
    if step.RunJob? {
      QueuedEventsSplit(w.s.queue, step.index);
      JobWasTried(w, step.index);
    }
    QueuedEventsSnoc(taken.s.queue, RetryJob(payload));
  }

  lemma JobWasTried(w: World, i: nat)
    requires Tracked(w) && i < |w.s.queue|
    ensures w.s.queue[i].payload.retriesPerformedSoFar > 0
  {
    assert JobTracked(w.s.queue[i], w.owners[i], w.attempts, w.delays);
  }

  // Nothing is counted twice and nothing is forgotten, except batches whose job could not be enqueued.
  lemma {:induction false} EveryRunBalances(steps: seq<Step>)
    ensures Balanced(Run(true, steps))
  {
    hide Balanced, After;
    if steps != [] {
      var n := |steps| - 1;
      EveryRunBalances(steps[..n]);
      RunIsTracked(true, steps[..n]);
      if Possible(Run(true, steps[..n]), steps[n]) {
        StepBalances(Run(true, steps[..n]), steps[n]);
      } else {
        ImpossibleStaysPut(true, Run(true, steps[..n]), steps[n]);
      }
    } else {
      InitialIsBalanced();
    }
  }

  lemma ImpossibleStaysPut(hasPlugin: bool, w: World, step: Step)
    requires !Possible(w, step)
    ensures After(hasPlugin, w, step) == w
  {
  }

  lemma InitialIsBalanced()
    ensures Balanced(INITIAL)
  {
  }

  // Without a plugin on the config no metric is ever kept.
  lemma {:induction false} NoPluginNoMetrics(steps: seq<Step>)
    ensures Run(false, steps).s.metrics == map[]
  {
    if steps != [] {
      NoPluginNoMetrics(steps[..|steps| - 1]);
      hide Tracked, Power2, Without;
    }
  }

  // The step's job cannot be enqueued, although its batch has events.
  predicate Loses(w: World, step: Step) {
    && Possible(w, step)
    && Retries(StepPayload(w, step), step.outcome) && !step.outcome.enqueued
    && StepPayload(w, step).batch != []
  }

  ghost predicate NothingLost(hasPlugin: bool, steps: seq<Step>) {
    forall i :: 0 <= i < |steps| ==> !Loses(Run(hasPlugin, steps[..i]), steps[i])
  }

  lemma NothingLostStep(hasPlugin: bool, steps: seq<Step>)
    requires steps != []
    ensures var n := |steps| - 1;
            NothingLost(hasPlugin, steps)
            <==> NothingLost(hasPlugin, steps[..n]) && !Loses(Run(hasPlugin, steps[..n]), steps[n])
  {
    hide Run, Loses;
    var n := |steps| - 1;
    assert forall i :: 0 <= i < n ==> steps[..n][..i] == steps[..i] && steps[..n][i] == steps[i];
  }

  function LostEvents(w: World, step: Step): nat {
    if Loses(w, step) then |StepPayload(w, step).batch| else 0
  }

  lemma StepLoses(hasPlugin: bool, w: World, step: Step)
    requires |w.attempts| == |w.delays|
    ensures After(hasPlugin, w, step).lost == w.lost + LostEvents(w, step)
  {
    hide MetricsAfter, RetryJob, Without;
  }

  lemma {:induction false} LostExactly(hasPlugin: bool, steps: seq<Step>)
    ensures Run(hasPlugin, steps).lost == 0 <==> NothingLost(hasPlugin, steps)
  {
    hide NothingLost, Loses, LostEvents, After, Tracked;
    if steps != [] {
      var n := |steps| - 1;
      LostExactly(hasPlugin, steps[..n]);
      NothingLostStep(hasPlugin, steps);
      RunIsTracked(hasPlugin, steps[..n]);
      SameCounts(Run(hasPlugin, steps[..n]));
      StepLoses(hasPlugin, Run(hasPlugin, steps[..n]), steps[n]);
      LosesEvents(Run(hasPlugin, steps[..n]), steps[n]);
    } else {
      assert NothingLost(hasPlugin, []) by { NothingIsLost(hasPlugin); }
    }
  }

  lemma LosesEvents(w: World, step: Step)
    ensures Loses(w, step) <==> LostEvents(w, step) > 0
  {
    hide Possible;
  }

  lemma NothingIsLost(hasPlugin: bool)
    ensures NothingLost(hasPlugin, [])
  {
  }

  // Events put into the queue by retries, and taken out of it by jobs.
  function EnqueuedEvents(hasPlugin: bool, steps: seq<Step>): nat {
    if steps == [] then 0
    else
      var n := |steps| - 1;
      var w := Run(hasPlugin, steps[..n]);
      EnqueuedEvents(hasPlugin, steps[..n])
      + if Possible(w, steps[n]) && Enqueues(StepPayload(w, steps[n]), steps[n].outcome)
        then |StepPayload(w, steps[n]).batch| else 0
  }

  function TakenEvents(hasPlugin: bool, steps: seq<Step>): nat {
    if steps == [] then 0
    else
      var n := |steps| - 1;
      var w := Run(hasPlugin, steps[..n]);
      TakenEvents(hasPlugin, steps[..n])
      + if Possible(w, steps[n]) && steps[n].RunJob? then |StepPayload(w, steps[n]).batch| else 0
  }

  lemma StepQueues(hasPlugin: bool, w: World, step: Step)
    requires |w.attempts| == |w.delays| && Possible(w, step)
    ensures var payload := StepPayload(w, step);
            QueuedEvents(After(hasPlugin, w, step).s.queue) + (if step.RunJob? then |payload.batch| else 0)
            == QueuedEvents(w.s.queue) + if Enqueues(payload, step.outcome) then |payload.batch| else 0
  {
    hide QueuedEvents, MetricsAfter, Power2, Without;
    if step.RunJob? {
      QueuedEventsSplit(w.s.queue, step.index);
    }
    QueuedEventsSnoc(Taken(w, step).s.queue, RetryJob(StepPayload(w, step)));
  }

  lemma {:induction false} QueueIsBalanced(hasPlugin: bool, steps: seq<Step>)
    ensures QueuedEvents(Run(hasPlugin, steps).s.queue) + TakenEvents(hasPlugin, steps) == EnqueuedEvents(hasPlugin, steps)
  {
    hide QueuedEvents, After, Tracked, StepPayload, Enqueues;
    if steps != [] {
      var n := |steps| - 1;
      var w := Run(hasPlugin, steps[..n]);
      QueueIsBalanced(hasPlugin, steps[..n]);
      RunIsTracked(hasPlugin, steps[..n]);
      SameCounts(w);
      if Possible(w, steps[n]) {
        StepQueues(hasPlugin, w, steps[n]);
      } else {
        ImpossibleStaysPut(hasPlugin, w, steps[n]);
      }
    } else {
      assert QueuedEvents(INITIAL.s.queue) == 0 by { NothingQueued(); }
    }
  }

  lemma NothingQueued()
    ensures QueuedEvents(INITIAL.s.queue) == 0
  {
  }

  // The metrics add up to what was seen, if and only if no step failed to enqueue the job of a batch with
  // events (for a config with a plugin), or all events put into the queue were taken out (for one without).
  lemma MetricsAddUpExactly(hasPlugin: bool, steps: seq<Step>)
    ensures var w := Run(hasPlugin, steps);
            Seen(w.s.metrics) == Settled(w.s.metrics) + QueuedEvents(w.s.queue)
            <==> if hasPlugin then NothingLost(hasPlugin, steps)
                 else EnqueuedEvents(hasPlugin, steps) == TakenEvents(hasPlugin, steps)
  {
    if hasPlugin {
      EveryRunBalances(steps);
      LostExactly(hasPlugin, steps);
    } else {
      NoPluginNoMetrics(steps);
      QueueIsBalanced(hasPlugin, steps);
    }
    hide Run, QueuedEvents, NothingLost, EnqueuedEvents, TakenEvents;
  }

  // ----- every attempt is counted once -----

  // The events of all attempts, a batch once for each attempt.
  function AttemptedEvents(hasPlugin: bool, steps: seq<Step>): nat {
    if steps == [] then 0
    else
      var n := |steps| - 1;
      var w := Run(hasPlugin, steps[..n]);
      AttemptedEvents(hasPlugin, steps[..n]) + if Possible(w, steps[n]) then |StepPayload(w, steps[n]).batch| else 0
  }

  function Outcomes(metrics: Metrics): int {
    Value(metrics, "events_delivered_successfully") + Value(metrics, "retry_errors") + Value(metrics, "other_errors")
  }

  lemma OutcomesStep(metrics: Metrics, payload: Payload, outcome: Outcome)
    ensures Outcomes(MetricsAfter(true, metrics, payload, outcome)) == Outcomes(metrics) + |payload.batch|
  {
    CountersStep(metrics, payload, outcome);
    hide MetricsAfter, Value;
  }

  // Each attempt is counted as delivered, as a retry error or as another error, and as one of them only.
  lemma {:induction false} AttemptsAreCounted(steps: seq<Step>)
    ensures Outcomes(Run(true, steps).s.metrics) == AttemptedEvents(true, steps)
  {
    hide Outcomes, MetricsAfter, StepPayload, Without, Owner, Tracked;
    if steps != [] {
      var n := |steps| - 1;
      var w := Run(true, steps[..n]);
      AttemptsAreCounted(steps[..n]);
      RunIsTracked(true, steps[..n]);
      SameCounts(w);
      if Possible(w, steps[n]) {
        OutcomesStep(w.s.metrics, StepPayload(w, steps[n]), steps[n].outcome);
      }
    } else {
      NothingCounted();
    }
  }

  lemma SameCounts(w: World)
    requires Tracked(w)
    ensures |w.attempts| == |w.delays|
  {
  }

  lemma NothingCounted()
    ensures Outcomes(INITIAL.s.metrics) == 0
  {
  }

  // ----- jobs run out -----

  function CountFlushes(steps: seq<Step>): nat {
    if steps == [] then 0
    else CountFlushes(steps[..|steps| - 1]) + if steps[|steps| - 1].FlushBuffer? then 1 else 0
  }

  function CountJobs(hasPlugin: bool, steps: seq<Step>): nat {
    if steps == [] then 0
    else
      var n := |steps| - 1;
      CountJobs(hasPlugin, steps[..n]) + if steps[n].RunJob? && Possible(Run(hasPlugin, steps[..n]), steps[n]) then 1 else 0
  }

  // How many jobs the queued ones can still lead to, themselves included.
  function Potential(queue: seq<Job>): int {
    if queue == [] then 0
    else Potential(queue[..|queue| - 1]) + MAXIMUM_RETRIES + 1 - queue[|queue| - 1].payload.retriesPerformedSoFar
  }

  lemma {:induction false} PotentialSplit(queue: seq<Job>, i: nat)
    requires i < |queue|
    ensures Potential(queue)
            == Potential(Without(queue, i)) + MAXIMUM_RETRIES + 1 - queue[i].payload.retriesPerformedSoFar
    decreases |queue|
  {
    var n := |queue| - 1;
    if i < n {
      PotentialSplit(queue[..n], i);
      assert Without(queue, i)[..n - 1] == Without(queue[..n], i);
    } else {
      assert Without(queue, i) == queue[..n];
    }
  }

  lemma PotentialSnoc(queue: seq<Job>, job: Job)
    ensures Potential(queue + [job]) == Potential(queue) + MAXIMUM_RETRIES + 1 - job.payload.retriesPerformedSoFar
  {
    assert (queue + [job])[..|queue|] == queue;
  }

  lemma {:induction false} PotentialIsNonNegative(queue: seq<Job>)
    requires forall i :: 0 <= i < |queue| ==> queue[i].payload.retriesPerformedSoFar <= MAXIMUM_RETRIES
    ensures Potential(queue) >= |queue|
  {
    if queue != [] {
      PotentialIsNonNegative(queue[..|queue| - 1]);
    }
  }

  lemma StepSpends(hasPlugin: bool, w: World, step: Step)
    requires Tracked(w) && Possible(w, step)
    ensures Potential(After(hasPlugin, w, step).s.queue)
            <= Potential(w.s.queue) + if step.FlushBuffer? then MAXIMUM_RETRIES else -1
  {
    hide JobTracked, Potential, MetricsAfter, Without, Power2;
    var payload := StepPayload(w, step);
    if step.RunJob? {
      PotentialSplit(w.s.queue, step.index);
      assert JobTracked(w.s.queue[step.index], w.owners[step.index], w.attempts, w.delays);
      RetriesAreFew(w, step.index);
    }
    PotentialSnoc(Taken(w, step).s.queue, RetryJob(payload));
  }

  lemma RetriesAreFew(w: World, i: nat)
    requires Tracked(w) && i < |w.s.queue|
    ensures w.s.queue[i].payload.retriesPerformedSoFar <= MAXIMUM_RETRIES
  {
    assert JobTracked(w.s.queue[i], w.owners[i], w.attempts, w.delays);
  }

  lemma {:induction false} PotentialBound(hasPlugin: bool, steps: seq<Step>)
    ensures CountJobs(hasPlugin, steps) + Potential(Run(hasPlugin, steps).s.queue)
            <= MAXIMUM_RETRIES * CountFlushes(steps)
  {
    hide After, Tracked, Potential;
    if steps != [] {
      var n := |steps| - 1;
      PotentialBound(hasPlugin, steps[..n]);
      RunIsTracked(hasPlugin, steps[..n]);
      if Possible(Run(hasPlugin, steps[..n]), steps[n]) {
        StepSpends(hasPlugin, Run(hasPlugin, steps[..n]), steps[n]);
      } else {
        ImpossibleStaysPut(hasPlugin, Run(hasPlugin, steps[..n]), steps[n]);
      }
    } else {
      PotentialOfNothing();
    }
  }

  lemma PotentialOfNothing()
    ensures Potential(INITIAL.s.queue) == 0
  {
  }

  // However often exports fail, the jobs run plus those queued are at most 15 for each flushed batch.
  lemma JobsRunOut(hasPlugin: bool, steps: seq<Step>)
    ensures CountJobs(hasPlugin, steps) + |Run(hasPlugin, steps).s.queue| <= MAXIMUM_RETRIES * CountFlushes(steps)
  {
    hide Run, CountJobs, Potential;
    var w := Run(hasPlugin, steps);
    RunIsTracked(hasPlugin, steps);
    forall i | 0 <= i < |w.s.queue|
      ensures w.s.queue[i].payload.retriesPerformedSoFar <= MAXIMUM_RETRIES
    {
      RetriesAreFew(w, i);
    }
    PotentialIsNonNegative(w.s.queue);
    PotentialBound(hasPlugin, steps);
  }

  // ----- what each metric counts -----

  predicate IsFirst(payload: Payload, outcome: Outcome) {
    payload.retriesPerformedSoFar == 0
  }

  predicate IsDelivered(payload: Payload, outcome: Outcome) {
    outcome == Delivers
  }

  predicate IsRetryError(payload: Payload, outcome: Outcome) {
    outcome.RetryError?
  }

  predicate IsOtherError(payload: Payload, outcome: Outcome) {
    outcome == OtherError
  }

  // An error that is not a RetryError, or a RetryError after 15 retries.
  predicate IsGivenUp(payload: Payload, outcome: Outcome) {
    outcome == OtherError || (outcome.RetryError? && payload.retriesPerformedSoFar >= 15)
  }

  // The events of the attempts of this kind.
  function EventsOf(steps: seq<Step>, kind: (Payload, Outcome) -> bool): nat {
    if steps == [] then 0
    else
      var n := |steps| - 1;
      var w := Run(true, steps[..n]);
      EventsOf(steps[..n], kind)
      + if Possible(w, steps[n]) && kind(StepPayload(w, steps[n]), steps[n].outcome)
        then |StepPayload(w, steps[n]).batch| else 0
  }

  lemma CountersStep(metrics: Metrics, payload: Payload, outcome: Outcome)
    ensures var next, n := MetricsAfter(true, metrics, payload, outcome), |payload.batch|;
            && Value(next, "events_seen")
               == Value(metrics, "events_seen") + (if IsFirst(payload, outcome) then n else 0)
            && Value(next, "events_delivered_successfully")
               == Value(metrics, "events_delivered_successfully") + (if IsDelivered(payload, outcome) then n else 0)
            && Value(next, "retry_errors")
               == Value(metrics, "retry_errors") + (if IsRetryError(payload, outcome) then n else 0)
            && Value(next, "other_errors")
               == Value(metrics, "other_errors") + (if IsOtherError(payload, outcome) then n else 0)
            && Value(next, "undelivered_events")
               == Value(metrics, "undelivered_events") + (if IsGivenUp(payload, outcome) then n else 0)
  {
    hide Updated, Incremented, Value;
    IncrementedIs();
    match outcome {
      case Delivers =>
      case RetryError(_) =>
      case OtherError =>
    }
  }

  lemma IncrementedIs()
    ensures forall m: Metrics, name, n, other ::
              Value(Incremented(true, m, name, n), other) == Value(m, other) + if other == name then n else 0
  {
    hide Updated, Value;
    forall m: Metrics, name, n, other
      ensures Value(Incremented(true, m, name, n), other) == Value(m, other) + if other == name then n else 0
    {
      IncrementAdds(m, name, n, other);
    }
  }

  // After every run each metric is the number of events of its kind of attempts.
  lemma {:induction false} CountersAreExact(steps: seq<Step>)
    ensures var metrics := Run(true, steps).s.metrics;
            && Value(metrics, "events_seen") == EventsOf(steps, IsFirst)
            && Value(metrics, "events_delivered_successfully") == EventsOf(steps, IsDelivered)
            && Value(metrics, "retry_errors") == EventsOf(steps, IsRetryError)
            && Value(metrics, "other_errors") == EventsOf(steps, IsOtherError)
            && Value(metrics, "undelivered_events") == EventsOf(steps, IsGivenUp)
  {
    hide Value, MetricsAfter, StepPayload, Without, Owner, Tracked, IsFirst, IsDelivered, IsRetryError, IsOtherError,
      IsGivenUp;
    if steps != [] {
      var n := |steps| - 1;
      var w := Run(true, steps[..n]);
      CountersAreExact(steps[..n]);
      RunIsTracked(true, steps[..n]);
      SameCounts(w);
      if Possible(w, steps[n]) {
        CountersStep(w.s.metrics, StepPayload(w, steps[n]), steps[n].outcome);
      }
    } else {
      NoValues();
    }
  }

  lemma NoValues()
    ensures forall name :: Value(INITIAL.s.metrics, name) == 0
  {
  }

  // ----- what is retried is what was flushed -----

  predicate IsFlush(step: Step, payload: Payload) {
    step.FlushBuffer? && step.batch == payload.batch && step.batchId == payload.batchId
  }

  ghost predicate WasFlushed(steps: seq<Step>, payload: Payload) {
    exists i :: 0 <= i < |steps| && IsFlush(steps[i], payload)
  }

  lemma FlushedBefore(steps: seq<Step>, payload: Payload)
    requires steps != [] && WasFlushed(steps[..|steps| - 1], payload)
    ensures WasFlushed(steps, payload)
  {
    hide IsFlush;
    var i :| 0 <= i < |steps| - 1 && IsFlush(steps[..|steps| - 1][i], payload);
    assert IsFlush(steps[i], payload);
  }

  // Over every run: each job in the queue holds the events and the id of a batch that was flushed.
  lemma {:induction false} JobsHoldFlushedBatches(hasPlugin: bool, steps: seq<Step>)
    ensures forall job <- Run(hasPlugin, steps).s.queue :: WasFlushed(steps, job.payload)
  {
    if steps != [] {
      var n := |steps| - 1;
      var w := Run(hasPlugin, steps[..n]);
      JobsHoldFlushedBatches(hasPlugin, steps[..n]);
      RunIsTracked(hasPlugin, steps[..n]);
      SameCounts(w);
      forall job <- Run(hasPlugin, steps).s.queue
        ensures WasFlushed(steps, job.payload)
      {
        JobComesFrom(hasPlugin, w, steps[n], job);
        if job in w.s.queue {
          FlushedBefore(steps, job.payload);
        } else {
          var payload := StepPayload(w, steps[n]);
          SameBatch(steps, job.payload, payload);
          if steps[n].RunJob? {
            assert w.s.queue[steps[n].index] in w.s.queue;
            FlushedBefore(steps, payload);
          } else {
            assert IsFlush(steps[n], payload);
          }
        }
      }
    }
  }

  lemma SameBatch(steps: seq<Step>, payload: Payload, other: Payload)
    requires payload.batch == other.batch && payload.batchId == other.batchId
    ensures WasFlushed(steps, payload) <==> WasFlushed(steps, other)
  {
    assert forall step :: IsFlush(step, payload) == IsFlush(step, other);
  }

  lemma JobComesFrom(hasPlugin: bool, w: World, step: Step, job: Job)
    requires |w.attempts| == |w.delays| && job in After(hasPlugin, w, step).s.queue
    ensures || job in w.s.queue
            || (Possible(w, step)
                && job.payload.batch == StepPayload(w, step).batch && job.payload.batchId == StepPayload(w, step).batchId)
  {
    hide MetricsAfter, Power2;
  }
}
