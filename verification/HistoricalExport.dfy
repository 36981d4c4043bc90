// The historical export: a job that enqueues its own successor, over a cursor that all jobs share.
module HistoricalExport {
  import opened Wrappers

  const EVENTS_TIME_INTERVAL := 10 * 60 * 1000
  const EVENTS_PER_RUN := 100
  const MAX_RETRIES := 15

  datatype Event = Event(id: nat, timestamp: int)

  // Rows with lo <= timestamp < hi.  The table lists rows by id, so this is ORDER BY id.
  function Between(table: seq<Event>, lo: int, hi: int): seq<Event> {
    if table == [] then []
    else
      var front, last := Between(table[..|table| - 1], lo, hi), table[|table| - 1];
      if lo <= last.timestamp < hi then front + [last] else front
  }

  function EventsIn(table: seq<Event>, lo: int): seq<Event> {
    Between(table, lo, lo + EVENTS_TIME_INTERVAL)
  }

  // LIMIT 100 OFFSET offset (utils.ts:121-126)
  function FetchEventsForInterval(table: seq<Event>, lo: int, offset: nat): seq<Event> {
    Page(EventsIn(table, lo), offset)
  }

  // At most 100 events of ten minutes.
  lemma FetchedAreOfInterval(table: seq<Event>, lo: int, offset: nat)
    ensures var events := FetchEventsForInterval(table, lo, offset);
            |events| <= 100 && forall e <- events :: e in table && lo <= e.timestamp < lo + 600_000
  {
    BetweenAreIn(table, lo, lo + EVENTS_TIME_INTERVAL);
  }

  lemma {:induction false} BetweenAreIn(table: seq<Event>, lo: int, hi: int)
    ensures forall e <- Between(table, lo, hi) :: e in table && lo <= e.timestamp < hi
  {
    if table != [] {
      BetweenAreIn(table[..|table| - 1], lo, hi);
    }
  }

  function Page<T>(rows: seq<T>, offset: nat): seq<T> {
    if |rows| <= offset then []
    else if |rows| <= offset + EVENTS_PER_RUN then rows[offset..]
    else rows[offset..offset + EVENTS_PER_RUN]
  }

  // A ClickHouse row, with the second in which it was ingested. The table lists rows by _offset.
  datatype Row = Row(id: nat, second: int)

  function RowsBetween(rows: seq<Row>, lo: int, hi: int): seq<Row> {
    if rows == [] then []
    else
      var front, last := RowsBetween(rows[..|rows| - 1], lo, hi), rows[|rows| - 1];
      if lo <= last.second < hi then front + [last] else front
  }

  // The bounds of the query are cut to whole seconds (utils.ts:92-111).
  function FetchRowsForInterval(rows: seq<Row>, lo: int, offset: nat): seq<Row> {
    Page(RowsBetween(rows, lo / 1000, (lo + EVENTS_TIME_INTERVAL) / 1000), offset)
  }

  // The rows as events that lie the same number of milliseconds after their second.
  function Aligned(rows: seq<Row>, ms: int): seq<Event> {
    seq(|rows|, i requires 0 <= i < |rows| => Event(rows[i].id, rows[i].second * 1000 + ms))
  }

  lemma {:induction false} AlignedBetween(rows: seq<Row>, lo: int, hi: int, ms: nat)
    requires ms < 1000 && lo % 1000 == hi % 1000 == ms
    ensures Aligned(RowsBetween(rows, lo / 1000, hi / 1000), ms) == Between(Aligned(rows, ms), lo, hi)
  {
    if rows != [] {
      var n := |rows| - 1;
      AlignedBetween(rows[..n], lo, hi, ms);
      assert Aligned(rows, ms)[..n] == Aligned(rows[..n], ms);
      assert lo / 1000 <= rows[n].second < hi / 1000 <==> lo <= rows[n].second * 1000 + ms < hi;
    }
  }

  // Along the cursors of one export the ClickHouse query gives the pages of the aligned events: what is proved
  // about a table of events holds of them.
  lemma ClickHouseGivesThePages(rows: seq<Row>, min: int, cursor: int, offset: nat)
    requires (cursor - min) % EVENTS_TIME_INTERVAL == 0
    ensures Aligned(FetchRowsForInterval(rows, cursor, offset), min % 1000)
            == FetchEventsForInterval(Aligned(rows, min % 1000), cursor, offset)
  {
    var ms := min % 1000;
    CursorsAreAligned(min, cursor);
    AlignedBetween(rows, cursor, cursor + EVENTS_TIME_INTERVAL, ms);
    hide RowsBetween, Between;
  }

  lemma CursorsAreAligned(min: int, cursor: int)
    requires (cursor - min) % EVENTS_TIME_INTERVAL == 0
    ensures cursor % 1000 == min % 1000 == (cursor + EVENTS_TIME_INTERVAL) % 1000
  {
    var k := (cursor - min) / EVENTS_TIME_INTERVAL;
    SameMillis(min, cursor, 600 * k);
    SameMillis(min, cursor + EVENTS_TIME_INTERVAL, 600 * k + 600);
  }

  lemma SameMillis(a: int, b: int, seconds: int)
    requires b == a + 1000 * seconds
    ensures b % 1000 == a % 1000
  {
    assert b == 1000 * (a / 1000 + seconds) + a % 1000;
  }

  datatype Job = Job(timestampCursor: Option<int>, intraIntervalOffset: nat, retriesPerformedSoFar: nat,
                     incrementTimestampCursor: bool)

  // What happens when a job runs: the query fails, or exportEvents raises a RetryError, raises some
  // other error, or returns.
  datatype Answer = FetchFails | Retry | OtherError | Delivered

  datatype Batch = Batch(cursor: int, offset: nat, events: seq<Event>)

  // delivered, dropped and swallowed record the history for the properties.
  datatype State = State(
    cursor: int,            // the stored timestamp_cursor
    maxTimestamp: int,
    isRunning: bool,        // the stored is_export_running
    jobs: seq<Job>,
    delivered: seq<Batch>,  // batches for which exportEvents returned
    dropped: bool,          // a job gave up after 15 retries
    swallowed: bool)        // an error that is not a RetryError was ignored

  predicate TakesNewInterval(job: Job) {
    // !timestampCursor also holds of the number 0
    job.incrementTimestampCursor || job.timestampCursor.None? || job.timestampCursor.value == 0
  }

  // The interval and the offset that a job works on.
  function CursorOf(s: State, job: Job): int {
    if TakesNewInterval(job) then s.cursor + EVENTS_TIME_INTERVAL else job.timestampCursor.value
  }

  function OffsetOf(job: Job): nat {
    if TakesNewInterval(job) then 0 else job.intraIntervalOffset
  }

  predicate Works(s: State, job: Job) {
    job.retriesPerformedSoFar < MAX_RETRIES && CursorOf(s, job) <= s.maxTimestamp
  }

  function Fetched(table: seq<Event>, s: State, job: Job, answer: Answer): seq<Event> {
    if answer == FetchFails then [] else FetchEventsForInterval(table, CursorOf(s, job), OffsetOf(job))
  }

  function NextJob(table: seq<Event>, s: State, job: Job, answer: Answer): Job {
    Job(Some(CursorOf(s, job)), OffsetOf(job) + EVENTS_PER_RUN, 0, Fetched(table, s, job, answer) == [])
  }

  function RetryJobs(s: State, job: Job, answer: Answer): seq<Job> {
    if answer == FetchFails || answer == Retry
    then [Job(Some(CursorOf(s, job)), OffsetOf(job), job.retriesPerformedSoFar + 1, false)]
    else []
  }

  // exportEventsFromTheBeginning (export-historical-events.ts:86-177) for a job taken off the queue.
  function ExecJob(table: seq<Event>, s: State, job: Job, answer: Answer): State {
    if job.retriesPerformedSoFar >= MAX_RETRIES then s.(dropped := true)
    else
      var s1 := if TakesNewInterval(job) then s.(cursor := CursorOf(s, job)) else s;
      if !Works(s, job) then s1.(isRunning := false)
      else
        s1.(jobs := s.jobs + ([NextJob(table, s, job, answer)] + RetryJobs(s, job, answer)),
            delivered := if answer == Delivered
                         then s.delivered + [Batch(CursorOf(s, job), OffsetOf(job), Fetched(table, s, job, answer))]
                         else s.delivered,
            swallowed := s.swallowed || answer == OtherError)
  }

  // The adversary picks which queued job runs next, and how it goes.
  datatype Choice = Choice(job: nat, answer: Answer)

  function Step(table: seq<Event>, s: State, c: Choice): State
    requires c.job < |s.jobs|
  {
    ExecJob(table, s.(jobs := s.jobs[..c.job] + s.jobs[c.job + 1..]), s.jobs[c.job], c.answer)
  }

  // Every choice names a job that is in the queue at that moment.
  ghost predicate Possible(table: seq<Event>, s: State, choices: seq<Choice>)
    decreases |choices|
  {
    choices != [] ==> choices[0].job < |s.jobs| && Possible(table, Step(table, s, choices[0]), choices[1..])
  }

  ghost function Run(table: seq<Event>, s: State, choices: seq<Choice>): State
    requires Possible(table, s, choices)
    decreases |choices|
  {
    if choices == [] then s else Run(table, Step(table, s, choices[0]), choices[1..])
  }

  // After the interface job (lines 63-82) with lower bound min and upper bound max.
  function Start(min: int, max: int): State {
    State(min - EVENTS_TIME_INTERVAL, max, true, [Job(None, 0, 0, true)], [], false, false)
  }

  // ----- every run ends -----

  function IntervalsLeft(s: State): nat {
    if s.cursor + EVENTS_TIME_INTERVAL > s.maxTimestamp then 0
    else (s.maxTimestamp - s.cursor) / EVENTS_TIME_INTERVAL
  }

  function Remaining(n: nat, offset: nat): nat {
    if offset < n then n - offset else 0
  }

  // A bound on the jobs that one job can cause, itself included: with k unclaimed intervals, p events
  // left beyond its offset, q retries left, and n events in the table.
  function Tree(k: nat, p: nat, q: nat, n: nat): nat
    decreases k, p, q
  {
    if q == 0 then 1
    else 1 + 2 * Fresh(k, n) + (if p > 0 then Tree(k, p - 1, MAX_RETRIES, n) else 0) + Tree(k, p, q - 1, n)
  }

  // The same for a job that takes a new interval.
  function Fresh(k: nat, n: nat): nat
    decreases k, 0, 0
  {
    if k == 0 then 1 else Tree(k - 1, n, MAX_RETRIES, n)
  }

  function Weight(k: nat, job: Job, n: nat): nat {
    if job.retriesPerformedSoFar >= MAX_RETRIES then 1
    else if TakesNewInterval(job) then Fresh(k, n)
    else Tree(k, Remaining(n, job.intraIntervalOffset), MAX_RETRIES - job.retriesPerformedSoFar, n)
  }

  function TotalWeight(k: nat, jobs: seq<Job>, n: nat): nat {
    if jobs == [] then 0 else Weight(k, jobs[0], n) + TotalWeight(k, jobs[1..], n)
  }

  function Potential(s: State, n: nat): nat {
    TotalWeight(IntervalsLeft(s), s.jobs, n)
  }

  lemma {:induction false} TreeMonotone(k: nat, k': nat, p: nat, p': nat, q: nat, q': nat, n: nat)
    requires k <= k' && p <= p' && q <= q'
    ensures Tree(k, p, q, n) <= Tree(k', p', q', n)
    decreases k', p', q', 1
  {
    if q > 0 {
      FreshMonotone(k, k', n);
      if p > 0 {
        TreeMonotone(k, k', p - 1, p' - 1, MAX_RETRIES, MAX_RETRIES, n);
      }
      TreeMonotone(k, k', p, p', q - 1, q' - 1, n);
    }
  }

  lemma {:induction false} FreshMonotone(k: nat, k': nat, n: nat)
    requires k <= k'
    ensures 1 <= Fresh(k, n) <= Fresh(k', n)
    decreases k', 0, 0, 0
  {
    if k > 0 {
      TreeMonotone(k - 1, k' - 1, n, n, MAX_RETRIES, MAX_RETRIES, n);
    }
  }

  lemma WeightMonotone(k: nat, k': nat, job: Job, n: nat)
    requires k <= k'
    ensures 1 <= Weight(k, job, n) <= Weight(k', job, n)
  {
    FreshMonotone(k, k', n);
    var p := Remaining(n, job.intraIntervalOffset);
    if job.retriesPerformedSoFar < MAX_RETRIES {
      var q := MAX_RETRIES - job.retriesPerformedSoFar;
      TreeMonotone(k, k', p, p, q, q, n);
    }
  }

  lemma {:induction false} TotalWeightMonotone(k: nat, k': nat, jobs: seq<Job>, n: nat)
    requires k <= k'
    ensures TotalWeight(k, jobs, n) <= TotalWeight(k', jobs, n)
  {
    if jobs != [] {
      WeightMonotone(k, k', jobs[0], n);
      TotalWeightMonotone(k, k', jobs[1..], n);
    }
  }

  lemma {:induction false} TotalWeightAppend(k: nat, a: seq<Job>, b: seq<Job>, n: nat)
    ensures TotalWeight(k, a + b, n) == TotalWeight(k, a, n) + TotalWeight(k, b, n)
  {
    if a == [] {
      assert a + b == b;
    } else {
      assert (a + b)[1..] == a[1..] + b;
      TotalWeightAppend(k, a[1..], b, n);
    }
  }

  lemma {:induction false} BetweenLength(table: seq<Event>, lo: int, hi: int)
    ensures |Between(table, lo, hi)| <= |table|
  {
    if table != [] {
      BetweenLength(table[..|table| - 1], lo, hi);
    }
  }

  lemma TreeUnfolds(k: nat, p: nat, q: nat, n: nat)
    requires q > 0
    ensures Tree(k, p, q, n)
         == 1 + 2 * Fresh(k, n) + (if p > 0 then Tree(k, p - 1, MAX_RETRIES, n) else 0) + Tree(k, p, q - 1, n)
  {
  }

  lemma NextWeight(k: nat, next: Job, p: nat, n: nat)
    requires next.retriesPerformedSoFar == 0
    requires TakesNewInterval(next) || Remaining(n, next.intraIntervalOffset) < p
    ensures Weight(k, next, n) <= Fresh(k, n) + (if p > 0 then Tree(k, p - 1, MAX_RETRIES, n) else 0)
  {
    hide Tree;
    if !TakesNewInterval(next) {
      TreeMonotone(k, k, Remaining(n, next.intraIntervalOffset), p - 1, MAX_RETRIES, MAX_RETRIES, n);
    }
  }

  lemma AgainWeight(k: nat, again: Job, p: nat, q: nat, n: nat)
    requires Remaining(n, again.intraIntervalOffset) == p && again.retriesPerformedSoFar + q == MAX_RETRIES
    ensures Weight(k, again, n) <= Fresh(k, n) + Tree(k, p, q, n)
  {
    FreshMonotone(k, k, n);
  }

  // The job that goes on and the job that retries together weigh less than the job that ran.
  lemma SpawnShrinks(k: nat, next: Job, retry: seq<Job>, offset: nat, q: nat, n: nat)
    requires 0 < q && next.retriesPerformedSoFar == 0
    requires TakesNewInterval(next) || Remaining(n, next.intraIntervalOffset) < Remaining(n, offset)
    requires |retry| <= 1
    requires forall again <- retry ::
               again.intraIntervalOffset == offset && again.retriesPerformedSoFar + q - 1 == MAX_RETRIES
    ensures TotalWeight(k, [next] + retry, n) < Tree(k, Remaining(n, offset), q, n)
  {
    hide Tree, Weight;
    var p := Remaining(n, offset);
    NextWeight(k, next, p, n);
    TreeUnfolds(k, p, q, n);
    assert [next][1..] == [];
    assert TotalWeight(k, [next], n) == Weight(k, next, n);
    TotalWeightAppend(k, [next], retry, n);
    if retry != [] {
      AgainWeight(k, retry[0], p, q - 1, n);
      assert retry == [retry[0]] && retry[1..] == [];
      assert TotalWeight(k, retry, n) == Weight(k, retry[0], n);
    }
  }

  // A job that goes on in the same interval has found events there.
  lemma NextAdvances(table: seq<Event>, s: State, job: Job, answer: Answer)
    ensures var next := NextJob(table, s, job, answer);
            TakesNewInterval(next) || Remaining(|table|, next.intraIntervalOffset) < Remaining(|table|, OffsetOf(job))
  {
    hide Between;
    BetweenLength(table, CursorOf(s, job), CursorOf(s, job) + EVENTS_TIME_INTERVAL);
  }

  lemma IntervalTaken(s: State, s': State)
    requires s.maxTimestamp == s'.maxTimestamp
    requires s'.cursor == s.cursor || s'.cursor == s.cursor + EVENTS_TIME_INTERVAL
    ensures IntervalsLeft(s') <= IntervalsLeft(s)
    ensures s'.cursor == s.cursor ==> IntervalsLeft(s') == IntervalsLeft(s)
    ensures s.cursor < s'.cursor <= s.maxTimestamp ==> IntervalsLeft(s') == IntervalsLeft(s) - 1
  {
  }

  // The jobs that ExecJob adds weigh less than the job it ran.
  lemma ExecShrinks(table: seq<Event>, s: State, job: Job, answer: Answer)
    ensures var s' := ExecJob(table, s, job, answer);
            && IntervalsLeft(s') <= IntervalsLeft(s)
            && |s.jobs| <= |s'.jobs| && s'.jobs[..|s.jobs|] == s.jobs
            && TotalWeight(IntervalsLeft(s'), s'.jobs[|s.jobs|..], |table|) < Weight(IntervalsLeft(s), job, |table|)
  {
    hide Tree, Fetched, IntervalsLeft;
    var n, k := |table|, IntervalsLeft(s);
    var s' := ExecJob(table, s, job, answer);
    var k' := IntervalsLeft(s');
    WeightMonotone(k, k, job, n);
    IntervalTaken(s, s');
    if Works(s, job) {
      var q := MAX_RETRIES - job.retriesPerformedSoFar;
      NextAdvances(table, s, job, answer);
      var next, retry := NextJob(table, s, job, answer), RetryJobs(s, job, answer);
      SpawnShrinks(k', next, retry, OffsetOf(job), q, n);
      assert s'.jobs[|s.jobs|..] == [next] + retry;
      if TakesNewInterval(job) {
        TreeMonotone(k', k', Remaining(n, 0), n, q, MAX_RETRIES, n);
      }
    } else {
      assert s'.jobs[|s.jobs|..] == [];
    }
  }

  lemma StepShrinks(table: seq<Event>, s: State, c: Choice)
    requires c.job < |s.jobs|
    ensures Potential(Step(table, s, c), |table|) < Potential(s, |table|)
  {
    hide Tree, Weight, ExecJob, IntervalsLeft, Between;
    var n, k := |table|, IntervalsLeft(s);
    var before, job, after := s.jobs[..c.job], s.jobs[c.job], s.jobs[c.job + 1..];
    var s1 := s.(jobs := before + after);
    var s' := Step(table, s, c);
    var k' := IntervalsLeft(s');
    IntervalTaken(s, s1);
    ExecShrinks(table, s1, job, c.answer);
    assert s.jobs == before + ([job] + after);
    assert ([job] + after)[1..] == after;
    assert TotalWeight(k, [job] + after, n) == Weight(k, job, n) + TotalWeight(k, after, n);
    TotalWeightAppend(k, before, [job] + after, n);
    TotalWeightAppend(k, before, after, n);
    assert s'.jobs == s1.jobs + s'.jobs[|s1.jobs|..];
    TotalWeightAppend(k', s1.jobs, s'.jobs[|s1.jobs|..], n);
    TotalWeightMonotone(k', k, s1.jobs, n);
  }

  // However the adversary chooses, no run is longer than this bound, which is known when it starts.
  lemma {:induction false} EveryRunEnds(table: seq<Event>, s: State, choices: seq<Choice>)
    requires Possible(table, s, choices)
    ensures |choices| + Potential(Run(table, s, choices), |table|) <= Potential(s, |table|)
    decreases |choices|
  {
    if choices != [] {
      StepShrinks(table, s, choices[0]);
      EveryRunEnds(table, Step(table, s, choices[0]), choices[1..]);
    }
  }

  // ----- a page is attempted again only after a failure that is retried -----

  // The job hands the page of an interval to exportEvents, or fails to fetch it.
  predicate Attempts(s: State, job: Job, cursor: int, offset: nat) {
    Works(s, job) && CursorOf(s, job) == cursor && OffsetOf(job) == offset
  }

  ghost function CountAttempts(table: seq<Event>, s: State, choices: seq<Choice>, cursor: int, offset: nat): nat
    requires Possible(table, s, choices)
    decreases |choices|
  {
    if choices == [] then 0
    else
      (if Attempts(s, s.jobs[choices[0].job], cursor, offset) then 1 else 0)
      + CountAttempts(table, Step(table, s, choices[0]), choices[1..], cursor, offset)
  }

  // An attempt at this page, or at an earlier one of the interval, ends with a failed query or a RetryError.
  predicate FailsUpTo(s: State, c: Choice, cursor: int, offset: nat)
    requires c.job < |s.jobs|
  {
    var job := s.jobs[c.job];
    Works(s, job) && CursorOf(s, job) == cursor && OffsetOf(job) <= offset && (c.answer.FetchFails? || c.answer.Retry?)
  }

  ghost function CountFailures(table: seq<Event>, s: State, choices: seq<Choice>, cursor: int, offset: nat): nat
    requires Possible(table, s, choices)
    decreases |choices|
  {
    if choices == [] then 0
    else
      (if FailsUpTo(s, choices[0], cursor, offset) then 1 else 0)
      + CountFailures(table, Step(table, s, choices[0]), choices[1..], cursor, offset)
  }

  // A queued job that is to work on this page or on an earlier one of the interval.
  predicate Awaits(job: Job, cursor: int, offset: nat) {
    !TakesNewInterval(job) && job.timestampCursor.value == cursor && job.intraIntervalOffset <= offset
  }

  function CountAwaiting(jobs: seq<Job>, cursor: int, offset: nat): nat {
    if jobs == [] then 0
    else (if Awaits(jobs[0], cursor, offset) then 1 else 0) + CountAwaiting(jobs[1..], cursor, offset)
  }

  lemma {:induction false} AwaitingAppend(a: seq<Job>, b: seq<Job>, cursor: int, offset: nat)
    ensures CountAwaiting(a + b, cursor, offset) == CountAwaiting(a, cursor, offset) + CountAwaiting(b, cursor, offset)
  {
    if a == [] {
      assert a + b == b;
    } else {
      assert (a + b)[1..] == a[1..] + b;
      AwaitingAppend(a[1..], b, cursor, offset);
    }
  }

  // Jobs in the queue for the page, and one more as long as the interval is not claimed.
  function Credit(s: State, cursor: int, offset: nat): nat {
    CountAwaiting(s.jobs, cursor, offset) + if s.cursor < cursor then 1 else 0
  }

  lemma SpawnedAwaiting(next: Job, retry: seq<Job>, cursor: int, offset: nat)
    requires |retry| <= 1
    ensures CountAwaiting([next] + retry, cursor, offset)
         == (if Awaits(next, cursor, offset) then 1 else 0)
            + if retry != [] && Awaits(retry[0], cursor, offset) then 1 else 0
  {
    assert ([next] + retry)[1..] == retry;
    if retry != [] {
      assert retry[1..] == [];
    }
  }

  // What one job adds and uses up.
  lemma ExecEarns(table: seq<Event>, s: State, job: Job, answer: Answer, cursor: int, offset: nat)
    ensures var s' := ExecJob(table, s, job, answer);
            var failed := Works(s, job) && CursorOf(s, job) == cursor && OffsetOf(job) <= offset
                          && (answer.FetchFails? || answer.Retry?);
            (if Attempts(s, job, cursor, offset) then 1 else 0) + Credit(s', cursor, offset)
            <= Credit(s, cursor, offset) + (if Awaits(job, cursor, offset) then 1 else 0) + if failed then 1 else 0
  {
    hide Fetched;
    var s' := ExecJob(table, s, job, answer);
    if Works(s, job) {
      var next, retry := NextJob(table, s, job, answer), RetryJobs(s, job, answer);
      AwaitingAppend(s.jobs, [next] + retry, cursor, offset);
      SpawnedAwaiting(next, retry, cursor, offset);
      hide CountAwaiting;
      assert s'.jobs == s.jobs + ([next] + retry);
    }
  }

  lemma StepEarns(table: seq<Event>, s: State, c: Choice, cursor: int, offset: nat)
    requires c.job < |s.jobs|
    ensures (if Attempts(s, s.jobs[c.job], cursor, offset) then 1 else 0)
            + Credit(Step(table, s, c), cursor, offset)
            <= Credit(s, cursor, offset) + if FailsUpTo(s, c, cursor, offset) then 1 else 0
  {
    hide ExecJob, Awaits, TakesNewInterval;
    var before, job, after := s.jobs[..c.job], s.jobs[c.job], s.jobs[c.job + 1..];
    ExecEarns(table, s.(jobs := before + after), job, c.answer, cursor, offset);
    assert s.jobs == before + ([job] + after);
    assert ([job] + after)[1..] == after;
    AwaitingAppend(before, [job] + after, cursor, offset);
    AwaitingAppend(before, after, cursor, offset);
  }

  lemma {:induction false} AttemptsAreEarned(table: seq<Event>, s: State, choices: seq<Choice>, cursor: int, offset: nat)
    requires Possible(table, s, choices)
    ensures CountAttempts(table, s, choices, cursor, offset)
            <= Credit(s, cursor, offset) + CountFailures(table, s, choices, cursor, offset)
    decreases |choices|
  {
    if choices != [] {
      StepEarns(table, s, choices[0], cursor, offset);
      hide Step, Attempts, FailsUpTo, Credit;
      AttemptsAreEarned(table, Step(table, s, choices[0]), choices[1..], cursor, offset);
    }
  }

  // Over every run: the attempts at a page are at most one more than the failed queries and RetryErrors at it and at
  // earlier pages of its interval.  (A page that is tried again leads to the next page again.)  Any other error, and
  // a batch that was delivered, leads to no further attempt.
  lemma RetriesAreEarned(table: seq<Event>, min: int, max: int, choices: seq<Choice>, cursor: int, offset: nat)
    requires Possible(table, Start(min, max), choices)
    ensures CountAttempts(table, Start(min, max), choices, cursor, offset)
            <= 1 + CountFailures(table, Start(min, max), choices, cursor, offset)
  {
    AttemptsAreEarned(table, Start(min, max), choices, cursor, offset);
    var jobs := Start(min, max).jobs;
    assert jobs[1..] == [] && CountAwaiting([], cursor, offset) == 0;
    assert CountAwaiting(jobs, cursor, offset) == 0;
  }

  // ----- giving up -----

  predicate IsRetried(s: State, c: Choice)
    requires c.job < |s.jobs|
  {
    Works(s, s.jobs[c.job]) && (c.answer == FetchFails || c.answer == Retry)
  }

  ghost function CountRetried(table: seq<Event>, s: State, choices: seq<Choice>): nat
    requires Possible(table, s, choices)
    decreases |choices|
  {
    if choices == [] then 0
    else (if IsRetried(s, choices[0]) then 1 else 0) + CountRetried(table, Step(table, s, choices[0]), choices[1..])
  }

  // No job has more retries than there were failures, and none more than 15.
  ghost predicate RetriesWithin(s: State, failures: nat) {
    && (forall job <- s.jobs :: job.retriesPerformedSoFar <= failures && job.retriesPerformedSoFar <= 15)
    && (s.dropped ==> failures >= 15)
  }

  lemma StepRetriesWithin(table: seq<Event>, s: State, c: Choice, failures: nat)
    requires c.job < |s.jobs| && RetriesWithin(s, failures)
    ensures RetriesWithin(Step(table, s, c), failures + if IsRetried(s, c) then 1 else 0)
  {
    hide Fetched;
    var job := s.jobs[c.job];
    assert job in s.jobs;
    var s1 := s.(jobs := s.jobs[..c.job] + s.jobs[c.job + 1..]);
    var s' := Step(table, s, c);
    forall next <- s'.jobs
      ensures next.retriesPerformedSoFar <= failures + (if IsRetried(s, c) then 1 else 0)
      ensures next.retriesPerformedSoFar <= 15
    {
      assert next in s.jobs || next == NextJob(table, s1, job, c.answer) || next in RetryJobs(s1, job, c.answer);
    }
  }

  lemma {:induction false} RunRetriesWithin(table: seq<Event>, s: State, choices: seq<Choice>, failures: nat)
    requires Possible(table, s, choices) && RetriesWithin(s, failures)
    ensures RetriesWithin(Run(table, s, choices), failures + CountRetried(table, s, choices))
    decreases |choices|
  {
    hide Step, RetriesWithin, IsRetried;
    if choices != [] {
      StepRetriesWithin(table, s, choices[0], failures);
      var more := failures + if IsRetried(s, choices[0]) then 1 else 0;
      RunRetriesWithin(table, Step(table, s, choices[0]), choices[1..], more);
    }
  }

  // Over every run: no job is retried more than 15 times, and none is given up before 15 failures.
  lemma GivesUpAfter15(table: seq<Event>, min: int, max: int, choices: seq<Choice>)
    requires Possible(table, Start(min, max), choices)
    ensures var s := Run(table, Start(min, max), choices);
            && (forall job <- s.jobs :: job.retriesPerformedSoFar <= 15)
            && (s.dropped ==> CountRetried(table, Start(min, max), choices) >= 15)
  {
    RunRetriesWithin(table, Start(min, max), choices, 0);
  }

  // ----- a page is attempted only after the page before it gave events -----

  // An attempt at this page that fetches events.
  predicate FetchesEvents(table: seq<Event>, s: State, c: Choice, cursor: int, offset: nat)
    requires c.job < |s.jobs|
  {
    && Attempts(s, s.jobs[c.job], cursor, offset) && c.answer != FetchFails
    && FetchEventsForInterval(table, cursor, offset) != []
  }

  // An attempt at this page that is retried.
  predicate FailsAt(s: State, c: Choice, cursor: int, offset: nat)
    requires c.job < |s.jobs|
  {
    Attempts(s, s.jobs[c.job], cursor, offset) && (c.answer == FetchFails || c.answer == Retry)
  }

  ghost function CountFetches(table: seq<Event>, s: State, choices: seq<Choice>, cursor: int, offset: nat): nat
    requires Possible(table, s, choices)
    decreases |choices|
  {
    if choices == [] then 0
    else
      (if FetchesEvents(table, s, choices[0], cursor, offset) then 1 else 0)
      + CountFetches(table, Step(table, s, choices[0]), choices[1..], cursor, offset)
  }

  ghost function CountFailuresAt(table: seq<Event>, s: State, choices: seq<Choice>, cursor: int, offset: nat): nat
    requires Possible(table, s, choices)
    decreases |choices|
  {
    if choices == [] then 0
    else
      (if FailsAt(s, choices[0], cursor, offset) then 1 else 0)
      + CountFailuresAt(table, Step(table, s, choices[0]), choices[1..], cursor, offset)
  }

  predicate IsFor(job: Job, cursor: int, offset: nat) {
    !TakesNewInterval(job) && job.timestampCursor.value == cursor && job.intraIntervalOffset == offset
  }

  function CountFor(jobs: seq<Job>, cursor: int, offset: nat): nat {
    if jobs == [] then 0 else (if IsFor(jobs[0], cursor, offset) then 1 else 0) + CountFor(jobs[1..], cursor, offset)
  }

  lemma {:induction false} ForAppend(a: seq<Job>, b: seq<Job>, cursor: int, offset: nat)
    ensures CountFor(a + b, cursor, offset) == CountFor(a, cursor, offset) + CountFor(b, cursor, offset)
  {
    if a == [] {
      assert a + b == b;
    } else {
      assert (a + b)[1..] == a[1..] + b;
      ForAppend(a[1..], b, cursor, offset);
    }
  }

  lemma SpawnedFor(next: Job, retry: seq<Job>, cursor: int, offset: nat)
    requires |retry| <= 1
    ensures CountFor([next] + retry, cursor, offset)
         == (if IsFor(next, cursor, offset) then 1 else 0) + if retry != [] && IsFor(retry[0], cursor, offset) then 1 else 0
  {
    assert ([next] + retry)[1..] == retry;
    if retry != [] {
      assert retry[1..] == [];
    }
  }

  lemma ExecLeadsOn(table: seq<Event>, s: State, job: Job, answer: Answer, cursor: int, offset: nat)
    ensures var s' := ExecJob(table, s, job, answer);
            var next := offset + EVENTS_PER_RUN;
            var fetches := Attempts(s, job, cursor, offset) && answer != FetchFails
                           && FetchEventsForInterval(table, cursor, offset) != [];
            var fails := Attempts(s, job, cursor, next) && (answer == FetchFails || answer == Retry);
            (if Attempts(s, job, cursor, next) then 1 else 0) + CountFor(s'.jobs, cursor, next)
            <= CountFor(s.jobs, cursor, next) + (if IsFor(job, cursor, next) then 1 else 0)
               + (if fetches then 1 else 0) + if fails then 1 else 0
  {
    hide FetchEventsForInterval;
    var s' := ExecJob(table, s, job, answer);
    if Works(s, job) {
      var next, retry := NextJob(table, s, job, answer), RetryJobs(s, job, answer);
      ForAppend(s.jobs, [next] + retry, cursor, offset + EVENTS_PER_RUN);
      SpawnedFor(next, retry, cursor, offset + EVENTS_PER_RUN);
      hide CountFor;
      assert s'.jobs == s.jobs + ([next] + retry);
    }
  }

  lemma StepLeadsOn(table: seq<Event>, s: State, c: Choice, cursor: int, offset: nat)
    requires c.job < |s.jobs|
    ensures var next := offset + EVENTS_PER_RUN;
            (if Attempts(s, s.jobs[c.job], cursor, next) then 1 else 0)
            + CountFor(Step(table, s, c).jobs, cursor, next)
            <= CountFor(s.jobs, cursor, next) + (if FetchesEvents(table, s, c, cursor, offset) then 1 else 0)
               + if FailsAt(s, c, cursor, next) then 1 else 0
  {
    hide ExecJob, IsFor, TakesNewInterval, FetchEventsForInterval;
    var before, job, after := s.jobs[..c.job], s.jobs[c.job], s.jobs[c.job + 1..];
    ExecLeadsOn(table, s.(jobs := before + after), job, c.answer, cursor, offset);
    assert s.jobs == before + ([job] + after);
    assert ([job] + after)[1..] == after;
    ForAppend(before, [job] + after, cursor, offset + EVENTS_PER_RUN);
    ForAppend(before, after, cursor, offset + EVENTS_PER_RUN);
  }

  lemma {:induction false} PagesLeadOn(table: seq<Event>, s: State, choices: seq<Choice>, cursor: int, offset: nat)
    requires Possible(table, s, choices)
    ensures CountAttempts(table, s, choices, cursor, offset + EVENTS_PER_RUN)
            <= CountFor(s.jobs, cursor, offset + EVENTS_PER_RUN) + CountFetches(table, s, choices, cursor, offset)
               + CountFailuresAt(table, s, choices, cursor, offset + EVENTS_PER_RUN)
    decreases |choices|
  {
    if choices != [] {
      StepLeadsOn(table, s, choices[0], cursor, offset);
      hide Step, Attempts, FetchesEvents, FailsAt, CountFor;
      PagesLeadOn(table, Step(table, s, choices[0]), choices[1..], cursor, offset);
    }
  }

  // Over every run: a page is attempted at most as often as the page before it gave events and it failed itself.
  // After a failed query, or a page without events, the export goes on with the next interval.
  lemma PagesFollowEvents(table: seq<Event>, min: int, max: int, choices: seq<Choice>, cursor: int, offset: nat)
    requires Possible(table, Start(min, max), choices)
    ensures CountAttempts(table, Start(min, max), choices, cursor, offset + 100)
            <= CountFetches(table, Start(min, max), choices, cursor, offset)
               + CountFailuresAt(table, Start(min, max), choices, cursor, offset + 100)
  {
    PagesLeadOn(table, Start(min, max), choices, cursor, offset);
    var jobs := Start(min, max).jobs;
    assert jobs[1..] == [] && CountFor([], cursor, offset + 100) == 0;
    assert CountFor(jobs, cursor, offset + 100) == 0;
  }

  // ----- at least once -----

  // The interval [ts, ts + 10 minutes) has been taken from the cursor.
  ghost predicate Claimed(s: State, min: int, ts: int) {
    min <= ts <= s.cursor && (ts - min) % EVENTS_TIME_INTERVAL == 0
  }

  ghost predicate IsPage(table: seq<Event>, ts: int, offset: nat) {
    offset % EVENTS_PER_RUN == 0 && offset < |EventsIn(table, ts)|
  }

  ghost predicate Exported(table: seq<Event>, s: State, ts: int, offset: nat) {
    Batch(ts, offset, FetchEventsForInterval(table, ts, offset)) in s.delivered
  }

  // Some queued job will get to the page: it continues in the same interval, at or before it.
  ghost predicate Pending(s: State, ts: int, offset: nat) {
    exists job :: job in s.jobs && !TakesNewInterval(job) && CursorOf(s, job) == ts && OffsetOf(job) <= offset
  }

  ghost predicate Covered(table: seq<Event>, s: State, ts: int, offset: nat) {
    Exported(table, s, ts, offset) || Pending(s, ts, offset)
  }

  ghost predicate JobOk(s: State, job: Job) {
    OffsetOf(job) % EVENTS_PER_RUN == 0 && (!TakesNewInterval(job) ==> CursorOf(s, job) <= s.maxTimestamp)
  }

  ghost predicate Inv(table: seq<Event>, s: State, min: int) {
    && min - EVENTS_TIME_INTERVAL <= s.cursor && (s.cursor - min) % EVENTS_TIME_INTERVAL == 0
    && (forall job <- s.jobs :: JobOk(s, job))
    && (forall ts, offset :: Claimed(s, min, ts) && ts <= s.maxTimestamp && IsPage(table, ts, offset) ==>
                               Covered(table, s, ts, offset))
    // while an interval is unclaimed, there is a job that leads to it
    && (s.cursor + EVENTS_TIME_INTERVAL <= s.maxTimestamp ==> s.jobs != [])
  }

  // None of the intervals starts at the timestamp 0, which the code takes for a missing cursor.
  predicate NoZeroCursor(min: int, max: int) {
    !(min <= 0 <= max && (0 - min) % EVENTS_TIME_INTERVAL == 0)
  }

  // A timestamp of 0 does no harm where there is nothing to export.
  predicate ZeroIsHarmless(table: seq<Event>, min: int, max: int) {
    NoZeroCursor(min, max) || EventsIn(table, 0) == []
  }

  // A job that runs delivers its page or leaves a job for it, and leaves a job for the later pages.
  lemma WorkCovers(table: seq<Event>, s: State, job: Job, answer: Answer, offset: nat)
    requires Works(s, job) && answer != OtherError && CursorOf(s, job) != 0
    requires IsPage(table, CursorOf(s, job), offset)
    requires OffsetOf(job) % EVENTS_PER_RUN == 0 && OffsetOf(job) <= offset
    ensures Covered(table, ExecJob(table, s, job, answer), CursorOf(s, job), offset)
  {
    var s' := ExecJob(table, s, job, answer);
    if answer == Delivered {
      if offset == OffsetOf(job) {
        assert s'.delivered[|s'.delivered| - 1] in s'.delivered;
      } else {
        assert OffsetOf(job) + EVENTS_PER_RUN <= offset;
        assert NextJob(table, s, job, answer) in s'.jobs;
      }
    } else {
      assert RetryJobs(s, job, answer)[0] in s'.jobs;
    }
  }

  lemma ExecExtends(table: seq<Event>, s: State, job: Job, answer: Answer)
    ensures var s' := ExecJob(table, s, job, answer);
            && s.jobs <= s'.jobs && s.delivered <= s'.delivered
            && s'.maxTimestamp == s.maxTimestamp
            && (s'.swallowed <==> s.swallowed || (Works(s, job) && answer == OtherError))
            && (s'.dropped <==> s.dropped || job.retriesPerformedSoFar >= MAX_RETRIES)
            && s'.cursor == (if job.retriesPerformedSoFar < MAX_RETRIES && TakesNewInterval(job)
                             then s.cursor + EVENTS_TIME_INTERVAL else s.cursor)
  {
  }

  lemma StepCovers(table: seq<Event>, s: State, c: Choice, min: int, ts: int, offset: nat)
    requires c.job < |s.jobs| && Inv(table, s, min) && ZeroIsHarmless(table, min, s.maxTimestamp)
    requires var s' := Step(table, s, c);
             !s'.dropped && !s'.swallowed && Claimed(s', min, ts) && ts <= s.maxTimestamp && IsPage(table, ts, offset)
    ensures Covered(table, Step(table, s, c), ts, offset)
  {
    hide ExecJob, EventsIn, FetchEventsForInterval;
    var job := s.jobs[c.job];
    var s1 := s.(jobs := s.jobs[..c.job] + s.jobs[c.job + 1..]);
    var s' := Step(table, s, c);
    ExecExtends(table, s1, job, c.answer);
    assert JobOk(s, job);
    assert ts != 0;
    if Claimed(s, min, ts) {
      assert Covered(table, s, ts, offset);
      if !Exported(table, s, ts, offset) {
        var j :| j in s.jobs && !TakesNewInterval(j) && CursorOf(s, j) == ts && OffsetOf(j) <= offset;
        if j == job {
          WorkCovers(table, s1, job, c.answer, offset);
        } else {
          assert j in s1.jobs && j in s'.jobs;
        }
      }
    } else {
      assert TakesNewInterval(job) && ts == CursorOf(s, job);
      WorkCovers(table, s1, job, c.answer, offset);
    }
  }

  lemma StepKeeps(table: seq<Event>, s: State, c: Choice, min: int)
    requires c.job < |s.jobs| && Inv(table, s, min) && ZeroIsHarmless(table, min, s.maxTimestamp)
    requires !Step(table, s, c).dropped && !Step(table, s, c).swallowed
    ensures Inv(table, Step(table, s, c), min)
  {
    var s' := Step(table, s, c);
    var job := s.jobs[c.job];
    assert JobOk(s, job);
    forall ts, offset | Claimed(s', min, ts) && ts <= s'.maxTimestamp && IsPage(table, ts, offset)
      ensures Covered(table, s', ts, offset)
    {
      StepCovers(table, s, c, min, ts, offset);
    }
    forall j | j in s'.jobs
      ensures JobOk(s', j)
    {
      if j in s.jobs {
        assert JobOk(s, j);
      }
    }
  }

  lemma {:induction false} FlagsStay(table: seq<Event>, s: State, choices: seq<Choice>)
    requires Possible(table, s, choices)
    ensures var s' := Run(table, s, choices);
            (s.dropped ==> s'.dropped) && (s.swallowed ==> s'.swallowed) && s'.maxTimestamp == s.maxTimestamp
    decreases |choices|
  {
    if choices != [] {
      FlagsStay(table, Step(table, s, choices[0]), choices[1..]);
    }
  }

  lemma {:induction false} RunKeeps(table: seq<Event>, s: State, choices: seq<Choice>, min: int)
    requires Possible(table, s, choices) && Inv(table, s, min) && ZeroIsHarmless(table, min, s.maxTimestamp)
    requires !Run(table, s, choices).dropped && !Run(table, s, choices).swallowed
    ensures Inv(table, Run(table, s, choices), min)
    decreases |choices|
  {
    if choices != [] {
      FlagsStay(table, Step(table, s, choices[0]), choices[1..]);
      StepKeeps(table, s, choices[0], min);
      RunKeeps(table, Step(table, s, choices[0]), choices[1..], min);
    }
  }

  // The end of the last interval that starts at or before max.
  function UpperBound(min: int, max: int): int {
    min + EVENTS_TIME_INTERVAL * ((max - min) / EVENTS_TIME_INTERVAL + 1)
  }

  lemma {:induction false} BetweenHas(table: seq<Event>, lo: int, hi: int, e: Event)
    ensures e in Between(table, lo, hi) <==> e in table && lo <= e.timestamp < hi
  {
    if table != [] {
      BetweenHas(table[..|table| - 1], lo, hi, e);
      assert table == table[..|table| - 1] + [table[|table| - 1]];
    }
  }

  lemma InSomePage(table: seq<Event>, ts: int, e: Event) returns (offset: nat)
    requires e in EventsIn(table, ts)
    ensures IsPage(table, ts, offset) && e in FetchEventsForInterval(table, ts, offset)
  {
    var events := EventsIn(table, ts);
    var i :| 0 <= i < |events| && events[i] == e;
    offset := i / EVENTS_PER_RUN * EVENTS_PER_RUN;
    assert FetchEventsForInterval(table, ts, offset)[i - offset] == e;
  }

  lemma IntervalOf(min: int, max: int, t: int) returns (ts: int)
    requires min <= t < UpperBound(min, max)
    ensures min <= ts <= t < ts + EVENTS_TIME_INTERVAL && ts <= max && (ts - min) % EVENTS_TIME_INTERVAL == 0
  {
    ts := min + (t - min) / EVENTS_TIME_INTERVAL * EVENTS_TIME_INTERVAL;
  }

  lemma AllClaimed(s: State, min: int, ts: int)
    requires (s.cursor - min) % EVENTS_TIME_INTERVAL == 0 && s.cursor + EVENTS_TIME_INTERVAL > s.maxTimestamp
    requires min <= ts <= s.maxTimestamp && (ts - min) % EVENTS_TIME_INTERVAL == 0
    ensures Claimed(s, min, ts)
  {
  }

  // Every run that finishes without a job giving up and without a swallowed error has delivered every
  // event of the whole range, whatever failed on the way.
  lemma EveryEventIsDelivered(table: seq<Event>, min: int, max: int, choices: seq<Choice>, e: Event)
    requires ZeroIsHarmless(table, min, max) && Possible(table, Start(min, max), choices)
    requires var end := Run(table, Start(min, max), choices);
             end.jobs == [] && !end.dropped && !end.swallowed
    requires e in table && min <= e.timestamp < UpperBound(min, max)
    ensures exists b <- Run(table, Start(min, max), choices).delivered :: e in b.events
  {
    hide Run, Possible, FetchEventsForInterval, Between, UpperBound;
    var s := Start(min, max);
    var end := Run(table, s, choices);
    RunKeeps(table, s, choices, min);
    FlagsStay(table, s, choices);
    var ts := IntervalOf(min, max, e.timestamp);
    BetweenHas(table, ts, ts + EVENTS_TIME_INTERVAL, e);
    var offset := InSomePage(table, ts, e);
    AllClaimed(end, min, ts);
    assert Covered(table, end, ts, offset);
    var b := Batch(ts, offset, FetchEventsForInterval(table, ts, offset));
    assert b in end.delivered && e in b.events;
  }

  // ----- and only then -----

  ghost predicate AwayFromZero(table: seq<Event>, b: Batch) {
    && (b.cursor <= -EVENTS_TIME_INTERVAL || EVENTS_TIME_INTERVAL <= b.cursor)
    && b.events == FetchEventsForInterval(table, b.cursor, b.offset)
  }

  // One job on its way to the interval at 0, or any number of jobs past it.
  ghost predicate Approaching(s: State) {
    && s.cursor < 0 <= s.maxTimestamp && s.cursor % EVENTS_TIME_INTERVAL == 0
    && |s.jobs| == 1 && s.jobs[0].retriesPerformedSoFar == 0
    && (!TakesNewInterval(s.jobs[0]) ==> CursorOf(s, s.jobs[0]) <= s.cursor)
  }

  ghost predicate Passed(s: State) {
    && 0 <= s.cursor && s.cursor % EVENTS_TIME_INTERVAL == 0
    && forall job <- s.jobs :: job.retriesPerformedSoFar <= 1
                               && (!TakesNewInterval(job) ==> EVENTS_TIME_INTERVAL <= CursorOf(s, job))
  }

  ghost predicate Escaping(table: seq<Event>, s: State) {
    && (Approaching(s) || Passed(s))
    && !s.dropped && !s.swallowed
    && forall b <- s.delivered :: AwayFromZero(table, b)
  }

  lemma StepDelivers(table: seq<Event>, s: State, c: Choice)
    requires c.job < |s.jobs| && (forall b <- s.delivered :: AwayFromZero(table, b))
    requires c.answer == Delivered && Works(s, s.jobs[c.job]) ==>
               CursorOf(s, s.jobs[c.job]) <= -EVENTS_TIME_INTERVAL || EVENTS_TIME_INTERVAL <= CursorOf(s, s.jobs[c.job])
    ensures forall b <- Step(table, s, c).delivered :: AwayFromZero(table, b)
  {
    hide FetchEventsForInterval;
  }

  lemma ApproachStep(table: seq<Event>, s: State) returns (c: Choice)
    requires Approaching(s) && Escaping(table, s)
    ensures c.job < |s.jobs| && Escaping(table, Step(table, s, c))
  {
    hide FetchEventsForInterval, AwayFromZero;
    var job := s.jobs[0];
    c := Choice(0, if TakesNewInterval(job) && s.cursor + EVENTS_TIME_INTERVAL == 0 then FetchFails else Delivered);
    StepDelivers(table, s, c);
    assert Step(table, s, c).jobs == [NextJob(table, s, job, c.answer)] + RetryJobs(s, job, c.answer);
  }

  // A job that delivers leaves at most its successor, which stays in its interval or moves on.
  lemma DeliveredJobs(table: seq<Event>, s: State, job: Job)
    ensures var s', next := ExecJob(table, s, job, Delivered), NextJob(table, s, job, Delivered);
            && (s'.jobs == s.jobs || s'.jobs == s.jobs + [next])
            && next.retriesPerformedSoFar == 0 && next.timestampCursor == Some(CursorOf(s, job))
            && s'.cursor == (if job.retriesPerformedSoFar < MAX_RETRIES && TakesNewInterval(job)
                             then s.cursor + EVENTS_TIME_INTERVAL else s.cursor)
            && (job.retriesPerformedSoFar < MAX_RETRIES ==> s'.dropped == s.dropped)
            && s'.swallowed == s.swallowed
  {
    hide FetchEventsForInterval;
  }

  lemma PassedExec(table: seq<Event>, s: State, job: Job)
    requires Passed(s) && job.retriesPerformedSoFar <= 1
    requires !TakesNewInterval(job) ==> EVENTS_TIME_INTERVAL <= CursorOf(s, job)
    ensures Passed(ExecJob(table, s, job, Delivered))
  {
    hide ExecJob, NextJob;
    DeliveredJobs(table, s, job);
  }

  lemma PassedStep(table: seq<Event>, s: State) returns (c: Choice)
    requires Passed(s) && Escaping(table, s) && s.jobs != []
    ensures c.job < |s.jobs| && Escaping(table, Step(table, s, c))
  {
    hide ExecJob, AwayFromZero, Approaching;
    var job := s.jobs[0];
    assert job in s.jobs;
    c := Choice(0, Delivered);
    StepDelivers(table, s, c);
    var s1 := s.(jobs := s.jobs[..0] + s.jobs[1..]);
    assert forall j <- s1.jobs :: j in s.jobs;
    PassedExec(table, s1, job);
    DeliveredJobs(table, s1, job);
  }

  lemma EscapeStep(table: seq<Event>, s: State) returns (c: Choice)
    requires Escaping(table, s) && s.jobs != []
    ensures c.job < |s.jobs| && Escaping(table, Step(table, s, c))
  {
    hide Step, Escaping;
    if Approaching(s) {
      c := ApproachStep(table, s);
    } else {
      ItPassed(table, s);
      c := PassedStep(table, s);
    }
  }

  lemma ItPassed(table: seq<Event>, s: State)
    requires Escaping(table, s) && !Approaching(s)
    ensures Passed(s)
  {
  }

  // A run that fails once, at the interval that starts at 0, and then finishes without delivering it.
  lemma {:induction false} Escape(table: seq<Event>, s: State) returns (choices: seq<Choice>)
    requires Escaping(table, s)
    ensures Possible(table, s, choices)
    ensures var end := Run(table, s, choices); end.jobs == [] && Escaping(table, end)
    decreases Potential(s, |table|)
  {
    if s.jobs == [] {
      choices := [];
    } else {
      var c := EscapeStep(table, s);
      StepShrinks(table, s, c);
      var rest := Escape(table, Step(table, s, c));
      choices := [c] + rest;
      assert choices[1..] == rest;
    }
  }

  ghost predicate DeliversAll(table: seq<Event>, min: int, max: int, end: State) {
    forall e :: e in table && min <= e.timestamp < UpperBound(min, max) ==> exists b <- end.delivered :: e in b.events
  }

  // At-least-once delivery holds of every clean run exactly when no non-empty interval starts at 0.
  lemma AtLeastOnceExactly(table: seq<Event>, min: int, max: int)
    ensures (forall choices :: Possible(table, Start(min, max), choices) ==>
                                 var end := Run(table, Start(min, max), choices);
                                 end.jobs == [] && !end.dropped && !end.swallowed ==> DeliversAll(table, min, max, end))
            <==> ZeroIsHarmless(table, min, max)
  {
    if ZeroIsHarmless(table, min, max) {
      forall choices | Possible(table, Start(min, max), choices)
        ensures var end := Run(table, Start(min, max), choices);
                end.jobs == [] && !end.dropped && !end.swallowed ==> DeliversAll(table, min, max, end)
      {
        var end := Run(table, Start(min, max), choices);
        if end.jobs == [] && !end.dropped && !end.swallowed {
          forall e | e in table && min <= e.timestamp < UpperBound(min, max)
            ensures exists b <- end.delivered :: e in b.events
          {
            EveryEventIsDelivered(table, min, max, choices, e);
          }
        }
      }
    } else {
      var choices := Escape(table, Start(min, max));
      ZeroIsMissed(table, min, max, Run(table, Start(min, max), choices));
    }
  }

  lemma ZeroIsMissed(table: seq<Event>, min: int, max: int, end: State)
    requires !ZeroIsHarmless(table, min, max) && Escaping(table, end)
    ensures !DeliversAll(table, min, max, end)
  {
    var e := EventsIn(table, 0)[0];
    BetweenHas(table, 0, EVENTS_TIME_INTERVAL, e);
    assert e.timestamp < UpperBound(min, max);
    forall b | b in end.delivered
      ensures e !in b.events
    {
      assert AwayFromZero(table, b);
      BetweenHas(table, b.cursor, b.cursor + EVENTS_TIME_INTERVAL, e);
    }
  }

  // ----- exactly once -----

  // What a failure-free run delivers for one interval, and for all intervals from ts on.
  function Delivery(table: seq<Event>, ts: int): seq<Event> {
    if ts == 0 then FetchEventsForInterval(table, 0, 0) else EventsIn(table, ts)
  }

  function DeliveryFrom(table: seq<Event>, ts: int, max: int): seq<Event>
    decreases max - ts
  {
    if ts > max then [] else Delivery(table, ts) + DeliveryFrom(table, ts + EVENTS_TIME_INTERVAL, max)
  }

  function Flatten(batches: seq<Batch>): seq<Event> {
    if batches == [] then [] else Flatten(batches[..|batches| - 1]) + batches[|batches| - 1].events
  }

  lemma FlattenOne(batches: seq<Batch>, b: Batch)
    ensures Flatten(batches + [b]) == Flatten(batches) + b.events
  {
    assert (batches + [b])[..|batches|] == batches;
  }

  // The only events that are left out: those after the first page of an interval that starts at 0.
  function Missing(table: seq<Event>, min: int, max: int): seq<Event> {
    if NoZeroCursor(min, max) || |EventsIn(table, 0)| <= EVENTS_PER_RUN then []
    else EventsIn(table, 0)[EVENTS_PER_RUN..]
  }

  lemma {:induction false} BetweenSplits(table: seq<Event>, lo: int, mid: int, hi: int)
    requires lo <= mid <= hi
    ensures multiset(Between(table, lo, hi)) == multiset(Between(table, lo, mid)) + multiset(Between(table, mid, hi))
  {
    if table != [] {
      BetweenSplits(table[..|table| - 1], lo, mid, hi);
    }
  }

  lemma {:induction false} BetweenEmpty(table: seq<Event>, lo: int, hi: int)
    requires hi <= lo
    ensures Between(table, lo, hi) == []
  {
    if table != [] {
      BetweenEmpty(table[..|table| - 1], lo, hi);
    }
  }

  lemma UpperBoundNext(min: int, max: int)
    requires min <= max
    ensures UpperBound(min + EVENTS_TIME_INTERVAL, max) == UpperBound(min, max)
    ensures min + EVENTS_TIME_INTERVAL <= UpperBound(min, max)
  {
    assert (max - min) / EVENTS_TIME_INTERVAL == (max - (min + EVENTS_TIME_INTERVAL)) / EVENTS_TIME_INTERVAL + 1;
  }

  lemma MissingNext(table: seq<Event>, min: int, max: int)
    requires min <= max
    ensures var next := min + EVENTS_TIME_INTERVAL;
            if min == 0 then
              Missing(table, next, max) == [] && EventsIn(table, 0) == Delivery(table, 0) + Missing(table, min, max)
            else Missing(table, next, max) == Missing(table, min, max) && EventsIn(table, min) == Delivery(table, min)
  {
    hide Between;
  }

  lemma {:induction false} DeliveryIsRange(table: seq<Event>, min: int, max: int)
    ensures multiset(DeliveryFrom(table, min, max)) + multiset(Missing(table, min, max))
         == multiset(Between(table, min, UpperBound(min, max)))
    decreases max - min
  {
    hide Between, UpperBound, Missing, Delivery;
    if min > max {
      assert UpperBound(min, max) <= min && Missing(table, min, max) == [] by { NothingToDeliver(table, min, max); }
      BetweenEmpty(table, min, UpperBound(min, max));
    } else {
      var next := min + EVENTS_TIME_INTERVAL;
      DeliveryIsRange(table, next, max);
      UpperBoundNext(min, max);
      BetweenSplits(table, min, next, UpperBound(min, max));
      MissingNext(table, min, max);
      assert multiset(DeliveryFrom(table, min, max))
          == multiset(Delivery(table, min)) + multiset(DeliveryFrom(table, next, max));
    }
  }

  lemma NothingToDeliver(table: seq<Event>, min: int, max: int)
    requires max < min
    ensures UpperBound(min, max) <= min && Missing(table, min, max) == []
  {
  }

  // A failure-free run delivers the events of the range exactly once each if and only if no interval
  // that starts at the timestamp 0 holds more than one page.
  lemma ExactlyOnce(table: seq<Event>, min: int, max: int)
    ensures multiset(DeliveryFrom(table, min, max)) == multiset(Between(table, min, UpperBound(min, max)))
            <==> NoZeroCursor(min, max) || |EventsIn(table, 0)| <= EVENTS_PER_RUN
  {
    DeliveryIsRange(table, min, max);
    if Missing(table, min, max) != [] {
      assert |multiset(Missing(table, min, max))| > 0;
    }
  }

  // ----- the job as the plugin server runs it -----

  class HistoricalExport {
    const table: seq<Event>
    // plugin storage
    var timestampCursor: int
    var maxTimestamp: int
    var isExportRunning: bool
    // the job queue, and what happened so far
    var jobs: seq<Job>
    var delivered: seq<Batch>
    var dropped: bool
    var swallowed: bool

    function Current(): State
      reads this
    {
      State(timestampCursor, maxTimestamp, isExportRunning, jobs, delivered, dropped, swallowed)
    }

    // The interface job, with boundaries already determined (lines 63-82, 182-223).
    constructor (table: seq<Event>, min: int, max: int)
      ensures this.table == table && Current() == Start(min, max)
      ensures isExportRunning && timestampCursor == min - 600_000 && maxTimestamp == max && |jobs| == 1
    {
      this.table := table;
      isExportRunning := true;
      timestampCursor := min - EVENTS_TIME_INTERVAL;
      maxTimestamp := max;
      jobs := [Job(None, 0, 0, true)];
      delivered, dropped, swallowed := [], false, false;
    }

    method ExportEventsFromTheBeginning(payload: Job, answer: Answer)
      modifies this
      ensures Current() == ExecJob(table, old(Current()), payload, answer)
    {
      if payload.retriesPerformedSoFar >= 15 {
        dropped := true;
        return;
      }
      var cursor := payload.timestampCursor;
      var intraIntervalOffset := payload.intraIntervalOffset;
      if payload.incrementTimestampCursor || cursor.None? || cursor.value == 0 {
        intraIntervalOffset := 0;
        timestampCursor := timestampCursor + EVENTS_TIME_INTERVAL;
        cursor := Some(timestampCursor);
      }
      if cursor.value > maxTimestamp {
        isExportRunning := false;
        return;
      }
      var events := [];
      if answer != FetchFails {
        events := FetchEventsForInterval(table, cursor.value, intraIntervalOffset);
      }
      var incrementTimestampCursor := |events| == 0;
      jobs := jobs + [Job(cursor, intraIntervalOffset + EVENTS_PER_RUN, 0, incrementTimestampCursor)];
      if answer == Delivered {
        delivered := delivered + [Batch(cursor.value, intraIntervalOffset, events)];
      }
      if answer == OtherError {
        swallowed := true;
      }
      if answer == FetchFails || answer == Retry {
        jobs := jobs + [Job(cursor, intraIntervalOffset, payload.retriesPerformedSoFar + 1, false)];
      }
      assert jobs == ExecJob(table, old(Current()), payload, answer).jobs;
    }

    // A whole run in which nothing fails: one job at a time, until the queue is empty.
    method RunWithoutFailures(ghost min: int)
      requires Current() == Start(min, maxTimestamp)
      modifies this
      ensures jobs == [] && !isExportRunning && !dropped && !swallowed
      ensures Flatten(delivered) == DeliveryFrom(table, min, old(maxTimestamp))
    {
      hide Tree, Between, StillToDeliver, DeliveryFrom, Flatten, Potential, ExecJob;
      ghost var max := maxTimestamp;
      EverythingStillToDeliver(table, min, max);
      while jobs != []
        invariant maxTimestamp == max && !dropped && !swallowed
        invariant jobs == [] ==> !isExportRunning && Flatten(delivered) == DeliveryFrom(table, min, max)
        invariant jobs != [] ==>
                    && |jobs| == 1 && jobs[0].retriesPerformedSoFar == 0
                    && (!TakesNewInterval(jobs[0]) ==> CursorOf(Current(), jobs[0]) <= max)
                    && Flatten(delivered) + StillToDeliver(table, Current(), jobs[0]) == DeliveryFrom(table, min, max)
        decreases Potential(Current(), |table|)
      {
        ghost var before := Current();
        var job := jobs[0];
        jobs := jobs[1..];
        StepShrinks(table, before, Choice(0, Delivered));
        assert before.jobs[..0] + before.jobs[1..] == jobs;
        StillDelivers(table, Current(), job);
        SameStillToDeliver(table, before, Current(), job);
        ExecKeepsQuiet(table, Current(), job);
        ExportEventsFromTheBeginning(job, Delivered);
      }
    }
  }

  function Rest<T>(rows: seq<T>, offset: nat): seq<T> {
    if offset <= |rows| then rows[offset..] else []
  }

  lemma PageAndRest<T>(rows: seq<T>, offset: nat)
    ensures Rest(rows, offset) == Page(rows, offset) + Rest(rows, offset + EVENTS_PER_RUN)
    ensures Page(rows, offset) == [] <==> Rest(rows, offset) == []
    ensures Rest(rows, 0) == rows
  {
  }

  // What a failure-free run has yet to deliver when job is the only one left.
  ghost function StillToDeliver(table: seq<Event>, s: State, job: Job): seq<Event> {
    var later := DeliveryFrom(table, s.cursor + EVENTS_TIME_INTERVAL, s.maxTimestamp);
    if TakesNewInterval(job) then later
    else
      Rest(EventsIn(table, CursorOf(s, job)), OffsetOf(job)) + later
  }

  lemma StillDelivers(table: seq<Event>, s: State, job: Job)
    requires job.retriesPerformedSoFar == 0 && s.jobs == []
    requires !TakesNewInterval(job) ==> CursorOf(s, job) <= s.maxTimestamp
    ensures var s' := ExecJob(table, s, job, Delivered);
            if s'.jobs == [] then
              s'.delivered == s.delivered && StillToDeliver(table, s, job) == [] && !s'.isRunning
            else
              && |s'.jobs| == 1
              && Flatten(s'.delivered) + StillToDeliver(table, s', s'.jobs[0])
                 == Flatten(s.delivered) + StillToDeliver(table, s, job)
  {
    hide StillToDeliver, Fetched, Flatten;
    if !Works(s, job) {
      NothingStillToDeliver(table, s, job);
    } else {
      var s' := ExecJob(table, s, job, Delivered);
      var page, next := Fetched(table, s, job, Delivered), NextJob(table, s, job, Delivered);
      FlattenOne(s.delivered, Batch(CursorOf(s, job), OffsetOf(job), page));
      PageThenRest(table, s, job);
      assert s'.jobs == [next];
      SameStillToDeliver(table, s', s.(cursor := s'.cursor), next);
      assert Flatten(s.delivered) + page + StillToDeliver(table, s', next)
          == Flatten(s.delivered) + (page + StillToDeliver(table, s', next));
    }
  }

  // A job that succeeds changes nothing else and leaves a job that is ready to succeed.
  lemma ExecKeepsQuiet(table: seq<Event>, s: State, job: Job)
    requires job.retriesPerformedSoFar == 0 && s.jobs == []
    ensures var s' := ExecJob(table, s, job, Delivered);
            && s'.maxTimestamp == s.maxTimestamp && s'.dropped == s.dropped && s'.swallowed == s.swallowed
            && forall j <- s'.jobs :: j.retriesPerformedSoFar == 0
                                      && (!TakesNewInterval(j) ==> CursorOf(s', j) <= s.maxTimestamp)
  {
  }

  lemma EverythingStillToDeliver(table: seq<Event>, min: int, max: int)
    ensures Flatten([]) + StillToDeliver(table, Start(min, max), Start(min, max).jobs[0]) == DeliveryFrom(table, min, max)
  {
  }

  lemma NothingStillToDeliver(table: seq<Event>, s: State, job: Job)
    requires TakesNewInterval(job) && s.maxTimestamp < CursorOf(s, job)
    ensures StillToDeliver(table, s, job) == []
  {
  }

  lemma SameStillToDeliver(table: seq<Event>, s: State, s': State, job: Job)
    requires s.cursor == s'.cursor && s.maxTimestamp == s'.maxTimestamp
    ensures StillToDeliver(table, s, job) == StillToDeliver(table, s', job)
  {
  }

  lemma PageThenRest(table: seq<Event>, s: State, job: Job)
    requires Works(s, job)
    ensures var s' := s.(cursor := if TakesNewInterval(job) then CursorOf(s, job) else s.cursor);
            StillToDeliver(table, s, job) ==
            Fetched(table, s, job, Delivered) + StillToDeliver(table, s', NextJob(table, s, job, Delivered))
  {
    hide EventsIn, Page, Rest, DeliveryFrom;
    var ts, offset := CursorOf(s, job), OffsetOf(job);
    var s' := s.(cursor := if TakesNewInterval(job) then ts else s.cursor);
    var later := DeliveryFrom(table, s'.cursor + EVENTS_TIME_INTERVAL, s.maxTimestamp);
    var events := EventsIn(table, ts);
    PageAndRest(events, offset);
    if TakesNewInterval(job) {
      NextDelivery(table, ts, s.maxTimestamp);
    }
    assert StillToDeliver(table, s, job) == (if ts == 0 then Page(events, 0) else Rest(events, offset)) + later;
    assert StillToDeliver(table, s', NextJob(table, s, job, Delivered))
        == (if ts == 0 || Page(events, offset) == [] then [] else Rest(events, offset + EVENTS_PER_RUN)) + later;
  }

  lemma NextDelivery(table: seq<Event>, ts: int, max: int)
    requires ts <= max
    ensures DeliveryFrom(table, ts, max)
            == (if ts == 0 then Page(EventsIn(table, 0), 0) else EventsIn(table, ts))
               + DeliveryFrom(table, ts + EVENTS_TIME_INTERVAL, max)
  {
  }
}
