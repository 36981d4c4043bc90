// Batching on the way to Kafka (src/utils/db/kafka-producer-wrapper.ts:18-105).
module KafkaProducer {
  import opened Wrappers

  type Byte = b: int | 0 <= b < 256

  // A ProducerRecord: messages of one topic, each with a value or null.
  datatype Record = Record(topic: string, values: seq<Option<seq<Byte>>>)

  datatype Config = Config(flushFrequencyMs: nat, maxQueueSize: int, maxBatchSize: int)

  // A batch handed to sendBatch, and whether that succeeded.
  datatype Attempt = Attempt(batch: seq<Record>, delivered: bool)

  datatype State = State(batch: seq<Record>, size: nat, lastFlush: int, attempts: seq<Attempt>)

  function ValueSizes(values: seq<Option<seq<Byte>>>): nat {
    if values == [] then 0
    else (match values[0] { case None => 4 case Some(bytes) => |bytes| }) + ValueSizes(values[1..])
  }

  // None is the TypeError of reducing an empty list.
  function MessageSize(record: Record): Option<nat> {
    if record.values == [] then None else Some(ValueSizes(record.values))
  }

  function Size(record: Record): nat {
    ValueSizes(record.values)
  }

  function AllBytes(values: seq<Option<seq<Byte>>>): seq<Byte> {
    if values == [] then [] else (if values[0].Some? then values[0].value else []) + AllBytes(values[1..])
  }

  function CountNulls(values: seq<Option<seq<Byte>>>): nat {
    if values == [] then 0 else (if values[0].None? then 1 else 0) + CountNulls(values[1..])
  }

  // The size of a record is the number of its bytes, a null counting as four; only a record without messages has none.
  lemma {:induction false} SizeIsExactly(record: Record)
    ensures Size(record) == |AllBytes(record.values)| + 4 * CountNulls(record.values)
    ensures MessageSize(record) == if record.values == [] then None else Some(Size(record))
    decreases |record.values|
  {
    if record.values != [] {
      SizeIsExactly(record.(values := record.values[1..]));
    }
  }

  // ----- one call, on values -----

  function AfterFlush(s: State, append: Option<Record>, now: int, delivered: bool): State {
    if s.batch == [] then s
    else State(if append.Some? then [append.value] else [],
               if append.Some? then Size(append.value) else 0,
               now,
               s.attempts + [Attempt(s.batch, delivered)])
  }

  function Pushed(s: State, record: Record): State {
    s.(batch := s.batch + [record], size := s.size + Size(record))
  }

  function AfterQueue(c: Config, s: State, record: Record, now: int, delivered: bool): State {
    if MessageSize(record).None? then s
    else if s.size + Size(record) > c.maxBatchSize then AfterFlush(s, Some(record), now, delivered)
    else
      var p := Pushed(s, record);
      if now - s.lastFlush > c.flushFrequencyMs || |p.batch| >= c.maxQueueSize
      then AfterFlush(p, None, now, delivered)
      else p
  }

  // ----- runs -----

  // delivered: whether the send that the call may start succeeds
  datatype Call =
    | Queue(record: Record, now: int, delivered: bool)
    | Flush(now: int, delivered: bool) // by the interval timer, or before the program quits

  function AfterCall(c: Config, s: State, call: Call): State {
    match call
    case Queue(record, now, delivered) => AfterQueue(c, s, record, now, delivered)
    case Flush(now, delivered) => AfterFlush(s, None, now, delivered)
  }

  function Initial(now: int): State {
    State([], 0, now, [])
  }

  function Run(c: Config, start: int, calls: seq<Call>): State {
    if calls == [] then Initial(start)
    else AfterCall(c, Run(c, start, calls[..|calls| - 1]), calls[|calls| - 1])
  }

  // The records accepted without an exception.
  function Queued(calls: seq<Call>): seq<Record> {
    if calls == [] then []
    else
      var last := calls[|calls| - 1];
      Queued(calls[..|calls| - 1]) + if last.Queue? && MessageSize(last.record).Some? then [last.record] else []
  }

  function Flatten(attempts: seq<Attempt>): seq<Record> {
    if attempts == [] then [] else Flatten(attempts[..|attempts| - 1]) + attempts[|attempts| - 1].batch
  }

  function Total(batch: seq<Record>): nat {
    if batch == [] then 0 else Total(batch[..|batch| - 1]) + Size(batch[|batch| - 1])
  }

  // A record too large for any batch is dropped without a word if it meets an empty batch.
  predicate Drops(c: Config, s: State, call: Call) {
    call.Queue? && MessageSize(call.record).Some? && Size(call.record) > c.maxBatchSize && s.batch == []
  }

  ghost predicate NothingDropped(c: Config, start: int, calls: seq<Call>) {
    forall i :: 0 <= i < |calls| ==> !Drops(c, Run(c, start, calls[..i]), calls[i])
  }

  function CountLimit(c: Config): int {
    if c.maxQueueSize > 1 then c.maxQueueSize else 1
  }

  // Within both limits, unless it is a single record.
  predicate FitsLimits(c: Config, batch: seq<Record>) {
    |batch| <= CountLimit(c) && (Total(batch) <= c.maxBatchSize || |batch| <= 1)
  }

  ghost predicate Invariant(c: Config, s: State) {
    && s.size == Total(s.batch)
    && |s.batch| < CountLimit(c)
    && FitsLimits(c, s.batch)
    && forall a <- s.attempts :: a.batch != [] && FitsLimits(c, a.batch)
  }

  lemma TotalOfOne(record: Record)
    ensures Total([record]) == Size(record)
  {
    assert [record][..0] == [];
  }

  lemma TotalGrows(batch: seq<Record>, record: Record)
    ensures Total(batch + [record]) == Total(batch) + Size(record)
  {
    assert (batch + [record])[..|batch|] == batch;
  }

  lemma FlushKeeps(c: Config, s: State, append: Option<Record>, now: int, delivered: bool)
    requires s.size == Total(s.batch) && FitsLimits(c, s.batch)
    requires forall a <- s.attempts :: a.batch != [] && FitsLimits(c, a.batch)
    requires append.Some? ==> s.batch == [] || |s.batch| < CountLimit(c)
    ensures Invariant(c, AfterFlush(s, append, now, delivered))
  {
    hide Size;
    if append.Some? {
      TotalOfOne(append.value);
    }
  }

  lemma CallKeeps(c: Config, s: State, call: Call)
    requires Invariant(c, s)
    ensures Invariant(c, AfterCall(c, s, call))
  {
    hide Size, Total;
    match call {
      case Flush(now, delivered) =>
        FlushKeeps(c, s, None, now, delivered);
      case Queue(record, now, delivered) =>
        FlushKeeps(c, s, Some(record), now, delivered);
        if MessageSize(record).Some? && s.size + Size(record) <= c.maxBatchSize {
          TotalGrows(s.batch, record);
          FlushKeeps(c, Pushed(s, record), None, now, delivered);
        }
    }
  }

  // For every mix of queued records and timed flushes: the size counter is right, and every batch handed
  // over respects both limits, except that a record above the size limit may travel alone.
  lemma {:induction false} EveryRunRespectsLimits(c: Config, start: int, calls: seq<Call>)
    ensures Invariant(c, Run(c, start, calls))
  {
    if calls != [] {
      EveryRunRespectsLimits(c, start, calls[..|calls| - 1]);
      CallKeeps(c, Run(c, start, calls[..|calls| - 1]), calls[|calls| - 1]);
    } else {
      assert Total([]) == 0;
    }
  }

  // What a state still holds: everything handed over, then the batch being collected.
  function Held(s: State): seq<Record> {
    Flatten(s.attempts) + s.batch
  }

  lemma FlushHolds(s: State, append: Option<Record>, now: int, delivered: bool)
    requires s.batch != []
    ensures Held(AfterFlush(s, append, now, delivered)) == Held(s) + if append.Some? then [append.value] else []
  {
    var attempts := s.attempts + [Attempt(s.batch, delivered)];
    assert attempts[..|s.attempts|] == s.attempts;
  }

  lemma CallHolds(c: Config, s: State, call: Call)
    requires Invariant(c, s)
    ensures Held(AfterCall(c, s, call))
            == Held(s) + if call.Queue? && MessageSize(call.record).Some? && !Drops(c, s, call) then [call.record] else []
  {
    hide Size;
    if s.batch == [] {
      assert Total(s.batch) == 0;
    }
    hide Invariant, Total;
    match call {
      case Flush(now, delivered) =>
        if s.batch != [] {
          FlushHolds(s, None, now, delivered);
        }
      case Queue(record, now, delivered) =>
        if s.batch != [] {
          FlushHolds(s, Some(record), now, delivered);
        }
        FlushHolds(Pushed(s, record), None, now, delivered);
        hide Flatten;
        assert Held(Pushed(s, record)) == Held(s) + [record];
    }
  }

  function Kept(c: Config, start: int, calls: seq<Call>): seq<Record> {
    if calls == [] then []
    else
      var front, last := calls[..|calls| - 1], calls[|calls| - 1];
      Kept(c, start, front)
      + if last.Queue? && MessageSize(last.record).Some? && !Drops(c, Run(c, start, front), last) then [last.record] else []
  }

  lemma {:induction false} Conservation(c: Config, start: int, calls: seq<Call>)
    ensures Held(Run(c, start, calls)) == Kept(c, start, calls)
  {
    if calls != [] {
      var front, last := calls[..|calls| - 1], calls[|calls| - 1];
      Conservation(c, start, front);
      EveryRunRespectsLimits(c, start, front);
      CallHolds(c, Run(c, start, front), last);
      hide Held, AfterCall, Invariant, Drops;
    }
  }

  lemma {:induction false} KeptLength(c: Config, start: int, calls: seq<Call>)
    ensures |Kept(c, start, calls)| <= |Queued(calls)|
    ensures |Kept(c, start, calls)| == |Queued(calls)| <==> NothingDropped(c, start, calls)
    ensures NothingDropped(c, start, calls) ==> Kept(c, start, calls) == Queued(calls)
  {
    hide Run, Drops;
    if calls != [] {
      var n := |calls| - 1;
      var front := calls[..n];
      KeptLength(c, start, front);
      DroppedStep(c, start, calls);
      hide NothingDropped;
      assert Drops(c, Run(c, start, front), calls[n]) ==> calls[n].Queue? && MessageSize(calls[n].record).Some? by {
        DropsMeans(c, Run(c, start, front), calls[n]);
      }
    }
  }

  lemma DropsMeans(c: Config, s: State, call: Call)
    ensures Drops(c, s, call) ==> call.Queue? && MessageSize(call.record).Some?
  {
  }

  lemma DroppedStep(c: Config, start: int, calls: seq<Call>)
    requires calls != []
    ensures var n := |calls| - 1;
            NothingDropped(c, start, calls)
            <==> NothingDropped(c, start, calls[..n]) && !Drops(c, Run(c, start, calls[..n]), calls[n])
  {
    hide Run, Drops;
    var n := |calls| - 1;
    forall i | 0 <= i < n
      ensures calls[..n][..i] == calls[..i] && calls[..n][i] == calls[i]
    {
    }
    if NothingDropped(c, start, calls) {
      forall i | 0 <= i < n
        ensures !Drops(c, Run(c, start, calls[..n][..i]), calls[..n][i])
      {
        assert !Drops(c, Run(c, start, calls[..i]), calls[i]);
      }
    }
  }

  // What was handed over, followed by the current batch, is everything queued in order, if and only if
  // no record above the size limit met an empty batch.
  lemma {:induction false} NothingLostExactly(c: Config, start: int, calls: seq<Call>)
    ensures var s := Run(c, start, calls);
            Flatten(s.attempts) + s.batch == Queued(calls) <==> NothingDropped(c, start, calls)
  {
    Conservation(c, start, calls);
    KeptLength(c, start, calls);
    hide Kept, Queued, NothingDropped, Run, Flatten;
  }

  // The batches whose send succeeded. A failing send loses its batch: nothing retries it.
  function Delivered(attempts: seq<Attempt>): seq<Record> {
    if attempts == [] then []
    else
      var last := attempts[|attempts| - 1];
      Delivered(attempts[..|attempts| - 1]) + if last.delivered then last.batch else []
  }

  ghost predicate AllSucceed(attempts: seq<Attempt>) {
    forall a <- attempts :: a.delivered
  }

  lemma {:induction false} DeliveredLength(attempts: seq<Attempt>)
    requires forall a <- attempts :: a.batch != []
    ensures |Delivered(attempts)| <= |Flatten(attempts)|
    ensures |Delivered(attempts)| == |Flatten(attempts)| <==> AllSucceed(attempts)
    ensures AllSucceed(attempts) ==> Delivered(attempts) == Flatten(attempts)
  {
    if attempts != [] {
      var front, last := attempts[..|attempts| - 1], attempts[|attempts| - 1];
      DeliveredLength(front);
      assert last.batch != [];
      assert AllSucceed(attempts) <==> AllSucceed(front) && last.delivered by {
        assert attempts == front + [last];
      }
      hide AllSucceed;
    }
  }

  // The call hands the current batch over.
  predicate Sends(c: Config, s: State, call: Call) {
    match call
    case Flush(_, _) => s.batch != []
    case Queue(record, now, _) =>
      && MessageSize(record).Some?
      && if s.size + Size(record) > c.maxBatchSize then s.batch != []
         else now - s.lastFlush > c.flushFrequencyMs || |s.batch| + 1 >= c.maxQueueSize
  }

  ghost predicate NoSendFails(c: Config, start: int, calls: seq<Call>) {
    forall i :: 0 <= i < |calls| && Sends(c, Run(c, start, calls[..i]), calls[i]) ==> calls[i].delivered
  }

  lemma NoSendFailsStep(c: Config, start: int, calls: seq<Call>)
    requires calls != []
    ensures var n := |calls| - 1;
            NoSendFails(c, start, calls)
            <==> NoSendFails(c, start, calls[..n]) && (Sends(c, Run(c, start, calls[..n]), calls[n]) ==> calls[n].delivered)
  {
    hide Run, Sends;
    var n := |calls| - 1;
    assert forall i :: 0 <= i < n ==> calls[..n][..i] == calls[..i] && calls[..n][i] == calls[i];
  }

  lemma CallSends(c: Config, s: State, call: Call)
    ensures AllSucceed(AfterCall(c, s, call).attempts) <==> AllSucceed(s.attempts) && (Sends(c, s, call) ==> call.delivered)
  {
    hide Size;
    var next := AfterCall(c, s, call).attempts;
    if Sends(c, s, call) {
      assert |next| == |s.attempts| + 1 && next[..|s.attempts|] == s.attempts && next[|s.attempts|].delivered == call.delivered;
      SucceedSnoc(s.attempts, next[|s.attempts|]);
      assert next == s.attempts + [next[|s.attempts|]];
    } else {
      assert next == s.attempts;
    }
  }

  lemma SucceedSnoc(attempts: seq<Attempt>, a: Attempt)
    ensures AllSucceed(attempts + [a]) <==> AllSucceed(attempts) && a.delivered
  {
    if AllSucceed(attempts + [a]) {
      assert a in attempts + [a];
      forall b <- attempts
        ensures b.delivered
      {
        assert b in attempts + [a];
      }
    }
  }

  lemma {:induction false} AllSucceedExactly(c: Config, start: int, calls: seq<Call>)
    ensures AllSucceed(Run(c, start, calls).attempts) <==> NoSendFails(c, start, calls)
  {
    hide NoSendFails, Sends, AfterCall, AllSucceed;
    if calls != [] {
      var n := |calls| - 1;
      AllSucceedExactly(c, start, calls[..n]);
      NoSendFailsStep(c, start, calls);
      CallSends(c, Run(c, start, calls[..n]), calls[n]);
    } else {
      NothingFails(c, start);
    }
  }

  lemma NothingFails(c: Config, start: int)
    ensures AllSucceed([]) && NoSendFails(c, start, [])
  {
  }

  // Kafka received everything queued but the batch still being collected, in order, if and only if no call
  // brought a record above the size limit to an empty batch and no call's send failed.
  lemma {:induction false} EverythingArrivesExactly(c: Config, start: int, calls: seq<Call>)
    ensures var s := Run(c, start, calls);
            Delivered(s.attempts) + s.batch == Queued(calls)
            <==> NothingDropped(c, start, calls) && NoSendFails(c, start, calls)
  {
    Conservation(c, start, calls);
    KeptLength(c, start, calls);
    EveryRunRespectsLimits(c, start, calls);
    AllSucceedExactly(c, start, calls);
    var s := Run(c, start, calls);
    DeliveredLength(s.attempts);
    hide Kept, Queued, NothingDropped, NoSendFails, Run, Flatten, Delivered, AllSucceed, Invariant;
  }

  // In particular nothing is dropped when every record is within the limit.
  lemma SmallRecordsAreNeverLost(c: Config, start: int, calls: seq<Call>)
    requires forall call <- calls :: call.Queue? ==> Size(call.record) <= c.maxBatchSize
    ensures var s := Run(c, start, calls);
            && Flatten(s.attempts) + s.batch == Queued(calls)
            && forall a <- s.attempts :: Total(a.batch) <= c.maxBatchSize && |a.batch| <= CountLimit(c)
  {
    hide Run, Size;
    forall i | 0 <= i < |calls|
      ensures !Drops(c, Run(c, start, calls[..i]), calls[i])
    {
      assert calls[i] in calls;
    }
    NothingLostExactly(c, start, calls);
    EveryRunRespectsLimits(c, start, calls);
    var s := Run(c, start, calls);
    forall a <- s.attempts
      ensures Total(a.batch) <= c.maxBatchSize && |a.batch| <= CountLimit(c)
    {
      if |a.batch| == 1 {
        InFlattened(s.attempts, a, a.batch[0]);
        QueuedBy(calls, a.batch[0]);
        assert a.batch == [a.batch[0]];
        TotalOfOne(a.batch[0]);
      }
    }
  }

  lemma {:induction false} InFlattened(attempts: seq<Attempt>, a: Attempt, record: Record)
    requires a in attempts && record in a.batch
    ensures record in Flatten(attempts)
  {
    var n := |attempts| - 1;
    if a in attempts[..n] {
      InFlattened(attempts[..n], a, record);
    } else {
      assert attempts == attempts[..n] + [attempts[n]];
    }
  }

  lemma {:induction false} QueuedBy(calls: seq<Call>, record: Record)
    requires record in Queued(calls)
    ensures exists call <- calls :: call.Queue? && call.record == record
  {
    var n := |calls| - 1;
    if record in Queued(calls[..n]) {
      QueuedBy(calls[..n], record);
      var call :| call in calls[..n] && call.Queue? && call.record == record;
      assert call in calls;
    } else {
      assert calls[n] in calls;
    }
  }

  // A record left waiting by a call has waited no longer than the flush frequency.
  lemma NothingWaitsTooLong(c: Config, s: State, record: Record, now: int, delivered: bool)
    requires Invariant(c, s) && MessageSize(record).Some?
    ensures var next := AfterQueue(c, s, record, now, delivered);
            next.batch != [] ==> now - next.lastFlush <= c.flushFrequencyMs
  {
  }

  // The wrapper itself.
  class KafkaProducerWrapper {
    const config: Config
    var lastFlushTime: int
    var currentBatch: seq<Record>
    var currentBatchSize: nat
    ghost var attempts: seq<Attempt>

    ghost function Now(): State
      reads this
    {
      State(currentBatch, currentBatchSize, lastFlushTime, attempts)
    }

    ghost predicate Valid()
      reads this
    {
      Invariant(config, Now())
    }

    constructor (config: Config, now: int)
      ensures this.config == config && Now() == Initial(now) && Valid()
    {
      this.config := config;
      lastFlushTime := now;
      currentBatch := [];
      currentBatchSize := 0;
      attempts := [];
    }

    // error: the exception out of getMessageSize or sendBatch
    method QueueMessage(record: Record, now: int, delivered: bool) returns (error: bool)
      requires Valid()
      modifies this
      ensures Valid() && Now() == AfterQueue(config, old(Now()), record, now, delivered)
      ensures error <==> record.values == [] || (!delivered && attempts != old(attempts))
    {
      CallKeeps(config, Now(), Queue(record, now, delivered));
      hide Invariant;
      var messageSize := MessageSize(record);
      if messageSize.None? {
        return true;
      }
      error := false;
      if currentBatchSize + messageSize.value > config.maxBatchSize {
        error := FlushBatch(Some(record), now, delivered);
      } else {
        currentBatch := currentBatch + [record];
        currentBatchSize := currentBatchSize + messageSize.value;
        var timeSinceLastFlush := now - lastFlushTime;
        if timeSinceLastFlush > config.flushFrequencyMs || |currentBatch| >= config.maxQueueSize {
          error := FlushBatch(None, now, delivered);
        }
      }
    }

    // flush: the batch is taken before it is sent, so that a failing send loses it
    method FlushBatch(append: Option<Record>, now: int, delivered: bool) returns (error: bool)
      requires append.Some? ==> MessageSize(append.value).Some?
      modifies this
      ensures Now() == AfterFlush(old(Now()), append, now, delivered)
      ensures error <==> !delivered && attempts != old(attempts)
    {
      if |currentBatch| == 0 {
        return false;
      }
      var messages := currentBatch;
      lastFlushTime := now;
      match append {
        case Some(record) =>
          currentBatch := [record];
          currentBatchSize := MessageSize(record).value;
        case None =>
          currentBatch := [];
          currentBatchSize := 0;
      }
      attempts := attempts + [Attempt(messages, delivered)];
      error := !delivered;
    }
  }
}
