// Consuming from Kafka batch by batch (src/main/ingestion-queues/kafka-queue.ts:40-85).  A delivery is cut into
// sub-batches; after each the offset of its last message is resolved and committed.  The loop bails out when the
// consumer stops or its assignment is stale, and an error or a crash may end it anywhere: what was not resolved is
// delivered again.
module KafkaConsumer {
  import opened Wrappers

  function Flatten<T>(batches: seq<seq<T>>): seq<T> {
    if batches == [] then [] else batches[0] + Flatten(batches[1..])
  }

  function Chunks<T>(items: seq<T>, batchSize: nat): seq<seq<T>>
    requires batchSize > 0
  {
    if items == [] then []
    else if |items| <= batchSize then [items]
    else [items[..batchSize]] + Chunks(items[batchSize..], batchSize)
  }

  // The batches in order are the array; each but the last is full, and none is empty.
  lemma {:induction false} ChunksAreTheArray<T>(items: seq<T>, batchSize: nat)
    requires batchSize > 0
    ensures var batches := Chunks(items, batchSize);
            && Flatten(batches) == items
            && (forall k :: 0 <= k < |batches| ==> 0 < |batches[k]| <= batchSize)
            && (forall k :: 0 <= k < |batches| - 1 ==> |batches[k]| == batchSize)
  {
    if |items| > batchSize {
      ChunksAreTheArray(items[batchSize..], batchSize);
      assert Chunks(items, batchSize)[1..] == Chunks(items[batchSize..], batchSize);
      assert items[..batchSize] + items[batchSize..] == items;
    } else if items != [] {
      assert Chunks(items, batchSize) == [items];
      assert Flatten([items]) == items + Flatten<T>([]);
    }
  }

  method GroupIntoBatches<T>(items: seq<T>, batchSize: nat) returns (batches: seq<seq<T>>)
    requires batchSize > 0
    ensures batches == Chunks(items, batchSize)
  {
    batches := [];
    var i := 0;
    while i < |items|
      invariant Chunks(items, batchSize) == batches + Chunks(if i < |items| then items[i..] else [], batchSize)
    {
      var end := if i + batchSize < |items| then i + batchSize else |items|;
      if i + batchSize < |items| {
        assert items[i..][batchSize..] == items[end..] && items[i..][..batchSize] == items[i..end];
      } else {
        assert items[i..] == items[i..end];
      }
      batches := batches + [items[i..end]];
      i := i + batchSize;
    }
  }

  datatype Message = Message(offset: int, value: string)

  // What happens around one sub-batch. In Fails some message was not processed, and processed are the
  // offsets of those that were.
  datatype Outcome = NotRunning | Fails(processed: set<int>) | CommitThrows | HeartbeatThrows | Completes

  datatype Exit = Done | BailedOut | Thrown

  // The offsets processed so far, and the last one resolved.
  datatype Progress = Progress(processed: set<int>, resolved: Option<int>)

  function Offsets(messages: seq<Message>): set<int> {
    set m <- messages :: m.offset
  }

  function AfterChunk(p: Progress, messages: seq<Message>, outcome: Outcome): (Progress, Exit) {
    match outcome
    case NotRunning => (p, BailedOut)
    case Fails(processed) => (p.(processed := p.processed + processed * Offsets(messages)), Thrown)
    case _ => (Progress(p.processed + Offsets(messages),
                        if messages == [] then p.resolved else Some(messages[|messages| - 1].offset)),
               if outcome.Completes? then Done else Thrown)
  }

  function AfterChunks(p: Progress, chunks: seq<seq<Message>>, outcomes: seq<Outcome>): (Progress, Exit)
    requires |chunks| <= |outcomes|
  {
    if chunks == [] then (p, Done)
    else
      var n := |chunks| - 1;
      var before := AfterChunks(p, chunks[..n], outcomes);
      if before.1 != Done then before else AfterChunk(before.0, chunks[n], outcomes[n])
  }

  lemma {:induction false} ExitStays(p: Progress, chunks: seq<seq<Message>>, outcomes: seq<Outcome>, k: nat)
    requires |chunks| <= |outcomes|
    requires k <= |chunks| && AfterChunks(p, chunks[..k], outcomes).1 != Done
    ensures AfterChunks(p, chunks, outcomes) == AfterChunks(p, chunks[..k], outcomes)
    decreases |chunks|
  {
    if k == |chunks| {
      assert chunks[..k] == chunks;
    } else {
      var n := |chunks| - 1;
      assert chunks[..n][..k] == chunks[..k];
      ExitStays(p, chunks[..n], outcomes, k);
    }
  }

  class KafkaQueue {
    const batchSize: nat // WORKER_CONCURRENCY * TASKS_PER_WORKER
    ghost var processed: set<int>
    var resolved: Option<int>

    ghost function Now(): Progress
      reads this
    {
      Progress(processed, resolved)
    }

    constructor (batchSize: nat)
      ensures this.batchSize == batchSize && Now() == Progress({}, None)
    {
      this.batchSize := batchSize;
      processed, resolved := {}, None;
    }

    method EachBatch(messages: seq<Message>, outcomes: seq<Outcome>) returns (exit: Exit)
      requires batchSize > 0 && |Chunks(messages, batchSize)| <= |outcomes|
      modifies this
      ensures (Now(), exit) == AfterChunks(old(Now()), Chunks(messages, batchSize), outcomes)
    {
      hide Chunks;
      var messageBatches := GroupIntoBatches(messages, batchSize);
      var k := 0;
      while k < |messageBatches|
        invariant k <= |messageBatches|
        invariant (Now(), Done) == AfterChunks(old(Now()), messageBatches[..k], outcomes)
      {
        var messageBatch, outcome := messageBatches[k], outcomes[k];
        assert messageBatches[..k + 1][..k] == messageBatches[..k];
        ghost var after := AfterChunks(old(Now()), messageBatches[..k + 1], outcomes);
        if after.1 != Done {
          ExitStays(old(Now()), messageBatches, outcomes, k + 1);
        }
        if outcome.NotRunning? {
          return BailedOut;
        }
        if outcome.Fails? {
          processed := processed + outcome.processed * Offsets(messageBatch);
          return Thrown;
        }
        processed := processed + Offsets(messageBatch);
        if |messageBatch| > 0 {
          resolved := Some(messageBatch[|messageBatch| - 1].offset);
        }
        if outcome.CommitThrows? || outcome.HeartbeatThrows? {
          return Thrown;
        }
        k := k + 1;
      }
      assert messageBatches[..k] == messageBatches;
      return Done;
    }
  }

  // ----- deliveries from one partition, over any run of crashes -----

  ghost predicate Increasing(log: seq<Message>) {
    forall i, j :: 0 <= i < j < |log| ==> log[i].offset < log[j].offset
  }

  // log[from..to] is delivered in sub-batches of batchSize. After a bail-out, an error or a crash the
  // next delivery may start anywhere at or before the message after the last resolved one.
  datatype Delivery = Delivery(from: nat, to: nat, outcomes: seq<Outcome>)

  predicate MayStart(log: seq<Message>, p: Progress, from: nat)
    requires from <= |log|
  {
    from == 0 || (p.resolved.Some? && log[from - 1].offset <= p.resolved.value)
  }

  predicate Possible(log: seq<Message>, batchSize: nat, p: Progress, d: Delivery)
    requires batchSize > 0
  {
    && d.from <= d.to <= |log|
    && |Chunks(log[d.from..d.to], batchSize)| <= |d.outcomes|
    && MayStart(log, p, d.from)
  }

  // Every message at or before the last resolved offset was processed.
  ghost predicate NothingSkipped(log: seq<Message>, p: Progress) {
    forall m <- log :: p.resolved.Some? && m.offset <= p.resolved.value ==> m.offset in p.processed
  }

  function AfterDelivery(log: seq<Message>, batchSize: nat, p: Progress, d: Delivery): (Progress, Exit)
    requires batchSize > 0 && Possible(log, batchSize, p, d)
  {
    AfterChunks(p, Chunks(log[d.from..d.to], batchSize), d.outcomes)
  }

  lemma {:induction false} FlattenSnoc<T>(batches: seq<seq<T>>, last: seq<T>)
    ensures Flatten(batches + [last]) == Flatten(batches) + last
  {
    if batches == [] {
      assert Flatten([last]) == last + Flatten<T>([]);
    } else {
      FlattenSnoc(batches[1..], last);
      assert (batches + [last])[1..] == batches[1..] + [last];
    }
  }

  ghost predicate AllProcessed(log: seq<Message>, from: nat, to: nat, p: Progress)
    requires from <= to <= |log|
  {
    forall i :: from <= i < to ==> log[i].offset in p.processed
  }

  lemma OffsetOrder(log: seq<Message>, i: nat, j: nat)
    requires Increasing(log) && i < |log| && j < |log|
    ensures log[i].offset < log[j].offset <==> i < j
  {
  }

  // Resolving log[to - 1] is safe once everything up to it was processed.
  lemma ResolveIsSafe(log: seq<Message>, to: nat, p: Progress)
    requires Increasing(log) && 0 < to <= |log| && p.resolved == Some(log[to - 1].offset)
    requires AllProcessed(log, 0, to, p)
    ensures NothingSkipped(log, p)
  {
    forall m <- log | m.offset <= p.resolved.value
      ensures m.offset in p.processed
    {
      var i :| 0 <= i < |log| && log[i] == m;
      OffsetOrder(log, to - 1, i);
    }
  }

  lemma EarlierWasProcessed(log: seq<Message>, p: Progress, from: nat)
    requires Increasing(log) && NothingSkipped(log, p) && from <= |log| && MayStart(log, p, from)
    ensures AllProcessed(log, 0, from, p)
  {
    forall i | 0 <= i < from
      ensures log[i].offset in p.processed
    {
      OffsetOrder(log, i, from - 1);
      assert log[i] in log;
    }
  }

  lemma ChunkIsSafe(log: seq<Message>, p: Progress, outcome: Outcome, from: nat, to: nat)
    requires Increasing(log) && NothingSkipped(log, p) && from <= to <= |log| && AllProcessed(log, 0, from, p)
    ensures var after := AfterChunk(p, log[from..to], outcome);
            && NothingSkipped(log, after.0)
            && p.processed <= after.0.processed
            && (after.1 == Done ==> AllProcessed(log, 0, to, after.0))
  {
    var messages := log[from..to];
    var after := AfterChunk(p, messages, outcome);
    if !outcome.NotRunning? && !outcome.Fails? {
      forall i | 0 <= i < to
        ensures log[i].offset in after.0.processed
      {
        if from <= i {
          assert messages[i - from] in messages;
        }
      }
      if from < to {
        ResolveIsSafe(log, to, after.0);
      }
    }
  }

  lemma SliceOfSum<T>(s: seq<T>, from: nat, to: nat, a: seq<T>, b: seq<T>)
    requires from <= to <= |s| && a + b == s[from..to]
    ensures var middle := to - |b|;
            from <= middle && a == s[from..middle] && b == s[middle..to]
  {
    var middle := to - |b|;
    assert s[from..middle] == s[from..to][..|a|] && s[middle..to] == s[from..to][|a|..];
  }

  lemma {:induction false} ChunksAreSafe(log: seq<Message>, p: Progress, chunks: seq<seq<Message>>,
                                         outcomes: seq<Outcome>, from: nat, to: nat)
    requires Increasing(log) && NothingSkipped(log, p) && from <= to <= |log| && AllProcessed(log, 0, from, p)
    requires |chunks| <= |outcomes|
    requires Flatten(chunks) == log[from..to]
    ensures var after := AfterChunks(p, chunks, outcomes);
            && NothingSkipped(log, after.0)
            && p.processed <= after.0.processed
            && (after.1 == Done ==> AllProcessed(log, 0, to, after.0))
    decreases |chunks|
  {
    hide NothingSkipped, Increasing, AfterChunk;
    if chunks != [] {
      var n := |chunks| - 1;
      assert chunks == chunks[..n] + [chunks[n]];
      FlattenSnoc(chunks[..n], chunks[n]);
      var middle := to - |chunks[n]|;
      SliceOfSum(log, from, to, Flatten(chunks[..n]), chunks[n]);
      ChunksAreSafe(log, p, chunks[..n], outcomes, from, middle);
      var before := AfterChunks(p, chunks[..n], outcomes);
      if before.1 == Done {
        ChunkIsSafe(log, before.0, outcomes[n], middle, to);
      }
    }
  }

  // On every exit, and for every place where things went wrong, nothing before the resolved offset is
  // left unprocessed; and a delivery that is done has processed everything up to its end.
  lemma DeliveryIsSafe(log: seq<Message>, batchSize: nat, p: Progress, d: Delivery)
    requires batchSize > 0 && Increasing(log) && NothingSkipped(log, p) && Possible(log, batchSize, p, d)
    ensures var after := AfterDelivery(log, batchSize, p, d);
            && NothingSkipped(log, after.0)
            && p.processed <= after.0.processed
            && (after.1 == Done ==> AllProcessed(log, 0, d.to, after.0))
  {
    hide NothingSkipped, Increasing, Chunks, AfterChunks;
    EarlierWasProcessed(log, p, d.from);
    ChunksAreTheArray(log[d.from..d.to], batchSize);
    ChunksAreSafe(log, p, Chunks(log[d.from..d.to], batchSize), d.outcomes, d.from, d.to);
  }

  // ----- what a delivery resolves -----

  // The sub-batches before the first around which something goes wrong.
  function Completed(outcomes: seq<Outcome>, n: nat): (k: nat)
    requires n <= |outcomes|
    ensures k <= n && (forall i :: 0 <= i < k ==> outcomes[i].Completes?) && (k < n ==> !outcomes[k].Completes?)
  {
    if n == 0 then 0
    else
      var k := Completed(outcomes, n - 1);
      if k == n - 1 && outcomes[k].Completes? then n else k
  }

  lemma {:induction false} CompletedChunks(p: Progress, chunks: seq<seq<Message>>, outcomes: seq<Outcome>)
    requires |chunks| <= |outcomes| && forall i :: 0 <= i < |chunks| ==> outcomes[i].Completes? && chunks[i] != []
    ensures var (after, exit) := AfterChunks(p, chunks, outcomes);
            && exit == Done && after.processed == p.processed + Offsets(Flatten(chunks))
            && after.resolved == if chunks == [] then p.resolved
                                 else Some(Flatten(chunks)[|Flatten(chunks)| - 1].offset)
  {
    if chunks != [] {
      var n := |chunks| - 1;
      CompletedChunks(p, chunks[..n], outcomes);
      assert chunks == chunks[..n] + [chunks[n]];
      FlattenSnoc(chunks[..n], chunks[n]);
      assert Offsets(Flatten(chunks[..n]) + chunks[n]) == Offsets(Flatten(chunks[..n])) + Offsets(chunks[n]);
    }
  }

  // log[from..middle] is what the sub-batches before the exit hold, log[middle..last] the one around which something
  // went wrong.  The former are processed and resolved; the latter is resolved if all of it was processed.
  ghost predicate Resolves(log: seq<Message>, p: Progress, after: Progress, exit: Exit, outcome: Option<Outcome>,
                           from: nat, middle: nat, last: nat)
  {
    && from <= middle <= last <= |log|
    && var resolved := if from < middle then Some(log[middle - 1].offset) else p.resolved;
       var processed := p.processed + Offsets(log[from..middle]);
       match outcome
       case None => exit == Done && after == Progress(processed, resolved)
       case Some(NotRunning) => exit == BailedOut && after == Progress(processed, resolved)
       case Some(Fails(some)) =>
         exit == Thrown && after == Progress(processed + some * Offsets(log[middle..last]), resolved)
       case Some(_) =>
         && exit == Thrown && middle < last
         && after == Progress(processed + Offsets(log[middle..last]), Some(log[last - 1].offset))
  }

  // The first k sub-batches, and the one after them, as parts of the log.
  lemma PartsOfLog(log: seq<Message>, chunks: seq<seq<Message>>, from: nat, to: nat, k: nat)
    returns (middle: nat, last: nat)
    requires from <= to <= |log| && Flatten(chunks) == log[from..to] && k <= |chunks|
    ensures from <= middle <= last <= to && Flatten(chunks[..k]) == log[from..middle]
    ensures if k < |chunks| then chunks[k] == log[middle..last] else middle == to
  {
    FlattenPrefix(chunks, k);
    middle := from + |Flatten(chunks[..k])|;
    assert log[from..to][..middle - from] == log[from..middle];
    last := middle;
    if k == |chunks| {
      assert chunks[..k] == chunks;
    } else {
      FlattenPrefix(chunks, k + 1);
      assert chunks[..k + 1] == chunks[..k] + [chunks[k]];
      FlattenSnoc(chunks[..k], chunks[k]);
      last := middle + |chunks[k]|;
      assert log[from..to][..last - from] == log[from..last];
      assert log[from..last][middle - from..] == log[middle..last];
    }
  }

  lemma ExitsAt(p: Progress, chunks: seq<seq<Message>>, outcomes: seq<Outcome>, k: nat)
    requires k < |chunks| <= |outcomes| && !outcomes[k].Completes?
    requires AfterChunks(p, chunks[..k], outcomes).1 == Done
    ensures AfterChunks(p, chunks, outcomes)
         == AfterChunk(AfterChunks(p, chunks[..k], outcomes).0, chunks[k], outcomes[k])
  {
    assert chunks[..k + 1][..k] == chunks[..k];
    ExitStays(p, chunks, outcomes, k + 1);
  }

  lemma ChunksResolve(log: seq<Message>, p: Progress, chunks: seq<seq<Message>>, outcomes: seq<Outcome>,
                      from: nat, to: nat) returns (middle: nat, last: nat)
    requires from <= to <= |log| && |chunks| <= |outcomes| && Flatten(chunks) == log[from..to]
    requires forall i :: 0 <= i < |chunks| ==> chunks[i] != []
    ensures var (after, exit) := AfterChunks(p, chunks, outcomes);
            var k := Completed(outcomes, |chunks|);
            && last <= to && (k == |chunks| ==> middle == to)
            && Resolves(log, p, after, exit, if k < |chunks| then Some(outcomes[k]) else None, from, middle, last)
  {
    hide Flatten, AfterChunks, Offsets, Completed;
    var k := Completed(outcomes, |chunks|);
    CompletedChunks(p, chunks[..k], outcomes);
    middle, last := PartsOfLog(log, chunks, from, to, k);
    NoChunks();
    assert from < middle ==> log[from..middle][|log[from..middle]| - 1] == log[middle - 1];
    if k == |chunks| {
      assert chunks[..k] == chunks;
    } else {
      ExitsAt(p, chunks, outcomes, k);
      assert log[middle..last][|log[middle..last]| - 1] == log[last - 1];
    }
    FlattenedIsLonger(chunks[..k]);
  }

  lemma NoChunks()
    ensures Flatten<Message>([]) == []
  {
  }

  lemma FlattenedIsLonger(batches: seq<seq<Message>>)
    requires forall i :: 0 <= i < |batches| ==> batches[i] != []
    ensures Flatten(batches) == [] <==> batches == []
  {
  }

  lemma {:induction false} FlattenPrefix<T>(batches: seq<seq<T>>, k: nat)
    requires k <= |batches|
    ensures |Flatten(batches[..k])| <= |Flatten(batches)|
    ensures Flatten(batches[..k]) == Flatten(batches)[..|Flatten(batches[..k])|]
    decreases |batches| - k
  {
    if k == |batches| {
      assert batches[..k] == batches;
    } else {
      FlattenPrefix(batches, k + 1);
      assert batches[..k + 1] == batches[..k] + [batches[k]];
      FlattenSnoc(batches[..k], batches[k]);
    }
  }

  // Exactly how far a delivery gets: all before the exit is processed and resolved, and when it is done, all of it.
  lemma DeliveryResolves(log: seq<Message>, batchSize: nat, p: Progress, d: Delivery) returns (middle: nat, last: nat)
    requires batchSize > 0 && Possible(log, batchSize, p, d)
    ensures var (after, exit) := AfterDelivery(log, batchSize, p, d);
            var n := |Chunks(log[d.from..d.to], batchSize)|;
            var k := Completed(d.outcomes, n);
            && (k == n ==> middle == d.to) && last <= d.to
            && Resolves(log, p, after, exit, if k < n then Some(d.outcomes[k]) else None, d.from, middle, last)
            && (exit == Done && d.from < d.to ==> after.resolved == Some(log[d.to - 1].offset))
  {
    hide AfterChunks;
    var chunks := Chunks(log[d.from..d.to], batchSize);
    ChunksAreTheArray(log[d.from..d.to], batchSize);
    middle, last := ChunksResolve(log, p, chunks, d.outcomes, d.from, d.to);
  }

  ghost predicate IsRun(log: seq<Message>, batchSize: nat, ps: seq<Progress>, ds: seq<Delivery>)
    requires batchSize > 0
  {
    && |ps| == |ds| + 1
    && ps[0] == Progress({}, None)
    && forall i :: 0 <= i < |ds| ==> Follows(log, batchSize, ps[i], ds[i], ps[i + 1])
  }

  predicate Follows(log: seq<Message>, batchSize: nat, p: Progress, d: Delivery, next: Progress)
    requires batchSize > 0
  {
    Possible(log, batchSize, p, d) && next == AfterDelivery(log, batchSize, p, d).0
  }

  // Redelivery over any run of bail-outs, errors and crashes loses no message.
  lemma {:induction false} EveryRunLosesNothing(log: seq<Message>, batchSize: nat, ps: seq<Progress>, ds: seq<Delivery>)
    requires batchSize > 0 && Increasing(log) && IsRun(log, batchSize, ps, ds)
    ensures NothingSkipped(log, ps[|ds|])
    decreases |ds|
  {
    if ds != [] {
      var n := |ds| - 1;
      var earlier, last := ds[..n], ds[n];
      assert Follows(log, batchSize, ps[n], last, ps[n + 1]);
      assert IsRun(log, batchSize, ps[..n + 1], earlier) by {
        hide Follows;
        forall i | 0 <= i < n
          ensures Follows(log, batchSize, ps[..n + 1][i], earlier[i], ps[..n + 1][i + 1])
        {
          assert Follows(log, batchSize, ps[i], ds[i], ps[i + 1]);
        }
      }
      EveryRunLosesNothing(log, batchSize, ps[..n + 1], earlier);
      hide NothingSkipped, Increasing, AfterDelivery, IsRun;
      DeliveryIsSafe(log, batchSize, ps[n], last);
    }
  }
}
