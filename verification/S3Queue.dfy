// The S3 job queue (src/main/job-queues/redlocked/s3-queue.ts:13-165).
module S3Queue {
  import opened KeyOrder
  import opened S3Keys
  import opened Wrappers
  import Uuid

  datatype EnqueuedJob = EnqueuedJob(timestamp: int, payload: string)

  // Empty: without a body; Corrupt: not a gzipped job
  datatype Object = Empty | Corrupt | Stored(job: EnqueuedJob)

  datatype Ran = Ran(key: string, job: EnqueuedJob, at: int)

  datatype State = State(bucket: map<string, Object>, ran: seq<Ran>)

  const MAX_KEYS := 100
  const MAX_TIMESTAMP := 8_640_000_000_000_000

  predicate IsDate(timestamp: int) {
    -MAX_TIMESTAMP <= timestamp <= MAX_TIMESTAMP
  }

  function AfterEnqueue(prefix: string, s: State, job: EnqueuedJob, suffix: string): State {
    if IsDate(job.timestamp) then s.(bucket := s.bucket[Key(prefix, job.timestamp, suffix) := Stored(job)]) else s
  }

  // What S3 answers to a listing: the first keys with the prefix, in order.
  ghost predicate IsListing(keys: set<string>, prefix: string, list: seq<string>) {
    && |list| <= MAX_KEYS
    && AllPrefixed(prefix, list)
    && (forall key <- list :: key in keys)
    && (forall i, j :: 0 <= i < j < |list| ==> Less(list[i], list[j]))
    && (forall key <- keys :: prefix <= key && key !in list ==>
          |list| == MAX_KEYS && forall listed <- list :: Less(listed, key))
  }

  predicate AllPrefixed(prefix: string, list: seq<string>) {
    forall i :: 0 <= i < |list| ==> prefix <= list[i]
  }

  // listObjects: None is the TypeError for a key without a slash
  function DueKeys(prefix: string, list: seq<string>, now: int): (r: Option<seq<string>>)
    requires AllPrefixed(prefix, list)
    ensures r.Some? ==> forall key :: key in r.value <==> key in list && IsDue(prefix, key, now) == Some(true)
  {
    if list == [] then Some([])
    else
      var front := DueKeys(prefix, list[..|list| - 1], now);
      var last := list[|list| - 1];
      assert list == list[..|list| - 1] + [last];
      match IsDue(prefix, last, now)
      case None => None
      case Some(due) => if front.None? then None else Some(front.value + if due then [last] else [])
  }

  // How the handling of one object goes: reading it fails; the job throws; the job runs, but deleting the
  // key fails or the process dies before it; the key is deleted, but the answer is an error; or all goes well.
  datatype Fate = ReadFails | JobThrows | DeleteFails | DeleteUnanswered | Deleted

  // How the loop over the keys ends: after the last key, by an exception, or by one that leaves behind the
  // key of a job that ran.
  datatype End = Finished | Threw | Kept(key: string)

  // One object: the state after it, and whether an exception left the loop.
  function AfterKey(s: State, key: string, fate: Fate, now: int): (State, End) {
    if fate == ReadFails || key !in s.bucket then (s, Threw)
    else
      match s.bucket[key]
      case Empty => (s, Finished)
      case Corrupt => (s, Threw)
      case Stored(job) =>
        if fate == JobThrows then (s, Threw)
        else
          var s1 := s.(ran := s.ran + [Ran(key, job, now)]);
          if fate == DeleteFails then (s1, Kept(key))
          else (s1.(bucket := s1.bucket - {key}), if fate == Deleted then Finished else Threw)
  }

  function AfterKeys(s: State, keys: seq<string>, fates: seq<Fate>, now: int): (State, End)
    requires |keys| <= |fates|
  {
    if keys == [] then (s, Finished)
    else
      var n := |keys| - 1;
      var before := AfterKeys(s, keys[..n], fates, now);
      if before.1 != Finished then before else AfterKey(before.0, keys[n], fates[n], now)
  }

  function AfterPoll(prefix: string, s: State, list: seq<string>, fates: seq<Fate>, now: int): (State, Option<bool>)
    requires AllPrefixed(prefix, list) && |list| <= |fates|
  {
    var due := DueKeys(prefix, list, now);
    DueAreFewer(prefix, list, now);
    if due.None? then (s, None)
    else
      var after := AfterKeys(s, due.value, fates, now);
      (after.0, if after.1 == Finished then Some(|due.value| > 0) else None)
  }

  // The key that a poll leaves behind although its job ran.
  function KeptBy(prefix: string, s: State, list: seq<string>, fates: seq<Fate>, now: int): Option<string>
    requires AllPrefixed(prefix, list) && |list| <= |fates|
  {
    var due := DueKeys(prefix, list, now);
    DueAreFewer(prefix, list, now);
    if due.None? then None
    else
      var end := AfterKeys(s, due.value, fates, now).1;
      if end.Kept? then Some(end.key) else None
  }

  lemma {:induction false} DueAreFewer(prefix: string, list: seq<string>, now: int)
    requires AllPrefixed(prefix, list)
    ensures DueKeys(prefix, list, now).Some? ==> |DueKeys(prefix, list, now).value| <= |list|
  {
    if list != [] {
      DueAreFewer(prefix, list[..|list| - 1], now);
    }
  }

  lemma {:induction false} EndStays(s: State, keys: seq<string>, fates: seq<Fate>, now: int, k: nat)
    requires k <= |keys| <= |fates| && AfterKeys(s, keys[..k], fates, now).1 != Finished
    ensures AfterKeys(s, keys, fates, now) == AfterKeys(s, keys[..k], fates, now)
    decreases |keys|
  {
    if k == |keys| {
      assert keys[..k] == keys;
    } else {
      var n := |keys| - 1;
      assert keys[..n][..k] == keys[..k];
      EndStays(s, keys[..n], fates, now, k);
    }
  }

  class S3JobQueue {
    const prefix: string
    var bucket: map<string, Object>
    ghost var ran: seq<Ran>

    ghost function Now(): State
      reads this
    {
      State(bucket, ran)
    }

    constructor (prefix: string, bucket: map<string, Object>)
      ensures this.prefix == prefix && Now() == State(bucket, [])
    {
      this.prefix := prefix;
      this.bucket := bucket;
      ran := [];
    }

    // throws: the RangeError of an invalid date
    method Enqueue(retry: EnqueuedJob, suffix: string) returns (throws: bool)
      modifies this
      ensures Now() == AfterEnqueue(prefix, old(Now()), retry, suffix)
      ensures throws <==> retry.timestamp < -8_640_000_000_000_000 || 8_640_000_000_000_000 < retry.timestamp
    {
      if !IsDate(retry.timestamp) {
        return true;
      }
      bucket := bucket[Key(prefix, retry.timestamp, suffix) := Stored(retry)];
      return false;
    }

    // list is the answer of S3, fates say how each object goes; None is an exception.
    method ReadState(list: seq<string>, fates: seq<Fate>, now: int) returns (r: Option<bool>)
      requires AllPrefixed(prefix, list) && |list| <= |fates|
      modifies this
      ensures (Now(), r) == AfterPoll(prefix, old(Now()), list, fates, now)
    {
      hide Key, IsDue, DueKeys, AfterKeys, AfterKey;
      DueAreFewer(prefix, list, now);
      var due := DueKeys(prefix, list, now);
      if due.None? {
        return None;
      }
      var response := due.value;
      var end := RunKeys(response, fates, now);
      if end != Finished {
        return None;
      }
      return Some(|response| > 0);
    }

    method RunKeys(response: seq<string>, fates: seq<Fate>, now: int) returns (end: End)
      requires |response| <= |fates|
      modifies this
      ensures (Now(), end) == AfterKeys(old(Now()), response, fates, now)
    {
      var k := 0;
      while k < |response|
        invariant k <= |response|
        invariant (Now(), Finished) == AfterKeys(old(Now()), response[..k], fates, now)
      {
        var filename, fate := response[k], fates[k];
        assert response[..k + 1][..k] == response[..k];
        if AfterKeys(old(Now()), response[..k + 1], fates, now).1 != Finished {
          EndStays(old(Now()), response, fates, now, k + 1);
        }
        if fate == ReadFails || filename !in bucket {
          return Threw;
        }
        var found := bucket[filename];
        if found.Corrupt? {
          return Threw;
        }
        if found.Stored? {
          if fate == JobThrows {
            return Threw;
          }
          ran := ran + [Ran(filename, found.job, now)];
          if fate == DeleteFails {
            return Kept(filename);
          }
          bucket := bucket - {filename};
          if fate == DeleteUnanswered {
            return Threw;
          }
        }
        k := k + 1;
      }
      assert response[..k] == response;
      return Finished;
    }
  }

  // ----- runs -----

  // TestConnection leaves its test object behind when the process dies before deleting it.
  datatype Step =
    | Enqueue(job: EnqueuedJob, suffix: string)
    | TestConnection(id: string)
    | Poll(list: seq<string>, fates: seq<Fate>, now: int)

  // enqueued: every job enqueued so far, by key
  datatype World = World(s: State, enqueued: map<string, EnqueuedJob>)

  function TestKey(prefix: string, id: string): string {
    prefix + ("CONNTEST" + ("/" + (id + ".test")))
  }

  // The random suffix has not been used for this timestamp before, and S3 answers listings properly.
  ghost predicate Possible(prefix: string, w: World, step: Step) {
    match step
    case Enqueue(job, suffix) => IsSuffix(suffix) && Key(prefix, job.timestamp, suffix) !in w.enqueued
    case TestConnection(id) => Uuid.ValidateString(id)
    case Poll(list, fates, now) => IsListing(w.s.bucket.Keys, prefix, list) && |list| <= |fates|
  }

  ghost function After(prefix: string, w: World, step: Step): World
    requires Possible(prefix, w, step)
  {
    match step
    case Enqueue(job, suffix) =>
      World(AfterEnqueue(prefix, w.s, job, suffix),
            if IsDate(job.timestamp) then w.enqueued[Key(prefix, job.timestamp, suffix) := job] else w.enqueued)
    case TestConnection(id) => w.(s := w.s.(bucket := w.s.bucket[TestKey(prefix, id) := Corrupt]))
    case Poll(list, fates, now) => w.(s := AfterPoll(prefix, w.s, list, fates, now).0)
  }

  ghost predicate IsRun(prefix: string, ws: seq<World>, steps: seq<Step>) {
    && |ws| == |steps| + 1
    && ws[0] == World(State(map[], []), map[])
    && forall i :: 0 <= i < |steps| ==> Follows(prefix, ws[i], steps[i], ws[i + 1])
  }

  ghost predicate Follows(prefix: string, w: World, step: Step, next: World) {
    Possible(prefix, w, step) && next == After(prefix, w, step)
  }

  ghost predicate IsJobKey(prefix: string, key: string, job: EnqueuedJob) {
    exists suffix | IsSuffix(suffix) :: key == Key(prefix, job.timestamp, suffix)
  }

  ghost predicate IsTestKey(prefix: string, key: string) {
    exists id | Uuid.ValidateString(id) :: key == TestKey(prefix, id)
  }

  // The job of a key ran, and was due.
  ghost predicate RanDue(w: World, r: Ran) {
    && r.key in w.enqueued && w.enqueued[r.key] == r.job
    && FourDigitYear(r.job.timestamp) && r.job.timestamp <= r.at
  }

  ghost predicate KeysAreKnown(prefix: string, w: World) {
    && (forall key <- w.enqueued :: IsJobKey(prefix, key, w.enqueued[key]))
    && (forall key <- w.s.bucket ::
          if key in w.enqueued then w.s.bucket[key] == Stored(w.enqueued[key])
          else w.s.bucket[key] == Corrupt && IsTestKey(prefix, key))
  }

  ghost predicate RanByKey(s: State, key: string) {
    exists i :: 0 <= i < |s.ran| && s.ran[i].key == key
  }

  // Every enqueued job is stored, or ran and may be gone; and a job only ran when due.
  ghost predicate NoJobIsLost(w: World) {
    && (forall key <- w.enqueued :: key in w.s.bucket || RanByKey(w.s, key))
    && (forall i :: 0 <= i < |w.s.ran| ==> RanDue(w, w.s.ran[i]))
  }

  ghost predicate Safe(prefix: string, w: World) {
    KeysAreKnown(prefix, w) && NoJobIsLost(w)
  }

  lemma FirstOfTestKey(prefix: string, key: string)
    ensures IsTestKey(prefix, key) ==> |prefix| < |key| && key[|prefix|] == 'C'
  {
  }

  lemma JobKeyIsNoTestKey(prefix: string, key: string, job: EnqueuedJob)
    requires IsJobKey(prefix, key, job)
    ensures !IsTestKey(prefix, key)
  {
    hide Key, FourDigitYear, IsTestKey;
    var suffix :| IsSuffix(suffix) && key == Key(prefix, job.timestamp, suffix);
    FirstOfKey(prefix, job.timestamp, suffix);
    FirstOfTestKey(prefix, key);
  }

  lemma EnqueueKeeps(prefix: string, w: World, job: EnqueuedJob, suffix: string)
    requires Safe(prefix, w) && Possible(prefix, w, Enqueue(job, suffix))
    ensures Safe(prefix, After(prefix, w, Enqueue(job, suffix)))
  {
    hide Key, FourDigitYear, IsSuffix, IsDate, IsTestKey;
    var key := Key(prefix, job.timestamp, suffix);
    var next := After(prefix, w, Enqueue(job, suffix));
    if IsDate(job.timestamp) {
      assert IsJobKey(prefix, key, job);
      hide IsJobKey;
      forall k <- next.enqueued
        ensures k in next.s.bucket || RanByKey(next.s, k)
      {
        if k != key && k !in w.s.bucket {
          assert RanByKey(w.s, k);
        }
      }
      forall i | 0 <= i < |next.s.ran|
        ensures RanDue(next, next.s.ran[i])
      {
        assert RanDue(w, w.s.ran[i]);
      }
    }
  }

  lemma TestKeeps(prefix: string, w: World, id: string)
    requires Safe(prefix, w) && Uuid.ValidateString(id)
    ensures Safe(prefix, After(prefix, w, TestConnection(id)))
  {
    hide FourDigitYear, Uuid.ValidateString, IsJobKey;
    var key := TestKey(prefix, id);
    assert IsTestKey(prefix, key);
    hide IsTestKey, TestKey;
    if key in w.enqueued {
      JobKeyIsNoTestKey(prefix, key, w.enqueued[key]);
    }
    var next := After(prefix, w, TestConnection(id));
    forall k <- next.enqueued
      ensures k in next.s.bucket || RanByKey(next.s, k)
    {
      if k !in w.s.bucket {
        assert RanByKey(w.s, k);
      }
    }
    forall i | 0 <= i < |next.s.ran|
      ensures RanDue(next, next.s.ran[i])
    {
      assert RanDue(w, w.s.ran[i]);
    }
  }

  // A key found due is that of a job whose time has come.
  lemma DueIsDue(prefix: string, w: World, key: string, now: int)
    requires KeysAreKnown(prefix, w) && key in w.enqueued && prefix <= key && IsDue(prefix, key, now) == Some(true)
    ensures FourDigitYear(w.enqueued[key].timestamp) && w.enqueued[key].timestamp <= now
  {
    hide Key, IsDue, FourDigitYear, IsSuffix;
    assert IsJobKey(prefix, key, w.enqueued[key]);
    var job := w.enqueued[key];
    var suffix :| IsSuffix(suffix) && key == Key(prefix, job.timestamp, suffix);
    if FourDigitYear(job.timestamp) {
      KeyReadsBack(prefix, job.timestamp, suffix, now);
    } else {
      LongYearIsNeverDue(prefix, job.timestamp, suffix, now);
    }
  }

  lemma RanByLonger(s: State, next: State, key: string)
    requires s.ran <= next.ran && RanByKey(s, key)
    ensures RanByKey(next, key)
  {
    var i :| 0 <= i < |s.ran| && s.ran[i].key == key;
    assert next.ran[i].key == key;
  }

  lemma KeyKeeps(prefix: string, w: World, key: string, fate: Fate, now: int)
    requires Safe(prefix, w) && prefix <= key && IsDue(prefix, key, now) == Some(true)
    ensures Safe(prefix, w.(s := AfterKey(w.s, key, fate, now).0))
  {
    hide IsDue, IsJobKey, IsTestKey, FourDigitYear;
    var s := AfterKey(w.s, key, fate, now).0;
    if s != w.s {
      var next := w.(s := s);
      DueIsDue(prefix, w, key, now);
      forall k <- next.enqueued
        ensures k in s.bucket || RanByKey(s, k)
      {
        if k == key {
          assert s.ran[|w.s.ran|].key == key;
        } else if k !in w.s.bucket {
          RanByLonger(w.s, s, k);
        }
      }
      forall i | 0 <= i < |w.s.ran|
        ensures RanDue(next, s.ran[i])
      {
        assert RanDue(w, w.s.ran[i]);
      }
    }
  }

  lemma {:induction false} KeysKeep(prefix: string, w: World, keys: seq<string>, fates: seq<Fate>, now: int)
    requires Safe(prefix, w) && |keys| <= |fates|
    requires forall i :: 0 <= i < |keys| ==> prefix <= keys[i] && IsDue(prefix, keys[i], now) == Some(true)
    ensures Safe(prefix, w.(s := AfterKeys(w.s, keys, fates, now).0))
    decreases |keys|
  {
    hide Safe, IsDue, AfterKey;
    if keys != [] {
      var n := |keys| - 1;
      assert keys == keys[..n] + [keys[n]];
      KeysKeep(prefix, w, keys[..n], fates, now);
      var before := AfterKeys(w.s, keys[..n], fates, now);
      if before.1 == Finished {
        KeyKeeps(prefix, w.(s := before.0), keys[n], fates[n], now);
      }
    }
  }

  lemma PollKeeps(prefix: string, w: World, list: seq<string>, fates: seq<Fate>, now: int)
    requires Safe(prefix, w) && IsListing(w.s.bucket.Keys, prefix, list) && |list| <= |fates|
    ensures Safe(prefix, w.(s := AfterPoll(prefix, w.s, list, fates, now).0))
  {
    hide Safe, IsDue, AfterKeys, Less;
    var due := DueKeys(prefix, list, now);
    DueAreFewer(prefix, list, now);
    hide DueKeys;
    if due.Some? {
      forall i | 0 <= i < |due.value|
        ensures prefix <= due.value[i] && IsDue(prefix, due.value[i], now) == Some(true)
      {
        assert due.value[i] in due.value;
      }
      KeysKeep(prefix, w, due.value, fates, now);
    }
  }

  lemma StepKeeps(prefix: string, w: World, step: Step)
    requires Safe(prefix, w) && Possible(prefix, w, step)
    ensures Safe(prefix, After(prefix, w, step))
  {
    hide Safe, Key, IsListing, Uuid.ValidateString, AfterPoll, IsSuffix, AfterEnqueue;
    match step {
      case Enqueue(job, suffix) => EnqueueKeeps(prefix, w, job, suffix);
      case TestConnection(id) => TestKeeps(prefix, w, id);
      case Poll(list, fates, now) => PollKeeps(prefix, w, list, fates, now);
    }
  }

  lemma Shorter(prefix: string, ws: seq<World>, steps: seq<Step>)
    requires IsRun(prefix, ws, steps) && steps != []
    ensures var n := |steps| - 1;
            && IsRun(prefix, ws[..n + 1], steps[..n])
            && Follows(prefix, ws[n], steps[n], ws[n + 1])
  {
    hide Follows;
    var n := |steps| - 1;
    forall i | 0 <= i < n
      ensures Follows(prefix, ws[..n + 1][i], steps[..n][i], ws[..n + 1][i + 1])
    {
      assert Follows(prefix, ws[i], steps[i], ws[i + 1]);
    }
  }

  // In every run of enqueues and polls, whatever fails: no job is lost, a key is gone only after its job ran,
  // and no job ran early.
  lemma {:induction false} EveryRunIsSafe(prefix: string, ws: seq<World>, steps: seq<Step>)
    requires IsRun(prefix, ws, steps)
    ensures Safe(prefix, ws[|steps|])
    decreases |steps|
  {
    hide Safe, Possible, After;
    if steps != [] {
      var n := |steps| - 1;
      assert Follows(prefix, ws[n], steps[n], ws[n + 1]);
      Shorter(prefix, ws, steps);
      EveryRunIsSafe(prefix, ws[..n + 1], steps[..n]);
      StepKeeps(prefix, ws[n], steps[n]);
    } else {
      NothingIsSafe(prefix);
    }
  }

  lemma NothingIsSafe(prefix: string)
    ensures Safe(prefix, World(State(map[], []), map[]))
  {
  }

  // ----- how often a job runs -----

  function CountRan(ran: seq<Ran>, key: string): nat {
    if ran == [] then 0 else CountRan(ran[..|ran| - 1], key) + if ran[|ran| - 1].key == key then 1 else 0
  }

  lemma CountOneMore(ran: seq<Ran>, r: Ran, key: string)
    ensures CountRan(ran + [r], key) == CountRan(ran, key) + if r.key == key then 1 else 0
  {
    assert (ran + [r])[..|ran|] == ran;
  }

  predicate Removed(s: State, next: State, key: string) {
    key in s.bucket && key !in next.bucket
  }

  // Objects stay as they are, and only jobs go.
  ghost predicate OnlyRemoves(s: State, next: State) {
    && (forall key <- next.bucket :: key in s.bucket && next.bucket[key] == s.bucket[key])
    && (forall key <- s.bucket :: key in next.bucket || s.bucket[key].Stored?)
  }

  function One(b: bool): nat {
    if b then 1 else 0
  }

  lemma KeyCounts(s: State, key: string, fate: Fate, now: int, k: string)
    ensures var after := AfterKey(s, key, fate, now);
            && CountRan(after.0.ran, k) == CountRan(s.ran, k) + One(after.1 == Kept(k)) + One(Removed(s, after.0, k))
            && OnlyRemoves(s, after.0)
  {
    if key in s.bucket && s.bucket[key].Stored? {
      CountOneMore(s.ran, Ran(key, s.bucket[key].job, now), k);
    }
  }

  lemma {:induction false} KeysCount(s: State, keys: seq<string>, fates: seq<Fate>, now: int, k: string)
    requires |keys| <= |fates|
    ensures var after := AfterKeys(s, keys, fates, now);
            && CountRan(after.0.ran, k) == CountRan(s.ran, k) + One(after.1 == Kept(k)) + One(Removed(s, after.0, k))
            && OnlyRemoves(s, after.0)
    decreases |keys|
  {
    hide CountRan, AfterKey;
    if keys != [] {
      var n := |keys| - 1;
      KeysCount(s, keys[..n], fates, now, k);
      var before := AfterKeys(s, keys[..n], fates, now);
      KeyCounts(before.0, keys[n], fates[n], now, k);
    }
  }

  ghost predicate Keeps(prefix: string, w: World, step: Step, key: string) {
    && step.Poll? && Possible(prefix, w, step)
    && KeptBy(prefix, w.s, step.list, step.fates, step.now) == Some(key)
  }

  // The polls that ran the job of a key and failed to delete the key.
  ghost function CountKept(prefix: string, ws: seq<World>, steps: seq<Step>, key: string): nat
    requires |ws| == |steps| + 1
    decreases |steps|
  {
    if steps == [] then 0
    else
      var n := |steps| - 1;
      CountKept(prefix, ws[..n + 1], steps[..n], key) + One(Keeps(prefix, ws[n], steps[n], key))
  }

  predicate Gone(w: World, key: string) {
    key in w.enqueued && key !in w.s.bucket
  }

  lemma PollCounts(prefix: string, w: World, step: Step, key: string)
    requires step.Poll? && Possible(prefix, w, step)
    ensures var next := After(prefix, w, step);
            && CountRan(next.s.ran, key)
               == CountRan(w.s.ran, key) + One(Keeps(prefix, w, step, key)) + One(Removed(w.s, next.s, key))
            && OnlyRemoves(w.s, next.s)
  {
    hide IsDue, DueKeys, AfterKeys, CountRan, IsListing;
    assert AllPrefixed(prefix, step.list) by { ListingIsPrefixed(w.s.bucket.Keys, prefix, step.list); }
    var due := DueKeys(prefix, step.list, step.now);
    DueAreFewer(prefix, step.list, step.now);
    if due.Some? {
      KeysCount(w.s, due.value, step.fates, step.now, key);
    }
  }

  lemma ListingIsPrefixed(keys: set<string>, prefix: string, list: seq<string>)
    requires IsListing(keys, prefix, list)
    ensures AllPrefixed(prefix, list)
  {
  }

  lemma StepCounts(prefix: string, w: World, step: Step, key: string)
    requires Safe(prefix, w) && Possible(prefix, w, step)
    ensures var next := After(prefix, w, step);
            CountRan(next.s.ran, key) + One(Gone(w, key))
            == CountRan(w.s.ran, key) + One(Keeps(prefix, w, step, key)) + One(Gone(next, key))
  {
    hide CountRan, Key, FourDigitYear, IsSuffix, IsDate, TestKey, Uuid.ValidateString, NoJobIsLost;
    match step {
      case Enqueue(job, suffix) =>
        hide KeysAreKnown;
      case TestConnection(id) =>
        assert IsTestKey(prefix, TestKey(prefix, id));
        if key in w.enqueued {
          JobKeyIsNoTestKey(prefix, key, w.enqueued[key]);
        }
      case Poll(list, fates, now) =>
        PollCounts(prefix, w, step, key);
        hide AfterPoll, Keeps, Possible;
        RemovedIsGone(prefix, w, After(prefix, w, step), key);
    }
  }

  lemma RemovedIsGone(prefix: string, w: World, next: World, key: string)
    requires KeysAreKnown(prefix, w) && w.enqueued == next.enqueued && OnlyRemoves(w.s, next.s)
    ensures One(Gone(next, key)) == One(Gone(w, key)) + One(Removed(w.s, next.s, key))
  {
    hide IsJobKey, IsTestKey;
  }

  lemma NothingCounted(key: string)
    ensures CountRan([], key) == 0
  {
  }

  // In every run, the job of a key ran once for each poll that failed to delete the key, and once more if the
  // key is gone.
  lemma {:induction false} RunsAreCounted(prefix: string, ws: seq<World>, steps: seq<Step>, key: string)
    requires IsRun(prefix, ws, steps)
    ensures var last := ws[|steps|];
            CountRan(last.s.ran, key) == CountKept(prefix, ws, steps, key) + One(Gone(last, key))
    decreases |steps|
  {
    hide Safe, Possible, After, Keeps, CountRan, Gone;
    if steps != [] {
      var n := |steps| - 1;
      Shorter(prefix, ws, steps);
      RunsAreCounted(prefix, ws[..n + 1], steps[..n], key);
      EveryRunIsSafe(prefix, ws[..n + 1], steps[..n]);
      assert Follows(prefix, ws[n], steps[n], ws[n + 1]);
      StepCounts(prefix, ws[n], steps[n], key);
    } else {
      NothingCounted(key);
      assert !Gone(ws[0], key) by { NothingIsGone(key); }
    }
  }

  lemma NothingIsGone(key: string)
    ensures !Gone(World(State(map[], []), map[]), key)
  {
  }

  ghost predicate AtMostOnce(ran: seq<Ran>) {
    forall key :: CountRan(ran, key) <= 1
  }

  // A run's jobs ran at most once each, if and only if no key was kept twice, and none kept once is gone.
  lemma AtMostOnceInRun(prefix: string, ws: seq<World>, steps: seq<Step>)
    requires IsRun(prefix, ws, steps)
    ensures AtMostOnce(ws[|steps|].s.ran)
            <==> forall key :: CountKept(prefix, ws, steps, key) + One(Gone(ws[|steps|], key)) <= 1
  {
    hide Follows, CountRan, CountKept, Gone, One;
    forall key
      ensures CountRan(ws[|steps|].s.ran, key) == CountKept(prefix, ws, steps, key) + One(Gone(ws[|steps|], key))
    {
      RunsAreCounted(prefix, ws, steps, key);
    }
  }

  ghost predicate FatesWithin(steps: seq<Step>, allowed: set<Fate>) {
    forall i :: 0 <= i < |steps| && steps[i].Poll? ==> forall fate <- steps[i].fates :: fate in allowed
  }

  lemma {:induction false} KeptHasFate(s: State, keys: seq<string>, fates: seq<Fate>, now: int)
    requires |keys| <= |fates| && DeleteFails !in fates
    ensures !AfterKeys(s, keys, fates, now).1.Kept?
    decreases |keys|
  {
    if keys != [] {
      KeptHasFate(s, keys[..|keys| - 1], fates, now);
      assert fates[|keys| - 1] in fates;
    }
  }

  lemma {:induction false} NeverKept(prefix: string, ws: seq<World>, steps: seq<Step>, allowed: set<Fate>, key: string)
    requires |ws| == |steps| + 1 && FatesWithin(steps, allowed) && DeleteFails !in allowed
    ensures CountKept(prefix, ws, steps, key) == 0
    decreases |steps|
  {
    if steps != [] {
      var n := |steps| - 1;
      NeverKept(prefix, ws[..n + 1], steps[..n], allowed, key);
      StepNeverKeeps(prefix, ws[n], steps[n], key);
    }
  }

  lemma StepNeverKeeps(prefix: string, w: World, step: Step, key: string)
    requires step.Poll? ==> DeleteFails !in step.fates
    ensures !Keeps(prefix, w, step, key)
  {
    hide IsDue, AfterKeys, IsListing, DueKeys;
    if Keeps(prefix, w, step, key) {
      assert AllPrefixed(prefix, step.list) by { ListingIsPrefixed(w.s.bucket.Keys, prefix, step.list); }
      var due := DueKeys(prefix, step.list, step.now);
      DueAreFewer(prefix, step.list, step.now);
      KeptHasFate(w.s, due.value, step.fates, step.now);
    }
  }

  // A job that is due at once, whose key two polls in a row fail to delete.
  lemma RunTwice(prefix: string) returns (ws: seq<World>, steps: seq<Step>)
    ensures IsRun(prefix, ws, steps) && FatesWithin(steps, {DeleteFails})
    ensures ws[|steps|].s.ran == [Ran(Key(prefix, 0, SUFFIX), EnqueuedJob(0, ""), 0),
                                  Ran(Key(prefix, 0, SUFFIX), EnqueuedJob(0, ""), 0)]
  {
    hide Key, IsDue, Less;
    var job, key := EnqueuedJob(0, ""), Key(prefix, 0, SUFFIX);
    EpochIsDue(prefix);
    var r := Ran(key, job, 0);
    var bucket, enqueued := map[key := Stored(job)], map[key := job];
    var poll := Poll([key], [DeleteFails], 0);
    ws := [World(State(map[], []), map[]), World(State(bucket, []), enqueued),
           World(State(bucket, [r]), enqueued), World(State(bucket, [r, r]), enqueued)];
    steps := [Enqueue(job, SUFFIX), poll, poll];
    OneKeyIsListed(bucket, key, prefix);
    OneDue(prefix, key);
    assert Follows(prefix, ws[0], steps[0], ws[1]);
    KeptOnce(State(bucket, []), key, job);
    assert Follows(prefix, ws[1], steps[1], ws[2]);
    KeptOnce(State(bucket, [r]), key, job);
    assert [r] + [r] == [r, r];
    assert Follows(prefix, ws[2], steps[2], ws[3]);
  }

  const SUFFIX := "0000000000000000"

  lemma EpochIsDue(prefix: string)
    ensures IsSuffix(SUFFIX) && prefix <= Key(prefix, 0, SUFFIX) && IsDue(prefix, Key(prefix, 0, SUFFIX), 0) == Some(true)
  {
    assert IsSuffix(SUFFIX);
    assert FourDigitYear(0) by { EpochYear(); }
    hide Key, IsDue, FourDigitYear, IsSuffix;
    KeyReadsBack(prefix, 0, SUFFIX, 0);
  }

  lemma OneKeyIsListed(bucket: map<string, Object>, key: string, prefix: string)
    requires bucket.Keys == {key} && prefix <= key
    ensures IsListing(bucket.Keys, prefix, [key])
  {
    hide Less;
  }

  lemma OneDue(prefix: string, key: string)
    requires prefix <= key && IsDue(prefix, key, 0) == Some(true)
    ensures DueKeys(prefix, [key], 0) == Some([key])
  {
    hide IsDue;
    var list := [key];
    assert list[..|list| - 1] == [] && list[|list| - 1] == key && AllPrefixed(prefix, []);
    assert DueKeys(prefix, [], 0) == Some([]);
    assert [] + [key] == list && DueKeys(prefix, list, 0) == Some([] + [key]);
  }

  lemma KeptOnce(s: State, key: string, job: EnqueuedJob)
    requires key in s.bucket && s.bucket[key] == Stored(job)
    ensures AfterKeys(s, [key], [DeleteFails], 0) == (s.(ran := s.ran + [Ran(key, job, 0)]), Kept(key))
  {
    assert [key][..0] == [];
    assert AfterKeys(s, [], [DeleteFails], 0) == (s, Finished);
  }

  lemma CleanDeletesRunOnce(prefix: string, ws: seq<World>, steps: seq<Step>, allowed: set<Fate>)
    requires IsRun(prefix, ws, steps) && FatesWithin(steps, allowed) && DeleteFails !in allowed
    ensures AtMostOnce(ws[|steps|].s.ran)
  {
    hide CountRan, CountKept, Gone, FatesWithin, Follows;
    forall key
      ensures CountRan(ws[|steps|].s.ran, key) <= 1
    {
      RunsAreCounted(prefix, ws, steps, key);
      NeverKept(prefix, ws, steps, allowed, key);
    }
  }

  lemma TwiceIsTwice(r: Ran)
    ensures !AtMostOnce([r, r])
  {
    CountOneMore([], r, r.key);
    CountOneMore([r], r, r.key);
    assert [] + [r] == [r] && [r] + [r] == [r, r];
  }

  // Polls with the allowed fates can lead from the start to a job that ran twice.
  ghost predicate CanRunTwice(prefix: string, allowed: set<Fate>) {
    exists ws: seq<World>, steps: seq<Step> ::
      IsRun(prefix, ws, steps) && FatesWithin(steps, allowed) && !AtMostOnce(ws[|steps|].s.ran)
  }

  // Each job runs at most once in every run of polls with the allowed fates, if and only if a delete cannot
  // fail after its job ran.
  lemma AtMostOnceExactly(prefix: string, allowed: set<Fate>)
    ensures !CanRunTwice(prefix, allowed) <==> DeleteFails !in allowed
  {
    hide Follows, AtMostOnce;
    if DeleteFails !in allowed {
      if CanRunTwice(prefix, allowed) {
        var ws: seq<World>, steps: seq<Step> :|
          IsRun(prefix, ws, steps) && FatesWithin(steps, allowed) && !AtMostOnce(ws[|steps|].s.ran);
        CleanDeletesRunOnce(prefix, ws, steps, allowed);
      }
    } else {
      var ws, steps := RunTwice(prefix);
      TwiceIsTwice(Ran(Key(prefix, 0, SUFFIX), EnqueuedJob(0, ""), 0));
      assert FatesWithin(steps, allowed);
    }
  }

  // ----- a due job is listed -----

  // Stored jobs whose year does not have four digits.
  function LongYearKeys(w: World): set<string> {
    set key <- w.s.bucket | key in w.enqueued && !FourDigitYear(w.enqueued[key].timestamp)
  }

  predicate StoredAndDue(prefix: string, w: World, key: string, now: int) {
    && key in w.s.bucket && key in w.enqueued
    && FourDigitYear(w.enqueued[key].timestamp) && w.enqueued[key].timestamp <= now
  }

  lemma TestKeyIsNeverDue(prefix: string, key: string, now: int)
    requires IsTestKey(prefix, key)
    ensures prefix <= key && IsDue(prefix, key, now) == Some(false)
  {
    var id :| Uuid.ValidateString(id) && key == TestKey(prefix, id);
    TestNameNeverMatches(id);
    var name := id + ".test";
    hide Uuid.ValidateString, ParseName, SecondSegment;
    assert key[|prefix|..] == "CONNTEST" + ("/" + name);
    SegmentAfter("CONNTEST", name);
  }

  lemma TestNameNeverMatches(id: string)
    requires Uuid.ValidateString(id)
    ensures '/' !in id + ".test" && ParseName(id + ".test") == None
  {
    var name := id + ".test";
    var clock := name[9..15];
    assert clock[4] == name[13] == '-' && clock[4] in clock;
    forall i | 0 <= i < 36
      ensures id[i] != '/'
    {
      if i < 8 { assert id[i] in id[0..8]; }
      else if 9 <= i < 13 { assert id[i] in id[9..13]; }
      else if 14 <= i < 18 { assert id[i] in id[14..18]; }
      else if 19 <= i < 23 { assert id[i] in id[19..23]; }
      else if 24 <= i { assert id[i] in id[24..36]; }
    }
  }

  lemma LongBeforeOthers(prefix: string, w: World, long: string, key: string)
    requires KeysAreKnown(prefix, w) && long in LongYearKeys(w) && key in w.s.bucket && key !in LongYearKeys(w)
    ensures Less(long, key)
  {
    hide Key, FourDigitYear, Less, IsSuffix, Uuid.ValidateString;
    assert IsJobKey(prefix, long, w.enqueued[long]);
    var suffix :| IsSuffix(suffix) && long == Key(prefix, w.enqueued[long].timestamp, suffix);
    FirstOfKey(prefix, w.enqueued[long].timestamp, suffix);
    if key in w.enqueued {
      assert IsJobKey(prefix, key, w.enqueued[key]);
      var other :| IsSuffix(other) && key == Key(prefix, w.enqueued[key].timestamp, other);
      FirstOfKey(prefix, w.enqueued[key].timestamp, other);
      FirstCharacterDecides(prefix, long[|prefix|..], key[|prefix|..]);
    } else {
      var id :| Uuid.ValidateString(id) && key == TestKey(prefix, id);
      FirstCharacterDecides(prefix, long[|prefix|..], "CONNTEST" + ("/" + (id + ".test")));
    }
  }

  // What sorts before a due key, and is not printed with a long year, is due itself.
  lemma EarlierIsDue(prefix: string, w: World, earlier: string, key: string, now: int)
    requires KeysAreKnown(prefix, w) && StoredAndDue(prefix, w, key, now)
    requires earlier in w.s.bucket && earlier !in LongYearKeys(w) && Less(earlier, key)
    ensures StoredAndDue(prefix, w, earlier, now)
  {
    hide Key, FourDigitYear, Less, IsSuffix, Uuid.ValidateString;
    assert IsJobKey(prefix, key, w.enqueued[key]);
    var suffix :| IsSuffix(suffix) && key == Key(prefix, w.enqueued[key].timestamp, suffix);
    FirstOfKey(prefix, w.enqueued[key].timestamp, suffix);
    if earlier in w.enqueued {
      assert IsJobKey(prefix, earlier, w.enqueued[earlier]);
      var other :| IsSuffix(other) && earlier == Key(prefix, w.enqueued[earlier].timestamp, other);
      TextOrderIsTimeOrder(prefix, w.enqueued[earlier].timestamp, w.enqueued[key].timestamp, other, suffix);
    } else {
      var id :| Uuid.ValidateString(id) && earlier == TestKey(prefix, id);
      FirstCharacterDecides(prefix, key[|prefix|..], "CONNTEST" + ("/" + (id + ".test")));
      LessAsymmetric(key, earlier);
    }
  }

  lemma {:induction false} DistinctCount(list: seq<string>, keys: set<string>)
    requires forall i, j :: 0 <= i < j < |list| ==> list[i] != list[j]
    requires forall key <- list :: key in keys
    ensures |list| <= |keys|
  {
    if list != [] {
      var n := |list| - 1;
      DistinctCount(list[..n], keys - {list[n]});
    }
  }

  lemma SortedIsDistinct(list: seq<string>)
    requires forall i, j :: 0 <= i < j < |list| ==> Less(list[i], list[j])
    ensures forall i, j :: 0 <= i < j < |list| ==> list[i] != list[j]
  {
    forall i, j | 0 <= i < j < |list|
      ensures list[i] != list[j]
    {
      LessIrreflexive(list[i]);
    }
  }

  ghost predicate ListsDue(prefix: string, w: World, list: seq<string>, now: int) {
    exists key <- list :: StoredAndDue(prefix, w, key, now)
  }

  lemma FewLongKeys(prefix: string, w: World, list: seq<string>, key: string, now: int)
    requires KeysAreKnown(prefix, w) && IsListing(w.s.bucket.Keys, prefix, list)
    requires StoredAndDue(prefix, w, key, now) && prefix <= key && |LongYearKeys(w)| < MAX_KEYS
    ensures ListsDue(prefix, w, list, now)
  {
    hide KeysAreKnown, LongYearKeys, StoredAndDue, Less;
    assert key in w.s.bucket by { StoredIsStored(prefix, w, key, now); }
    if key !in list {
      SortedIsDistinct(list);
      if forall listed <- list :: listed in LongYearKeys(w) {
        DistinctCount(list, LongYearKeys(w));
      }
      var listed :| listed in list && listed !in LongYearKeys(w);
      EarlierIsDue(prefix, w, listed, key, now);
    }
  }

  lemma StoredIsStored(prefix: string, w: World, key: string, now: int)
    requires StoredAndDue(prefix, w, key, now)
    ensures key in w.s.bucket && key !in LongYearKeys(w)
  {
  }

  lemma ManyLongKeys(prefix: string, w: World, list: seq<string>, key: string, now: int)
    requires KeysAreKnown(prefix, w) && IsListing(w.s.bucket.Keys, prefix, list) && |list| <= MAX_KEYS
    requires key in list && StoredAndDue(prefix, w, key, now)
    ensures |LongYearKeys(w)| < MAX_KEYS
  {
    hide KeysAreKnown, LongYearKeys, StoredAndDue, Less;
    StoredIsStored(prefix, w, key, now);
    forall long <- LongYearKeys(w)
      ensures long in list && long != key
    {
      LongBeforeOthers(prefix, w, long, key);
      LongHasPrefix(prefix, w, long);
      LessAsymmetric(long, key);
    }
    hide IsListing;
    assert |LongYearKeys(w) + {key}| == |LongYearKeys(w)| + 1;
    SetFits(LongYearKeys(w) + {key}, list);
  }

  lemma LongHasPrefix(prefix: string, w: World, long: string)
    requires KeysAreKnown(prefix, w) && long in LongYearKeys(w)
    ensures prefix <= long && long in w.s.bucket
  {
    hide FourDigitYear, IsSuffix;
    assert IsJobKey(prefix, long, w.enqueued[long]);
    var suffix :| IsSuffix(suffix) && long == Key(prefix, w.enqueued[long].timestamp, suffix);
    FirstOfKey(prefix, w.enqueued[long].timestamp, suffix);
  }

  lemma {:induction false} SetFits(keys: set<string>, list: seq<string>)
    requires forall key <- keys :: key in list
    ensures |keys| <= |list|
  {
    if list == [] {
      assert keys == {};
    } else {
      var n := |list| - 1;
      assert list == list[..n] + [list[n]];
      SetFits(keys - {list[n]}, list[..n]);
    }
  }

  // When some stored job is due, the listing of at most 100 keys includes a due job, if and only if fewer
  // than 100 stored jobs have a year that is not of four digits.
  lemma DueJobIsListedExactly(prefix: string, w: World, list: seq<string>, key: string, now: int)
    requires Safe(prefix, w) && IsListing(w.s.bucket.Keys, prefix, list)
    requires StoredAndDue(prefix, w, key, now)
    ensures ListsDue(prefix, w, list, now) <==> |LongYearKeys(w)| < 100
  {
    hide LongYearKeys, FourDigitYear;
    assert prefix <= key by {
      hide IsSuffix;
      assert IsJobKey(prefix, key, w.enqueued[key]);
      var suffix :| IsSuffix(suffix) && key == Key(prefix, w.enqueued[key].timestamp, suffix);
      FirstOfKey(prefix, w.enqueued[key].timestamp, suffix);
    }
    hide KeysAreKnown, NoJobIsLost, IsListing, StoredAndDue;
    if |LongYearKeys(w)| < MAX_KEYS {
      FewLongKeys(prefix, w, list, key, now);
    }
    if ListsDue(prefix, w, list, now) {
      var listed :| listed in list && StoredAndDue(prefix, w, listed, now);
      ManyLongKeys(prefix, w, list, listed, now);
    }
  }

  lemma EveryKeyHasItsAnswer(prefix: string, w: World, key: string, now: int)
    requires KeysAreKnown(prefix, w) && key in w.s.bucket
    ensures prefix <= key && IsDue(prefix, key, now) == Some(StoredAndDue(prefix, w, key, now))
  {
    if key in w.enqueued {
      hide FourDigitYear, IsSuffix, IsDue, Key;
      assert IsJobKey(prefix, key, w.enqueued[key]);
      var job := w.enqueued[key];
      var suffix :| IsSuffix(suffix) && key == Key(prefix, job.timestamp, suffix);
      if FourDigitYear(job.timestamp) {
        KeyReadsBack(prefix, job.timestamp, suffix, now);
      } else {
        LongYearIsNeverDue(prefix, job.timestamp, suffix, now);
      }
    } else {
      TestKeyIsNeverDue(prefix, key, now);
    }
  }

  // In a run there is never a TypeError, and exactly the due jobs of the listing are chosen.
  lemma ExactlyTheDueAreChosen(prefix: string, w: World, list: seq<string>, now: int)
    requires Safe(prefix, w) && IsListing(w.s.bucket.Keys, prefix, list)
    ensures var due := DueKeys(prefix, list, now);
            due.Some? && forall key :: key in due.value <==> key in list && StoredAndDue(prefix, w, key, now)
  {
    hide IsDue, StoredAndDue, KeysAreKnown;
    forall i | 0 <= i < |list|
      ensures IsDue(prefix, list[i], now) == Some(StoredAndDue(prefix, w, list[i], now))
    {
      EveryKeyHasItsAnswer(prefix, w, list[i], now);
    }
    NoTypeError(prefix, list, now);
  }

  lemma {:induction false} NoTypeError(prefix: string, list: seq<string>, now: int)
    requires AllPrefixed(prefix, list) && forall i :: 0 <= i < |list| ==> IsDue(prefix, list[i], now).Some?
    ensures DueKeys(prefix, list, now).Some?
  {
    hide IsDue;
    if list != [] {
      NoTypeError(prefix, list[..|list| - 1], now);
    }
  }

  ghost predicate AreRun(s: State, keys: seq<string>, now: int, ran: seq<Ran>) {
    && |ran| == |s.ran| + |keys|
    && ran[..|s.ran|] == s.ran
    && forall i :: 0 <= i < |keys| ==> ran[|s.ran| + i].key == keys[i] && ran[|s.ran| + i].at == now
  }

  lemma KeySetGrows(bucket: map<string, Object>, keys: seq<string>)
    requires keys != []
    ensures var n := |keys| - 1;
            bucket - (set key <- keys[..n]) - {keys[n]} == bucket - (set key <- keys)
  {
    var n := |keys| - 1;
    assert keys == keys[..n] + [keys[n]];
  }

  lemma OneMoreRun(s: State, keys: seq<string>, now: int, ran: seq<Ran>, job: EnqueuedJob)
    requires keys != [] && AreRun(s, keys[..|keys| - 1], now, ran)
    ensures AreRun(s, keys, now, ran + [Ran(keys[|keys| - 1], job, now)])
  {
  }

  lemma {:induction false} AllRun(s: State, keys: seq<string>, fates: seq<Fate>, now: int)
    requires |keys| <= |fates| && (forall i :: 0 <= i < |keys| ==> fates[i] == Deleted)
    requires forall i, j :: 0 <= i < j < |keys| ==> keys[i] != keys[j]
    requires forall i :: 0 <= i < |keys| ==> keys[i] in s.bucket && s.bucket[keys[i]].Stored?
    ensures var after := AfterKeys(s, keys, fates, now);
            && after.1 == Finished
            && after.0.bucket == s.bucket - (set key <- keys)
            && AreRun(s, keys, now, after.0.ran)
    decreases |keys|
  {
    if keys != [] {
      var n := |keys| - 1;
      assert keys == keys[..n] + [keys[n]];
      AllRun(s, keys[..n], fates, now);
      var before := AfterKeys(s, keys[..n], fates, now).0;
      assert keys[n] in before.bucket && before.bucket[keys[n]] == s.bucket[keys[n]];
      KeySetGrows(s.bucket, keys);
      OneMoreRun(s, keys, now, before.ran, s.bucket[keys[n]].job);
      hide AreRun;
    } else {
      assert (set key <- keys) == {};
    }
  }

  lemma {:induction false} DueAreDistinct(prefix: string, list: seq<string>, now: int)
    requires AllPrefixed(prefix, list) && DueKeys(prefix, list, now).Some?
    requires forall i, j :: 0 <= i < j < |list| ==> list[i] != list[j]
    ensures var due := DueKeys(prefix, list, now).value;
            forall i, j :: 0 <= i < j < |due| ==> due[i] != due[j]
  {
    hide IsDue;
    if list != [] {
      var n := |list| - 1;
      DueAreDistinct(prefix, list[..n], now);
      var front := DueKeys(prefix, list[..n], now).value;
      assert list[n] !in list[..n];
      assert list[n] !in front;
    }
  }

  ghost predicate RanSince(s: State, before: nat, key: string) {
    exists i :: before <= i < |s.ran| && s.ran[i].key == key
  }

  ghost predicate RunsTheDue(prefix: string, w: World, list: seq<string>, now: int, next: State) {
    var before := |w.s.ran|;
    && next.bucket == w.s.bucket - (set key <- list | StoredAndDue(prefix, w, key, now))
    && before <= |next.ran| && next.ran[..before] == w.s.ran
    && (forall r <- next.ran[before..] :: r.at == now && r.key in list && StoredAndDue(prefix, w, r.key, now))
    && (forall key <- list :: StoredAndDue(prefix, w, key, now) ==> RanSince(next, before, key))
  }

  // The due keys of a listing, run one by one without a failure.
  lemma DueAllRun(prefix: string, w: World, list: seq<string>, due: seq<string>, fates: seq<Fate>, now: int)
    requires Safe(prefix, w) && |due| <= |fates| && (forall i :: 0 <= i < |fates| ==> fates[i] == Deleted)
    requires forall key <- due :: key in list && StoredAndDue(prefix, w, key, now)
    requires forall i, j :: 0 <= i < j < |due| ==> due[i] != due[j]
    ensures var after := AfterKeys(w.s, due, fates, now);
            after.1 == Finished && after.0.bucket == w.s.bucket - (set key <- due) && AreRun(w.s, due, now, after.0.ran)
  {
    hide AfterKeys, AreRun, RanByKey, Safe, StoredAndDue;
    forall i | 0 <= i < |due|
      ensures due[i] in w.s.bucket && w.s.bucket[due[i]].Stored?
    {
      assert due[i] in due;
      StoredIsAJob(prefix, w, due[i], now);
    }
    AllRun(w.s, due, fates, now);
  }

  lemma DueMeansRun(prefix: string, w: World, list: seq<string>, due: seq<string>, now: int, next: State)
    requires forall key :: key in due <==> key in list && StoredAndDue(prefix, w, key, now)
    requires next.bucket == w.s.bucket - (set key <- due) && AreRun(w.s, due, now, next.ran)
    ensures RunsTheDue(prefix, w, list, now, next)
  {
    hide AreRun, StoredAndDue, RanSince;
    assert (set key <- list | StoredAndDue(prefix, w, key, now)) == (set key <- due);
    RanFirst(w.s, due, now, next);
    RanAre(w.s, due, now, next);
  }

  lemma RanFirst(s: State, due: seq<string>, now: int, next: State)
    requires AreRun(s, due, now, next.ran)
    ensures |s.ran| <= |next.ran| && next.ran[..|s.ran|] == s.ran
  {
  }

  lemma RanAre(s: State, due: seq<string>, now: int, next: State)
    requires AreRun(s, due, now, next.ran)
    ensures |s.ran| <= |next.ran| && forall r <- next.ran[|s.ran|..] :: r.at == now && r.key in due
    ensures forall key <- due :: RanSince(next, |s.ran|, key)
  {
    var added := next.ran[|s.ran|..];
    forall r <- added
      ensures r.at == now && r.key in due
    {
      var i :| 0 <= i < |added| && added[i] == r;
      assert next.ran[|s.ran| + i] == r && due[i] in due;
    }
    forall key <- due
      ensures RanSince(next, |s.ran|, key)
    {
      var i :| 0 <= i < |due| && due[i] == key;
      assert next.ran[|s.ran| + i].key == key;
    }
  }

  // A poll in which no job fails runs the due jobs of the listing, all and only, each once, and removes
  // exactly their keys; it reports whether there were any.
  lemma PollRunsTheDue(prefix: string, w: World, list: seq<string>, fates: seq<Fate>, now: int)
    requires Safe(prefix, w) && AllPrefixed(prefix, list) && IsListing(w.s.bucket.Keys, prefix, list)
    requires |list| <= |fates| && forall i :: 0 <= i < |fates| ==> fates[i] == Deleted
    ensures var after := AfterPoll(prefix, w.s, list, fates, now);
            after.1 == Some(ListsDue(prefix, w, list, now)) && RunsTheDue(prefix, w, list, now, after.0)
  {
    hide IsDue, Less, AfterKeys, RunsTheDue, StoredAndDue;
    ExactlyTheDueAreChosen(prefix, w, list, now);
    SortedIsDistinct(list);
    DueAreDistinct(prefix, list, now);
    DueAreFewer(prefix, list, now);
    hide DueKeys, IsListing, Safe;
    var due := DueKeys(prefix, list, now).value;
    DueAllRun(prefix, w, list, due, fates, now);
    hide AreRun;
    DueMeansRun(prefix, w, list, due, now, AfterKeys(w.s, due, fates, now).0);
    if due != [] {
      assert due[0] in due;
    }
  }

  lemma StoredIsAJob(prefix: string, w: World, key: string, now: int)
    requires Safe(prefix, w) && StoredAndDue(prefix, w, key, now)
    ensures key in w.s.bucket && w.s.bucket[key].Stored?
  {
  }
}
