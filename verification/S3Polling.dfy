// Polling again and again (src/main/job-queues/redlocked/s3-queue.ts:52-115 and
// src/main/job-queues/job-queue-base.ts:78-91).
module S3Polling {
  import opened CivilTime
  import opened KeyOrder
  import opened S3Keys
  import opened S3Queue

  // ----- failure-free polls at one time -----

  function DueSet(prefix: string, w: World, now: int): set<string> {
    set key <- w.s.bucket | StoredAndDue(prefix, w, key, now)
  }

  function AllDeleted(n: nat): seq<Fate> {
    seq(n, _ => Deleted)
  }

  ghost predicate CleanPoll(prefix: string, w: World, list: seq<string>, next: World, now: int) {
    && AllPrefixed(prefix, list) && IsListing(w.s.bucket.Keys, prefix, list)
    && next == w.(s := AfterPoll(prefix, w.s, list, AllDeleted(|list|), now).0)
  }

  ghost predicate CleanPolls(prefix: string, ws: seq<World>, lists: seq<seq<string>>, now: int) {
    && |ws| == |lists| + 1
    && forall i :: 0 <= i < |lists| ==> CleanPoll(prefix, ws[i], lists[i], ws[i + 1], now)
  }

  // What one clean poll does to the due jobs: some of them run and go, unless there are 100 keys before them.
  ghost predicate Progress(prefix: string, w: World, next: World, now: int) {
    && next.enqueued == w.enqueued
    && |w.s.ran| <= |next.s.ran| && next.s.ran[..|w.s.ran|] == w.s.ran
    && DueSet(prefix, next, now) <= DueSet(prefix, w, now)
    && (forall key <- DueSet(prefix, w, now) - DueSet(prefix, next, now) :: RanSince(next.s, |w.s.ran|, key))
    && LongYearKeys(next) == LongYearKeys(w)
    && (DueSet(prefix, w, now) != {} ==>
          (DueSet(prefix, next, now) != DueSet(prefix, w, now) <==> |LongYearKeys(w)| < MAX_KEYS))
  }

  lemma AllAreDeleted(n: nat)
    ensures |AllDeleted(n)| == n && forall i :: 0 <= i < n ==> AllDeleted(n)[i] == Deleted
  {
  }

  lemma PollProgresses(prefix: string, w: World, list: seq<string>, next: World, now: int)
    requires Safe(prefix, w) && CleanPoll(prefix, w, list, next, now)
    ensures Safe(prefix, next) && Progress(prefix, w, next, now)
  {
    hide Safe, Less, AfterPoll, RunsTheDue, StoredAndDue, LongYearKeys;
    AllAreDeleted(|list|);
    PollRunsTheDue(prefix, w, list, AllDeleted(|list|), now);
    PollKeeps(prefix, w, list, AllDeleted(|list|), now);
    if DueSet(prefix, w, now) != {} {
      var key :| key in DueSet(prefix, w, now);
      DueJobIsListedExactly(prefix, w, list, key, now);
    }
    hide DueSet, IsListing;
    DueGoes(prefix, w, list, next, now);
    LongYearsStay(prefix, w, list, next, now);
  }

  lemma DueGoes(prefix: string, w: World, list: seq<string>, next: World, now: int)
    requires next.enqueued == w.enqueued && RunsTheDue(prefix, w, list, now, next.s)
    requires forall key <- list :: key in w.s.bucket
    ensures var due, left := DueSet(prefix, w, now), DueSet(prefix, next, now);
            && left <= due
            && (forall key <- due - left :: RanSince(next.s, |w.s.ran|, key))
            && (left != due <==> ListsDue(prefix, w, list, now))
            && |w.s.ran| <= |next.s.ran| && next.s.ran[..|w.s.ran|] == w.s.ran
  {
    hide FourDigitYear, RanSince;
    var due, left := DueSet(prefix, w, now), DueSet(prefix, next, now);
    forall key: string
      ensures key in left <==> key in due && key !in list
    {
    }
    if ListsDue(prefix, w, list, now) {
      var key :| key in list && StoredAndDue(prefix, w, key, now);
      assert key in due && key !in left;
    }
  }

  lemma LongYearsStay(prefix: string, w: World, list: seq<string>, next: World, now: int)
    requires next.enqueued == w.enqueued && RunsTheDue(prefix, w, list, now, next.s)
    ensures LongYearKeys(next) == LongYearKeys(w)
  {
    hide FourDigitYear, RanSince;
  }

  // What a run of clean polls did between its first and its last state.
  ghost predicate Drained(prefix: string, first: World, last: World, polls: nat, now: int) {
    var due, left := DueSet(prefix, first, now), DueSet(prefix, last, now);
    && left <= due && LongYearKeys(last) == LongYearKeys(first)
    && |first.s.ran| <= |last.s.ran|
    && (forall key <- due - left :: RanSince(last.s, |first.s.ran|, key))
    && (if |LongYearKeys(first)| < MAX_KEYS then |left| <= (if polls < |due| then |due| - polls else 0) else left == due)
  }

  lemma DrainedStep(prefix: string, first: World, w: World, next: World, polls: nat, now: int)
    requires Drained(prefix, first, w, polls, now) && Progress(prefix, w, next, now)
    ensures Drained(prefix, first, next, polls + 1, now)
  {
    hide DueSet, LongYearKeys;
    var due, left, rest := DueSet(prefix, first, now), DueSet(prefix, w, now), DueSet(prefix, next, now);
    SubsetSize(rest, left);
    forall key <- due - rest
      ensures RanSince(next.s, |first.s.ran|, key)
    {
      if key in left {
        RanSinceEarlier(next.s, |w.s.ran|, |first.s.ran|, key);
      } else {
        StillRan(w.s, next.s, |first.s.ran|, key);
      }
    }
  }

  lemma RanSinceEarlier(s: State, later: nat, earlier: nat, key: string)
    requires earlier <= later && RanSince(s, later, key)
    ensures RanSince(s, earlier, key)
  {
  }

  lemma StillRan(s: State, next: State, since: nat, key: string)
    requires |s.ran| <= |next.ran| && next.ran[..|s.ran|] == s.ran && RanSince(s, since, key)
    ensures RanSince(next, since, key)
  {
    var i :| since <= i < |s.ran| && s.ran[i].key == key;
    assert next.ran[i] == next.ran[..|s.ran|][i];
  }

  lemma SubsetSize(a: set<string>, b: set<string>)
    requires a <= b
    ensures |a| <= |b| && (a != b ==> |a| < |b|)
  {
    assert b == a + (b - a);
    if a != b {
      var key :| key in b - a;
    }
  }

  lemma {:induction false} PollsDrain(prefix: string, ws: seq<World>, lists: seq<seq<string>>, now: int)
    requires |ws| == |lists| + 1 && Safe(prefix, ws[0]) && CleanPolls(prefix, ws, lists, now)
    ensures Safe(prefix, ws[|lists|]) && Drained(prefix, ws[0], ws[|lists|], |lists|, now)
    decreases |lists|
  {
    hide Safe, Drained, CleanPoll, Progress;
    if lists == [] {
      NothingDrained(prefix, ws[0], now);
    } else {
      var n := |lists| - 1;
      forall i | 0 <= i < n
        ensures CleanPoll(prefix, ws[..n + 1][i], lists[..n][i], ws[..n + 1][i + 1], now)
      {
        assert CleanPoll(prefix, ws[i], lists[i], ws[i + 1], now);
      }
      PollsDrain(prefix, ws[..n + 1], lists[..n], now);
      assert CleanPoll(prefix, ws[n], lists[n], ws[n + 1], now);
      PollProgresses(prefix, ws[n], lists[n], ws[n + 1], now);
      DrainedStep(prefix, ws[0], ws[n], ws[n + 1], n, now);
    }
  }

  lemma NothingDrained(prefix: string, w: World, now: int)
    ensures Drained(prefix, w, w, 0, now)
  {
    hide DueSet, LongYearKeys;
  }

  // As many failure-free polls as there are due jobs run and remove all of them, if and only if fewer than 100
  // stored jobs have a year that is not of four digits.
  lemma PollsRunEveryDueJob(prefix: string, ws: seq<World>, lists: seq<seq<string>>, now: int)
    requires |ws| == |lists| + 1 && Safe(prefix, ws[0]) && CleanPolls(prefix, ws, lists, now)
    requires 0 < |DueSet(prefix, ws[0], now)| <= |lists|
    ensures var first, last := ws[0], ws[|lists|];
            (forall key <- DueSet(prefix, first, now) :: key !in last.s.bucket && RanSince(last.s, |first.s.ran|, key))
            <==> |LongYearKeys(first)| < 100
  {
    hide Safe, CleanPolls, LongYearKeys, RanSince, FourDigitYear;
    PollsDrain(prefix, ws, lists, now);
    var first, last := ws[0], ws[|lists|];
    var due, left := DueSet(prefix, first, now), DueSet(prefix, last, now);
    if |LongYearKeys(first)| < MAX_KEYS {
      assert left == {};
      forall key <- due
        ensures key !in last.s.bucket
      {
        SameEnqueued(prefix, ws, lists, now);
        assert key !in left;
      }
    } else {
      var key :| key in due;
      assert key in left;
    }
  }

  lemma {:induction false} SameEnqueued(prefix: string, ws: seq<World>, lists: seq<seq<string>>, now: int)
    requires |ws| == |lists| + 1 && CleanPolls(prefix, ws, lists, now)
    ensures ws[|lists|].enqueued == ws[0].enqueued
    decreases |lists|
  {
    if lists != [] {
      var n := |lists| - 1;
      assert CleanPoll(prefix, ws[n], lists[n], ws[n + 1], now);
      hide AfterPoll, IsListing;
      forall i | 0 <= i < n
        ensures CleanPoll(prefix, ws[..n + 1][i], lists[..n][i], ws[..n + 1][i + 1], now)
      {
        assert CleanPoll(prefix, ws[i], lists[i], ws[i + 1], now);
      }
      SameEnqueued(prefix, ws[..n + 1], lists[..n], now);
    }
  }

  // ----- a queue that is blocked -----

  // 1 January of the year 10000
  const FAR := 253_402_300_800_000

  const FAR_JOB := EnqueuedJob(FAR, "")

  const FAR_FIELDS := Fields(10_000, 1, 1, 0, 0, 0, 0)

  lemma FarInstant()
    ensures Valid(FAR_FIELDS) && Instant(FAR_FIELDS) == FAR
  {
    assert DaysBeforeMonth(10_000, 1) == 0;
  }

  lemma FarIsLong()
    ensures IsDate(FAR) && !FourDigitYear(FAR)
  {
    hide FieldsOf, Valid, Instant;
    FarInstant();
    FieldsAreUnique(FAR_FIELDS);
  }

  function FarKey(prefix: string, i: nat): string {
    Key(prefix, FAR, Pad(i, 16))
  }

  lemma PadIsSuffix(i: nat)
    ensures IsSuffix(Pad(i, 16))
  {
    hide Pad;
  }

  lemma FarKeysInOrder(prefix: string, i: nat, j: nat)
    requires i < j < MAX_KEYS
    ensures Less(FarKey(prefix, i), FarKey(prefix, j))
  {
    HundredIsSmall();
    hide Key, Power10, Less, Pad;
    PadLess(i, j, 16);
    SuffixOrder(prefix, FAR, Pad(i, 16), Pad(j, 16));
  }

  lemma HundredIsSmall()
    ensures MAX_KEYS < Power10(16)
  {
    assert Power10(4) == 10_000;
    assert Power10(8) == 10_000 * Power10(4);
    assert Power10(12) == 10_000 * Power10(8);
    assert Power10(16) == 10_000 * Power10(12);
  }

  // After n of these jobs were enqueued.
  ghost function FarWorld(prefix: string, n: nat): World {
    if n == 0 then World(State(map[], []), map[])
    else
      var w := FarWorld(prefix, n - 1);
      var key := FarKey(prefix, n - 1);
      World(w.s.(bucket := w.s.bucket[key := Stored(FAR_JOB)]), w.enqueued[key := FAR_JOB])
  }

  lemma {:induction false} FarWorldIs(prefix: string, n: nat)
    ensures var w := FarWorld(prefix, n);
            && w.s.ran == []
            && (forall key <- w.enqueued :: w.enqueued[key] == FAR_JOB)
            && w.s.bucket.Keys == w.enqueued.Keys
  {
    hide FarKey;
    if n > 0 {
      FarWorldIs(prefix, n - 1);
    }
  }

  lemma {:induction false} FarWorldKeys(prefix: string, n: nat)
    ensures var w := FarWorld(prefix, n);
            && (forall i :: 0 <= i < n ==> FarKey(prefix, i) in w.enqueued)
            && (forall key <- w.enqueued :: exists i :: 0 <= i < n && FarKey(prefix, i) == key)
  {
    hide FarKey;
    if n > 0 {
      FarWorldKeys(prefix, n - 1);
      assert FarWorld(prefix, n).enqueued == FarWorld(prefix, n - 1).enqueued[FarKey(prefix, n - 1) := FAR_JOB];
      hide FarWorld;
    }
  }

  lemma {:induction false} FarKeysCount(prefix: string, n: nat)
    requires n <= MAX_KEYS
    ensures |FarWorld(prefix, n).enqueued| == n
    ensures forall i :: n <= i < MAX_KEYS ==> FarKey(prefix, i) !in FarWorld(prefix, n).enqueued
  {
    hide FarKey;
    if n > 0 {
      FarKeysCount(prefix, n - 1);
      FarKeysDiffer(prefix);
      var w, key := FarWorld(prefix, n - 1).enqueued, FarKey(prefix, n - 1);
      assert FarWorld(prefix, n).enqueued == w[key := FAR_JOB];
      hide FarWorld;
      assert w[key := FAR_JOB].Keys == w.Keys + {key};
    }
  }

  lemma FarKeysDiffer(prefix: string)
    ensures forall i, j :: 0 <= i < j < MAX_KEYS ==> FarKey(prefix, i) != FarKey(prefix, j)
  {
    hide FarKey, Less;
    forall i, j | 0 <= i < j < MAX_KEYS
      ensures FarKey(prefix, i) != FarKey(prefix, j)
    {
      FarKeysInOrder(prefix, i, j);
      LessIrreflexive(FarKey(prefix, i));
    }
  }

  lemma FarStep(prefix: string, n: nat)
    requires n < MAX_KEYS
    ensures Follows(prefix, FarWorld(prefix, n), Enqueue(FAR_JOB, Pad(n, 16)), FarWorld(prefix, n + 1))
  {
    PadIsSuffix(n);
    FarIsLong();
    FarKeysCount(prefix, n);
    hide Key, Pad, FourDigitYear, IsSuffix, IsDate;
    assert FarKey(prefix, n) !in FarWorld(prefix, n).enqueued;
  }

  lemma FarRun(prefix: string) returns (ws: seq<World>, steps: seq<Step>)
    ensures IsRun(prefix, ws, steps) && |steps| == MAX_KEYS && ws[MAX_KEYS] == FarWorld(prefix, MAX_KEYS)
  {
    ws := seq(MAX_KEYS + 1, i requires 0 <= i <= MAX_KEYS => FarWorld(prefix, i));
    steps := seq(MAX_KEYS, i requires 0 <= i < MAX_KEYS => Enqueue(FAR_JOB, Pad(i, 16)));
    hide Follows, Pad;
    assert FarWorld(prefix, 0) == World(State(map[], []), map[]);
    hide FarWorld;
    forall i | 0 <= i < MAX_KEYS
      ensures Follows(prefix, ws[i], steps[i], ws[i + 1])
    {
      FarStep(prefix, i);
    }
  }

  const EPOCH_JOB := EnqueuedJob(0, "")

  lemma EpochIsNoFarKey(prefix: string, w: World)
    requires forall key <- w.enqueued :: exists i :: 0 <= i < MAX_KEYS && FarKey(prefix, i) == key
    ensures Key(prefix, 0, SUFFIX) !in w.enqueued
  {
    EpochYear();
    FarIsLong();
    FirstOfKey(prefix, 0, SUFFIX);
    hide Key, FourDigitYear, Pad;
    if Key(prefix, 0, SUFFIX) in w.enqueued {
      var i :| 0 <= i < MAX_KEYS && FarKey(prefix, i) == Key(prefix, 0, SUFFIX);
      FirstOfKey(prefix, FAR, Pad(i, 16));
    }
  }

  // A run of 100 jobs for the year 10000 and one that is due, and the listing of what is stored: the due job
  // is not in it, and no poll runs anything.
  lemma BlockedQueue(prefix: string) returns (ws: seq<World>, steps: seq<Step>, list: seq<string>, key: string)
    ensures IsRun(prefix, ws, steps)
    ensures var w := ws[|steps|];
            && Safe(prefix, w) && StoredAndDue(prefix, w, key, 0)
            && IsListing(w.s.bucket.Keys, prefix, list)
            && |LongYearKeys(w)| >= MAX_KEYS && !ListsDue(prefix, w, list, 0)
  {
    hide Key, Less, IsSuffix, Follows, Pad, IsListing, Safe, FarKey, ListsDue, LongYearKeys, StoredAndDue;
    ws, steps := FarRun(prefix);
    var far := FarWorld(prefix, MAX_KEYS);
    FarWorldIs(prefix, MAX_KEYS);
    FarWorldKeys(prefix, MAX_KEYS);
    FarKeysCount(prefix, MAX_KEYS);
    hide FarWorld;
    key := Key(prefix, 0, SUFFIX);
    EpochIsNoFarKey(prefix, far);
    var last := World(far.s.(bucket := far.s.bucket[key := Stored(EPOCH_JOB)]), far.enqueued[key := EPOCH_JOB]);
    EpochStep(prefix, far, last);
    ws, steps := ws + [last], steps + [Enqueue(EPOCH_JOB, SUFFIX)];
    EveryRunIsSafe(prefix, ws, steps);
    hide IsRun;
    list := seq(MAX_KEYS, i requires 0 <= i < MAX_KEYS => FarKey(prefix, i));
    LongKeysOf(prefix, far, last, key);
    FarListing(prefix, last, list, key);
    DueJobIsListedExactly(prefix, last, list, key, 0);
  }

  lemma EpochStep(prefix: string, w: World, last: World)
    requires Key(prefix, 0, SUFFIX) !in w.enqueued
    requires last == World(w.s.(bucket := w.s.bucket[Key(prefix, 0, SUFFIX) := Stored(EPOCH_JOB)]),
                           w.enqueued[Key(prefix, 0, SUFFIX) := EPOCH_JOB])
    ensures Follows(prefix, w, Enqueue(EPOCH_JOB, SUFFIX), last)
  {
    EpochIsDue(prefix);
    hide Key, IsSuffix;
  }

  lemma LongKeysOf(prefix: string, far: World, last: World, key: string)
    requires key !in far.enqueued && far.s.bucket.Keys == far.enqueued.Keys
    requires forall k <- far.enqueued :: far.enqueued[k] == FAR_JOB
    requires last.enqueued == far.enqueued[key := EPOCH_JOB] && last.s.bucket.Keys == far.s.bucket.Keys + {key}
    ensures LongYearKeys(last) == far.enqueued.Keys && StoredAndDue(prefix, last, key, 0)
  {
    hide FourDigitYear;
    FarIsLong();
    EpochYear();
  }

  lemma FarListing(prefix: string, w: World, list: seq<string>, key: string)
    requires Safe(prefix, w) && |list| == MAX_KEYS && forall i :: 0 <= i < MAX_KEYS ==> list[i] == FarKey(prefix, i)
    requires key in w.s.bucket && w.s.bucket.Keys == LongYearKeys(w) + {key} && key !in LongYearKeys(w)
    requires forall i :: 0 <= i < MAX_KEYS ==> FarKey(prefix, i) in LongYearKeys(w)
    requires forall k <- LongYearKeys(w) :: exists i :: 0 <= i < MAX_KEYS && FarKey(prefix, i) == k
    ensures IsListing(w.s.bucket.Keys, prefix, list)
  {
    hide FarKey, Less, LongYearKeys, KeysAreKnown, NoJobIsLost;
    forall i, j | 0 <= i < j < |list|
      ensures Less(list[i], list[j])
    {
      FarKeysInOrder(prefix, i, j);
    }
    forall i | 0 <= i < |list|
      ensures prefix <= list[i] && Less(list[i], key)
    {
      LongHasPrefix(prefix, w, list[i]);
      LongBeforeOthers(prefix, w, list[i], key);
    }
    forall k <- LongYearKeys(w)
      ensures k in list
    {
      var i :| 0 <= i < MAX_KEYS && FarKey(prefix, i) == k;
      assert list[i] == k;
    }
  }
}
