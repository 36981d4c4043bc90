// UUID and the time-ordered UUIDT (src/utils/utils.ts:151-301).  A UUID is 16 bytes, printed as 8-4-4-4-12
// hexadecimal digits and read back from either case.  A UUIDT holds the low 48 bits of the time in milliseconds,
// 16 bits of a series that counts the ids of one millisecond, and 64 random bits; the generator keeps the counts
// in a map that it clears when it has grown too large.
module Uuid {
  import opened Digits
  import opened Text
  import opened Wrappers

  type Byte = b: int | 0 <= b < 256

  // ----- numbers as bytes, most significant first -----

  function Pow256(n: nat): (p: nat)
    ensures p > 0
  {
    if n == 0 then 1 else 256 * Pow256(n - 1)
  }

  function BigEndian(bytes: seq<Byte>): nat {
    if bytes == [] then 0 else 256 * BigEndian(bytes[..|bytes| - 1]) + bytes[|bytes| - 1]
  }

  // The low n bytes of x.
  function ToBytes(x: nat, n: nat): (bytes: seq<Byte>)
    ensures |bytes| == n
  {
    if n == 0 then [] else ToBytes(x / 256, n - 1) + [x % 256]
  }

  lemma {:induction false} BigEndianToBytes(x: nat, n: nat)
    requires x < Pow256(n)
    ensures BigEndian(ToBytes(x, n)) == x
  {
    if n > 0 {
      BigEndianToBytes(x / 256, n - 1);
      assert ToBytes(x, n)[..n - 1] == ToBytes(x / 256, n - 1);
    }
  }

  lemma MulShift(x: nat, p: nat)
    ensures 256 * (x * p) == x * (256 * p)
  {
  }

  lemma {:induction false} BigEndianAppend(a: seq<Byte>, b: seq<Byte>)
    ensures BigEndian(a + b) == BigEndian(a) * Pow256(|b|) + BigEndian(b)
    ensures BigEndian(b) < Pow256(|b|)
  {
    if b == [] {
      assert a + b == a;
    } else {
      var front, last := b[..|b| - 1], b[|b| - 1];
      BigEndianAppend(a, front);
      assert (a + b)[..|a + b| - 1] == a + front;
      var x, p, y := BigEndian(a), Pow256(|b| - 1), BigEndian(front);
      assert BigEndian(a + b) == 256 * (x * p + y) + last;
      MulShift(x, p);
    }
  }

  // The first 64 of the 128 bits.
  function High64(bytes: seq<Byte>): nat
    requires |bytes| == 16
  {
    BigEndian(bytes) / Pow256(8)
  }

  lemma High64Is(time: nat, series: nat, random: seq<Byte>)
    requires time < Pow256(6) && series < Pow256(2) && |random| == 8
    ensures High64(ToBytes(time, 6) + ToBytes(series, 2) + random) == time * Pow256(2) + series
  {
    var head := ToBytes(time, 6) + ToBytes(series, 2);
    BigEndianToBytes(time, 6);
    BigEndianToBytes(series, 2);
    BigEndianAppend(ToBytes(time, 6), ToBytes(series, 2));
    BigEndianAppend(head, random);
    DivideOut(BigEndian(head), Pow256(8), BigEndian(random));
  }

  lemma DivideOut(x: nat, p: nat, r: nat)
    requires r < p
    ensures (x * p + r) / p == x
  {
    var q := (x * p + r) / p;
    assert q * p <= x * p + r < q * p + p;
    if q < x {
      MulMonotone(q + 1, x, p);
    } else if x < q {
      MulMonotone(x + 1, q, p);
    }
  }

  lemma MulMonotone(m: nat, n: nat, p: nat)
    requires m <= n
    ensures m * p <= n * p
  {
  }

  // UUID.valueOf
  method ValueOf(bytes: seq<Byte>) returns (value: nat)
    ensures value == BigEndian(bytes)
  {
    value := 0;
    for i := 0 to |bytes|
      invariant value == BigEndian(bytes[..i])
    {
      assert bytes[..i + 1][..i] == bytes[..i];
      value := value * 256;
      value := value + bytes[i];
    }
    assert bytes[..|bytes|] == bytes;
  }

  // ----- the series -----

  const SERIES_SIZE := 65_536
  const MAX_REMEMBERED := 10_000

  type SeriesPerMs = map<nat, nat>

  function NextSeriesPerMs(m: SeriesPerMs, time: nat): SeriesPerMs {
    var series := if time in m then m[time] else 0;
    (if |m| > MAX_REMEMBERED then map[] else m)[time := (series + 1) % SERIES_SIZE]
  }

  // Up to 10000 entries are kept; from then on the next id starts a new map.
  lemma MapIsClearedExactly(m: SeriesPerMs, time: nat, other: nat)
    requires other != time
    ensures other in NextSeriesPerMs(m, time) <==> other in m && |m| <= 10_000
    ensures other in NextSeriesPerMs(m, time) ==> NextSeriesPerMs(m, time)[other] == m[other]
  {
  }

  // The map and the series numbers after ids were made at the given times.
  function MapAfter(times: seq<nat>): SeriesPerMs {
    if times == [] then map[] else NextSeriesPerMs(MapAfter(times[..|times| - 1]), times[|times| - 1])
  }

  function SeriesOf(times: seq<nat>, i: nat): nat
    requires i < |times|
  {
    var m := MapAfter(times[..i]);
    if times[i] in m then m[times[i]] else 0
  }

  function OrderKey(times: seq<nat>, i: nat): nat
    requires i < |times|
  {
    times[i] * SERIES_SIZE + SeriesOf(times, i)
  }

  function Count(times: seq<nat>, time: nat): nat {
    if times == [] then 0
    else Count(times[..|times| - 1], time) + if times[|times| - 1] == time then 1 else 0
  }

  ghost predicate NonDecreasing(times: seq<nat>) {
    forall i, j :: 0 <= i <= j < |times| ==> times[i] <= times[j]
  }

  lemma {:induction false} MapStaysSmall(times: seq<nat>)
    ensures |MapAfter(times)| <= MAX_REMEMBERED + 1
  {
    if times != [] {
      MapStaysSmall(times[..|times| - 1]);
    }
  }

  lemma {:induction false} CountAbsent(times: seq<nat>, time: nat)
    requires time !in times
    ensures Count(times, time) == 0
  {
    if times != [] {
      CountAbsent(times[..|times| - 1], time);
    }
  }

  // One more id, when the map stood at the count of its millisecond. Clearing the map does no harm: the
  // entry of this millisecond is put back at once.
  lemma NextHolds(m: SeriesPerMs, time: nat, count: nat)
    requires (if time in m then m[time] else 0) == count % SERIES_SIZE
    requires forall t <- m :: t <= time
    ensures var next := NextSeriesPerMs(m, time);
            && time in next && next[time] == (count + 1) % SERIES_SIZE
            && forall t <- next :: t <= time
  {
  }

  // With a clock that does not run backwards no entry of another millisecond is needed again.
  lemma {:induction false} MapHoldsCount(times: seq<nat>)
    requires NonDecreasing(times) && times != []
    ensures var m, last := MapAfter(times), times[|times| - 1];
            && last in m && m[last] == Count(times, last) % SERIES_SIZE
            && forall t <- m :: t <= last
  {
    hide NextSeriesPerMs;
    var front, last := times[..|times| - 1], times[|times| - 1];
    if front == [] {
      assert MapAfter(front) == map[] && Count(front, last) == 0;
    } else {
      MapHoldsCount(front);
      if front[|front| - 1] < last {
        assert last !in front;
        CountAbsent(front, last);
      }
    }
    NextHolds(MapAfter(front), last, Count(front, last));
  }

  lemma SeriesIsCount(times: seq<nat>, i: nat)
    requires NonDecreasing(times) && i < |times|
    ensures SeriesOf(times, i) == Count(times[..i], times[i]) % SERIES_SIZE
  {
    var front := times[..i];
    if front != [] {
      MapHoldsCount(front);
      if front[i - 1] < times[i] {
        assert times[i] !in front;
        CountAbsent(front, times[i]);
      }
    }
  }

  lemma {:induction false} CountPrefix(times: seq<nat>, i: nat, j: nat, time: nat)
    requires i <= j <= |times|
    ensures Count(times[..i], time) <= Count(times[..j], time)
    decreases j
  {
    if i < j {
      assert times[..j][..j - 1] == times[..j - 1];
      CountPrefix(times, i, j - 1, time);
    }
  }

  lemma CountBefore(times: seq<nat>, i: nat, j: nat)
    requires i < j <= |times|
    ensures Count(times[..i], times[i]) < Count(times[..j], times[i])
  {
    assert times[..i + 1][..i] == times[..i];
    CountPrefix(times, i + 1, j, times[i]);
  }

  lemma {:induction false} NthOccurrence(times: seq<nat>, time: nat, n: nat) returns (i: nat)
    requires n < Count(times, time)
    ensures i < |times| && times[i] == time && Count(times[..i], time) == n
  {
    var front := times[..|times| - 1];
    if n < Count(front, time) {
      i := NthOccurrence(front, time, n);
      assert front[..i] == times[..i];
    } else {
      i := |times| - 1;
    }
  }

  lemma LaterIsGreater(times: seq<nat>, i: nat, j: nat)
    requires NonDecreasing(times) && i < j < |times| && Count(times, times[j]) <= SERIES_SIZE
    ensures OrderKey(times, i) < OrderKey(times, j)
  {
    hide SeriesOf, Count;
    SeriesIsCount(times, i);
    SeriesIsCount(times, j);
    if times[i] == times[j] {
      CountBefore(times, i, j);
      CountBefore(times, j, |times|);
      assert times[..|times|] == times;
    }
  }

  lemma OverflowRepeats(times: seq<nat>, time: nat) returns (i: nat, j: nat)
    requires NonDecreasing(times) && Count(times, time) > SERIES_SIZE
    ensures i < j < |times| && OrderKey(times, i) == OrderKey(times, j)
  {
    hide SeriesOf, Count;
    i := NthOccurrence(times, time, 0);
    j := NthOccurrence(times, time, SERIES_SIZE);
    SeriesIsCount(times, i);
    SeriesIsCount(times, j);
    if j <= i {
      CountPrefix(times, j, i, time);
    }
  }

  lemma IncreasingExactlyUpTo65536PerMs(times: seq<nat>)
    requires NonDecreasing(times)
    ensures (forall i, j :: 0 <= i < j < |times| ==> OrderKey(times, i) < OrderKey(times, j))
            <==> (forall time :: Count(times, time) <= SERIES_SIZE)
  {
    hide OrderKey, Count;
    if forall time :: Count(times, time) <= SERIES_SIZE {
      forall i, j | 0 <= i < j < |times|
        ensures OrderKey(times, i) < OrderKey(times, j)
      {
        LaterIsGreater(times, i, j);
      }
    } else {
      var time :| Count(times, time) > SERIES_SIZE;
      var i, j := OverflowRepeats(times, time);
    }
  }

  // id is the i-th of the ids made at the given times, whatever its random half is.
  ghost predicate MadeAt(times: seq<nat>, i: nat, id: seq<Byte>)
    requires i < |times|
  {
    |id| == 16 && id[..8] == ToBytes(times[i], 6) + ToBytes(SeriesOf(times, i), 2)
  }

  ghost predicate AllMade(times: seq<nat>, ids: seq<seq<Byte>>) {
    |ids| == |times| && forall i :: 0 <= i < |ids| ==> MadeAt(times, i, ids[i])
  }

  lemma SeriesIsSmall(times: seq<nat>, i: nat)
    requires NonDecreasing(times) && i < |times|
    ensures SeriesOf(times, i) < SERIES_SIZE
  {
    SeriesIsCount(times, i);
  }

  lemma KeyIsHigh64(times: seq<nat>, i: nat, id: seq<Byte>)
    requires NonDecreasing(times) && i < |times| && times[i] < Pow256(6) && MadeAt(times, i, id)
    ensures |id| == 16 && High64(id) == OrderKey(times, i)
  {
    hide ToBytes, High64, SeriesOf;
    SeriesIsSmall(times, i);
    assert Pow256(2) == SERIES_SIZE && id == id[..8] + id[8..];
    High64Is(times[i], SeriesOf(times, i), id[8..]);
  }

  ghost predicate Increasing(ids: seq<seq<Byte>>)
    requires forall id <- ids :: |id| == 16
  {
    forall i, j :: 0 <= i < j < |ids| ==> High64(ids[i]) < High64(ids[j])
  }

  // With a clock that does not run backwards and stays below 2^48, the first 64 bits of the ids of a
  // whole run strictly increase if and only if no millisecond saw more than 65536 of them.
  lemma IdsIncreaseExactlyUpTo65536PerMs(times: seq<nat>, ids: seq<seq<Byte>>)
    requires NonDecreasing(times) && AllMade(times, ids) && forall t <- times :: t < Pow256(6)
    ensures forall id <- ids :: |id| == 16
    ensures Increasing(ids) <==> forall time :: Count(times, time) <= 65_536
  {
    hide MadeAt, High64, OrderKey, Count, SeriesOf;
    forall i | 0 <= i < |ids|
      ensures |ids[i]| == 16 && High64(ids[i]) == OrderKey(times, i)
    {
      assert times[i] in times;
      KeyIsHigh64(times, i, ids[i]);
    }
    IncreasingExactlyUpTo65536PerMs(times);
    if Increasing(ids) {
      assert forall i, j :: 0 <= i < j < |times| ==> OrderKey(times, i) < OrderKey(times, j);
    }
  }

  lemma MadeNow(times: seq<nat>, i: nat, random: seq<Byte>)
    requires i < |times| && |random| == 8
    ensures MadeAt(times, i, ToBytes(times[i], 6) + ToBytes(SeriesOf(times, i), 2) + random)
  {
  }

  lemma StillMade(times: seq<nat>, ids: seq<seq<Byte>>, time: nat, id: seq<Byte>)
    requires AllMade(times, ids) && MadeAt(times + [time], |times|, id)
    ensures AllMade(times + [time], ids + [id])
  {
    hide MapAfter;
    forall i | 0 <= i < |ids|
      ensures MadeAt(times + [time], i, ids[i])
    {
      assert MadeAt(times, i, ids[i]);
      assert (times + [time])[..i] == times[..i];
    }
  }

  // UUIDT with its static map.
  class UuidTGenerator {
    var currentSeriesPerMs: SeriesPerMs
    ghost var times: seq<nat> // when ids were made so far
    ghost var ids: seq<seq<Byte>> // those ids

    ghost predicate MapIsCurrent()
      reads this
    {
      currentSeriesPerMs == MapAfter(times)
    }

    ghost predicate Valid()
      reads this
    {
      MapIsCurrent() && AllMade(times, ids)
    }

    constructor ()
      ensures Valid() && times == []
    {
      currentSeriesPerMs := map[];
      times, ids := [], [];
    }

    method GetSeries(unixTimeMs: nat) returns (series: nat)
      requires MapIsCurrent()
      modifies this`currentSeriesPerMs, this`times
      ensures MapIsCurrent() && times == old(times) + [unixTimeMs]
      ensures series == SeriesOf(times, |times| - 1) && |currentSeriesPerMs| <= MAX_REMEMBERED + 1
    {
      series := if unixTimeMs in currentSeriesPerMs then currentSeriesPerMs[unixTimeMs] else 0;
      if |currentSeriesPerMs| > MAX_REMEMBERED {
        // forget all other milliseconds
        currentSeriesPerMs := map[];
      }
      currentSeriesPerMs := currentSeriesPerMs[unixTimeMs := (series + 1) % SERIES_SIZE];
      times := times + [unixTimeMs];
      assert times[..|times| - 1] == old(times);
      MapStaysSmall(times);
    }

    // The constructor of UUIDT, with the random bytes as a parameter.
    method New(unixTimeMs: nat, random: seq<Byte>) returns (bytes: array<Byte>)
      requires Valid() && |random| == 8
      modifies this
      ensures Valid() && times == old(times) + [unixTimeMs]
      ensures fresh(bytes) && bytes.Length == 16 && ids == old(ids) + [bytes[..]]
      ensures bytes[..] == ToBytes(unixTimeMs, 6) + ToBytes(SeriesOf(times, |times| - 1), 2) + random
    {
      var series := GetSeries(unixTimeMs);
      hide ToBytes, MapAfter, SeriesOf, MadeAt, AllMade;
      MadeNow(times, |times| - 1, random);
      bytes := Pack(unixTimeMs, series, random);
      StillMade(old(times), ids, unixTimeMs, bytes[..]);
      ids := ids + [bytes[..]];
    }
  }

  method Pack(unixTimeMs: nat, series: nat, random: seq<Byte>) returns (bytes: array<Byte>)
    requires |random| == 8
    ensures fresh(bytes) && bytes.Length == 16
    ensures bytes[..] == ToBytes(unixTimeMs, 6) + ToBytes(series, 2) + random
  {
    hide ToBytes;
    bytes := new Byte[16](_ => 0);
    PackTime(bytes, unixTimeMs);
    PackSeries(bytes, series);
    forall k | 0 <= k < 8 {
      bytes[8 + k] := random[k];
    }
    assert bytes[..] == bytes[0..6] + bytes[6..8] + bytes[8..16];
  }

  lemma ToBytesStep(x: nat, n: nat, rest: seq<Byte>)
    ensures ToBytes(x, n + 1) + rest == ToBytes(x / 256, n) + ([x % 256] + rest)
  {
  }

  // 48 bits for the time.
  method PackTime(bytes: array<Byte>, unixTimeMs: nat)
    requires bytes.Length == 16
    modifies bytes
    ensures bytes[0..6] == ToBytes(unixTimeMs, 6)
    ensures forall k :: 6 <= k < 16 ==> bytes[k] == old(bytes[k])
  {
    hide ToBytes;
    var unixTimeMsBig := unixTimeMs;
    var i := 5;
    while i >= 0
      invariant -1 <= i <= 5
      invariant ToBytes(unixTimeMs, 6) == ToBytes(unixTimeMsBig, i + 1) + bytes[i + 1..6]
      invariant forall k :: 6 <= k < 16 ==> bytes[k] == old(bytes[k])
    {
      ToBytesStep(unixTimeMsBig, i, bytes[i + 1..6]);
      bytes[i] := unixTimeMsBig % 256;
      assert bytes[i..6] == [bytes[i]] + bytes[i + 1..6];
      unixTimeMsBig := unixTimeMsBig / 256;
      i := i - 1;
    }
  }

  // 16 bits for the series.
  method PackSeries(bytes: array<Byte>, number: nat)
    requires bytes.Length == 16
    modifies bytes
    ensures bytes[6..8] == ToBytes(number, 2)
    ensures forall k :: 0 <= k < 16 && !(6 <= k < 8) ==> bytes[k] == old(bytes[k])
  {
    hide ToBytes;
    var series := number;
    var i := 7;
    while i >= 6
      invariant 5 <= i <= 7
      invariant ToBytes(number, 2) == ToBytes(series, i - 5) + bytes[i + 1..8]
      invariant forall k :: 0 <= k < 16 && !(6 <= k < 8) ==> bytes[k] == old(bytes[k])
    {
      ToBytesStep(series, i - 6, bytes[i + 1..8]);
      bytes[i] := series % 256;
      assert bytes[i..8] == [bytes[i]] + bytes[i + 1..8];
      series := series / 256;
      i := i - 1;
    }
  }

  // ----- text -----

  function HexChar(d: nat): char
    requires d < 16
  {
    if d < 10 then '0' + d as char else 'a' + (d - 10) as char
  }

  function ByteToHex(b: Byte): string {
    [HexChar(b / 16), HexChar(b % 16)]
  }

  function Hex(bytes: seq<Byte>): (s: string)
    ensures |s| == 2 * |bytes|
  {
    if bytes == [] then "" else ByteToHex(bytes[0]) + Hex(bytes[1..])
  }

  // UUID.toString
  function ToString(bytes: seq<Byte>): string
    requires |bytes| == 16
  {
    Hex(bytes[0..4]) + "-" + Hex(bytes[4..6]) + "-" + Hex(bytes[6..8]) + "-" + Hex(bytes[8..10]) + "-" + Hex(bytes[10..16])
  }

  predicate AllHex(s: string) {
    forall c <- s :: IsHex(c)
  }

  // UUID.validateString: 8-4-4-4-12 hexadecimal characters of either case
  predicate ValidateString(s: string) {
    && |s| == 36
    && s[8] == '-' && s[13] == '-' && s[18] == '-' && s[23] == '-'
    && AllHex(s[0..8]) && AllHex(s[9..13]) && AllHex(s[14..18]) && AllHex(s[19..23]) && AllHex(s[24..36])
  }

  function TrimLeft(s: string): string {
    if s != "" && IsSpace(s[0]) then TrimLeft(s[1..]) else s
  }

  function TrimRight(s: string): string {
    if s != "" && IsSpace(s[|s| - 1]) then TrimRight(s[..|s| - 1]) else s
  }

  function Trim(s: string): string {
    TrimRight(TrimLeft(s))
  }

  function WithoutDashes(s: string): string {
    if s == "" then "" else (if s[0] == '-' then "" else [s[0]]) + WithoutDashes(s[1..])
  }

  function ParsePairs(s: string): seq<Byte>
    requires AllHex(s) && |s| % 2 == 0
  {
    if s == "" then [] else [16 * HexValue(s[0]) + HexValue(s[1])] + ParsePairs(s[2..])
  }

  // Hexadecimal characters up to a dash.
  lemma DashAt(s: string, i: nat, j: nat)
    requires i <= j < |s| && s[j] == '-' && AllHex(s[i..j])
    ensures WithoutDashes(s[i..]) == s[i..j] + WithoutDashes(s[j + 1..])
  {
    assert s[i..] == s[i..j] + ("-" + s[j + 1..]);
    WithoutDashesAppend(s[i..j], s[j + 1..]);
  }

  lemma Chain(s: string)
    requires ValidateString(s)
    ensures WithoutDashes(s) == s[0..8] + (s[9..13] + (s[14..18] + (s[19..23] + s[24..36])))
  {
    hide AllHex;
    DashAt(s, 0, 8);
    DashAt(s, 9, 13);
    DashAt(s, 14, 18);
    DashAt(s, 19, 23);
    WithoutDashesAppend(s[24..36], "");
    hide WithoutDashes;
    assert s[0..] == s && s[24..36] == s[24..] && s[24..] + "" == s[24..];
  }

  lemma NestedParts(a: string, b: string, c: string, d: string, e: string)
    requires |a| == 8 && |b| == |c| == |d| == 4 && |e| == 12
    ensures var w := a + (b + (c + (d + e)));
            && |w| == 32
            && w[0..8] == a && w[8..12] == b && w[12..16] == c && w[16..20] == d && w[20..32] == e
  {
  }

  // What is left of a valid string without its dashes.
  lemma DashesGone(s: string)
    requires ValidateString(s)
    ensures var w := WithoutDashes(s);
            && |w| == 32 && AllHex(w)
            && w[0..8] == s[0..8] && w[8..12] == s[9..13] && w[12..16] == s[14..18]
            && w[16..20] == s[19..23] && w[20..32] == s[24..36]
  {
    hide WithoutDashes, AllHex;
    Chain(s);
    NestedParts(s[0..8], s[9..13], s[14..18], s[19..23], s[24..36]);
    AllHexAppend(s[19..23], s[24..36]);
    AllHexAppend(s[14..18], s[19..23] + s[24..36]);
    AllHexAppend(s[9..13], s[14..18] + (s[19..23] + s[24..36]));
    AllHexAppend(s[0..8], s[9..13] + (s[14..18] + (s[19..23] + s[24..36])));
  }

  lemma AllHexAppend(a: string, b: string)
    requires AllHex(a) && AllHex(b)
    ensures AllHex(a + b)
  {
  }

  lemma {:induction false} WithoutDashesAppend(s: string, rest: string)
    requires AllHex(s)
    ensures WithoutDashes(s + rest) == s + WithoutDashes(rest)
    ensures WithoutDashes(s + ("-" + rest)) == s + WithoutDashes(rest)
  {
    if s == "" {
      assert s + rest == rest && s + ("-" + rest) == "-" + rest && ("-" + rest)[1..] == rest;
    } else {
      assert IsHex(s[0]);
      assert (s + rest)[1..] == s[1..] + rest && (s + ("-" + rest))[1..] == s[1..] + ("-" + rest);
      WithoutDashesAppend(s[1..], rest);
    }
  }

  // The constructor of UUID from a string; None stands for the exception.
  method Parse(candidate: string) returns (r: Option<seq<Byte>>)
    ensures r.Some? <==> ValidateString(Trim(candidate))
    ensures r.Some? ==> |r.value| == 16 && ToString(r.value) == Lower(Trim(candidate))
  {
    var trimmed := Trim(candidate);
    if !ValidateString(trimmed) {
      return None;
    }
    var characters := WithoutDashes(trimmed);
    DashesGone(trimmed);
    hide ValidateString, WithoutDashes, ParsePairs, Trim, Lower, ToString;
    var bytes := new Byte[16](_ => 0);
    NoPairs(characters);
    var i := 0;
    while i < |characters|
      invariant 0 <= i <= 32 && i % 2 == 0
      invariant bytes[..i / 2] == ParsePairs(characters[..i])
    {
      PairsGrow(characters, i);
      var value: Byte := 16 * HexValue(characters[i]) + HexValue(characters[i + 1]);
      ghost var before := bytes[..i / 2];
      bytes[i / 2] := value;
      assert bytes[..i / 2 + 1] == before + [value];
      i := i + 2;
    }
    assert characters[..32] == characters && bytes[..16] == bytes[..];
    TextAgrees(trimmed, bytes[..]);
    return Some(bytes[..]);
  }

  lemma NoPairs(s: string)
    ensures ParsePairs(s[..0]) == []
  {
  }

  lemma {:induction false} PairsAppend(a: string, b: string)
    requires AllHex(a) && AllHex(b) && |a| % 2 == 0 && |b| % 2 == 0
    ensures ParsePairs(a + b) == ParsePairs(a) + ParsePairs(b)
    decreases |a|
  {
    if a == "" {
      assert a + b == b;
    } else {
      assert (a + b)[2..] == a[2..] + b;
      PairsAppend(a[2..], b);
    }
  }

  lemma PairsGrow(s: string, i: nat)
    requires AllHex(s) && i % 2 == 0 && i + 1 < |s|
    ensures ParsePairs(s[..i + 2]) == ParsePairs(s[..i]) + [16 * HexValue(s[i]) + HexValue(s[i + 1])]
  {
    assert s[..i + 2] == s[..i] + s[i..i + 2];
    PairsAppend(s[..i], s[i..i + 2]);
    assert s[i..i + 2][2..] == "";
    assert ParsePairs(s[i..i + 2]) == [16 * HexValue(s[i]) + HexValue(s[i + 1])] + ParsePairs("");
  }

  lemma HexOfValues(c: char, d: char)
    requires IsHex(c) && IsHex(d)
    ensures ByteToHex(16 * HexValue(c) + HexValue(d)) == [LowerChar(c), LowerChar(d)]
  {
    assert (16 * HexValue(c) + HexValue(d)) / 16 == HexValue(c);
  }

  lemma LowerStep(s: string)
    requires |s| >= 2
    ensures Lower(s) == [LowerChar(s[0]), LowerChar(s[1])] + Lower(s[2..])
  {
  }

  lemma {:induction false} HexOfPairs(s: string)
    requires AllHex(s) && |s| % 2 == 0
    ensures |ParsePairs(s)| == |s| / 2 && Hex(ParsePairs(s)) == Lower(s)
    decreases |s|
  {
    if s != "" {
      HexOfPairs(s[2..]);
      HexOfValues(s[0], s[1]);
      LowerStep(s);
      hide Lower, LowerChar, ByteToHex, HexValue, IsHex;
      assert ParsePairs(s)[1..] == ParsePairs(s[2..]);
    }
  }

  lemma MiddleSlice(x: seq<Byte>, y: seq<Byte>, z: seq<Byte>)
    ensures (x + (y + z))[|x|..|x| + |y|] == y
  {
  }

  lemma PairsMiddle(a: string, b: string, c: string)
    requires AllHex(a) && AllHex(b) && AllHex(c) && |a| % 2 == |b| % 2 == |c| % 2 == 0
    ensures AllHex(a + (b + c)) && |ParsePairs(a + (b + c))| == (|a| + |b| + |c|) / 2
    ensures ParsePairs(a + (b + c))[|a| / 2..|a| / 2 + |b| / 2] == ParsePairs(b)
  {
    hide ParsePairs, Hex, Lower, AllHex;
    AllHexAppend(b, c);
    AllHexAppend(a, b + c);
    HexOfPairs(a);
    HexOfPairs(b);
    HexOfPairs(c);
    PairsAppend(a, b + c);
    PairsAppend(b, c);
    MiddleSlice(ParsePairs(a), ParsePairs(b), ParsePairs(c));
  }

  lemma PairsSlice(s: string, i: nat, j: nat)
    requires AllHex(s) && |s| % 2 == 0 && i % 2 == 0 && j % 2 == 0 && i <= j <= |s|
    ensures |ParsePairs(s)| == |s| / 2 && ParsePairs(s)[i / 2..j / 2] == ParsePairs(s[i..j])
  {
    hide ParsePairs, AllHex;
    AllHexSlice(s, 0, i);
    AllHexSlice(s, i, j);
    AllHexSlice(s, j, |s|);
    SplitInThree(s, i, j);
    PairsMiddle(s[0..i], s[i..j], s[j..|s|]);
    Halves(i, j);
    Halves(j, |s|);
  }

  lemma SplitInThree(s: string, i: nat, j: nat)
    requires i <= j <= |s|
    ensures s[0..i] + (s[i..j] + s[j..|s|]) == s
  {
  }

  lemma Halves(i: nat, j: nat)
    requires i <= j && i % 2 == 0 && j % 2 == 0
    ensures (j - i) % 2 == 0 && i / 2 + (j - i) / 2 == j / 2
  {
  }

  lemma AllHexSlice(s: string, i: nat, j: nat)
    requires AllHex(s) && i <= j <= |s|
    ensures AllHex(s[i..j])
  {
    forall c <- s[i..j]
      ensures IsHex(c)
    {
      assert c in s;
    }
  }

  // The five groups of a string with dashes in the right places.
  lemma Regrouped(t: string)
    requires |t| == 36 && t[8] == '-' && t[13] == '-' && t[18] == '-' && t[23] == '-'
    ensures t == t[0..8] + "-" + t[9..13] + "-" + t[14..18] + "-" + t[19..23] + "-" + t[24..36]
  {
    assert t[0..9] == t[0..8] + "-";
    assert t[0..13] == t[0..9] + t[9..13];
    assert t[0..14] == t[0..13] + "-";
    assert t[0..18] == t[0..14] + t[14..18];
    assert t[0..19] == t[0..18] + "-";
    assert t[0..23] == t[0..19] + t[19..23];
    assert t[0..24] == t[0..23] + "-";
    assert t == t[0..24] + t[24..36];
  }

  lemma LowerSlice(s: string, i: nat, j: nat)
    requires i <= j <= |s|
    ensures Lower(s)[i..j] == Lower(s[i..j])
  {
  }

  // One group: its characters, and its bytes printed again.
  lemma GroupAgrees(s: string, w: string, i: nat, j: nat, k: nat)
    requires i <= j <= |s| && k % 2 == 0 && (j - i) % 2 == 0 && k + (j - i) <= |w|
    requires AllHex(w) && |w| % 2 == 0 && w[k..k + (j - i)] == s[i..j]
    ensures |ParsePairs(w)| == |w| / 2
    ensures Hex(ParsePairs(w)[k / 2..(k + (j - i)) / 2]) == Lower(s)[i..j]
  {
    hide ParsePairs, Hex, Lower, AllHex;
    AllHexSlice(w, k, k + (j - i));
    PairsSlice(w, k, k + (j - i));
    HexOfPairs(s[i..j]);
    LowerSlice(s, i, j);
  }

  lemma TextAgrees(s: string, bytes: seq<Byte>)
    requires ValidateString(s)
    requires AllHex(WithoutDashes(s)) && |WithoutDashes(s)| == 32 && bytes == ParsePairs(WithoutDashes(s))
    ensures |bytes| == 16 && ToString(bytes) == Lower(s)
  {
    hide WithoutDashes, ParsePairs, Hex;
    DashesGone(s);
    var w := WithoutDashes(s);
    GroupAgrees(s, w, 0, 8, 0);
    GroupAgrees(s, w, 9, 13, 8);
    GroupAgrees(s, w, 14, 18, 12);
    GroupAgrees(s, w, 19, 23, 16);
    GroupAgrees(s, w, 24, 36, 20);
    Regrouped(Lower(s));
  }

  lemma ValuesOfHex(b: Byte)
    ensures IsHex(HexChar(b / 16)) && IsHex(HexChar(b % 16))
    ensures 16 * HexValue(HexChar(b / 16)) + HexValue(HexChar(b % 16)) == b
    ensures LowerChar(HexChar(b / 16)) == HexChar(b / 16) && LowerChar(HexChar(b % 16)) == HexChar(b % 16)
  {
  }

  lemma {:induction false} HexIsValid(bytes: seq<Byte>)
    ensures AllHex(Hex(bytes)) && ParsePairs(Hex(bytes)) == bytes
  {
    if bytes != [] {
      ValuesOfHex(bytes[0]);
      HexIsValid(bytes[1..]);
      assert Hex(bytes)[2..] == Hex(bytes[1..]);
    }
  }

  lemma PrintedIsValid(bytes: seq<Byte>)
    requires |bytes| == 16
    ensures var s := ToString(bytes);
            && ValidateString(s)
            && s[0..8] == Hex(bytes[0..4]) && s[9..13] == Hex(bytes[4..6]) && s[14..18] == Hex(bytes[6..8])
            && s[19..23] == Hex(bytes[8..10]) && s[24..36] == Hex(bytes[10..16])
  {
    HexIsValid(bytes[0..4]);
    HexIsValid(bytes[4..6]);
    HexIsValid(bytes[6..8]);
    HexIsValid(bytes[8..10]);
    HexIsValid(bytes[10..16]);
    hide Hex;
    Joined(Hex(bytes[0..4]), Hex(bytes[4..6]), Hex(bytes[6..8]), Hex(bytes[8..10]), Hex(bytes[10..16]));
  }

  lemma Joined(a: string, b: string, c: string, d: string, e: string)
    requires |a| == 8 && |b| == |c| == |d| == 4 && |e| == 12
    ensures var s := a + "-" + b + "-" + c + "-" + d + "-" + e;
            && |s| == 36 && s[8] == '-' && s[13] == '-' && s[18] == '-' && s[23] == '-'
            && s[0..8] == a && s[9..13] == b && s[14..18] == c && s[19..23] == d && s[24..36] == e
  {
  }

  lemma GroupParses(w: string, bytes: seq<Byte>, i: nat, j: nat)
    requires AllHex(w) && |w| == 32 && i <= j <= |bytes| == 16
    requires w[2 * i..2 * j] == Hex(bytes[i..j])
    ensures |ParsePairs(w)| == 16 && ParsePairs(w)[i..j] == bytes[i..j]
  {
    PairsSlice(w, 2 * i, 2 * j);
    HexIsValid(bytes[i..j]);
  }

  lemma HexEndsNeedNoTrim(s: string)
    requires s != "" && IsHex(s[0]) && IsHex(s[|s| - 1])
    ensures Trim(s) == s
  {
  }

  lemma SameParts(a: seq<Byte>, b: seq<Byte>)
    requires |a| == |b| == 16
    requires a[0..4] == b[0..4] && a[4..6] == b[4..6] && a[6..8] == b[6..8] && a[8..10] == b[8..10] && a[10..16] == b[10..16]
    ensures a == b
  {
    assert forall x: seq<Byte> :: |x| == 16 ==> x == x[0..4] + x[4..6] + x[6..8] + x[8..10] + x[10..16];
  }

  // Printing any 16 bytes gives a valid string that needs no trimming and stands for the same bytes.
  lemma PrintedParsesBack(bytes: seq<Byte>)
    requires |bytes| == 16
    ensures var s := ToString(bytes);
            && Trim(s) == s && ValidateString(s)
            && AllHex(WithoutDashes(s)) && |WithoutDashes(s)| == 32 && ParsePairs(WithoutDashes(s)) == bytes
  {
    hide ToString, Trim, IsHex, ParsePairs, Hex, WithoutDashes;
    var s := ToString(bytes);
    PrintedIsValid(bytes);
    DashesGone(s);
    assert s[0] in s[0..8] && s[35] in s[24..36];
    HexEndsNeedNoTrim(s);
    hide ValidateString, AllHex;
    var w := WithoutDashes(s);
    GroupParses(w, bytes, 0, 4);
    GroupParses(w, bytes, 4, 6);
    GroupParses(w, bytes, 6, 8);
    GroupParses(w, bytes, 8, 10);
    GroupParses(w, bytes, 10, 16);
    SameParts(ParsePairs(w), bytes);
  }
}
