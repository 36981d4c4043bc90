// The keys of the S3 job queue (src/main/job-queues/redlocked/s3-queue.ts:30-44, 84-115).  A key is the prefix, the
// day of the job as YYYY-MM-DD, a slash, and a file name of day and time without separators, random hexadecimal
// digits and an extension.  The poller reads the time back from the file name with a regular expression for four-digit years,
// and the store lists keys in the order of their text.
module S3Keys {
  import opened CivilTime
  import opened Digits
  import opened KeyOrder
  import opened Wrappers

  // s.split(c).join('')
  function Remove(s: string, c: char): string {
    if s == "" then "" else (if s[0] == c then "" else [s[0]]) + Remove(s[1..], c)
  }

  function IsoYear(year: int): string {
    if 0 <= year <= 9999 then Pad(year, 4)
    else if year < 0 then "-" + Pad(-year, 6)
    else "+" + Pad(year, 6)
  }

  // The two halves of toISOString, around the T.
  function IsoDay(f: Fields): string
    requires Valid(f)
  {
    IsoYear(f.year) + ("-" + (Pad(f.month, 2) + ("-" + Pad(f.day, 2))))
  }

  function IsoTime(f: Fields): string
    requires Valid(f)
  {
    Pad(f.hour, 2) + (":" + (Pad(f.minute, 2) + (":" + (Pad(f.second, 2) + ("." + (Pad(f.millisecond, 3) + "Z"))))))
  }

  // What enqueue appends to the configured prefix.
  function KeyTail(f: Fields, suffix: string): string
    requires Valid(f)
  {
    var dayTime := Remove(IsoDay(f), '-') + ("-" + Remove(IsoTime(f), ':'));
    IsoDay(f) + ("/" + (dayTime + ("-" + (suffix + ".json.gz"))))
  }

  function Key(prefix: string, timestamp: int, suffix: string): string {
    FieldsOfInstant(timestamp);
    prefix + KeyTail(FieldsOf(timestamp), suffix)
  }

  predicate FourDigitYear(timestamp: int) {
    0 <= FieldsOf(timestamp).year <= 9999
  }

  predicate IsSuffix(suffix: string) {
    |suffix| == 16 && forall c <- suffix :: IsLowerHex(c)
  }

  // ----- reading a key -----

  function UpTo(s: string, c: char): string {
    if s == "" || s[0] == c then "" else [s[0]] + UpTo(s[1..], c)
  }

  // s.split('/')[1]; None is undefined
  function SecondSegment(s: string): Option<string> {
    if s == "" then None
    else if s[0] == '/' then Some(UpTo(s[1..], '/'))
    else SecondSegment(s[1..])
  }

  function DigitRun(s: string): (n: nat)
    ensures n <= |s| && forall i :: 0 <= i < n ==> IsDigit(s[i])
  {
    if s != "" && IsDigit(s[0]) then 1 + DigitRun(s[1..]) else 0
  }

  function HexRun(s: string): (n: nat)
    ensures n <= |s|
  {
    if s != "" && IsLowerHex(s[0]) then 1 + HexRun(s[1..]) else 0
  }

  predicate AllDigits(s: string) {
    forall c <- s :: IsDigit(c)
  }

  function Number(s: string): nat {
    if AllDigits(s) then ParseDigits(s) else 0
  }

  // YYYYMMDD-hhmmss. at the start, the milliseconds, then Z-, the suffix and the extension
  predicate HeadMatches(name: string) {
    |name| >= 16 && AllDigits(name[0..8]) && name[8] == '-' && AllDigits(name[9..15]) && name[15] == '.'
  }

  // The number of digits of the milliseconds, if the tail matches.
  function TailMatches(tail: string): Option<nat> {
    var n := DigitRun(tail);
    var rest := tail[n..];
    if n == 0 || |rest| < 2 || rest[0] != 'Z' || rest[1] != '-' then None
    else
      var h := HexRun(rest[2..]);
      if h == 0 || rest[2..][h..] != ".json.gz" then None else Some(n)
  }

  // The fields matched by the regular expression.
  function ParseName(name: string): Option<Fields> {
    if !HeadMatches(name) then None
    else
      match TailMatches(name[16..])
      case None => None
      case Some(n) =>
        Some(Fields(Number(name[0..4]), Number(name[4..6]), Number(name[6..8]),
                    Number(name[9..11]), Number(name[11..13]), Number(name[13..15]), Number(name[16..][..n])))
  }

  // DateTime.utc accepts 24:00:00.000 as well; an invalid date compares as not due.
  predicate ValidForLuxon(f: Fields) {
    && ValidDate(f)
    && (ValidClock(f) || (f.hour == 24 && f.minute == 0 && f.second == 0 && f.millisecond == 0))
  }

  // 24:00 is accepted on the dot and means the next midnight.
  lemma MidnightIsAccepted(f: Fields)
    requires ValidDate(f) && f.hour == 24
    ensures ValidForLuxon(f) <==> f.minute == 0 && f.second == 0 && f.millisecond == 0
    ensures ValidForLuxon(f) ==> Instant(f) == Instant(f.(hour := 0)) + 86_400_000
  {
  }

  predicate IsDueName(name: string, now: int) {
    match ParseName(name)
    case None => false
    case Some(f) => ValidForLuxon(f) && Instant(f) <= now
  }

  // None is the TypeError for a key without a slash.
  function IsDue(prefix: string, key: string, now: int): Option<bool>
    requires prefix <= key
  {
    match SecondSegment(key[|prefix|..])
    case None => None
    case Some(name) => Some(IsDueName(name, now))
  }

  // ----- the round trip -----

  lemma {:induction false} RemoveAppend(a: string, b: string, c: char)
    ensures Remove(a + b, c) == Remove(a, c) + Remove(b, c)
  {
    if a == "" {
      assert a + b == b;
    } else {
      assert (a + b)[1..] == a[1..] + b;
      RemoveAppend(a[1..], b, c);
    }
  }

  lemma {:induction false} RemoveAbsent(a: string, c: char)
    requires c !in a
    ensures Remove(a, c) == a
  {
    if a != "" {
      RemoveAbsent(a[1..], c);
    }
  }

  lemma RemoveBetween(a: string, b: string, c: char)
    requires c !in a
    ensures Remove(a + ([c] + b), c) == a + Remove(b, c)
  {
    RemoveHead(b, c);
    hide Remove;
    RemoveAppend(a, [c] + b, c);
    RemoveAbsent(a, c);
  }

  lemma RemoveHead(b: string, c: char)
    ensures Remove([c] + b, c) == Remove(b, c)
  {
    assert ([c] + b)[1..] == b;
  }

  function CompactDay(f: Fields): string
    requires Valid(f)
  {
    Pad(f.year % 10_000, 4) + (Pad(f.month, 2) + Pad(f.day, 2))
  }

  function CompactTime(f: Fields): string
    requires Valid(f)
  {
    Pad(f.hour, 2) + (Pad(f.minute, 2) + (Pad(f.second, 2) + ("." + (Pad(f.millisecond, 3) + "Z"))))
  }

  lemma PadLacks(n: nat, width: nat, c: char)
    requires !IsDigit(c)
    ensures c !in Pad(n, width)
  {
  }

  lemma CompactTimeIs(f: Fields)
    requires Valid(f)
    ensures Remove(IsoTime(f), ':') == CompactTime(f)
  {
    hide Remove, Pad, DaysInMonth;
    var h, mi, s := Pad(f.hour, 2), Pad(f.minute, 2), Pad(f.second, 2);
    var tail := s + ("." + (Pad(f.millisecond, 3) + "Z"));
    PadLacks(f.hour, 2, ':');
    PadLacks(f.minute, 2, ':');
    PadLacks(f.second, 2, ':');
    PadLacks(f.millisecond, 3, ':');
    RemoveBetween(h, mi + (":" + tail), ':');
    RemoveBetween(mi, tail, ':');
    RemoveAbsent(tail, ':');
  }

  lemma CompactDayIs(f: Fields)
    requires Valid(f) && 0 <= f.year <= 9999
    ensures Remove(IsoDay(f), '-') == CompactDay(f)
  {
    hide Remove, Pad, DaysInMonth;
    var y, m, d := Pad(f.year, 4), Pad(f.month, 2), Pad(f.day, 2);
    PadLacks(f.year, 4, '-');
    PadLacks(f.month, 2, '-');
    PadLacks(f.day, 2, '-');
    RemoveBetween(y, m + ("-" + d), '-');
    RemoveBetween(m, d, '-');
    RemoveAbsent(d, '-');
  }

  function Name(f: Fields, suffix: string): string
    requires Valid(f)
  {
    CompactDay(f) + ("-" + (CompactTime(f) + ("-" + (suffix + ".json.gz"))))
  }

  lemma KeyTailIs(f: Fields, suffix: string)
    requires Valid(f) && 0 <= f.year <= 9999
    ensures KeyTail(f, suffix) == IsoDay(f) + ("/" + Name(f, suffix))
  {
    hide Remove, IsoDay, IsoTime, CompactDay, CompactTime;
    CompactDayIs(f);
    CompactTimeIs(f);
    assert (CompactDay(f) + ("-" + CompactTime(f))) + ("-" + (suffix + ".json.gz")) == Name(f, suffix);
  }

  // The characters of a key behind its prefix, for a year of four digits: YYYY-MM-DD/YYYYMMDD-HHMMSS.sssZ-suffix.json.gz
  lemma KeyLayout(f: Fields, suffix: string)
    requires Valid(f) && 0 <= f.year <= 9999
    ensures var y, m, d := Pad(f.year, 4), Pad(f.month, 2), Pad(f.day, 2);
            var h, mi, s, ms := Pad(f.hour, 2), Pad(f.minute, 2), Pad(f.second, 2), Pad(f.millisecond, 3);
            var day, date := y + ("-" + (m + ("-" + d))), y + (m + d);
            var time := h + (mi + (s + ("." + (ms + "Z"))));
            KeyTail(f, suffix) == day + ("/" + ((date + ("-" + time)) + ("-" + (suffix + ".json.gz"))))
  {
    hide Remove, Pad, Valid, IsoTime;
    CompactDayIs(f);
    CompactTimeIs(f);
  }

  lemma {:induction false} SegmentAfter(a: string, b: string)
    requires '/' !in a && '/' !in b
    ensures SecondSegment(a + ("/" + b)) == Some(b)
  {
    if a == "" {
      assert a + ("/" + b) == "/" + b && ("/" + b)[1..] == b;
      UpToAbsent(b);
    } else {
      assert (a + ("/" + b))[1..] == a[1..] + ("/" + b);
      SegmentAfter(a[1..], b);
    }
  }

  lemma {:induction false} UpToAbsent(b: string)
    requires '/' !in b
    ensures UpTo(b, '/') == b
  {
    if b != "" {
      UpToAbsent(b[1..]);
    }
  }

  lemma {:induction false} DigitRunIs(a: string, b: string)
    requires AllDigits(a) && (b == "" || !IsDigit(b[0]))
    ensures DigitRun(a + b) == |a|
  {
    if a == "" {
      assert a + b == b;
    } else {
      assert (a + b)[1..] == a[1..] + b;
      DigitRunIs(a[1..], b);
    }
  }

  lemma {:induction false} HexRunIs(a: string, b: string)
    requires (forall c <- a :: IsLowerHex(c)) && (b == "" || !IsLowerHex(b[0]))
    ensures HexRun(a + b) == |a|
  {
    if a == "" {
      assert a + b == b;
    } else {
      assert (a + b)[1..] == a[1..] + b;
      HexRunIs(a[1..], b);
    }
  }

  lemma TailOf(ms: string, suffix: string)
    requires AllDigits(ms) && |ms| == 3 && IsSuffix(suffix)
    ensures var tail := ms + ("Z-" + (suffix + ".json.gz"));
            TailMatches(tail) == Some(3) && tail[..3] == ms
  {
    var rest := "Z-" + (suffix + ".json.gz");
    DigitRunIs(ms, rest);
    HexRunIs(suffix, ".json.gz");
    hide DigitRun, HexRun;
    assert (ms + rest)[3..] == rest && rest[2..] == suffix + ".json.gz";
    assert (suffix + ".json.gz")[16..] == ".json.gz";
  }

  lemma Parts(y: string, mo: string, d: string, h: string, mi: string, s: string, tail: string)
    requires |y| == 4 && |mo| == |d| == |h| == |mi| == |s| == 2
    ensures var name := y + (mo + (d + ("-" + (h + (mi + (s + ("." + tail)))))));
            && |name| >= 16 && name[8] == '-' && name[15] == '.' && name[16..] == tail
            && name[0..4] == y && name[4..6] == mo && name[6..8] == d
            && name[9..11] == h && name[11..13] == mi && name[13..15] == s
            && name[0..8] == y + mo + d && name[9..15] == h + mi + s
  {
  }

  lemma NameIs(f: Fields, suffix: string)
    requires Valid(f)
    ensures Name(f, suffix)
            == Pad(f.year % 10_000, 4) + (Pad(f.month, 2) + (Pad(f.day, 2) + ("-" + (Pad(f.hour, 2) + (Pad(f.minute, 2)
               + (Pad(f.second, 2) + ("." + (Pad(f.millisecond, 3) + ("Z-" + (suffix + ".json.gz"))))))))))
  {
    hide Pad;
    var ending := "-" + (suffix + ".json.gz");
    assert "Z" + ending == "Z-" + (suffix + ".json.gz");
    Nest(Pad(f.year % 10_000, 4), Pad(f.month, 2), Pad(f.day, 2), "-" + (CompactTime(f) + ending));
    var ms := Pad(f.millisecond, 3);
    assert ("." + (ms + "Z")) + ending == "." + (ms + ("Z" + ending));
    Nest(Pad(f.hour, 2), Pad(f.minute, 2), Pad(f.second, 2) + ("." + (ms + "Z")), ending);
    assert (Pad(f.second, 2) + ("." + (ms + "Z"))) + ending == Pad(f.second, 2) + (("." + (ms + "Z")) + ending);
  }

  lemma Nest(a: string, b: string, c: string, d: string)
    ensures (a + (b + c)) + d == a + (b + (c + d))
  {
  }

  lemma NameSlices(f: Fields, suffix: string)
    requires Valid(f) && 0 <= f.year <= 9999
    ensures var name := Name(f, suffix);
            && |name| >= 16 && name[8] == '-' && name[15] == '.'
            && name[16..] == Pad(f.millisecond, 3) + ("Z-" + (suffix + ".json.gz"))
            && name[0..4] == Pad(f.year, 4) && name[4..6] == Pad(f.month, 2) && name[6..8] == Pad(f.day, 2)
            && name[9..11] == Pad(f.hour, 2) && name[11..13] == Pad(f.minute, 2) && name[13..15] == Pad(f.second, 2)
            && name[0..8] == Pad(f.year, 4) + Pad(f.month, 2) + Pad(f.day, 2)
            && name[9..15] == Pad(f.hour, 2) + Pad(f.minute, 2) + Pad(f.second, 2)
  {
    hide Name, Pad, DaysInMonth;
    NameIs(f, suffix);
    Parts(Pad(f.year, 4), Pad(f.month, 2), Pad(f.day, 2), Pad(f.hour, 2), Pad(f.minute, 2), Pad(f.second, 2),
          Pad(f.millisecond, 3) + ("Z-" + (suffix + ".json.gz")));
  }

  lemma NameParses(f: Fields, suffix: string)
    requires Valid(f) && 0 <= f.year <= 9999 && IsSuffix(suffix)
    ensures ParseName(Name(f, suffix)) == Some(f)
  {
    DateIsSmall(f);
    NumberOfPad(f.year, 4);
    NumberOfPad(f.month, 2);
    NumberOfPad(f.day, 2);
    NumberOfPad(f.hour, 2);
    NumberOfPad(f.minute, 2);
    NumberOfPad(f.second, 2);
    NumberOfPad(f.millisecond, 3);
    hide Name, Pad, Power10, TailMatches, ValidDate, IsSuffix, Number, AllDigits;
    TailOf(Pad(f.millisecond, 3), suffix);
    NameSlices(f, suffix);
    AllDigitsJoin(Pad(f.year, 4), Pad(f.month, 2), Pad(f.day, 2));
    AllDigitsJoin(Pad(f.hour, 2), Pad(f.minute, 2), Pad(f.second, 2));
  }

  lemma NumberOfPad(n: nat, width: nat)
    requires n < Power10(width)
    ensures AllDigits(Pad(n, width)) && Number(Pad(n, width)) == n
  {
    PadParses(n, width);
  }

  lemma AllDigitsJoin(a: string, b: string, c: string)
    requires AllDigits(a) && AllDigits(b) && AllDigits(c)
    ensures AllDigits(a + b + c)
  {
  }

  lemma Powers()
    ensures Power10(2) == 100 && Power10(3) == 1000 && Power10(4) == 10_000
  {
  }

  lemma DateIsSmall(f: Fields)
    requires Valid(f)
    ensures 1 <= f.month < Power10(2) && 1 <= f.day < Power10(2)
    ensures f.hour < Power10(2) && f.minute < Power10(2) && f.second < Power10(2) && f.millisecond < Power10(3)
    ensures Power10(4) == 10_000
  {
    Powers();
    hide Power10;
  }

  // A key with a four-digit year reads back as the job's timestamp: it is due from then on.
  lemma KeyReadsBack(prefix: string, timestamp: int, suffix: string, now: int)
    requires FourDigitYear(timestamp) && IsSuffix(suffix)
    ensures prefix <= Key(prefix, timestamp, suffix)
    ensures IsDue(prefix, Key(prefix, timestamp, suffix), now) == Some(timestamp <= now)
  {
    hide FieldsOf, Instant, Valid, IsSuffix, KeyTail, ParseName, SecondSegment;
    var f := FieldsOf(timestamp);
    FieldsOfInstant(timestamp);
    assert Key(prefix, timestamp, suffix)[|prefix|..] == KeyTail(f, suffix);
    hide Key;
    TailReadsBack(f, suffix);
    ValidIsValidForLuxon(f);
  }

  lemma TailReadsBack(f: Fields, suffix: string)
    requires Valid(f) && 0 <= f.year <= 9999 && IsSuffix(suffix)
    ensures exists name :: SecondSegment(KeyTail(f, suffix)) == Some(name) && ParseName(name) == Some(f)
  {
    NoSlash(f, suffix);
    hide KeyTail, IsoDay, Name, ParseName, SecondSegment, Valid, IsSuffix;
    KeyTailIs(f, suffix);
    SegmentAfter(IsoDay(f), Name(f, suffix));
    NameParses(f, suffix);
  }

  lemma NoSlash(f: Fields, suffix: string)
    requires Valid(f) && IsSuffix(suffix)
    ensures '/' !in Name(f, suffix) && (0 <= f.year <= 9999 ==> '/' !in IsoDay(f))
  {
    assert '/' !in suffix;
    assert '/' !in CompactDay(f);
    assert '/' !in CompactTime(f);
  }

  lemma ValidIsValidForLuxon(f: Fields)
    requires Valid(f)
    ensures ValidForLuxon(f)
  {
  }

  // ----- text order is time order -----

  lemma DayLess(f: Fields, g: Fields, x: string, y: string)
    requires Valid(f) && Valid(g) && 0 <= f.year && g.year <= 9999
    requires DateBefore(f, g)
    ensures Less(IsoDay(f) + x, IsoDay(g) + y)
  {
    DateIsSmall(f);
    DateIsSmall(g);
    hide Valid, Less, Pad, Power10;
    var fd, gd := "-" + (Pad(f.day, 2) + x), "-" + (Pad(g.day, 2) + y);
    var fm, gm := "-" + (Pad(f.month, 2) + fd), "-" + (Pad(g.month, 2) + gd);
    if f.year == g.year {
      if f.month == g.month {
        PairLess(f.day, g.day, 2, x, y);
        LessAfterPrefix("-", Pad(f.day, 2) + x, Pad(g.day, 2) + y);
      }
      PairLess(f.month, g.month, 2, fd, gd);
      LessAfterPrefix("-", Pad(f.month, 2) + fd, Pad(g.month, 2) + gd);
    }
    PairLess(f.year, g.year, 4, fm, gm);
    DayPlus(f, x);
    DayPlus(g, y);
  }

  lemma DayPlus(f: Fields, x: string)
    requires Valid(f) && 0 <= f.year <= 9999
    ensures IsoDay(f) + x == Pad(f.year, 4) + ("-" + (Pad(f.month, 2) + ("-" + (Pad(f.day, 2) + x))))
  {
    hide Pad, DaysInMonth;
    var d := Pad(f.day, 2);
    assert ("-" + d) + x == "-" + (d + x);
    Nest("-", Pad(f.month, 2), "-" + d, x);
    var m := "-" + (Pad(f.month, 2) + ("-" + d));
    assert (Pad(f.year, 4) + m) + x == Pad(f.year, 4) + (m + x);
  }

  lemma TimeLess(f: Fields, g: Fields, x: string, y: string)
    requires Valid(f) && Valid(g) && MsOfDay(f) < MsOfDay(g)
    ensures Less(CompactTime(f) + x, CompactTime(g) + y)
  {
    DateIsSmall(f);
    DateIsSmall(g);
    ClockOrder(f, g);
    hide Valid, Less, Pad, Power10, MsOfDay;
    var fs, gs := "." + (Pad(f.millisecond, 3) + ("Z" + x)), "." + (Pad(g.millisecond, 3) + ("Z" + y));
    var fm, gm := Pad(f.second, 2) + fs, Pad(g.second, 2) + gs;
    if f.hour == g.hour {
      if f.minute == g.minute {
        if f.second == g.second {
          PairLess(f.millisecond, g.millisecond, 3, "Z" + x, "Z" + y);
          LessAfterPrefix(".", Pad(f.millisecond, 3) + ("Z" + x), Pad(g.millisecond, 3) + ("Z" + y));
        }
        PairLess(f.second, g.second, 2, fs, gs);
      }
      PairLess(f.minute, g.minute, 2, fm, gm);
    }
    PairLess(f.hour, g.hour, 2, Pad(f.minute, 2) + fm, Pad(g.minute, 2) + gm);
    TimePlus(f, x);
    TimePlus(g, y);
  }

  lemma ClockOrder(f: Fields, g: Fields)
    requires ValidClock(f) && ValidClock(g) && MsOfDay(f) < MsOfDay(g)
    ensures f.hour < g.hour || (f.hour == g.hour && (f.minute < g.minute || (f.minute == g.minute
            && (f.second < g.second || (f.second == g.second && f.millisecond < g.millisecond)))))
  {
  }

  lemma TimePlus(f: Fields, x: string)
    requires Valid(f)
    ensures CompactTime(f) + x
            == Pad(f.hour, 2) + (Pad(f.minute, 2) + (Pad(f.second, 2) + ("." + (Pad(f.millisecond, 3) + ("Z" + x)))))
  {
    hide Pad, ValidDate;
    var ms := Pad(f.millisecond, 3);
    Nest(".", ms, "Z", x);
    var s := Pad(f.second, 2) + ("." + (ms + "Z"));
    assert s + x == Pad(f.second, 2) + (("." + (ms + "Z")) + x);
    Nest(Pad(f.hour, 2), Pad(f.minute, 2), s, x);
  }

  lemma SameDayTail(f: Fields, suffix: string)
    requires Valid(f) && 0 <= f.year <= 9999
    ensures KeyTail(f, suffix)
            == (IsoDay(f) + ("/" + (CompactDay(f) + "-"))) + (CompactTime(f) + ("-" + (suffix + ".json.gz")))
  {
    hide IsoDay, CompactDay, CompactTime, Valid;
    KeyTailIs(f, suffix);
    hide KeyTail;
    var t := CompactTime(f) + ("-" + (suffix + ".json.gz"));
    assert (IsoDay(f) + ("/" + (CompactDay(f) + "-"))) + t == IsoDay(f) + ("/" + (CompactDay(f) + ("-" + t)));
  }

  lemma EarlierKeyIsLess(prefix: string, t: int, u: int, a: string, b: string)
    requires FourDigitYear(t) && FourDigitYear(u) && t < u
    ensures Less(Key(prefix, t, a), Key(prefix, u, b))
  {
    var f, g := FieldsOf(t), FieldsOf(u);
    FieldsOfInstant(t);
    FieldsOfInstant(u);
    hide FieldsOf;
    EarlierFields(f, g);
    hide Instant, Valid, IsoDay, Less, MsOfDay;
    if DateBefore(f, g) {
      KeyTailIs(f, a);
      KeyTailIs(g, b);
      hide KeyTail, Name, DateBefore;
      DayLess(f, g, "/" + Name(f, a), "/" + Name(g, b));
    } else {
      SameDayTail(f, a);
      SameDayTail(g, b);
      hide KeyTail, CompactTime;
      TimeLess(f, g, "-" + (a + ".json.gz"), "-" + (b + ".json.gz"));
      SameDayText(f, g);
      var common := IsoDay(f) + ("/" + (CompactDay(f) + "-"));
      LessAfterPrefix(common, CompactTime(f) + ("-" + (a + ".json.gz")), CompactTime(g) + ("-" + (b + ".json.gz")));
    }
    LessAfterPrefix(prefix, KeyTail(f, a), KeyTail(g, b));
  }

  lemma SameDayText(f: Fields, g: Fields)
    requires Valid(f) && Valid(g) && SameDate(f, g)
    ensures IsoDay(f) == IsoDay(g) && CompactDay(f) == CompactDay(g)
  {
  }

  // For four-digit years the order of two keys is the order of their timestamps.
  lemma TextOrderIsTimeOrder(prefix: string, t: int, u: int, a: string, b: string)
    requires FourDigitYear(t) && FourDigitYear(u)
    ensures t < u ==> Less(Key(prefix, t, a), Key(prefix, u, b))
    ensures Less(Key(prefix, t, a), Key(prefix, u, b)) ==> t <= u
  {
    hide Key, Less, FourDigitYear;
    if t < u {
      EarlierKeyIsLess(prefix, t, u, a, b);
    } else if u < t {
      EarlierKeyIsLess(prefix, u, t, b, a);
      LessAsymmetric(Key(prefix, u, b), Key(prefix, t, a));
    }
  }

  // A longer year is printed with a sign, which sorts before the digits; such a key is never due.
  lemma LongYearIsNeverDue(prefix: string, timestamp: int, suffix: string, now: int)
    requires !FourDigitYear(timestamp) && IsSuffix(suffix)
    ensures prefix <= Key(prefix, timestamp, suffix)
    ensures IsDue(prefix, Key(prefix, timestamp, suffix), now) == Some(false)
  {
    hide FieldsOf, Instant, Valid, IsSuffix, KeyTail, ParseName, SecondSegment;
    var f := FieldsOf(timestamp);
    FieldsOfInstant(timestamp);
    assert Key(prefix, timestamp, suffix)[|prefix|..] == KeyTail(f, suffix);
    hide Key;
    LongTail(f, suffix);
  }

  lemma LongTail(f: Fields, suffix: string)
    requires Valid(f) && !(0 <= f.year <= 9999) && IsSuffix(suffix)
    ensures exists name :: SecondSegment(KeyTail(f, suffix)) == Some(name) && ParseName(name) == None
  {
    hide IsoDay, CompactTime, IsSuffix, SecondSegment, Remove, Valid, HeadMatches;
    LongDay(f);
    NoSlashes(f, suffix);
    TailIs(f, suffix);
    SegmentAfter(IsoDay(f), Remove(IsoDay(f), '-') + NameEnd(f, suffix));
    hide KeyTail;
    LongHead(Remove(IsoDay(f), '-'), NameEnd(f, suffix));
  }

  function NameEnd(f: Fields, suffix: string): string
    requires Valid(f)
  {
    "-" + (CompactTime(f) + ("-" + (suffix + ".json.gz")))
  }

  lemma TailIs(f: Fields, suffix: string)
    requires Valid(f)
    ensures KeyTail(f, suffix) == IsoDay(f) + ("/" + (Remove(IsoDay(f), '-') + NameEnd(f, suffix)))
  {
    CompactTimeIs(f);
    hide IsoDay, IsoTime, CompactTime, Remove, Valid;
    var day := Remove(IsoDay(f), '-');
    assert (day + ("-" + CompactTime(f))) + ("-" + (suffix + ".json.gz")) == day + NameEnd(f, suffix);
  }

  lemma NoSlashes(f: Fields, suffix: string)
    requires Valid(f) && !(0 <= f.year <= 9999) && IsSuffix(suffix)
    ensures '/' !in IsoDay(f) && '/' !in Remove(IsoDay(f), '-') + NameEnd(f, suffix)
  {
    LongDay(f);
    assert '/' !in IsoDay(f) && '/' !in CompactTime(f) && '/' !in suffix;
    hide IsoDay, CompactTime, IsSuffix, Remove, Valid;
  }

  lemma LongHead(day: string, rest: string)
    requires |day| >= 10 && (!IsDigit(day[0]) || IsDigit(day[8]))
    ensures !HeadMatches(day + rest)
  {
    assert (day + rest)[0..8][0] == day[0] && (day + rest)[8] == day[8];
  }

  lemma LongDay(f: Fields)
    requires Valid(f) && !(0 <= f.year <= 9999)
    ensures var day := Remove(IsoDay(f), '-');
            && |day| >= 10 && (!IsDigit(day[0]) || IsDigit(day[8]))
            && '/' !in day
  {
    hide Remove;
    var monthDay := Pad(f.month, 2) + ("-" + Pad(f.day, 2));
    RemoveBetween(Pad(f.month, 2), Pad(f.day, 2), '-');
    RemoveAbsent(Pad(f.day, 2), '-');
    var digits := Pad(if f.year < 0 then -f.year else f.year, 6);
    RemoveBetween(digits, monthDay, '-');
    var rest := digits + ("-" + monthDay);
    if f.year < 0 {
      assert IsoDay(f) == "-" + rest;
      RemoveHead(rest, '-');
      assert IsDigit((digits + (Pad(f.month, 2) + Pad(f.day, 2)))[8]);
    } else {
      assert IsoDay(f) == "+" + rest;
      RemoveAppend("+", rest, '-');
      RemoveAbsent("+", '-');
    }
  }

  // Keys for one timestamp are in the order of their suffixes.
  lemma SuffixOrder(prefix: string, timestamp: int, a: string, b: string)
    requires |a| == |b| && Less(a, b)
    ensures Less(Key(prefix, timestamp, a), Key(prefix, timestamp, b))
  {
    hide FieldsOf, Instant, Valid, IsoDay, IsoTime, Remove, Less;
    FieldsOfInstant(timestamp);
    var f := FieldsOf(timestamp);
    var dayTime := Remove(IsoDay(f), '-') + ("-" + Remove(IsoTime(f), ':'));
    var x, y := a + ".json.gz", b + ".json.gz";
    LessExtends(a, b, ".json.gz", ".json.gz");
    LessAfterPrefix("-", x, y);
    LessAfterPrefix(dayTime, "-" + x, "-" + y);
    LessAfterPrefix("/", dayTime + ("-" + x), dayTime + ("-" + y));
    LessAfterPrefix(IsoDay(f), "/" + (dayTime + ("-" + x)), "/" + (dayTime + ("-" + y)));
    LessAfterPrefix(prefix, KeyTail(f, a), KeyTail(f, b));
  }

  // 1 January 1970
  lemma EpochYear()
    ensures FourDigitYear(0)
  {
    assert YearOf(0) == 1970;
  }

  lemma FirstOfKey(prefix: string, timestamp: int, suffix: string)
    ensures var tail := Key(prefix, timestamp, suffix)[|prefix|..];
            && Key(prefix, timestamp, suffix) == prefix + tail && tail != ""
            && (if FourDigitYear(timestamp) then IsDigit(tail[0]) else tail[0] == '+' || tail[0] == '-')
  {
    FieldsOfInstant(timestamp);
    hide FieldsOf, Valid, Remove, IsoTime;
  }

  lemma FirstCharacterDecides(prefix: string, a: string, b: string)
    requires a != "" && b != "" && a[0] < b[0]
    ensures Less(prefix + a, prefix + b)
  {
    LessAfterPrefix(prefix, a, b);
  }
}
