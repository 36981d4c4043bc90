// What a printed chain of elements reads back as.  Values are printed between quotes, with their quotes escaped but not
// their backslashes; keys and heads are printed as they are.  The parser splits the chain, then the head from the
// attributes, then the attributes, and each step is exact for printed text of a stated kind.
module ElementRoundTrip {
  import opened Digits
  import opened ElementSyntax
  import opened KeyOrder
  import opened Text
  import opened Wrappers

  // ----- what survives -----

  predicate IsHeadChar(c: char) {
    !IsSpace(c) && c != ';' && c != '"' && c != '=' && c != '.'
  }

  predicate GoodName(s: string) {
    forall i :: 0 <= i < |s| ==> IsHeadChar(s[i])
  }

  // The number of backslashes that end at i.
  function Backslashes(s: string, i: nat): nat
    requires i <= |s|
  {
    if i > 0 && s[i - 1] == '\\' then 1 + Backslashes(s, i - 1) else 0
  }

  // Before each quote, and at the end, there is an even number of backslashes.
  predicate EvenRuns(s: string) {
    forall i :: 0 <= i <= |s| && (i == |s| || s[i] == '"') ==> Backslashes(s, i) % 2 == 0
  }

  predicate GoodKey(s: string) {
    s != "" && s !in RESERVED && forall i :: 0 <= i < |s| ==> IsKeyChar(s[i])
  }

  predicate EvenOption(s: Option<string>) {
    s.Some? ==> EvenRuns(s.value)
  }

  predicate GoodNames(e: Element) {
    && (e.tagName.Some? ==> GoodName(e.tagName.value))
    && (e.attrClass.Some? ==>
          forall i :: 0 <= i < |e.attrClass.value| ==> GoodName(WithoutQuotes(e.attrClass.value[i])))
    && forall key <- e.attributes :: GoodKey(key)
  }

  // Printed in a chain, the element stays in one piece.
  predicate Printable(e: Element) {
    && GoodNames(e)
    && EvenOption(e.text) && EvenOption(e.href) && EvenOption(e.attrId)
    && forall key <- e.attributes :: EvenRuns(e.attributes[key])
  }

  // Not empty, without a backslash at the end and without a line break.
  predicate Survives(s: string) {
    s != "" && s[|s| - 1] != '\\' && forall i :: 0 <= i < |s| ==> !IsLineTerminator(s[i])
  }

  // Every value that is printed survives; an empty text, href or id is not printed.
  predicate ValuesSurvive(e: Element) {
    && SurvivesIfPrinted(e.text) && SurvivesIfPrinted(e.href) && SurvivesIfPrinted(e.attrId)
    && forall key <- e.attributes :: Survives(e.attributes[key])
  }

  predicate SurvivesIfPrinted(s: Option<string>) {
    s.Some? && s.value != "" ==> Survives(s.value)
  }

  function EscapedOption(s: Option<string>): Option<string> {
    if s.Some? && s.value != "" then Some(EscapeQuotes(s.value)) else None
  }

  function WithoutQuotesEach(classes: seq<string>): seq<string> {
    seq(|classes|, i requires 0 <= i < |classes| => WithoutQuotes(classes[i]))
  }

  // What a printed element reads back as: classes are sorted and lose their quotes, a missing number is 0,
  // and quotes in values stay escaped.
  function ReadBack(e: Element, index: nat): Element {
    Element(EscapedOption(e.text),
            if Head(e) == "" then None else Some(if e.tagName.Some? then e.tagName.value else ""),
            EscapedOption(e.href),
            EscapedOption(e.attrId),
            if e.attrClass.Some? && e.attrClass.value != [] then
              Some(NonEmpty(WithoutQuotesEach(Sorted(e.attrClass.value))))
            else None,
            Some(OrZero(e.nthChild)),
            Some(OrZero(e.nthOfType)),
            map key | key in e.attributes :: EscapeQuotes(e.attributes[key]),
            Some(index))
  }

  // ----- values and quotes -----

  lemma {:induction false} BackslashesLater(s: string, k: nat, i: nat)
    requires k + i <= |s|
    ensures Backslashes(s, k + i)
         == Backslashes(s[k..], i) + if Backslashes(s[k..], i) == i then Backslashes(s, k) else 0
    ensures Backslashes(s[k..], i) <= i
    decreases i
  {
    if i > 0 {
      BackslashesLater(s, k, i - 1);
      assert s[k..][i - 1] == s[k + i - 1];
    }
  }

  lemma SameParity(s: string, k: nat, i: nat)
    requires k + i <= |s| && Backslashes(s, k) % 2 == 0
    ensures Backslashes(s, k + i) % 2 == 0 <==> Backslashes(s[k..], i) % 2 == 0
    ensures k + i < |s| ==> s[k..][i] == s[k + i]
  {
    BackslashesLater(s, k, i);
    hide Backslashes;
    AddEven(Backslashes(s[k..], i), Backslashes(s, k));
  }

  lemma AddEven(m: nat, n: nat)
    requires n % 2 == 0
    ensures (m + n) % 2 == 0 <==> m % 2 == 0
  {
  }

  lemma EvenSuffix(s: string, k: nat)
    requires k <= |s| && Backslashes(s, k) % 2 == 0 && EvenRuns(s)
    ensures EvenRuns(s[k..])
  {
    hide Backslashes;
    forall i | 0 <= i <= |s| - k && (i == |s| - k || s[k..][i] == '"')
      ensures Backslashes(s[k..], i) % 2 == 0
    {
      SameParity(s, k, i);
      assert k + i == |s| || s[k + i] == '"';
    }
  }

  lemma EvenPrefix(s: string, k: nat)
    requires k <= |s| && Backslashes(s, k) % 2 == 0 && EvenRuns(s[k..])
    requires forall i :: 0 <= i < k ==> s[i] == '"' ==> Backslashes(s, i) % 2 == 0
    ensures EvenRuns(s)
  {
    hide Backslashes;
    forall i | 0 <= i <= |s| && (i == |s| || s[i] == '"')
      ensures Backslashes(s, i) % 2 == 0
    {
      if i >= k {
        SameParity(s, k, i - k);
        assert i - k == |s[k..]| || s[k..][i - k] == '"';
      }
    }
  }

  lemma EvenRunsStep(v: string)
    requires v != ""
    ensures v[0] != '\\' ==> (EvenRuns(v) <==> EvenRuns(v[1..]))
    ensures v[0] == '\\' ==> (EvenRuns(v) <==> |v| > 1 && v[1] != '"' && EvenRuns(v[2..]))
  {
    assert Backslashes(v, 0) == 0;
    assert Backslashes(v, 1) == if v[0] == '\\' then 1 + Backslashes(v, 0) else 0;
    assert |v| > 1 ==> Backslashes(v, 2) == if v[1] == '\\' then 1 + Backslashes(v, 1) else 0;
    hide Backslashes;
    var k := if v[0] == '\\' then 2 else 1;
    if EvenRuns(v) {
      assert |v| == 1 || v[1] == '"' ==> Backslashes(v, 1) % 2 == 0;
      EvenSuffix(v, k);
    }
    if k <= |v| && (k == 2 ==> v[1] != '"') && EvenRuns(v[k..]) {
      EvenPrefix(v, k);
    }
  }

  lemma QuotedEnds(rest: string)
    ensures Quoted("\"" + rest) == Some(1)
  {
  }

  lemma QuotedSingle(c: char, rest: string)
    requires c != '"' && c != '\\' && Quoted(rest).Some?
    ensures Quoted([c] + rest) == Some(Quoted(rest).value + 1)
  {
    assert ([c] + rest)[1..] == rest;
  }

  lemma QuotedPair(c: char, rest: string)
    requires Quoted(rest).Some?
    ensures Quoted(['\\', c] + rest) == Some(Quoted(rest).value + 2)
  {
    var s := ['\\', c] + rest;
    assert s[2..] == rest && s[1..] == [c] + rest;
    if IsLineTerminator(c) {
      QuotedSingle(c, rest);
    }
  }

  lemma EscapeStep(v: string)
    requires v != ""
    ensures EscapeQuotes(v) == (if v[0] == '"' then "\\\"" else [v[0]]) + EscapeQuotes(v[1..])
  {
  }

  lemma {:induction false} QuotedValue(v: string, rest: string)
    requires EvenRuns(v)
    ensures Quoted(EscapeQuotes(v) + ("\"" + rest)) == Some(|EscapeQuotes(v)| + 1)
    decreases |v|
  {
    var s := EscapeQuotes(v) + ("\"" + rest);
    if v == "" {
      QuotedEnds(rest);
      assert s == "\"" + rest;
    } else {
      EvenRunsStep(v);
      EscapeStep(v);
      if v[0] == '\\' {
        EscapeStep(v[1..]);
        hide EvenRuns, Quoted, EscapeQuotes;
        var w := v[2..];
        assert v[1..][1..] == w;
        assert s == ['\\', v[1]] + (EscapeQuotes(w) + ("\"" + rest));
        QuotedValue(w, rest);
        QuotedPair(v[1], EscapeQuotes(w) + ("\"" + rest));
      } else {
        hide EvenRuns, Quoted, EscapeQuotes;
        var tail := EscapeQuotes(v[1..]) + ("\"" + rest);
        QuotedValue(v[1..], rest);
        if v[0] == '"' {
          assert s == ['\\', '"'] + tail;
          QuotedPair('"', tail);
        } else {
          assert s == [v[0]] + tail;
          QuotedSingle(v[0], tail);
        }
      }
    }
  }

  lemma {:induction false} QuotedFinds(s: string)
    requires '"' in s
    ensures Quoted(s).Some?
  {
    if s[0] != '"' {
      assert s == [s[0]] + s[1..];
      QuotedFinds(s[1..]);
    }
  }

  lemma QuoteFollows(v: string)
    ensures '"' in EscapeQuotes(v) + "\"\""
  {
    var s := EscapeQuotes(v) + "\"\"";
    assert s[|s| - 1] == '"';
  }

  // With an odd run of backslashes a printed value does not end where it should, at least before another quote.
  lemma {:induction false} OddRunMisleads(v: string)
    requires !EvenRuns(v)
    ensures Quoted(EscapeQuotes(v) + "\"\"") != Some(|EscapeQuotes(v)| + 1)
    decreases |v|, 1
  {
    hide EvenRuns, Quoted, EscapeQuotes, Backslashes;
    NothingIsEven();
    EvenRunsStep(v);
    EscapeStep(v);
    if v[0] != '\\' {
      var tail := EscapeQuotes(v[1..]) + "\"\"";
      QuoteFollows(v[1..]);
      QuotedFinds(tail);
      OddRunMisleads(v[1..]);
      if v[0] == '"' {
        assert EscapeQuotes(v) + "\"\"" == ['\\', '"'] + tail;
        QuotedPair('"', tail);
      } else {
        assert EscapeQuotes(v) + "\"\"" == [v[0]] + tail;
        QuotedSingle(v[0], tail);
      }
    } else if |v| == 1 {
      LoneBackslash();
      assert v == "\\";
    } else {
      OddPairMisleads(v);
    }
  }

  lemma {:induction false} OddPairMisleads(v: string)
    requires !EvenRuns(v) && |v| > 1 && v[0] == '\\'
    ensures Quoted(EscapeQuotes(v) + "\"\"") != Some(|EscapeQuotes(v)| + 1)
    decreases |v|, 0
  {
    hide EvenRuns, Quoted, EscapeQuotes, Backslashes;
    EvenRunsStep(v);
    EscapeStep(v);
    EscapeStep(v[1..]);
    var w := v[2..];
    var tail := EscapeQuotes(w) + "\"\"";
    assert v[1..][1..] == w;
    QuoteFollows(w);
    QuotedFinds(tail);
    if v[1] == '"' {
      assert EscapeQuotes(v) + "\"\"" == ['\\', '\\'] + ("\"" + tail);
      QuotedEnds(tail);
      QuotedPair('\\', "\"" + tail);
    } else {
      assert EscapeQuotes(v) + "\"\"" == ['\\', v[1]] + tail;
      OddRunMisleads(w);
      QuotedPair(v[1], tail);
    }
  }

  lemma NothingIsEven()
    ensures EvenRuns("")
  {
  }

  lemma LoneBackslash()
    ensures EscapeQuotes("\\") == "\\" && Quoted("\\" + "\"\"") == Some(3)
  {
    QuotedEnds("");
    assert "\"" + "" == "\"";
    QuotedPair('"', "\"");
    assert ['\\', '"'] + "\"" == "\\" + "\"\"";
  }

  // Whatever follows, the quotes around a printed value enclose it, if and only if its runs of backslashes before
  // quotes and at its end are even.
  lemma QuotedExactly(v: string)
    ensures (forall rest :: Quoted(EscapeQuotes(v) + ("\"" + rest)) == Some(|EscapeQuotes(v)| + 1)) <==> EvenRuns(v)
  {
    if EvenRuns(v) {
      forall rest
        ensures Quoted(EscapeQuotes(v) + ("\"" + rest)) == Some(|EscapeQuotes(v)| + 1)
      {
        QuotedValue(v, rest);
      }
    } else {
      OddRunMisleads(v);
      assert EscapeQuotes(v) + ("\"" + "\"") == EscapeQuotes(v) + "\"\"";
    }
  }

  lemma EscapedStart(v: string, rest: string)
    ensures v == "" ==> (EscapeQuotes(v) + ("\"" + rest))[0] == '"'
    ensures v != "" ==> EscapeQuotes(v) != "" && EscapeQuotes(v)[0] != '"'
  {
  }

  predicate NoBreakInside(v: string) {
    forall i :: 0 <= i < |v| - 1 ==> !IsLineTerminator(v[i])
  }

  lemma NoBreakInsideStep(v: string)
    requires |v| > 1
    ensures NoBreakInside(v) <==> !IsLineTerminator(v[0]) && NoBreakInside(v[1..])
  {
    if NoBreakInside(v[1..]) && !IsLineTerminator(v[0]) {
      forall i | 0 <= i < |v| - 1
        ensures !IsLineTerminator(v[i])
      {
        assert i > 0 ==> v[1..][i - 1] == v[i];
      }
    }
  }

  // The parser's value pattern finds the end of a printed value, if and only if the value is not empty, does
  // not end with a backslash, and has no line break before its last character.
  lemma {:induction false} ValueIsFoundExactly(v: string, rest: string)
    ensures ValueLength(EscapeQuotes(v) + ("\"" + rest)) == Some(|EscapeQuotes(v)|)
            <==> v != "" && v[|v| - 1] != '\\' && NoBreakInside(v)
    decreases |v|
  {
    var s := EscapeQuotes(v) + ("\"" + rest);
    if v != "" {
      var tail := EscapeQuotes(v[1..]) + ("\"" + rest);
      ValueIsFoundExactly(v[1..], rest);
      EscapedStart(v[1..], rest);
      if |v| > 1 {
        NoBreakInsideStep(v);
      }
      if v[0] == '"' {
        assert s[2..] == tail && s[1..] == "\"" + tail && s[1..][1..] == tail;
        assert s[0] == '\\' && s[1..][0] == '"' && s[1..][1] == tail[0];
      } else {
        assert s[1..] == tail && s[0] == v[0] && s[1] == tail[0];
      }
    }
  }

  // ----- one attribute, and all of them -----

  lemma {:induction false} AttributeIsFound(before: string, key: string, v: string, rest: string)
    requires Survives(v) && forall i :: 0 <= i < |key| ==> IsKeyChar(key[i])
    ensures var e := EscapeQuotes(v);
            FirstAttribute(before, PairText((key, e)) + rest) == Some(((before + key, e), rest))
    decreases |key|
  {
    hide EscapeQuotes, ValueLength, FirstAttribute;
    var e := EscapeQuotes(v);
    if key == "" {
      var tail := e + ("\"" + rest);
      ValueIsFoundExactly(v, rest);
      AttributeHere(before, e, tail, rest);
      assert PairText((key, e)) + rest == "=\"" + tail && before + key == before;
    } else {
      hide Survives;
      var more := PairText((key[1..], e)) + rest;
      AttributeIsFound(before + [key[0]], key[1..], v, rest);
      KeyContinues(before, key[0], more);
      assert PairText((key, e)) + rest == [key[0]] + more;
      assert before + [key[0]] + key[1..] == before + key;
    }
  }

  lemma KeyContinues(before: string, c: char, more: string)
    requires IsKeyChar(c)
    ensures FirstAttribute(before, [c] + more) == FirstAttribute(before + [c], more)
  {
    var s := [c] + more;
    assert s[1..] == more && (|s| >= 2 ==> s[..2][0] != '=');
  }

  lemma AttributeHere(before: string, e: string, tail: string, rest: string)
    requires tail == e + ("\"" + rest) && ValueLength(tail) == Some(|e|)
    ensures FirstAttribute(before, "=\"" + tail) == Some(((before, e), rest))
  {
    hide ValueLength;
    var s := "=\"" + tail;
    assert s[..2] == "=\"" && s[2..] == tail;
    assert tail[..|e|] == e && tail[|e| + 1..] == rest;
  }

  predicate IsPlainKey(key: string) {
    key != "" && forall i :: 0 <= i < |key| ==> IsKeyChar(key[i])
  }

  // A pair as printed for a value that survives.
  ghost predicate FoundPair(pair: Pair) {
    IsPlainKey(pair.0) && exists v | Survives(v) :: pair.1 == EscapeQuotes(v)
  }

  ghost predicate FoundPairs(pairs: seq<Pair>) {
    forall i :: 0 <= i < |pairs| ==> FoundPair(pairs[i])
  }

  // A pair as printed for a value that stays within its quotes.
  ghost predicate GoodPair(pair: Pair) {
    IsPlainKey(pair.0) && exists v | EvenRuns(v) :: pair.1 == EscapeQuotes(v)
  }

  ghost predicate GoodPairs(pairs: seq<Pair>) {
    forall i :: 0 <= i < |pairs| ==> GoodPair(pairs[i])
  }

  lemma {:induction false} AttributesAreFound(pairs: seq<Pair>)
    requires FoundPairs(pairs)
    ensures AllAttributes(PairsText(pairs)) == pairs
  {
    hide FirstAttribute, PairText;
    if pairs == [] {
      NoAttribute();
    } else {
      var pair := pairs[0];
      assert FoundPair(pair);
      var v :| Survives(v) && pair.1 == EscapeQuotes(v);
      hide EscapeQuotes, Survives;
      AttributeIsFound("", pair.0, v, PairsText(pairs[1..]));
      assert "" + pair.0 == pair.0;
      AttributesAreFound(pairs[1..]);
    }
  }

  lemma NoAttribute()
    ensures FirstAttribute("", "") == None
  {
  }

  // ----- tokens -----

  lemma {:induction false} PlainToken(s: string, rest: string)
    requires forall i :: 0 <= i < |s| ==> !IsSpace(s[i]) && s[i] != ';' && s[i] != '"'
    ensures TokenLength(s + rest) == |s| + TokenLength(rest)
  {
    if s == "" {
      assert s + rest == rest;
    } else {
      assert (s + rest)[1..] == s[1..] + rest;
      PlainToken(s[1..], rest);
    }
  }

  lemma KeyIsPlain(key: string)
    requires forall i :: 0 <= i < |key| ==> IsKeyChar(key[i])
    ensures var s := key + "="; forall i :: 0 <= i < |s| ==> !IsSpace(s[i]) && s[i] != ';' && s[i] != '"'
  {
  }

  lemma QuotedToken(e: string, rest: string)
    requires Quoted(e + ("\"" + rest)) == Some(|e| + 1)
    ensures TokenLength("\"" + (e + ("\"" + rest))) == |e| + 2 + TokenLength(rest)
  {
    hide Quoted;
    var s := "\"" + (e + ("\"" + rest));
    assert s[1..] == e + ("\"" + rest) && s[1 + (|e| + 1)..] == rest;
  }

  lemma PairToken(pair: Pair, rest: string)
    requires GoodPair(pair)
    ensures TokenLength(PairText(pair) + rest) == |PairText(pair)| + TokenLength(rest)
  {
    hide EscapeQuotes, EvenRuns, IsSpace, Quoted, TokenLength, IsKeyChar;
    var v :| EvenRuns(v) && pair.1 == EscapeQuotes(v);
    QuotedValue(v, rest);
    QuotedToken(pair.1, rest);
    KeyIsPlain(pair.0);
    var quoted := "\"" + (pair.1 + ("\"" + rest));
    PlainToken(pair.0 + "=", quoted);
    assert PairText(pair) + rest == (pair.0 + "=") + quoted;
  }

  lemma {:induction false} PairsToken(pairs: seq<Pair>, rest: string)
    requires GoodPairs(pairs)
    ensures TokenLength(PairsText(pairs) + rest) == |PairsText(pairs)| + TokenLength(rest)
  {
    hide TokenLength, PairText, GoodPair;
    if pairs == [] {
      assert PairsText(pairs) + rest == rest;
    } else {
      PairToken(pairs[0], PairsText(pairs[1..]) + rest);
      PairsToken(pairs[1..], rest);
      assert PairsText(pairs) + rest == PairText(pairs[0]) + (PairsText(pairs[1..]) + rest);
    }
  }

  // An element's text: a head, a colon and printed pairs.
  predicate GoodHead(head: string) {
    forall i :: 0 <= i < |head| ==> IsHeadChar(head[i]) || head[i] == '.'
  }

  ghost predicate GoodText(text: string, head: string, pairs: seq<Pair>) {
    GoodHead(head) && GoodPairs(pairs) && pairs != [] && text == head + (":" + PairsText(pairs))
  }

  lemma TextIsOneToken(text: string, head: string, pairs: seq<Pair>, rest: string)
    requires GoodText(text, head, pairs) && (rest == "" || rest[0] == ';')
    ensures TokenLength(text + rest) == |text| > 0
  {
    hide TokenLength, PairsText, GoodPairs;
    NoToken(rest);
    PairsToken(pairs, rest);
    HeadIsPlain(head);
    hide GoodHead;
    PlainToken(head + ":", PairsText(pairs) + rest);
    assert text + rest == (head + ":") + (PairsText(pairs) + rest);
  }

  lemma NoToken(rest: string)
    requires rest == "" || rest[0] == ';'
    ensures TokenLength(rest) == 0
  {
  }

  lemma HeadIsPlain(head: string)
    requires GoodHead(head)
    ensures var s := head + ":"; forall i :: 0 <= i < |s| ==> !IsSpace(s[i]) && s[i] != ';' && s[i] != '"'
  {
    var s := head + ":";
    forall i | 0 <= i < |s|
      ensures !IsSpace(s[i]) && s[i] != ';' && s[i] != '"'
    {
      assert i < |head| ==> IsHeadChar(head[i]) || head[i] == '.';
    }
  }

  // ----- the head and the attributes -----

  ghost predicate FoundText(text: string, head: string, pairs: seq<Pair>) {
    GoodHead(head) && FoundPairs(pairs) && pairs != [] && text == head + (":" + PairsText(pairs))
  }

  lemma {:induction false} KeyRunStops(head: string, rest: string)
    requires GoodHead(head)
    ensures var n := KeyRun(head + (":" + rest)); n <= |head| && (head + (":" + rest))[n] != '='
  {
    if head == "" {
      assert head + (":" + rest) == ":" + rest;
    } else {
      assert (head + (":" + rest))[1..] == head[1..] + (":" + rest);
      KeyRunStops(head[1..], rest);
    }
  }

  lemma {:induction false} KeyRunIs(key: string, rest: string)
    requires (forall i :: 0 <= i < |key| ==> IsKeyChar(key[i])) && rest != "" && !IsKeyChar(rest[0])
    ensures KeyRun(key + rest) == |key|
  {
    if key == "" {
      assert key + rest == rest;
    } else {
      assert (key + rest)[1..] == key[1..] + rest;
      KeyRunIs(key[1..], rest);
    }
  }

  lemma {:induction false} HeadIsSplitOff(before: string, head: string, attributes: string)
    requires GoodHead(head) && AttributesStart(":" + attributes)
    ensures SplitClassAttributes(before, head + (":" + attributes)) == (before + head, Some(ToLineEnd(attributes)))
    decreases |head|
  {
    var s := head + (":" + attributes);
    if head == "" {
      assert s == ":" + attributes && s[1..] == attributes && before + head == before;
    } else {
      assert s[1..] == head[1..] + (":" + attributes);
      KeyRunStops(head[1..], attributes);
      assert !AttributesStart(s);
      HeadIsSplitOff(before + [head[0]], head[1..], attributes);
      assert before + [head[0]] + head[1..] == before + head;
    }
  }

  lemma {:induction false} LineIsWhole(s: string)
    requires forall i :: 0 <= i < |s| ==> !IsLineTerminator(s[i])
    ensures ToLineEnd(s) == s
  {
    if s != "" {
      LineIsWhole(s[1..]);
    }
  }

  lemma {:induction false} EscapedHasNoBreak(v: string)
    requires forall i :: 0 <= i < |v| ==> !IsLineTerminator(v[i])
    ensures forall i :: 0 <= i < |EscapeQuotes(v)| ==> !IsLineTerminator(EscapeQuotes(v)[i])
  {
    if v != "" {
      EscapedHasNoBreak(v[1..]);
    }
  }

  lemma PairHasNoBreak(pair: Pair)
    requires FoundPair(pair)
    ensures forall i :: 0 <= i < |PairText(pair)| ==> !IsLineTerminator(PairText(pair)[i])
  {
    var v :| Survives(v) && pair.1 == EscapeQuotes(v);
    EscapedHasNoBreak(v);
  }

  lemma {:induction false} PairsHaveNoBreak(pairs: seq<Pair>)
    requires FoundPairs(pairs)
    ensures forall i :: 0 <= i < |PairsText(pairs)| ==> !IsLineTerminator(PairsText(pairs)[i])
  {
    if pairs != [] {
      PairHasNoBreak(pairs[0]);
      hide PairText, FoundPair;
      PairsHaveNoBreak(pairs[1..]);
    }
  }

  lemma AttributesDoStart(pairs: seq<Pair>)
    requires FoundPairs(pairs) && pairs != []
    ensures AttributesStart(":" + PairsText(pairs))
  {
    var pair := pairs[0];
    assert FoundPair(pair);
    hide FoundPair;
    var rest := "=\"" + (pair.1 + "\"") + PairsText(pairs[1..]);
    assert PairsText(pairs) == pair.0 + rest;
    assert FoundPair(pair);
    KeyOfPair(pair);
    KeyRunIs(pair.0, rest);
    hide PairsText, KeyRun;
    assert (":" + PairsText(pairs))[1..] == pair.0 + rest;
  }

  lemma KeyOfPair(pair: Pair)
    requires FoundPair(pair)
    ensures forall i :: 0 <= i < |pair.0| ==> IsKeyChar(pair.0[i])
  {
  }

  lemma TextParses(text: string, head: string, pairs: seq<Pair>, index: nat)
    requires FoundText(text, head, pairs)
    ensures ParseElement(text, index) == Some(AssignAll(WithHead(head, index), pairs))
  {
    hide GoodHead, FoundPairs, SplitClassAttributes, AttributesStart, PairsText, AllAttributes;
    AttributesDoStart(pairs);
    HeadIsSplitOff("", head, PairsText(pairs));
    assert "" + head == head;
    PairsHaveNoBreak(pairs);
    LineIsWhole(PairsText(pairs));
    AttributesAreFound(pairs);
  }

  // ----- the head -----

  lemma {:induction false} DotsAppend(a: string, b: string)
    requires forall i :: 0 <= i < |a| ==> a[i] != '.'
    ensures var rest := SplitDots(b); SplitDots(a + b) == [a + rest[0]] + rest[1..]
  {
    if a == "" {
      assert a + b == b && a + SplitDots(b)[0] == SplitDots(b)[0];
    } else {
      assert (a + b)[1..] == a[1..] + b;
      DotsAppend(a[1..], b);
      var rest := SplitDots(b);
      assert ([a[1..] + rest[0]] + rest[1..])[1..] == rest[1..];
      assert [a[0]] + (a[1..] + rest[0]) == a + rest[0];
    }
  }

  lemma {:induction false} DotsBeforeLast(s: string, last: string)
    requires forall i :: 0 <= i < |last| ==> last[i] != '.'
    ensures SplitDots(s + ("." + last)) == SplitDots(s) + [last]
  {
    if s == "" {
      assert s + ("." + last) == "." + last && ("." + last)[1..] == last;
      DotsAppend(last, "");
      assert last + "" == last;
    } else {
      assert (s + ("." + last))[1..] == s[1..] + ("." + last);
      DotsBeforeLast(s[1..], last);
    }
  }

  lemma NameHasNoDot(name: string)
    requires GoodName(name)
    ensures forall i :: 0 <= i < |name| ==> name[i] != '.'
    ensures GoodHead(name) && GoodHead("." + name)
  {
  }

  lemma NameIsOnePart(name: string)
    requires GoodName(name)
    ensures SplitDots(name) == [name]
  {
    NameHasNoDot(name);
    DotsAppend(name, "");
    assert name + "" == name;
  }

  lemma HeadsAppend(a: string, b: string)
    requires GoodHead(a) && GoodHead(b)
    ensures GoodHead(a + b)
  {
    hide IsHeadChar;
  }

  lemma EachSnoc(classes: seq<string>)
    requires classes != []
    ensures var n := |classes| - 1;
            WithoutQuotesEach(classes) == WithoutQuotesEach(classes[..n]) + [WithoutQuotes(classes[n])]
  {
    hide WithoutQuotes;
  }

  lemma {:induction false} HeadSplits(tag: string, classes: seq<string>)
    requires GoodName(tag) && forall i :: 0 <= i < |classes| ==> GoodName(WithoutQuotes(classes[i]))
    ensures SplitDots(tag + ClassText(classes)) == [tag] + WithoutQuotesEach(classes)
    ensures GoodHead(tag + ClassText(classes))
  {
    hide GoodName, GoodHead, SplitDots, WithoutQuotes, WithoutQuotesEach;
    if classes == [] {
      NameIsOnePart(tag);
      NameHasNoDot(tag);
      NothingEach();
      assert tag + "" == tag;
    } else {
      var n := |classes| - 1;
      HeadSplits(tag, classes[..n]);
      var before, last := tag + ClassText(classes[..n]), WithoutQuotes(classes[n]);
      assert tag + ClassText(classes) == before + ("." + last);
      NameHasNoDot(last);
      DotsBeforeLast(before, last);
      HeadsAppend(before, "." + last);
      EachSnoc(classes);
    }
  }

  lemma NothingEach()
    ensures WithoutQuotesEach([]) == []
  {
  }

  lemma {:induction false} InsertHas(s: string, sorted: seq<string>)
    ensures multiset(Insert(s, sorted)) == multiset(sorted) + multiset{s}
  {
    if sorted != [] && Less(sorted[0], s) {
      InsertHas(s, sorted[1..]);
      assert sorted == [sorted[0]] + sorted[1..];
    }
  }

  lemma {:induction false} SortedIsPermutation(classes: seq<string>)
    ensures multiset(Sorted(classes)) == multiset(classes)
  {
    if classes != [] {
      SortedIsPermutation(classes[1..]);
      InsertHas(classes[0], Sorted(classes[1..]));
      assert classes == [classes[0]] + classes[1..];
    }
  }

  predicate InOrder(classes: seq<string>) {
    forall i :: 0 <= i < |classes| - 1 ==> !Less(classes[i + 1], classes[i])
  }

  lemma {:induction false} InsertKeepsOrder(s: string, sorted: seq<string>)
    requires InOrder(sorted)
    ensures InOrder(Insert(s, sorted))
    ensures Insert(s, sorted)[0] == s || (sorted != [] && Insert(s, sorted)[0] == sorted[0])
  {
    hide Less;
    if sorted != [] {
      if Less(sorted[0], s) {
        InsertKeepsOrder(s, sorted[1..]);
        LessAsymmetric(sorted[0], s);
      }
    }
  }

  lemma {:induction false} SortedIsInOrder(classes: seq<string>)
    ensures InOrder(Sorted(classes))
  {
    if classes != [] {
      SortedIsInOrder(classes[1..]);
      InsertKeepsOrder(classes[0], Sorted(classes[1..]));
    }
  }

  lemma {:induction false} SortingAgain(classes: seq<string>)
    requires InOrder(classes)
    ensures Sorted(classes) == classes
  {
    if classes != [] {
      SortingAgain(classes[1..]);
      hide Less;
      assert |classes| > 1 ==> !Less(classes[1], classes[0]);
      assert classes == [classes[0]] + classes[1..];
    }
  }

  // The tag and the sorted classes without quotes and empty names.
  lemma HeadReadsBack(e: Element, index: nat)
    requires GoodNames(e)
    ensures GoodHead(Head(e))
    ensures var r := WithHead(Head(e), index);
            r == Element(None, ReadBack(e, index).tagName, None, None, ReadBack(e, index).attrClass, None, None,
                         map[], Some(index))
  {
    var tag := if e.tagName.Some? then e.tagName.value else "";
    var classes := if e.attrClass.Some? then Sorted(e.attrClass.value) else [];
    assert Head(e) == tag + ClassText(classes);
    if e.attrClass.Some? {
      SortedIsPermutation(e.attrClass.value);
      forall i | 0 <= i < |classes|
        ensures GoodName(WithoutQuotes(classes[i]))
      {
        assert classes[i] in multiset(e.attrClass.value);
        assert classes[i] in e.attrClass.value;
      }
      assert |classes| == |multiset(classes)| == |e.attrClass.value|;
    }
    hide GoodNames, Sorted;
    HeadSplits(tag, classes);
    assert classes != [] ==> ClassText(classes) != "";
    assert ([tag] + WithoutQuotesEach(classes))[1..] == WithoutQuotesEach(classes);
  }

  // ----- the attributes -----

  function Lookup(m: map<string, string>, key: string): Option<string> {
    if key in m then Some(m[key]) else None
  }

  function LookupNumber(m: map<string, string>, key: string): Option<Number> {
    if key in m then Some(ParseInt(m[key])) else None
  }

  // The element that a map of attributes stands for.
  function FromMap(start: Element, m: map<string, string>): Element {
    start.(text := Lookup(m, "text"), href := Lookup(m, "href"), attrId := Lookup(m, "attr_id"),
           nthChild := LookupNumber(m, "nth-child"), nthOfType := LookupNumber(m, "nth-of-type"),
           attributes := map key | key in m && key !in RESERVED && key != "" :: m[key])
  }

  predicate IsBare(e: Element) {
    e.text == e.href == e.attrId == None && e.nthChild == e.nthOfType == None && e.attributes == map[]
  }

  lemma AssignStep(start: Element, m: map<string, string>, pair: Pair)
    ensures Assign(FromMap(start, m), pair) == FromMap(start, m[pair.0 := pair.1])
  {
    hide ParseInt;
    var (key, value) := pair;
    var next := m[key := value];
    var attributes := map k | k in m && k !in RESERVED && k != "" :: m[k];
    var nextAttributes := map k | k in next && k !in RESERVED && k != "" :: next[k];
    if key in RESERVED || key == "" {
      assert nextAttributes == attributes;
    } else {
      assert nextAttributes == attributes[key := value];
    }
  }

  // The order of the attributes does not matter, only the last value of each key.
  lemma {:induction false} AssignAllIs(start: Element, pairs: seq<Pair>)
    requires IsBare(start)
    ensures AssignAll(start, pairs) == FromMap(start, MapOf(pairs))
  {
    if pairs == [] {
      assert FromMap(start, MapOf(pairs)).attributes == map[];
    } else {
      var n := |pairs| - 1;
      AssignAllIs(start, pairs[..n]);
      hide Assign, FromMap;
      AssignStep(start, MapOf(pairs[..n]), pairs[n]);
    }
  }

  ghost predicate IsMapOf(m: map<string, string>, pairs: seq<Pair>) {
    && (forall i :: 0 <= i < |pairs| ==> pairs[i].0 in m && m[pairs[i].0] == pairs[i].1)
    && (forall key <- m :: exists i :: 0 <= i < |pairs| && pairs[i].0 == key)
  }

  lemma IsMapOfFront(m: map<string, string>, pairs: seq<Pair>)
    requires pairs != [] && IsMapOf(m, pairs)
    requires forall i, j :: 0 <= i < j < |pairs| ==> pairs[i].0 != pairs[j].0
    ensures var n := |pairs| - 1;
            && IsMapOf(m - {pairs[n].0}, pairs[..n])
            && pairs[n].0 in m && m[pairs[n].0] == pairs[n].1
  {
    var n := |pairs| - 1;
    var front, smaller := pairs[..n], m - {pairs[n].0};
    forall key <- smaller
      ensures exists i :: 0 <= i < |front| && front[i].0 == key
    {
      var i :| 0 <= i < |pairs| && pairs[i].0 == key;
      assert front[i].0 == key;
    }
  }

  lemma {:induction false} MapOfIs(m: map<string, string>, pairs: seq<Pair>)
    requires forall i, j :: 0 <= i < j < |pairs| ==> pairs[i].0 != pairs[j].0
    requires IsMapOf(m, pairs)
    ensures MapOf(pairs) == m
    decreases |pairs|
  {
    if pairs == [] {
      assert m == map[];
    } else {
      var n := |pairs| - 1;
      var smaller := m - {pairs[n].0};
      IsMapOfFront(m, pairs);
      hide IsMapOf;
      MapOfIs(smaller, pairs[..n]);
      assert smaller[pairs[n].0 := pairs[n].1] == m;
    }
  }

  // Printing a map in any order of its keys and collecting the pairs again gives the map.
  lemma EntriesRebuild(m: map<string, string>, order: seq<string>)
    requires IsOrderOf(order, m.Keys)
    ensures MapOf(EntriesOf(m, order)) == m
  {
    var pairs := EntriesOf(m, order);
    forall key <- m
      ensures exists i :: 0 <= i < |pairs| && pairs[i].0 == key
    {
      assert key in order;
      var i :| 0 <= i < |order| && order[i] == key;
      assert pairs[i].0 == key;
    }
    MapOfIs(m, pairs);
  }

  function EscapedValues(m: map<string, string>): map<string, string> {
    map key | key in m :: EscapeQuotes(m[key])
  }

  lemma {:induction false} KeyNeedsNoEscape(key: string)
    requires forall i :: 0 <= i < |key| ==> IsKeyChar(key[i])
    ensures EscapeQuotes(key) == key
  {
    if key != "" {
      KeyNeedsNoEscape(key[1..]);
    }
  }

  predicate KeysArePlain(m: map<string, string>) {
    forall key <- m :: IsPlainKey(key)
  }

  lemma EscapedIs(e: Element, orders: Orders)
    requires IsOrderOf(orders.sorted, Attributes(e).Keys) && KeysArePlain(Attributes(e))
    ensures Escaped(e, orders) == EscapedValues(Attributes(e))
  {
    hide Attributes, EscapeQuotes;
    var m := Attributes(e);
    var pairs := EscapedPairs(EntriesOf(m, orders.sorted));
    forall i | 0 <= i < |pairs|
      ensures pairs[i] == (orders.sorted[i], EscapeQuotes(m[orders.sorted[i]]))
    {
      KeyNeedsNoEscape(orders.sorted[i]);
    }
    assert pairs == EntriesOf(EscapedValues(m), orders.sorted);
    EntriesRebuild(EscapedValues(m), orders.sorted);
  }

  lemma NumberCharacters(n: Number)
    ensures NumberText(n) != "" && forall i :: 0 <= i < |NumberText(n)| ==> IsKeyChar(NumberText(n)[i])
  {
    if n.Int? {
      var digits := Decimal(if n.value < 0 then -n.value else n.value);
      assert forall i :: 0 <= i < |digits| ==> digits[i] in digits;
      hide Decimal;
    }
  }

  lemma KeyCharsExactly(c: char)
    ensures IsKeyChar('a') && IsKeyChar('z') && IsKeyChar('A') && IsKeyChar('Z') && IsKeyChar('0') && IsKeyChar('9')
    ensures IsKeyChar(c) <==>
            || 96 < c as int < 123 || 64 < c as int < 91 || 47 < c as int < 58
            || c == '-' || c == '_'
  {
  }

  // parseInt beyond what is printed: hexadecimal numbers, signs, spaces in front and other characters behind.
  lemma {:induction false} HexDigitIsRead(value: nat, s: string, any: bool)
    ensures s != "" && IsHex(s[0]) ==> HexPrefix(s, value, any) == HexPrefix(s[1..], 16 * value + HexValue(s[0]), true)
    ensures s == "" || !IsHex(s[0]) ==> HexPrefix(s, value, any) == if any then Int(value) else NaN
  {
  }

  lemma ZeroXIsHex(s: string)
    ensures ParseUnsigned("0x" + s) == ParseUnsigned("0X" + s) == HexPrefix(s, 0, false)
    ensures ParseInt("") == NaN
  {
    assert ("0x" + s)[2..] == s && ("0X" + s)[2..] == s;
  }

  lemma OneHexDigit(c: char, rest: string)
    requires IsHex(c) && (rest == "" || !IsHex(rest[0]))
    ensures HexPrefix([c] + rest, 0, false) == Int(HexValue(c)) && HexPrefix(rest, 0, false) == NaN
  {
    assert ([c] + rest)[1..] == rest;
    HexDigitIsRead(0, [c] + rest, false);
    HexDigitIsRead(HexValue(c), rest, true);
    HexDigitIsRead(0, rest, false);
  }

  lemma NumbersAreRead(c: char, rest: string)
    requires IsHex(c) && (rest == "" || !IsHex(rest[0]))
    ensures ParseInt("0x" + ([c] + rest)) == ParseInt("0X" + ([c] + rest)) == Int(HexValue(c))
    ensures ParseInt("-0x" + ([c] + rest)) == Int(0 - HexValue(c)) && ParseInt(" +0x" + ([c] + rest)) == Int(HexValue(c))
    ensures ParseInt("0x" + rest) == NaN && ParseInt("") == NaN
  {
    hide HexPrefix;
    var s := [c] + rest;
    OneHexDigit(c, rest);
    ZeroXIsHex(s);
    ZeroXIsHex(rest);
    assert ("-0x" + s)[1..] == "0x" + s && ("+0x" + s)[1..] == "0x" + s;
    assert SkipSpace("0x" + s) == "0x" + s && SkipSpace("0X" + s) == "0X" + s && SkipSpace("-0x" + s) == "-0x" + s;
    assert (" +0x" + s)[1..] == "+0x" + s && SkipSpace(" +0x" + s) == "+0x" + s;
    assert SkipSpace("0x" + rest) == "0x" + rest;
    hide ParseUnsigned, SkipSpace;
  }

  lemma NumbersAreDecimal(n: int)
    ensures NumberText(Int(0)) == "0" && NumberText(NaN) == "NaN"
    ensures NumberText(Int(n))[0] == '-' <==> n < 0
    ensures n < 0 ==> NumberText(Int(n)) == "-" + NumberText(Int(-n))
  {
    var digits := Decimal(if n < 0 then -n else n);
    assert digits[0] in digits;
  }

  lemma KeyCharsAreGood(s: string)
    requires s != "" && forall i :: 0 <= i < |s| ==> IsKeyChar(s[i])
    ensures EvenRuns(s) && Survives(s)
  {
    forall i | 0 <= i <= |s|
      ensures Backslashes(s, i) == 0
    {
    }
  }

  lemma NumberTextIsGood(n: Number)
    ensures EvenRuns(NumberText(n)) && Survives(NumberText(n)) && EscapeQuotes(NumberText(n)) == NumberText(n)
    ensures ParseInt(NumberText(n)) == n
  {
    NumberCharacters(n);
    NumberReadsBack(n);
    hide NumberText, ParseInt;
    KeyNeedsNoEscape(NumberText(n));
    KeyCharsAreGood(NumberText(n));
  }

  lemma NumberReadsBack(n: Number)
    ensures ParseInt(NumberText(n)) == n
  {
    if n.Int? {
      var digits := Decimal(if n.value < 0 then -n.value else n.value);
      hide Decimal, ParseUnsigned;
      UnsignedReadsBack(if n.value < 0 then -n.value else n.value);
      if n.value < 0 {
        assert NumberText(n)[1..] == digits;
      } else {
        assert digits[0] in digits;
      }
    }
  }

  lemma {:induction false} AllDigitsPrefix(s: string)
    requires forall i :: 0 <= i < |s| ==> IsDigit(s[i])
    ensures DigitPrefix(s) == |s|
  {
    if s != "" {
      AllDigitsPrefix(s[1..]);
    }
  }

  lemma UnsignedReadsBack(n: nat)
    ensures ParseUnsigned(Decimal(n)) == Int(n)
  {
    var s := Decimal(n);
    forall i | 0 <= i < |s|
      ensures IsDigit(s[i])
    {
      assert s[i] in s;
    }
    AllDigitsPrefix(s);
    DecimalParses(n);
    assert s[..|s|] == s;
  }

  // Plain keys, and values with a given property.
  ghost predicate MapOk(m: map<string, string>, ok: string -> bool) {
    KeysArePlain(m) && forall key <- m :: ok(m[key])
  }

  lemma MapsAdd(a: map<string, string>, b: map<string, string>, ok: string -> bool)
    requires MapOk(a, ok) && MapOk(b, ok)
    ensures MapOk(a + b, ok)
  {
  }

  lemma EntryOk(key: string, value: Option<string>, ok: string -> bool)
    requires IsPlainKey(key) && (value.Some? && value.value != "" ==> ok(value.value))
    ensures MapOk(Entry(key, value), ok)
  {
  }

  lemma SingleOk(key: string, value: string, ok: string -> bool)
    requires IsPlainKey(key) && ok(value)
    ensures MapOk(map[key := value], ok)
  {
  }

  lemma ReservedIsPlain(key: string)
    requires key in RESERVED
    ensures IsPlainKey(key)
  {
  }

  lemma AttributesAreOk(e: Element, ok: string -> bool)
    requires MapOk(e.attributes, ok)
    requires ok(NumberText(OrZero(e.nthChild))) && ok(NumberText(OrZero(e.nthOfType)))
    requires e.text.Some? && e.text.value != "" ==> ok(e.text.value)
    requires e.href.Some? && e.href.value != "" ==> ok(e.href.value)
    requires e.attrId.Some? && e.attrId.value != "" ==> ok(e.attrId.value)
    ensures MapOk(Attributes(e), ok)
  {
    hide NumberText, Entry, IsPlainKey, MapOk;
    var child, ofType := NumberText(OrZero(e.nthChild)), NumberText(OrZero(e.nthOfType));
    forall key <- RESERVED
      ensures IsPlainKey(key)
    {
      ReservedIsPlain(key);
    }
    EntryOk("text", e.text, ok);
    SingleOk("nth-child", child, ok);
    SingleOk("nth-of-type", ofType, ok);
    EntryOk("href", e.href, ok);
    EntryOk("attr_id", e.attrId, ok);
    var text, href, id := Entry("text", e.text), Entry("href", e.href), Entry("attr_id", e.attrId);
    MapsJoin(text, map["nth-child" := child], map["nth-of-type" := ofType], href, id, ok);
    MapsAdd(ReservedAttributes(e), e.attributes, ok);
  }

  lemma MapsJoin(a: map<string, string>, b: map<string, string>, c: map<string, string>,
                 d: map<string, string>, e: map<string, string>, ok: string -> bool)
    requires MapOk(a, ok) && MapOk(b, ok) && MapOk(c, ok) && MapOk(d, ok) && MapOk(e, ok)
    ensures MapOk(a + b + c + d + e, ok)
  {
    hide MapOk;
    MapsAdd(a, b, ok);
    MapsAdd(a + b, c, ok);
    MapsAdd(a + b + c, d, ok);
    MapsAdd(a + b + c + d, e, ok);
  }

  lemma NamesArePlain(e: Element)
    requires GoodNames(e)
    ensures KeysArePlain(e.attributes)
  {
  }

  lemma PrintableIsOk(e: Element)
    requires Printable(e)
    ensures MapOk(Attributes(e), EvenRuns)
  {
    hide NumberText, EvenRuns, Survives;
    NumberTextIsGood(OrZero(e.nthChild));
    NumberTextIsGood(OrZero(e.nthOfType));
    NamesArePlain(e);
    hide GoodNames, Attributes;
    AttributesAreOk(e, EvenRuns);
  }

  lemma SurvivorIsOk(e: Element)
    requires GoodNames(e) && ValuesSurvive(e)
    ensures MapOk(Attributes(e), Survives)
  {
    hide NumberText, EvenRuns, Survives;
    NumberTextIsGood(OrZero(e.nthChild));
    NumberTextIsGood(OrZero(e.nthOfType));
    NamesArePlain(e);
    hide GoodNames, Attributes;
    AttributesAreOk(e, Survives);
  }

  function Truthy(s: Option<string>): Option<string> {
    if s.Some? && s.value != "" then s else None
  }

  lemma ReservedAreApart(e: Element)
    requires GoodNames(e)
    ensures forall key <- e.attributes :: key != "" && key !in RESERVED
  {
  }

  lemma ReservedKeys(e: Element)
    ensures ReservedAttributes(e).Keys <= RESERVED
  {
    hide NumberText;
  }

  lemma EntryIs(key: string, value: Option<string>)
    ensures Entry(key, value).Keys <= {key} && Lookup(Entry(key, value), key) == Truthy(value)
  {
  }

  lemma ReservedLookups(e: Element)
    ensures var m := ReservedAttributes(e);
            && Lookup(m, "text") == Truthy(e.text)
            && Lookup(m, "href") == Truthy(e.href)
            && Lookup(m, "attr_id") == Truthy(e.attrId)
            && Lookup(m, "nth-child") == Some(NumberText(OrZero(e.nthChild)))
            && Lookup(m, "nth-of-type") == Some(NumberText(OrZero(e.nthOfType)))
  {
    hide NumberText, Entry, Truthy;
    EntryIs("text", e.text);
    EntryIs("href", e.href);
    EntryIs("attr_id", e.attrId);
  }

  lemma AttributeLookups(e: Element)
    requires forall key <- e.attributes :: key != "" && key !in RESERVED
    ensures forall key <- RESERVED :: Lookup(Attributes(e), key) == Lookup(ReservedAttributes(e), key)
    ensures (map key | key in Attributes(e) && key !in RESERVED && key != "" :: Attributes(e)[key]) == e.attributes
  {
    hide ReservedAttributes;
    ReservedKeys(e);
  }

  lemma AttributesReadBack(e: Element, start: Element, index: nat)
    requires GoodNames(e) && IsBare(start)
    ensures var r := FromMap(start, EscapedValues(Attributes(e)));
            && r.text == ReadBack(e, index).text && r.href == ReadBack(e, index).href
            && r.attrId == ReadBack(e, index).attrId
            && r.nthChild == ReadBack(e, index).nthChild && r.nthOfType == ReadBack(e, index).nthOfType
            && r.attributes == ReadBack(e, index).attributes
  {
    hide NumberText, EvenRuns, Survives, EscapeQuotes, ParseInt, Head, NonEmpty, Sorted, WithoutQuotesEach, Attributes;
    NumberTextIsGood(OrZero(e.nthChild));
    NumberTextIsGood(OrZero(e.nthOfType));
    ReservedAreApart(e);
    hide GoodNames;
    ReservedLookups(e);
    AttributeLookups(e);
    hide ReservedAttributes;
    assert FromMap(start, EscapedValues(Attributes(e))).attributes == ReadBack(e, index).attributes;
  }

  // ----- the round trip -----

  lemma EntriesAreGood(m: map<string, string>, order: seq<string>)
    requires MapOk(m, EvenRuns) && IsOrderOf(order, m.Keys)
    ensures GoodPairs(EntriesOf(EscapedValues(m), order))
  {
    hide EscapeQuotes, EvenRuns, IsPlainKey;
    forall i | 0 <= i < |order|
      ensures GoodPair((order[i], EscapeQuotes(m[order[i]])))
    {
      assert EvenRuns(m[order[i]]);
    }
  }

  lemma EntriesAreFound(m: map<string, string>, order: seq<string>)
    requires MapOk(m, Survives) && IsOrderOf(order, m.Keys)
    ensures FoundPairs(EntriesOf(EscapedValues(m), order))
  {
    hide EscapeQuotes, IsPlainKey;
    forall i | 0 <= i < |order|
      ensures FoundPair((order[i], EscapeQuotes(m[order[i]])))
    {
      assert Survives(m[order[i]]);
    }
  }

  lemma SomeAttribute(e: Element, order: seq<string>)
    requires IsOrderOf(order, Attributes(e).Keys)
    ensures order != []
  {
    assert "nth-child" in Attributes(e).Keys;
  }

  lemma NamesKeepOrder(e: Element, orders: Orders)
    requires GoodNames(e) && OrdersFit(e, orders)
    ensures Escaped(e, orders) == EscapedValues(Attributes(e))
    ensures IsOrderOf(orders.printed, Attributes(e).Keys) && orders.printed != []
  {
    hide IsPlainKey;
    NamesArePlain(e);
    hide GoodNames;
    PlainAttributes(e);
    hide Attributes, IsOrderOf;
    EscapedIs(e, orders);
    hide Escaped;
    assert EscapedValues(Attributes(e)).Keys == Attributes(e).Keys;
    SomeAttribute(e, orders.printed);
  }

  lemma PlainAttributes(e: Element)
    requires KeysArePlain(e.attributes)
    ensures KeysArePlain(Attributes(e))
  {
    hide IsPlainKey, NumberText;
    AttributesAreOk(e, _ => true);
  }

  lemma ElementTextIsGood(e: Element, orders: Orders)
    requires Printable(e) && OrdersFit(e, orders)
    ensures GoodText(ElementText(e, orders), Head(e), EntriesOf(Escaped(e, orders), orders.printed))
  {
    hide Head, GoodHead, Attributes, GoodPairs, PairsText, IsOrderOf, GoodNames;
    HeadReadsBack(e, 0);
    PrintableIsOk(e);
    NamesKeepOrder(e, orders);
    hide Escaped, Printable;
    EntriesAreGood(Attributes(e), orders.printed);
  }

  lemma ElementTextIsFound(e: Element, orders: Orders)
    requires GoodNames(e) && ValuesSurvive(e) && OrdersFit(e, orders)
    ensures FoundText(ElementText(e, orders), Head(e), EntriesOf(Escaped(e, orders), orders.printed))
  {
    hide Head, GoodHead, Attributes, FoundPairs, PairsText, IsOrderOf, GoodNames;
    HeadReadsBack(e, 0);
    SurvivorIsOk(e);
    NamesKeepOrder(e, orders);
    hide Escaped, ValuesSurvive;
    EntriesAreFound(Attributes(e), orders.printed);
  }

  lemma ElementReadsBack(e: Element, orders: Orders, index: nat)
    requires GoodNames(e) && ValuesSurvive(e) && OrdersFit(e, orders)
    ensures ParseElement(ElementText(e, orders), index) == Some(ReadBack(e, index))
  {
    ElementTextIsFound(e, orders);
    HeadReadsBack(e, index);
    NamesKeepOrder(e, orders);
    hide FoundText, ParseElement, Head, WithHead, ReadBack;
    var start := WithHead(Head(e), index);
    var m := EscapedValues(Attributes(e));
    var pairs := EntriesOf(m, orders.printed);
    TextParses(ElementText(e, orders), Head(e), pairs, index);
    AssignAllIs(start, pairs);
    EntriesRebuild(m, orders.printed);
    AttributesReadBack(e, start, index);
    hide GoodNames, ValuesSurvive;
    ReadBackOrder(e, index);
  }

  // ----- nothing else can be read -----

  lemma {:induction false} ValueEndsWell(s: string)
    requires ValueLength(s).Some?
    ensures s[ValueLength(s).value - 1] != '\\'
  {
    if !(s[0] != '\\' && s[1] == '"') {
      ValueEndsWell(s[1..]);
    }
  }

  predicate NoBreak(s: string) {
    forall i :: 0 <= i < |s| ==> !IsLineTerminator(s[i])
  }

  lemma {:induction false} FirstValueSurvives(key: string, s: string)
    requires NoBreak(s) && FirstAttribute(key, s).Some?
    ensures var r := FirstAttribute(key, s).value; Survives(r.0.1) && NoBreak(r.1)
    decreases |s|
  {
    var value := if |s| >= 2 && s[..2] == "=\"" then ValueLength(s[2..]) else None;
    if value.Some? {
      ValueEndsWell(s[2..]);
    } else {
      FirstValueSurvives(key + [s[0]], s[1..]);
    }
  }

  lemma {:induction false} AllValuesSurvive(s: string)
    requires NoBreak(s)
    ensures forall i :: 0 <= i < |AllAttributes(s)| ==> Survives(AllAttributes(s)[i].1)
    decreases |s|
  {
    hide FirstAttribute, Survives;
    var first := FirstAttribute("", s);
    if first.Some? {
      FirstValueSurvives("", s);
      AllValuesSurvive(first.value.1);
    }
  }

  lemma {:induction false} LineHasNoBreak(s: string)
    ensures NoBreak(ToLineEnd(s))
  {
    if s != "" {
      LineHasNoBreak(s[1..]);
    }
  }

  lemma {:induction false} SplitHasNoBreak(head: string, s: string)
    ensures var attributes := SplitClassAttributes(head, s).1; attributes.Some? ==> NoBreak(attributes.value)
    decreases |s|
  {
    hide AttributesStart, NoBreak;
    if s != "" {
      LineHasNoBreak(s[1..]);
      SplitHasNoBreak("", s[1..]);
      SplitHasNoBreak(head + [s[0]], s[1..]);
    }
  }

  lemma {:induction false} MapValuesSurvive(pairs: seq<Pair>)
    requires forall i :: 0 <= i < |pairs| ==> Survives(pairs[i].1)
    ensures forall key <- MapOf(pairs) :: Survives(MapOf(pairs)[key])
  {
    hide Survives;
    if pairs != [] {
      MapValuesSurvive(pairs[..|pairs| - 1]);
    }
  }

  ghost predicate HoldsSurvivors(e: Element) {
    && (e.text.Some? ==> Survives(e.text.value))
    && (e.href.Some? ==> Survives(e.href.value))
    && (e.attrId.Some? ==> Survives(e.attrId.value))
    && forall key <- e.attributes :: Survives(e.attributes[key])
  }

  lemma FromMapSurvives(start: Element, m: map<string, string>)
    requires forall key <- m :: Survives(m[key])
    ensures HoldsSurvivors(FromMap(start, m))
  {
    hide Survives, ParseInt;
  }

  // Whatever the text, the parser never gives a value that is empty, ends with a backslash or holds a break.
  lemma ParsedValuesSurvive(text: string, index: nat)
    ensures var r := ParseElement(text, index); r.Some? ==> HoldsSurvivors(r.value)
  {
    hide SplitClassAttributes, AllAttributes, AssignAll, SplitDots, Survives, HoldsSurvivors, FromMap, NoBreak;
    var (head, attributes) := SplitClassAttributes("", text);
    if attributes.Some? {
      SplitHasNoBreak("", text);
      var pairs := AllAttributes(attributes.value);
      AllValuesSurvive(attributes.value);
      MapValuesSurvive(pairs);
      AssignAllIs(WithHead(head, index), pairs);
      FromMapSurvives(WithHead(head, index), MapOf(pairs));
    }
  }

  lemma {:induction false} EscapedBreaks(v: string)
    ensures NoBreak(EscapeQuotes(v)) <==> NoBreak(v)
  {
    if v != "" {
      EscapeStep(v);
      EscapedBreaks(v[1..]);
      hide EscapeQuotes;
      NoBreakJoin([v[0]], v[1..]);
      NoBreakJoin(if v[0] == '"' then "\\\"" else [v[0]], EscapeQuotes(v[1..]));
      assert v == [v[0]] + v[1..];
    }
  }

  lemma NoBreakJoin(a: string, b: string)
    ensures NoBreak(a + b) <==> NoBreak(a) && NoBreak(b)
  {
    if NoBreak(a + b) {
      assert forall i :: 0 <= i < |a| ==> a[i] == (a + b)[i];
      assert forall i :: 0 <= i < |b| ==> b[i] == (a + b)[|a| + i];
    }
  }

  lemma {:induction false} EscapedEnd(v: string)
    requires v != ""
    ensures EscapeQuotes(v) != "" && EscapeQuotes(v)[|EscapeQuotes(v)| - 1] == v[|v| - 1]
  {
    EscapeStep(v);
    if |v| > 1 {
      EscapedEnd(v[1..]);
    }
  }

  lemma EscapedSurvives(v: string)
    requires v != ""
    ensures Survives(EscapeQuotes(v)) <==> Survives(v)
  {
    EscapedEnd(v);
    EscapedBreaks(v);
    hide EscapeQuotes;
  }

  lemma ReadBackSurvives(e: Element, index: nat)
    requires HoldsSurvivors(ReadBack(e, index))
    ensures ValuesSurvive(e)
  {
    hide Survives, EscapeQuotes, Head, NonEmpty, Sorted;
    forall v: string
      ensures v != "" && Survives(EscapeQuotes(v)) ==> Survives(v)
      ensures Survives(EscapeQuotes(v)) ==> v != ""
    {
      if v != "" {
        EscapedSurvives(v);
      } else {
        NothingDoesNotSurvive();
      }
    }
    forall key <- e.attributes
      ensures Survives(e.attributes[key])
    {
      assert ReadBack(e, index).attributes[key] == EscapeQuotes(e.attributes[key]);
    }
  }

  lemma NothingDoesNotSurvive()
    ensures !Survives(EscapeQuotes(""))
  {
  }

  // For an element with good names, the printed text reads back, if and only if no printed value is empty, ends
  // with a backslash or holds a line break.
  lemma ElementReadsBackExactly(e: Element, orders: Orders, index: nat)
    requires GoodNames(e) && OrdersFit(e, orders)
    ensures ParseElement(ElementText(e, orders), index) == Some(ReadBack(e, index)) <==> ValuesSurvive(e)
  {
    hide GoodNames, OrdersFit, ElementText, ParseElement, ReadBack, ValuesSurvive;
    if ValuesSurvive(e) {
      ElementReadsBack(e, orders, index);
    }
    if ParseElement(ElementText(e, orders), index) == Some(ReadBack(e, index)) {
      ParsedValuesSurvive(ElementText(e, orders), index);
      ReadBackSurvives(e, index);
    }
  }

  lemma ReadBackOrder(e: Element, index: nat)
    ensures ReadBack(e, index).order == Some(index)
  {
  }

  function ElementTexts(es: seq<Element>, orders: seq<Orders>): seq<string>
    requires AllFit(es, orders)
  {
    seq(|es|, i requires 0 <= i < |es| => ElementText(es[i], orders[i]))
  }

  lemma TextsCons(es: seq<Element>, orders: seq<Orders>)
    requires AllFit(es, orders) && es != []
    ensures ElementTexts(es, orders) == [ElementText(es[0], orders[0])] + ElementTexts(es[1..], orders[1..])
  {
    hide ElementText, OrdersFit;
  }

  lemma {:induction false} ChainTokens(es: seq<Element>, orders: seq<Orders>)
    requires AllFit(es, orders) && forall i :: 0 <= i < |es| ==> Printable(es[i])
    ensures Tokens(ChainText(es, orders)) == ElementTexts(es, orders)
  {
    hide TokenLength, ElementText, Printable, OrdersFit, Head, GoodText, ElementTexts;
    if es == [] {
      NoTexts(orders);
    } else {
      TextsCons(es, orders);
      var text := ElementText(es[0], orders[0]);
      var pairs := PairsOf(es[0], orders[0]);
      if |es| == 1 {
        TextIsOneToken(text, Head(es[0]), pairs, "");
        assert es[1..] == [];
        NoTexts(orders[1..]);
        assert text + "" == text && text[..|text|] == text && text[|text|..] == "";
      } else {
        var rest := ChainText(es[1..], orders[1..]);
        TextIsOneToken(text, Head(es[0]), pairs, ";" + rest);
        var chain := text + (";" + rest);
        assert chain[..|text|] == text && chain[|text|..] == ";" + rest && (";" + rest)[1..] == rest;
        assert TokenLength(";" + rest) == 0 by { SemicolonEnds(rest); }
        ChainTokens(es[1..], orders[1..]);
      }
    }
  }

  lemma NoTexts(orders: seq<Orders>)
    requires AllFit([], orders)
    ensures ElementTexts([], orders) == []
  {
  }

  lemma SemicolonEnds(rest: string)
    ensures TokenLength(";" + rest) == 0
  {
  }

  lemma PairsOf(e: Element, orders: Orders) returns (pairs: seq<Pair>)
    requires Printable(e) && OrdersFit(e, orders)
    ensures GoodText(ElementText(e, orders), Head(e), pairs)
  {
    ElementTextIsGood(e, orders);
    pairs := EntriesOf(Escaped(e, orders), orders.printed);
  }

  function ReadBackAll(es: seq<Element>): seq<Element> {
    seq(|es|, i requires 0 <= i < |es| => ReadBack(es[i], i))
  }

  lemma NothingReadsBack()
    ensures ReadBackAll([]) == []
  {
  }

  lemma ReadBackSnoc(es: seq<Element>)
    requires es != []
    ensures ReadBackAll(es) == ReadBackAll(es[..|es| - 1]) + [ReadBack(es[|es| - 1], |es| - 1)]
  {
    hide ReadBack;
  }

  lemma {:induction false} TokensReadBackExactly(es: seq<Element>, orders: seq<Orders>, tokens: seq<string>)
    requires AllFit(es, orders) && forall i :: 0 <= i < |es| ==> GoodNames(es[i])
    requires |tokens| == |es| && forall i :: 0 <= i < |es| ==> tokens[i] == ElementText(es[i], orders[i])
    ensures ParseTokens(tokens) == Some(ReadBackAll(es)) <==> forall i :: 0 <= i < |es| ==> ValuesSurvive(es[i])
  {
    hide ElementText, GoodNames, ValuesSurvive, OrdersFit, ReadBackAll, ReadBack, ParseElement;
    if es != [] {
      var n := |es| - 1;
      TokensReadBackExactly(es[..n], orders[..n], tokens[..n]);
      ElementReadsBackExactly(es[n], orders[n], n);
      ReadBackSnoc(es);
      assert |ReadBackAll(es[..n])| == n by { ReadBackLength(es[..n]); }
      if ParseTokens(tokens) == Some(ReadBackAll(es)) {
        var before := ParseTokens(tokens[..n]);
        assert ReadBackAll(es)[..n] == ReadBackAll(es[..n]);
        assert before == Some(ReadBackAll(es[..n])) by {
          ParsedLength(tokens[..n]);
          var r := ParseElement(tokens[n], n);
          assert before.Some? && r.Some? && before.value + [r.value] == ReadBackAll(es[..n]) + [ReadBack(es[n], n)];
          assert (before.value + [r.value])[..n] == before.value;
          assert (ReadBackAll(es[..n]) + [ReadBack(es[n], n)])[..n] == ReadBackAll(es[..n]);
        }
        assert ReadBackAll(es)[n] == ReadBack(es[n], n);
      }
    } else {
      NothingReadsBack();
    }
  }

  lemma ReadBackLength(es: seq<Element>)
    ensures |ReadBackAll(es)| == |es|
  {
  }

  lemma {:induction false} ParsedLength(tokens: seq<string>)
    ensures ParseTokens(tokens).Some? ==> |ParseTokens(tokens).value| == |tokens|
  {
    hide ParseElement;
    if tokens != [] {
      ParsedLength(tokens[..|tokens| - 1]);
    }
  }

  // A chain whose values have even runs of backslashes splits as it should, and it reads back, in whatever order the
  // attributes were printed, if and only if no printed value is empty, ends with a backslash or holds a line break.
  lemma ChainReadsBackExactly(es: seq<Element>, orders: seq<Orders>)
    requires AllFit(es, orders) && forall i :: 0 <= i < |es| ==> Printable(es[i])
    ensures ParseChain(ChainText(es, orders)) == Some(ReadBackAll(es))
            <==> forall i :: 0 <= i < |es| ==> ValuesSurvive(es[i])
  {
    ChainTokens(es, orders);
    hide ElementText, GoodNames, ValuesSurvive, OrdersFit, ReadBackAll, Tokens, ParseTokens, ChainText;
    TokensReadBackExactly(es, orders, ElementTexts(es, orders));
  }

  // ----- the round trip, said of the elements alone -----

  lemma {:induction false} NothingToDelete(s: string)
    requires '"' !in s
    ensures WithoutQuotes(s) == s && EscapeQuotes(s) == s
  {
    if s != "" {
      assert s[0] in s && forall c <- s[1..] :: c in s;
      NothingToDelete(s[1..]);
      assert [s[0]] + s[1..] == s;
    }
  }

  // r is s without its quotes: its characters stand at these places of s, in order, and nothing but quotes is left out.
  ghost predicate StandsAt(s: string, r: string, at: seq<nat>) {
    && |at| == |r|
    && (forall i, j :: 0 <= i < j < |at| ==> at[i] < at[j])
    && (forall i :: 0 <= i < |at| ==> at[i] < |s| && s[at[i]] == r[i])
    && (forall i :: 0 <= i < |s| ==> (i in at <==> s[i] != '"'))
  }

  function Later(at: seq<nat>): seq<nat> {
    seq(|at|, i requires 0 <= i < |at| => at[i] + 1)
  }

  lemma LaterHas(at: seq<nat>, i: nat)
    ensures i + 1 in Later(at) <==> i in at
    ensures 0 !in Later(at)
  {
    if k :| 0 <= k < |at| && at[k] == i {
      assert Later(at)[k] == i + 1;
    }
    if k :| 0 <= k < |Later(at)| && Later(at)[k] == i + 1 {
      assert at[k] == i;
    }
  }

  // One more character in front, which is a quote or not.
  lemma StandsLater(s: string, r: string, at: seq<nat>)
    requires s != "" && StandsAt(s[1..], r, at)
    ensures s[0] == '"' ==> StandsAt(s, r, Later(at))
    ensures s[0] != '"' ==> StandsAt(s, [s[0]] + r, [0] + Later(at))
  {
    var later := Later(at);
    forall i | 0 <= i < |s|
      ensures i > 0 ==> (i in later <==> s[i] != '"')
      ensures 0 !in later
    {
      if i > 0 {
        LaterHas(at, i - 1);
        assert s[1..][i - 1] == s[i];
      } else {
        LaterHas(at, 0);
      }
    }
    forall i | 0 <= i < |later|
      ensures later[i] < |s| && s[later[i]] == r[i]
    {
      assert s[1..][at[i]] == s[later[i]];
    }
    hide Later;
    assert s[0] == '"' ==> StandsAt(s, r, later);
    if s[0] != '"' {
      FrontStands(s, r, later);
    }
  }

  lemma FrontStands(s: string, r: string, later: seq<nat>)
    requires s != "" && s[0] != '"' && |later| == |r|
    requires forall i, j :: 0 <= i < j < |later| ==> later[i] < later[j]
    requires forall i :: 0 <= i < |later| ==> 0 < later[i] < |s| && s[later[i]] == r[i]
    requires forall i :: 0 < i < |s| ==> (i in later <==> s[i] != '"')
    ensures StandsAt(s, [s[0]] + r, [0] + later)
  {
    var at := [0] + later;
    forall i | 0 <= i < |s|
      ensures i in at <==> s[i] != '"'
    {
      assert i in at <==> i == 0 || i in later;
    }
  }

  lemma {:induction false} QuotesAreDeleted(s: string) returns (at: seq<nat>)
    ensures StandsAt(s, WithoutQuotes(s), at)
  {
    if s == "" {
      at := [];
    } else {
      var rest := QuotesAreDeleted(s[1..]);
      StandsLater(s, WithoutQuotes(s[1..]), rest);
      hide StandsAt;
      at := if s[0] == '"' then Later(rest) else [0] + Later(rest);
      assert "" + WithoutQuotes(s[1..]) == WithoutQuotes(s[1..]);
    }
  }

  // Takes the backslash before each quote away.
  function Unescaped(s: string): string {
    if s == "" then ""
    else if |s| > 1 && s[0] == '\\' && s[1] == '"' then "\"" + Unescaped(s[2..])
    else [s[0]] + Unescaped(s[1..])
  }

  lemma {:induction false} EscapedStandsFor(v: string)
    ensures Unescaped(EscapeQuotes(v)) == v
  {
    if v != "" {
      EscapedStandsFor(v[1..]);
      EscapeStep(v);
      EscapedStart(v[1..], "");
      var rest := EscapeQuotes(v[1..]);
      if v[0] == '"' {
        assert EscapeQuotes(v) == "\\\"" + rest && ("\\\"" + rest)[2..] == rest;
      } else {
        assert EscapeQuotes(v)[1..] == rest;
      }
      assert [v[0]] + v[1..] == v;
    }
  }

  lemma {:induction false} NonEmptyKeeps(parts: seq<string>)
    ensures forall p :: multiset(NonEmpty(parts))[p] == if p == "" then 0 else multiset(parts)[p]
    ensures "" !in parts ==> NonEmpty(parts) == parts
  {
    if parts != [] {
      NonEmptyKeeps(parts[1..]);
      assert parts == [parts[0]] + parts[1..];
    }
  }

  predicate NoQuotes(s: Option<string>) {
    s.Some? ==> '"' !in s.value
  }

  // No value and no class holds a quote, and no class is empty.
  predicate Quoteless(e: Element) {
    && NoQuotes(e.text) && NoQuotes(e.href) && NoQuotes(e.attrId)
    && (forall key <- e.attributes :: '"' !in e.attributes[key])
    && (e.attrClass.Some? ==> forall c <- e.attrClass.value :: '"' !in c && c != "")
  }

  predicate HasClasses(e: Element) {
    e.attrClass.Some? && e.attrClass.value != []
  }

  // What is read is what was printed, except that classes are in order, that empty values are missing, and that
  // missing numbers are 0.
  ghost predicate ReadsAs(e: Element, r: Element, index: nat) {
    && r.text == (if e.text == Some("") then None else e.text)
    && r.href == (if e.href == Some("") then None else e.href)
    && r.attrId == (if e.attrId == Some("") then None else e.attrId)
    && r.nthChild == Some(if e.nthChild.Some? then e.nthChild.value else Int(0))
    && r.nthOfType == Some(if e.nthOfType.Some? then e.nthOfType.value else Int(0))
    && r.attributes == e.attributes && r.order == Some(index)
    && (HasClasses(e) ==>
          && r.tagName == Some(if e.tagName.Some? then e.tagName.value else "")
          && r.attrClass.Some? && multiset(r.attrClass.value) == multiset(e.attrClass.value)
          && InOrder(r.attrClass.value))
    && (!HasClasses(e) ==> r.tagName == (if e.tagName == Some("") then None else e.tagName) && r.attrClass == None)
  }

  lemma QuotelessEscapes(s: Option<string>)
    requires NoQuotes(s)
    ensures EscapedOption(s) == if s == Some("") then None else s
  {
    if s.Some? {
      NothingToDelete(s.value);
    }
  }

  lemma QuotelessAttributes(m: map<string, string>)
    requires forall key <- m :: '"' !in m[key]
    ensures (map key | key in m :: EscapeQuotes(m[key])) == m
  {
    forall key <- m
      ensures EscapeQuotes(m[key]) == m[key]
    {
      NothingToDelete(m[key]);
    }
  }

  lemma QuotelessClasses(classes: seq<string>)
    requires forall c <- classes :: '"' !in c && c != ""
    ensures NonEmpty(WithoutQuotesEach(Sorted(classes))) == Sorted(classes)
  {
    SortedIsPermutation(classes);
    var sorted := Sorted(classes);
    hide Sorted;
    forall i | 0 <= i < |sorted|
      ensures WithoutQuotes(sorted[i]) == sorted[i] && sorted[i] != ""
    {
      assert sorted[i] in multiset(classes);
      NothingToDelete(sorted[i]);
    }
    assert WithoutQuotesEach(sorted) == sorted;
    NonEmptyKeeps(sorted);
  }

  lemma HeadIsEmptyExactly(e: Element)
    ensures Head(e) == "" <==> !HasClasses(e) && (e.tagName.Some? ==> e.tagName.value == "")
  {
    if HasClasses(e) {
      SortedIsPermutation(e.attrClass.value);
      var sorted := Sorted(e.attrClass.value);
      assert |multiset(sorted)| == |sorted| && |multiset(e.attrClass.value)| == |e.attrClass.value|;
      assert ClassText(sorted) != "";
    }
  }

  lemma QuotelessReadBack(e: Element, index: nat)
    requires Quoteless(e)
    ensures ReadsAs(e, ReadBack(e, index), index)
  {
    hide Head, Sorted, EscapeQuotes, EscapedOption, WithoutQuotesEach, NonEmpty, InOrder;
    QuotelessEscapes(e.text);
    QuotelessEscapes(e.href);
    QuotelessEscapes(e.attrId);
    QuotelessAttributes(e.attributes);
    HeadIsEmptyExactly(e);
    if HasClasses(e) {
      QuotelessClasses(e.attrClass.value);
      SortedIsPermutation(e.attrClass.value);
      SortedIsInOrder(e.attrClass.value);
    }
  }

  // For elements without quotes: parsing what was printed gives the elements again.
  lemma QuotelessChainReadsBack(es: seq<Element>, orders: seq<Orders>)
    requires AllFit(es, orders)
    requires forall i :: 0 <= i < |es| ==> Printable(es[i]) && ValuesSurvive(es[i]) && Quoteless(es[i])
    ensures var r := ParseChain(ChainText(es, orders));
            r.Some? && |r.value| == |es| && forall i :: 0 <= i < |es| ==> ReadsAs(es[i], r.value[i], i)
  {
    hide Printable, ValuesSurvive, Quoteless, ReadsAs, ReadBack, ParseChain, ChainText, OrdersFit;
    ChainReadsBackExactly(es, orders);
    forall i | 0 <= i < |es|
      ensures ReadsAs(es[i], ReadBack(es[i], i), i)
    {
      QuotelessReadBack(es[i], i);
    }
  }

  // With quotes: every value read stands for the one printed, and every class read is one of the classes in order
  // without its quotes, empty ones left out.
  ghost predicate StandsFor(e: Element, r: Element) {
    && (e.text.Some? && e.text.value != "" ==> r.text.Some? && Unescaped(r.text.value) == e.text.value)
    && (e.href.Some? && e.href.value != "" ==> r.href.Some? && Unescaped(r.href.value) == e.href.value)
    && (e.attrId.Some? && e.attrId.value != "" ==> r.attrId.Some? && Unescaped(r.attrId.value) == e.attrId.value)
    && r.attributes.Keys == e.attributes.Keys
    && (forall key <- e.attributes :: Unescaped(r.attributes[key]) == e.attributes[key])
    && (HasClasses(e) ==> r.attrClass.Some? && ClassesStandFor(e.attrClass.value, r.attrClass.value))
  }

  ghost predicate CleanedClass(c: string, r: string) {
    exists at :: StandsAt(c, r, at)
  }

  ghost predicate Cleans(classes: seq<string>, sorted: seq<string>, cleaned: seq<string>, read: seq<string>) {
    && multiset(sorted) == multiset(classes) && InOrder(sorted) && |cleaned| == |sorted|
    && (forall i :: 0 <= i < |sorted| ==> CleanedClass(sorted[i], cleaned[i]))
    && (forall p :: multiset(read)[p] == if p == "" then 0 else multiset(cleaned)[p])
  }

  ghost predicate ClassesStandFor(classes: seq<string>, read: seq<string>) {
    exists sorted: seq<string>, cleaned: seq<string> :: Cleans(classes, sorted, cleaned, read)
  }

  lemma EachIsCleaned(sorted: seq<string>)
    ensures |WithoutQuotesEach(sorted)| == |sorted|
    ensures forall i :: 0 <= i < |sorted| ==> CleanedClass(sorted[i], WithoutQuotesEach(sorted)[i])
  {
    hide WithoutQuotes, StandsAt;
    forall i | 0 <= i < |sorted|
      ensures CleanedClass(sorted[i], WithoutQuotesEach(sorted)[i])
    {
      var at := QuotesAreDeleted(sorted[i]);
    }
  }

  lemma CleanedClasses(classes: seq<string>)
    ensures ClassesStandFor(classes, NonEmpty(WithoutQuotesEach(Sorted(classes))))
  {
    hide Sorted, WithoutQuotesEach, CleanedClass, InOrder, NonEmpty;
    SortedIsPermutation(classes);
    SortedIsInOrder(classes);
    EachIsCleaned(Sorted(classes));
    var cleaned := WithoutQuotesEach(Sorted(classes));
    NonEmptyKeeps(cleaned);
    assert Cleans(classes, Sorted(classes), cleaned, NonEmpty(cleaned));
  }

  lemma OptionStandsFor(s: Option<string>)
    ensures s.Some? && s.value != "" ==> EscapedOption(s).Some? && Unescaped(EscapedOption(s).value) == s.value
  {
    if s.Some? {
      EscapedStandsFor(s.value);
    }
  }

  lemma AttributesStandFor(m: map<string, string>, r: map<string, string>)
    requires r == map key | key in m :: EscapeQuotes(m[key])
    ensures r.Keys == m.Keys && forall key <- m :: Unescaped(r[key]) == m[key]
  {
    forall key <- m
      ensures Unescaped(r[key]) == m[key]
    {
      EscapedStandsFor(m[key]);
    }
  }

  lemma ReadBackStandsFor(e: Element, index: nat)
    ensures StandsFor(e, ReadBack(e, index))
  {
    hide Head, Sorted, EscapeQuotes, EscapedOption, Unescaped, WithoutQuotesEach, NonEmpty, ClassesStandFor;
    OptionStandsFor(e.text);
    OptionStandsFor(e.href);
    OptionStandsFor(e.attrId);
    AttributesStandFor(e.attributes, ReadBack(e, index).attributes);
    if HasClasses(e) {
      CleanedClasses(e.attrClass.value);
    }
  }

  lemma ChainStandsFor(es: seq<Element>, orders: seq<Orders>)
    requires AllFit(es, orders) && forall i :: 0 <= i < |es| ==> Printable(es[i]) && ValuesSurvive(es[i])
    ensures var r := ParseChain(ChainText(es, orders));
            r.Some? && |r.value| == |es| && forall i :: 0 <= i < |es| ==> StandsFor(es[i], r.value[i])
  {
    hide Printable, ValuesSurvive, StandsFor, ReadBack, ParseChain, ChainText, OrdersFit;
    ChainReadsBackExactly(es, orders);
    forall i | 0 <= i < |es|
      ensures StandsFor(es[i], ReadBack(es[i], i))
    {
      ReadBackStandsFor(es[i], i);
    }
  }

  // ----- a chain that is cut -----

  const ODD := "\\\" z"

  // An odd run before a quote: the quoted part of this value ends after three characters, before the space.
  lemma OddIsCut(rest: string)
    ensures EscapeQuotes(ODD) == "\\\\\" z"
    ensures TokenLength("\"" + (EscapeQuotes(ODD) + ("\"" + rest))) == 4
  {
    EscapeStep(ODD);
    EscapeStep(ODD[1..]);
    EscapeStep(ODD[1..][1..]);
    EscapeStep(ODD[1..][1..][1..]);
    assert EscapeQuotes("") == "";
    assert EscapeQuotes(ODD) == "\\\\\" z";
    var tail := " z" + ("\"" + rest);
    var s := EscapeQuotes(ODD) + ("\"" + rest);
    assert s == ['\\', '\\'] + ("\"" + tail);
    QuotedEnds(tail);
    hide Quoted;
    QuotedPair('\\', "\"" + tail);
    assert ("\"" + s)[1..] == s && ("\"" + s)[4..] == tail;
    assert TokenLength(tail) == 0;
  }

  lemma {:induction false} PairsTextSplits(pairs: seq<Pair>, k: nat)
    requires k < |pairs|
    ensures PairsText(pairs) == PairsText(pairs[..k]) + (PairText(pairs[k]) + PairsText(pairs[k + 1..]))
  {
    hide PairText;
    if k == 0 {
      assert pairs[..0] == [];
      var all := PairText(pairs[0]) + PairsText(pairs[1..]);
      assert PairsText(pairs[..0]) + all == all;
    } else {
      PairsTextSplits(pairs[1..], k - 1);
      assert pairs[1..][..k - 1] == pairs[..k][1..] && pairs[1..][k..] == pairs[k + 1..];
    }
  }

  lemma EntryHasKey(key: string, value: Option<string>)
    ensures Entry(key, value).Keys <= {key} && Entry(key, None) == map[]
  {
  }

  lemma SameOtherwise(e: Element, key: string)
    requires key in Attributes(e) && key != "text"
    ensures key in Attributes(e.(text := None)) && Attributes(e.(text := None))[key] == Attributes(e)[key]
  {
    EntryHasKey("text", e.text);
    hide NumberText, Entry;
    SumWithout(Entry("text", e.text), map["nth-child" := NumberText(OrZero(e.nthChild))],
               map["nth-of-type" := NumberText(OrZero(e.nthOfType))], Entry("href", e.href), Entry("attr_id", e.attrId),
               e.attributes, key);
  }

  lemma SumWithout(a: map<string, string>, b: map<string, string>, c: map<string, string>, d: map<string, string>,
                   f: map<string, string>, g: map<string, string>, key: string)
    requires key !in a && key in a + b + c + d + f + g
    ensures key in map[] + b + c + d + f + g
    ensures (map[] + b + c + d + f + g)[key] == (a + b + c + d + f + g)[key]
  {
  }

  // The pairs of an element before its text are printable.
  lemma OtherPairsAreGood(e: Element, order: seq<string>, k: nat)
    requires Printable(e.(text := None)) && IsOrderOf(order, Attributes(e).Keys) && k < |order| && order[k] == "text"
    ensures GoodPairs(EntriesOf(EscapedValues(Attributes(e)), order)[..k])
  {
    hide Attributes, EscapeQuotes, EvenRuns, IsPlainKey, Printable;
    PrintableIsOk(e.(text := None));
    forall i | 0 <= i < k
      ensures GoodPair((order[i], EscapeQuotes(Attributes(e)[order[i]])))
    {
      SameOtherwise(e, order[i]);
      assert EvenRuns(Attributes(e)[order[i]]);
    }
  }

  lemma TextIsPrinted(e: Element)
    requires GoodNames(e) && e.text == Some(ODD)
    ensures "text" in Attributes(e) && Attributes(e)["text"] == ODD
  {
    ReservedAreApart(e);
    hide Attributes, ReservedAttributes, GoodNames;
    AttributeLookups(e);
    ReservedLookups(e);
    assert Lookup(Attributes(e), "text") == Some(ODD);
  }

  lemma OddPairs(e: Element, orders: Orders) returns (pairs: seq<Pair>, k: nat)
    requires Printable(e.(text := None)) && e.text == Some(ODD) && OrdersFit(e, orders)
    ensures ElementText(e, orders) == Head(e) + (":" + PairsText(pairs)) && GoodHead(Head(e))
    ensures k < |pairs| && pairs[k] == ("text", EscapeQuotes(ODD)) && GoodPairs(pairs[..k])
  {
    assert GoodNames(e);
    hide Attributes, Printable, GoodNames, GoodHead, Head, GoodPairs, PairsText, EscapeQuotes;
    TextIsPrinted(e);
    HeadReadsBack(e, 0);
    NamesKeepOrder(e, orders);
    hide Escaped;
    assert "text" in orders.printed;
    k :| 0 <= k < |orders.printed| && orders.printed[k] == "text";
    OtherPairsAreGood(e, orders.printed, k);
    pairs := EntriesOf(EscapedValues(Attributes(e)), orders.printed);
  }

  lemma OddElementText(e: Element, orders: Orders) returns (before: string, after: string)
    requires Printable(e.(text := None)) && e.text == Some(ODD) && OrdersFit(e, orders)
    ensures var quoted := "\"" + (EscapeQuotes(ODD) + ("\"" + after));
            && ElementText(e, orders) == before + quoted
            && TokenLength(ElementText(e, orders)) == |before| + TokenLength(quoted)
  {
    hide *;
    var pairs, k := OddPairs(e, orders);
    PairsTextSplits(pairs, k);
    after := PairsText(pairs[k + 1..]);
    var head, front, quoted := Head(e) + ":", PairsText(pairs[..k]), "\"" + (EscapeQuotes(ODD) + ("\"" + after));
    TextPair(EscapeQuotes(ODD), after);
    HeadIsPlain(Head(e));
    PlainToQuoted(head, pairs[..k], "text=", quoted);
    before := head + (front + "text=");
    JoinFour(head, front, "text=", quoted);
    ColonFirst(Head(e), PairsText(pairs));
  }

  lemma TextPair(value: string, after: string)
    ensures PairText(("text", value)) + after == "text=" + ("\"" + (value + ("\"" + after)))
    ensures forall i :: 0 <= i < |"text="| ==> !IsSpace("text="[i]) && "text="[i] != ';' && "text="[i] != '"'
  {
  }

  lemma PlainToQuoted(head: string, pairs: seq<Pair>, key: string, quoted: string)
    requires forall i :: 0 <= i < |head| ==> !IsSpace(head[i]) && head[i] != ';' && head[i] != '"'
    requires forall i :: 0 <= i < |key| ==> !IsSpace(key[i]) && key[i] != ';' && key[i] != '"'
    requires GoodPairs(pairs)
    ensures TokenLength(head + (PairsText(pairs) + (key + quoted)))
         == |head| + |PairsText(pairs)| + |key| + TokenLength(quoted)
  {
    hide *;
    PlainToken(key, quoted);
    PairsToken(pairs, key + quoted);
    PlainToken(head, PairsText(pairs) + (key + quoted));
  }

  lemma JoinFour(a: string, b: string, c: string, d: string)
    ensures (a + (b + c)) + d == a + (b + (c + d))
  {
  }

  lemma ColonFirst(head: string, rest: string)
    ensures head + (":" + rest) == (head + ":") + rest
  {
  }

  // An element with this text and otherwise printable values is cut at the space: its chain has more tokens than
  // elements, and does not read back.
  lemma OddRunCutsChain(e: Element, orders: Orders)
    requires Printable(e.(text := None)) && e.text == Some(ODD) && OrdersFit(e, orders)
    ensures |Tokens(ChainText([e], [orders]))| > 1
    ensures ParseChain(ChainText([e], [orders])) != Some(ReadBackAll([e]))
  {
    hide ElementText, EscapeQuotes, ReadBackAll, ParseTokens, ReadBack, Printable, OrdersFit, Quoted;
    var before, after := OddElementText(e, orders);
    OddIsCut(after);
    var text := ElementText(e, orders);
    assert ChainText([e], [orders]) == text;
    var n := TokenLength(text);
    assert text[n..] == (" z" + ("\"" + after));
    SpaceThenToken("\"" + after);
    ParsedLength(Tokens(text));
    ReadBackLength([e]);
  }

  lemma SpaceThenToken(s: string)
    ensures Tokens(" z" + s) != []
  {
    var t := " z" + s;
    assert t[1..] == "z" + s && TokenLength(t) == 0 && TokenLength("z" + s) > 0;
  }

  ghost predicate StartsAttributes(token: string, i: nat)
    requires i <= |token|
  {
    AttributesStart(token[i..])
  }

  ghost predicate HasAttributes(token: string) {
    exists i :: 0 <= i < |token| && StartsAttributes(token, i)
  }

  lemma HasAttributesStep(token: string)
    requires token != ""
    ensures HasAttributes(token) <==> AttributesStart(token) || HasAttributes(token[1..])
  {
    assert token[0..] == token && (StartsAttributes(token, 0) <==> AttributesStart(token));
    if HasAttributes(token) {
      var i :| 0 <= i < |token| && StartsAttributes(token, i);
      assert i > 0 ==> token[1..][i - 1..] == token[i..] && StartsAttributes(token[1..], i - 1);
    }
    if HasAttributes(token[1..]) {
      var i :| 0 <= i < |token[1..]| && StartsAttributes(token[1..], i);
      assert token[1..][i..] == token[i + 1..] && StartsAttributes(token, i + 1);
    }
  }

  // The parser throws on an element if and only if nowhere in it a colon, key characters and = follow each
  // other.
  lemma {:induction false} ThrowsExactly(before: string, token: string)
    ensures SplitClassAttributes(before, token).1 == None <==> !HasAttributes(token)
    decreases |token|
  {
    hide AttributesStart, HasAttributes;
    if token != "" {
      ThrowsExactly("", token[1..]);
      ThrowsExactly(before + [token[0]], token[1..]);
      HasAttributesStep(token);
    } else {
      NothingHasNone();
    }
  }

  lemma NothingHasNone()
    ensures !HasAttributes("")
  {
  }
}
