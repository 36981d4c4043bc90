// checkElementsAgainstSelector: does an element chain contain, outermost part first, an element for
// every part of a selector?  Elements are listed innermost first.
module SelectorMatching {
  import opened Wrappers

  datatype Element = Element(
    text: Option<string>, tagName: Option<string>, href: Option<string>, attrId: Option<string>,
    attrClass: Option<seq<string>>, nthChild: Option<int>, nthOfType: Option<int>,
    attributes: Option<map<string, string>>)

  // Requirements are a Partial<Element>; attribute keys come without the attr__ prefix.
  datatype SelectorPart = SelectorPart(directDescendant: bool, requirements: Element)

  // `requirement && element.x !== requirement`: an absent or empty requirement asks for nothing.
  predicate MeetsString(required: Option<string>, actual: Option<string>) {
    required.None? || required.value == "" || actual == required
  }

  predicate MeetsNumber(required: Option<int>, actual: Option<int>) {
    required.None? || required.value == 0 || actual == required
  }

  predicate MeetsClasses(required: Option<seq<string>>, actual: Option<seq<string>>) {
    required.None? || (actual.Some? && actual.value != [] && forall c <- required.value :: c in actual.value)
  }

  predicate MeetsAttributes(required: Option<map<string, string>>, actual: Option<map<string, string>>) {
    required.None? ||
    (actual.Some? && forall k <- required.value ::
                       "attr__" + k in actual.value && actual.value["attr__" + k] == required.value[k])
  }

  // action-matcher.ts:492-531
  predicate Meets(e: Element, r: Element) {
    && MeetsString(r.text, e.text)
    && MeetsString(r.tagName, e.tagName)
    && MeetsString(r.href, e.href)
    && MeetsString(r.attrId, e.attrId)
    && MeetsClasses(r.attrClass, e.attrClass)
    && MeetsNumber(r.nthChild, e.nthChild)
    && MeetsNumber(r.nthOfType, e.nthOfType)
    && MeetsAttributes(r.attributes, e.attributes)
  }

  predicate Matches(elements: seq<Element>, i: int, parts: seq<SelectorPart>, p: int)
    requires 0 <= i < |elements| && 0 <= p < |parts|
  {
    Meets(elements[i], parts[p].requirements)
  }

  // ----- the meaning of a selector: sections 8.1 and 8.2 of W3C Selectors Level 3 -----

  // e[p] is the element chosen for part p.  A direct part sits immediately inside its predecessor, any
  // other part anywhere inside it.  Before the first part stands the unknown parent of the chain.
  ghost predicate Placed(elements: seq<Element>, parts: seq<SelectorPart>, e: seq<nat>, p: nat)
    requires p < |e| <= |parts|
  {
    var outer := if p == 0 then |elements| else e[p - 1];
    && e[p] < outer <= |elements|
    && Matches(elements, e[p], parts, p)
    && (parts[p].directDescendant ==> e[p] == outer - 1)
  }

  ghost predicate Embedding(elements: seq<Element>, parts: seq<SelectorPart>, e: seq<nat>) {
    |e| <= |parts| && forall p: nat :: p < |e| ==> Placed(elements, parts, e, p)
  }

  ghost predicate Selects(elements: seq<Element>, parts: seq<SelectorPart>) {
    exists e: seq<nat> :: |e| == |parts| && Embedding(elements, parts, e)
  }

  ghost predicate NoAdjacentDirects(parts: seq<SelectorPart>) {
    forall p :: 0 <= p < |parts| - 1 ==> !(parts[p].directDescendant && parts[p + 1].directDescendant)
  }

  // ----- the matcher -----

  // TypeError: the loop steps back before part 0 and reads a property of undefined.
  datatype Verdict = True | False | TypeError

  // The largest index below base whose element meets part p, if there is one.
  function Scan(elements: seq<Element>, parts: seq<SelectorPart>, base: nat, p: nat): (r: Option<nat>)
    requires base <= |elements| && p < |parts|
    ensures r.Some? ==> r.value < base && Matches(elements, r.value, parts, p)
    ensures forall i :: (if r.Some? then r.value else -1) < i < base ==> !Matches(elements, i, parts, p)
  {
    if base == 0 then None
    else if Matches(elements, base - 1, parts, p) then Some(base - 1)
    else Scan(elements, parts, base - 1, p)
  }

  // The candidate that one pass of the inner for loop settles on.
  function Candidate(elements: seq<Element>, parts: seq<SelectorPart>, base: nat, p: nat): Option<nat>
    requires 0 < base <= |elements| && p < |parts|
  {
    if !parts[p].directDescendant then Scan(elements, parts, base, p)
    else if Matches(elements, base - 1, parts, p) then Some(base - 1)
    else None
  }

  // The loop from a given state on.  The measure is lexicographic: base index, then part index.
  function Verdicts(elements: seq<Element>, parts: seq<SelectorPart>, base: nat, p: nat): Verdict
    requires base <= |elements| && p <= |parts|
    decreases base, p
  {
    if p == |parts| then True
    else if base == 0 then False
    else
      match Candidate(elements, parts, base, p)
      case Some(i) => Verdicts(elements, parts, i, p + 1)
      case None =>
        if !parts[p].directDescendant then Verdicts(elements, parts, base - 1, p)
        else if p == 0 then TypeError
        else Verdicts(elements, parts, base, p - 1)
  }

  // action-matcher.ts:452-489
  method CheckElementsAgainstSelector(elements: seq<Element>, parts: seq<SelectorPart>) returns (r: Verdict)
    ensures r == Verdicts(elements, parts, |elements|, 0)
  {
    hide Meets;
    var baseElementIndex := |elements|;
    var wasPartMatched := true;
    var partIndex := 0;
    while partIndex < |parts|
      invariant 0 <= baseElementIndex <= |elements| && 0 <= partIndex <= |parts|
      invariant partIndex == |parts| ==> wasPartMatched
      invariant Verdicts(elements, parts, baseElementIndex, partIndex) == Verdicts(elements, parts, |elements|, 0)
      decreases baseElementIndex, partIndex
    {
      if baseElementIndex <= 0 {
        return False;
      }
      var part := parts[partIndex];
      wasPartMatched := false;
      ghost var base := baseElementIndex;
      var depthDiff := 1;
      while !wasPartMatched && baseElementIndex - depthDiff >= 0
        invariant 1 <= depthDiff <= base + 1
        invariant !wasPartMatched ==>
                    && baseElementIndex == base
                    && (if part.directDescendant then depthDiff == 1
                        else Scan(elements, parts, base, partIndex) == Scan(elements, parts, base - depthDiff + 1, partIndex))
        invariant wasPartMatched ==>
                    baseElementIndex < base && Candidate(elements, parts, base, partIndex) == Some(baseElementIndex)
        decreases !wasPartMatched, base - depthDiff
      {
        var currentElementIndex := baseElementIndex - depthDiff;
        if Meets(elements[currentElementIndex], part.requirements) {
          baseElementIndex := currentElementIndex;
          wasPartMatched := true;
        } else if part.directDescendant {
          break;
        } else {
          depthDiff := depthDiff + 1;
        }
      }
      if wasPartMatched {
        partIndex := partIndex + 1;
      } else if part.directDescendant {
        // one part back, with the base where it is
        partIndex := partIndex - 1;
        if partIndex < 0 {
          return TypeError; // the next pass would read parts[-1].requirements
        }
      } else {
        baseElementIndex := baseElementIndex - 1;
      }
    }
    return if wasPartMatched then True else False;
  }

  // ----- completeness -----

  lemma {:induction false} Complete(elements: seq<Element>, parts: seq<SelectorPart>, base: nat, p: nat, e: seq<nat>)
    requires base <= |elements| && p <= |parts|
    requires |e| == |parts| && Embedding(elements, parts, e)
    requires p < |parts| ==> e[p] < base
    ensures Verdicts(elements, parts, base, p) == True
    decreases base, p
  {
    if p < |parts| {
      assert Placed(elements, parts, e, p);
      assert p + 1 < |parts| ==> Placed(elements, parts, e, p + 1);
      match Candidate(elements, parts, base, p)
      case Some(i) => Complete(elements, parts, i, p + 1, e);
      case None =>
        if p > 0 {
          Complete(elements, parts, base, p - 1, e);
        }
    }
  }

  // Whatever the selector, an embedding is found whenever there is one.
  lemma SelectedIsAccepted(elements: seq<Element>, parts: seq<SelectorPart>)
    requires Selects(elements, parts)
    ensures Verdicts(elements, parts, |elements|, 0) == True
  {
    var e: seq<nat> :| |e| == |parts| && Embedding(elements, parts, e);
    assert parts != [] ==> Placed(elements, parts, e, 0);
    Complete(elements, parts, |elements|, 0, e);
  }

  // ----- soundness -----

  ghost function Outer(elements: seq<Element>, e: seq<nat>): int {
    if e == [] then |elements| else e[|e| - 1]
  }

  lemma Longer(elements: seq<Element>, parts: seq<SelectorPart>, e: seq<nat>, i: nat)
    requires Embedding(elements, parts, e) && |e| < |parts|
    requires i < Outer(elements, e) && i < |elements| && Matches(elements, i, parts, |e|)
    requires parts[|e|].directDescendant ==> i == Outer(elements, e) - 1
    ensures Embedding(elements, parts, e + [i])
  {
    assert e != [] ==> Placed(elements, parts, e, |e| - 1);
    forall p: nat | p < |e| + 1
      ensures Placed(elements, parts, e + [i], p)
    {
      assert p < |e| ==> Placed(elements, parts, e, p);
    }
  }

  lemma Shorter(elements: seq<Element>, parts: seq<SelectorPart>, e: seq<nat>)
    requires Embedding(elements, parts, e) && e != []
    ensures Embedding(elements, parts, e[..|e| - 1])
    ensures Outer(elements, e) < Outer(elements, e[..|e| - 1])
  {
    var front := e[..|e| - 1];
    assert Placed(elements, parts, e, |e| - 1);
    forall p: nat | p < |front|
      ensures Placed(elements, parts, front, p)
    {
      assert Placed(elements, parts, e, p);
    }
  }

  lemma {:induction false} Sound(elements: seq<Element>, parts: seq<SelectorPart>, base: nat, p: nat, e: seq<nat>)
    requires base <= |elements| && p <= |parts| && NoAdjacentDirects(parts)
    requires |e| == p && Embedding(elements, parts, e) && base <= Outer(elements, e)
    requires p < |parts| && parts[p].directDescendant ==> base == Outer(elements, e)
    ensures Verdicts(elements, parts, base, p) == True ==> Selects(elements, parts)
    decreases base, p
  {
    if p < |parts| && base > 0 {
      match Candidate(elements, parts, base, p)
      case Some(i) =>
        Longer(elements, parts, e, i);
        Sound(elements, parts, i, p + 1, e + [i]);
      case None =>
        if !parts[p].directDescendant {
          Sound(elements, parts, base - 1, p, e);
        } else if p > 0 {
          assert !parts[p - 1].directDescendant;
          Shorter(elements, parts, e);
          Sound(elements, parts, base, p - 1, e[..p - 1]);
        }
    }
  }

  lemma AcceptedIsSelected(elements: seq<Element>, parts: seq<SelectorPart>)
    requires NoAdjacentDirects(parts)
    ensures Verdicts(elements, parts, |elements|, 0) == True <==> Selects(elements, parts)
  {
    Sound(elements, parts, |elements|, 0, []);
    if Selects(elements, parts) {
      SelectedIsAccepted(elements, parts);
    }
  }

  // Only a selector that begins with > can make the loop run off the front of the parts.
  lemma {:induction false} NoTypeError(elements: seq<Element>, parts: seq<SelectorPart>, base: nat, p: nat)
    requires base <= |elements| && p <= |parts|
    requires parts != [] && !parts[0].directDescendant
    ensures Verdicts(elements, parts, base, p) != TypeError
    decreases base, p
  {
    if p < |parts| && base > 0 {
      match Candidate(elements, parts, base, p)
      case Some(i) => NoTypeError(elements, parts, i, p + 1);
      case None =>
        if !parts[p].directDescendant {
          NoTypeError(elements, parts, base - 1, p);
        } else if p > 0 {
          NoTypeError(elements, parts, base, p - 1);
        }
    }
  }

  // ----- the matcher is sound for exactly the selectors without two > in a row -----

  ghost function Flags(parts: seq<SelectorPart>): seq<bool> {
    seq(|parts|, p requires 0 <= p < |parts| => parts[p].directDescendant)
  }

  function ClassName(i: nat): string {
    seq(i + 1, _ => 'a')
  }

  function WithClass(i: nat): Element {
    Element(None, None, None, None, Some([ClassName(i)]), None, None, None)
  }

  lemma ClassesDiffer(i: nat, j: nat)
    ensures Meets(WithClass(i), WithClass(j)) <==> i == j
  {
    assert |ClassName(i)| == i + 1 && |ClassName(j)| == j + 1;
    assert ClassName(i) in [ClassName(i)];
    assert [ClassName(j)][0] in [ClassName(i)] <==> ClassName(j) == ClassName(i);
  }

  // Part p asks for class p.
  function PartsFor(flags: seq<bool>): seq<SelectorPart> {
    seq(|flags|, p requires 0 <= p < |flags| => SelectorPart(flags[p], WithClass(p)))
  }

  // From the outside in: an element for part 0, 1, ..., k, then one more for part k, then the rest.
  function ElementsFor(m: nat, k: nat): seq<Element>
    requires k < m
  {
    seq(m + 1, i requires 0 <= i < m + 1 => WithClass(if m - i <= k then m - i else m - i - 1))
  }

  lemma MatchesFor(flags: seq<bool>, k: nat, i: nat, p: nat)
    requires k < |flags| && i <= |flags| && p < |flags|
    ensures Matches(ElementsFor(|flags|, k), i, PartsFor(flags), p) <==>
              (p == if |flags| - i <= k then |flags| - i else |flags| - i - 1)
  {
    ClassesDiffer(if |flags| - i <= k then |flags| - i else |flags| - i - 1, p);
  }

  // A part whose element is the next one in is taken at once.
  lemma TakesNext(elements: seq<Element>, parts: seq<SelectorPart>, base: nat, p: nat)
    requires 0 < base <= |elements| && p < |parts| && Matches(elements, base - 1, parts, p)
    ensures Verdicts(elements, parts, base, p) == Verdicts(elements, parts, base - 1, p + 1)
  {
  }

  lemma StepsBack(elements: seq<Element>, parts: seq<SelectorPart>, base: nat, p: nat)
    requires 0 < base <= |elements| && 0 < p < |parts|
    requires parts[p].directDescendant && !Matches(elements, base - 1, parts, p)
    ensures Verdicts(elements, parts, base, p) == Verdicts(elements, parts, base, p - 1)
  {
  }

  lemma {:induction false} AcceptedAfterRepeat(flags: seq<bool>, k: nat, p: nat)
    requires k < p <= |flags|
    ensures Verdicts(ElementsFor(|flags|, k), PartsFor(flags), |flags| - p, p) == True
    decreases |flags| - p
  {
    if p < |flags| {
      MatchesFor(flags, k, |flags| - p - 1, p);
      TakesNext(ElementsFor(|flags|, k), PartsFor(flags), |flags| - p, p);
      AcceptedAfterRepeat(flags, k, p + 1);
    }
  }

  lemma {:induction false} AcceptedBeforeRepeat(flags: seq<bool>, k: nat, p: nat)
    requires p <= k + 1 < |flags| && flags[k] && flags[k + 1]
    ensures Verdicts(ElementsFor(|flags|, k), PartsFor(flags), |flags| + 1 - p, p) == True
    decreases k + 1 - p
  {
    hide Verdicts, Matches;
    var elements, parts, base := ElementsFor(|flags|, k), PartsFor(flags), |flags| + 1 - p;
    MatchesFor(flags, k, base - 1, p);
    if p <= k {
      TakesNext(elements, parts, base, p);
      AcceptedBeforeRepeat(flags, k, p + 1);
    } else {
      // part k + 1 fails on the second element for part k, so part k is tried on it instead
      MatchesFor(flags, k, base - 1, k);
      StepsBack(elements, parts, base, p);
      TakesNext(elements, parts, base, k);
      AcceptedAfterRepeat(flags, k, k + 1);
    }
  }

  lemma RepeatIsNotSelected(flags: seq<bool>, k: nat)
    requires k + 1 < |flags| && flags[k] && flags[k + 1]
    ensures !Selects(ElementsFor(|flags|, k), PartsFor(flags))
  {
    var elements, parts := ElementsFor(|flags|, k), PartsFor(flags);
    forall e: seq<nat> | |e| == |parts| && Embedding(elements, parts, e)
      ensures false
    {
      assert Placed(elements, parts, e, k) && Placed(elements, parts, e, k + 1);
      MatchesFor(flags, k, e[k + 1], k + 1);
      MatchesFor(flags, k, e[k], k);
      assert e[k + 1] == |flags| - k - 2 && e[k] == |flags| - k - 1;
      if k > 0 {
        assert Placed(elements, parts, e, k - 1);
        MatchesFor(flags, k, e[k - 1], k - 1);
      }
    }
  }

  lemma FlagsOfParts(flags: seq<bool>)
    ensures Flags(PartsFor(flags)) == flags
  {
  }

  lemma SoundExactlyWithoutAdjacentDirects(flags: seq<bool>)
    ensures (forall elements: seq<Element>, parts: seq<SelectorPart> ::
               Flags(parts) == flags && Verdicts(elements, parts, |elements|, 0) == True ==> Selects(elements, parts))
            <==>
            (forall p :: 0 <= p < |flags| - 1 ==> !(flags[p] && flags[p + 1]))
  {
    hide Verdicts, Selects, PartsFor, Meets;
    if p :| 0 <= p < |flags| - 1 && flags[p] && flags[p + 1] {
      AcceptedBeforeRepeat(flags, p, 0);
      RepeatIsNotSelected(flags, p);
      FlagsOfParts(flags);
    } else {
      forall elements: seq<Element>, parts: seq<SelectorPart> |
        Flags(parts) == flags && Verdicts(elements, parts, |elements|, 0) == True
        ensures Selects(elements, parts)
      {
        assert forall p :: 0 <= p < |parts| ==> Flags(parts)[p] == parts[p].directDescendant;
        AcceptedIsSelected(elements, parts);
      }
    }
  }

  // ----- what a part asks of an element -----

  datatype Ask =
    | Text(text: string)
    | Tag(tag: string)
    | Href(href: string)
    | Id(id: string)
    | Class(name: string)
    | NthChild(n: int)
    | NthOfType(n: int)
    | Attribute(key: string, value: string)

  // A single requirement.
  function Asking(ask: Ask): Element {
    var nothing := Element(None, None, None, None, None, None, None, None);
    match ask
    case Text(text) => nothing.(text := Some(text))
    case Tag(tag) => nothing.(tagName := Some(tag))
    case Href(href) => nothing.(href := Some(href))
    case Id(id) => nothing.(attrId := Some(id))
    case Class(name) => nothing.(attrClass := Some([name]))
    case NthChild(n) => nothing.(nthChild := Some(n))
    case NthOfType(n) => nothing.(nthOfType := Some(n))
    case Attribute(key, value) => nothing.(attributes := Some(map[key := value]))
  }

  // An empty string and the number 0 ask for nothing.
  predicate AsksSomething(ask: Ask) {
    match ask
    case Text(s) => s != ""
    case Tag(s) => s != ""
    case Href(s) => s != ""
    case Id(s) => s != ""
    case NthChild(n) => n != 0
    case NthOfType(n) => n != 0
    case _ => true
  }

  predicate Has(e: Element, ask: Ask) {
    match ask
    case Text(text) => e.text == Some(text)
    case Tag(tag) => e.tagName == Some(tag)
    case Href(href) => e.href == Some(href)
    case Id(id) => e.attrId == Some(id)
    case Class(name) => e.attrClass.Some? && name in e.attrClass.value
    case NthChild(n) => e.nthChild == Some(n)
    case NthOfType(n) => e.nthOfType == Some(n)
    case Attribute(key, value) =>
      e.attributes.Some? && "attr__" + key in e.attributes.value && e.attributes.value["attr__" + key] == value
  }

  // The asks of a part's requirements.
  predicate Asks(r: Element, ask: Ask) {
    AsksSomething(ask)
    && match ask
       case Text(text) => r.text == Some(text)
       case Tag(tag) => r.tagName == Some(tag)
       case Href(href) => r.href == Some(href)
       case Id(id) => r.attrId == Some(id)
       case Class(name) => r.attrClass.Some? && name in r.attrClass.value
       case NthChild(n) => r.nthChild == Some(n)
       case NthOfType(n) => r.nthOfType == Some(n)
       case Attribute(key, value) => r.attributes.Some? && key in r.attributes.value && r.attributes.value[key] == value
  }

  function OnePart(r: Element): seq<SelectorPart> {
    [SelectorPart(false, r)]
  }

  // A selector of one part looks for an element that meets it, and always answers.
  lemma {:induction false} OnePartSearches(elements: seq<Element>, r: Element, base: nat)
    requires base <= |elements|
    ensures Verdicts(elements, OnePart(r), base, 0)
         == if exists i :: 0 <= i < base && Meets(elements[i], r) then True else False
    decreases base
  {
    if base > 0 {
      var c := Candidate(elements, OnePart(r), base, 0);
      if c.Some? {
        assert Matches(elements, c.value, OnePart(r), 0) && Meets(elements[c.value], r);
      } else {
        assert forall i :: 0 <= i < base ==> !Matches(elements, i, OnePart(r), 0);
        assert forall i :: 0 <= i < base ==> Matches(elements, i, OnePart(r), 0) == Meets(elements[i], r);
        OnePartSearches(elements, r, base - 1);
      }
    }
  }

  // The verdict on a selector that asks for a single thing, said of the elements alone.
  lemma OneAskIsFoundExactly(elements: seq<Element>, ask: Ask)
    requires AsksSomething(ask)
    ensures Verdicts(elements, OnePart(Asking(ask)), |elements|, 0)
         == if exists e <- elements :: Has(e, ask) then True else False
  {
    OnePartSearches(elements, Asking(ask), |elements|);
    forall e: Element
      ensures Meets(e, Asking(ask)) <==> Has(e, ask)
    {
      OneAsk(e, ask);
    }
    hide Meets, Has, Asking;
    if i :| 0 <= i < |elements| && Meets(elements[i], Asking(ask)) {
      assert elements[i] in elements;
    }
    if e :| e in elements && Has(e, ask) {
      var i :| 0 <= i < |elements| && elements[i] == e;
      assert Meets(elements[i], Asking(ask));
    }
  }

  lemma OneAsk(e: Element, ask: Ask)
    requires AsksSomething(ask)
    ensures Meets(e, Asking(ask)) <==> Has(e, ask)
  {
  }

  ghost predicate HasAll(e: Element, r: Element) {
    && (forall ask :: Asks(r, ask) ==> Has(e, ask))
    && (r.attrClass == Some([]) ==> e.attrClass.Some? && e.attrClass.value != [])
    && (r.attributes == Some(map[]) ==> e.attributes.Some?)
  }

  lemma HasAllMeetsLists(e: Element, r: Element)
    requires HasAll(e, r)
    ensures MeetsClasses(r.attrClass, e.attrClass) && MeetsAttributes(r.attributes, e.attributes)
  {
    if r.attrClass.Some? && r.attrClass.value != [] {
      assert Asks(r, Class(r.attrClass.value[0])) && Has(e, Class(r.attrClass.value[0]));
      forall c <- r.attrClass.value
        ensures c in e.attrClass.value
      {
        assert Asks(r, Class(c)) && Has(e, Class(c));
      }
    }
    if r.attributes.Some? && r.attributes.value != map[] {
      var attributes := r.attributes.value;
      forall k <- attributes
        ensures e.attributes.Some? && "attr__" + k in e.attributes.value
        ensures e.attributes.value["attr__" + k] == attributes[k]
      {
        assert Asks(r, Attribute(k, attributes[k])) && Has(e, Attribute(k, attributes[k]));
      }
      var k :| k in attributes;
    }
  }

  lemma HasAllMeetsNumbers(e: Element, r: Element)
    requires HasAll(e, r)
    ensures MeetsNumber(r.nthChild, e.nthChild) && MeetsNumber(r.nthOfType, e.nthOfType)
  {
    assert r.nthChild.Some? && Asks(r, NthChild(r.nthChild.value)) ==> Has(e, NthChild(r.nthChild.value));
    assert r.nthOfType.Some? && Asks(r, NthOfType(r.nthOfType.value)) ==> Has(e, NthOfType(r.nthOfType.value));
    hide HasAll;
  }

  lemma HasAllMeets(e: Element, r: Element)
    requires HasAll(e, r)
    ensures Meets(e, r)
  {
    HasAllMeetsLists(e, r);
    HasAllMeetsNumbers(e, r);
    assert r.text.Some? && Asks(r, Text(r.text.value)) ==> Has(e, Text(r.text.value));
    assert r.tagName.Some? && Asks(r, Tag(r.tagName.value)) ==> Has(e, Tag(r.tagName.value));
    assert r.href.Some? && Asks(r, Href(r.href.value)) ==> Has(e, Href(r.href.value));
    assert r.attrId.Some? && Asks(r, Id(r.attrId.value)) ==> Has(e, Id(r.attrId.value));
    hide MeetsClasses, MeetsAttributes, MeetsNumber, HasAll;
  }

  // An element meets a part exactly if it has everything that the part asks for; an empty list of classes asks for
  // some class, and empty attributes ask for attributes.
  lemma PartIsMetExactly(e: Element, r: Element)
    ensures Meets(e, r) <==> HasAll(e, r)
  {
    if HasAll(e, r) {
      HasAllMeets(e, r);
    }
  }

  // So the verdict on one part and one element is that of all its asks.
  lemma VerdictOfAsks(e: Element, r: Element)
    requires r.attrClass != Some([]) && r.attributes != Some(map[])
    ensures Verdicts([e], OnePart(r), 1, 0) == True
            <==> forall ask :: Asks(r, ask) ==> Verdicts([e], OnePart(Asking(ask)), 1, 0) == True
  {
    OnePartSearches([e], r, 1);
    assert Meets([e][0], r) <==> Meets(e, r);
    PartIsMetExactly(e, r);
    forall ask | Asks(r, ask)
      ensures Verdicts([e], OnePart(Asking(ask)), 1, 0) == True <==> Has(e, ask)
    {
      OneAskIsFoundExactly([e], ask);
      assert (exists x <- [e] :: Has(x, ask)) <==> Has(e, ask);
    }
    hide Verdicts, Meets, Has, Asks, Asking;
  }
}
