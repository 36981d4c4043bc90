// The printer and the parser of element chains as they run (src/utils/db/utils.ts:20-52, 107-163).  The printer
// sorts the classes of the records it is given in place, so a record that occurs twice, or is printed again, is
// sorted already; the text is the same.  The parser goes over elements and attributes in loops and stops with a
// TypeError at the first element without a third group.
module ElementChain {
  import opened ElementRoundTrip
  import opened ElementSyntax
  import opened KeyOrder
  import opened Wrappers

  // An element whose classes elementsToString sorts in place.
  class ElementRecord {
    const text: Option<string>
    const tagName: Option<string>
    const href: Option<string>
    const attrId: Option<string>
    var attrClass: Option<seq<string>>
    const nthChild: Option<Number>
    const nthOfType: Option<Number>
    const attributes: map<string, string>
    const order: Option<nat>

    function Value(): Element
      reads this
    {
      Element(text, tagName, href, attrId, attrClass, nthChild, nthOfType, attributes, order)
    }

    constructor (e: Element)
      ensures Value() == e
    {
      text, tagName, href, attrId, attrClass := e.text, e.tagName, e.href, e.attrId, e.attrClass;
      nthChild, nthOfType, attributes, order := e.nthChild, e.nthOfType, e.attributes, e.order;
    }
  }

  function WithSortedClasses(e: Element): Element {
    if e.attrClass.Some? then e.(attrClass := Some(Sorted(e.attrClass.value))) else e
  }

  ghost function Values(records: seq<ElementRecord>): (es: seq<Element>)
    reads records
    ensures |es| == |records| && forall i :: 0 <= i < |es| ==> es[i] == records[i].Value()
  {
    seq(|records|, i requires 0 <= i < |records| reads records => records[i].Value())
  }

  function JoinSemicolons(texts: seq<string>): string {
    if texts == [] then ""
    else if |texts| == 1 then texts[0]
    else texts[0] + (";" + JoinSemicolons(texts[1..]))
  }

  lemma {:induction false} JoinedIsChain(es: seq<Element>, orders: seq<Orders>)
    requires AllFit(es, orders)
    ensures JoinSemicolons(ElementTexts(es, orders)) == ChainText(es, orders)
  {
    hide ElementText, OrdersFit, ElementTexts;
    if es == [] {
      NoTexts(orders);
    } else {
      TextsCons(es, orders);
      if |es| == 1 {
        assert es[1..] == [];
        NoTexts(orders[1..]);
      } else {
        JoinedIsChain(es[1..], orders[1..]);
        TextsCons(es[1..], orders[1..]);
      }
    }
  }

  lemma SortedClassesPrintAlike(e: Element, orders: Orders)
    ensures Attributes(WithSortedClasses(e)) == Attributes(e)
    ensures WithSortedClasses(WithSortedClasses(e)) == WithSortedClasses(e)
    ensures Head(WithSortedClasses(e)) == Head(e)
  {
    hide NumberText, Less, ClassText;
    if e.attrClass.Some? {
      SortedIsInOrder(e.attrClass.value);
      SortingAgain(Sorted(e.attrClass.value));
    }
  }

  lemma SortedClassesFitAlike(e: Element, orders: Orders)
    ensures OrdersFit(WithSortedClasses(e), orders) <==> OrdersFit(e, orders)
    ensures OrdersFit(e, orders) ==>
              && AttributesText(WithSortedClasses(e), orders) == AttributesText(e, orders)
              && ElementText(WithSortedClasses(e), orders) == ElementText(e, orders)
  {
    hide Attributes, WithSortedClasses, Head, IsOrderOf, PairsText;
    SortedClassesPrintAlike(e, orders);
  }

  method HeadToString(r: ElementRecord) returns (elString: string)
    modifies r
    ensures elString == Head(old(r.Value()))
    ensures r.Value() == WithSortedClasses(old(r.Value()))
  {
    hide Sorted;
    elString := "";
    if r.tagName.Some? && r.tagName.value != "" {
      elString := elString + r.tagName.value;
    }
    if r.attrClass.Some? {
      ghost var tag := elString;
      var classes := Sorted(r.attrClass.value);
      r.attrClass := Some(classes);
      for i := 0 to |classes|
        invariant elString == tag + ClassText(classes[..i])
        invariant r.attrClass == Some(classes)
      {
        assert classes[..i + 1][..i] == classes[..i];
        elString := elString + ("." + WithoutQuotes(classes[i]));
      }
      assert classes[..|classes|] == classes;
    }
  }

  method ElementToString(r: ElementRecord, orders: Orders) returns (elString: string)
    requires OrdersFit(r.Value(), orders)
    modifies r
    ensures elString == ElementText(old(r.Value()), orders)
    ensures r.Value() == WithSortedClasses(old(r.Value()))
  {
    hide Head, WithSortedClasses, OrdersFit, AttributesText;
    SortedClassesFitAlike(r.Value(), orders);
    elString := HeadToString(r);
    elString := elString + ":";
    elString := elString + AttributesText(r.Value(), orders);
  }

  // A record that still has its value, or whose classes have been sorted already.
  predicate IsOrIsSorted(now: Element, before: Element) {
    now == before || now == WithSortedClasses(before)
  }

  lemma EitherPrintsAlike(now: Element, before: Element, orders: Orders)
    requires IsOrIsSorted(now, before) && OrdersFit(before, orders)
    ensures OrdersFit(now, orders) && ElementText(now, orders) == ElementText(before, orders)
    ensures WithSortedClasses(now) == WithSortedClasses(before)
  {
    hide ElementText, OrdersFit, WithSortedClasses;
    SortedClassesFitAlike(before, orders);
    SortedClassesPrintAlike(before, orders);
  }

  // The same record may occur several times.
  method ElementsToString(records: seq<ElementRecord>, orders: seq<Orders>) returns (chain: string)
    requires AllFit(Values(records), orders)
    modifies records
    ensures chain == ChainText(old(Values(records)), orders)
    ensures forall i :: 0 <= i < |records| ==> records[i].Value() == WithSortedClasses(old(records[i].Value()))
  {
    hide WithSortedClasses, OrdersFit, ElementText, ChainText;
    ghost var before := Values(records);
    var ret: seq<string> := [];
    for i := 0 to |records|
      invariant |ret| == i && forall k :: 0 <= k < i ==> ret[k] == ElementText(before[k], orders[k])
      invariant forall k :: 0 <= k < |records| ==>
        IsOrIsSorted(records[k].Value(), before[k])
      invariant forall k :: 0 <= k < i ==> records[k].Value() == WithSortedClasses(before[k])
    {
      EitherPrintsAlike(records[i].Value(), before[i], orders[i]);
      label L:
      var elString := ElementToString(records[i], orders[i]);
      ret := ret + [elString];
      forall k | 0 <= k < |records|
        ensures IsOrIsSorted(records[k].Value(), before[k])
        ensures k <= i ==> records[k].Value() == WithSortedClasses(before[k])
      {
        if records[k] == records[i] {
          assert IsOrIsSorted(old@L(records[k].Value()), before[k]);
          EitherPrintsAlike(old@L(records[k].Value()), before[k], orders[k]);
        }
      }
    }
    assert ret == ElementTexts(before, orders);
    JoinedIsChain(before, orders);
    chain := JoinSemicolons(ret);
  }

  lemma {:induction false} TypeErrorStays(tokens: seq<string>, k: nat)
    requires k <= |tokens| && ParseTokens(tokens[..k]) == None
    ensures ParseTokens(tokens) == None
    decreases |tokens|
  {
    hide ParseElement;
    if k == |tokens| {
      assert tokens[..k] == tokens;
    } else {
      var n := |tokens| - 1;
      assert tokens[..n][..k] == tokens[..k];
      TypeErrorStays(tokens[..n], k);
    }
  }

  method AssignAttributes(start: Element, pairs: seq<Pair>) returns (element: Element)
    ensures element == AssignAll(start, pairs)
  {
    hide ParseInt;
    element := start;
    for i := 0 to |pairs|
      invariant element == AssignAll(start, pairs[..i])
    {
      assert pairs[..i + 1][..i] == pairs[..i];
      var (key, value) := pairs[i];
      if key == "href" {
        element := element.(href := Some(value));
      } else if key == "nth-child" {
        element := element.(nthChild := Some(ParseInt(value)));
      } else if key == "nth-of-type" {
        element := element.(nthOfType := Some(ParseInt(value)));
      } else if key == "text" {
        element := element.(text := Some(value));
      } else if key == "attr_id" {
        element := element.(attrId := Some(value));
      } else if key != "" {
        element := element.(attributes := element.attributes[key := value]);
      }
    }
    assert pairs[..|pairs|] == pairs;
  }

  // None is the TypeError for an element without attributes.
  method ChainToElements(chain: string) returns (r: Option<seq<Element>>)
    ensures r == ParseChain(chain)
  {
    hide SplitClassAttributes, AllAttributes, AssignAll, SplitDots;
    var elements: seq<Element> := [];
    var tokens := Tokens(chain);
    hide Tokens;
    for index := 0 to |tokens|
      invariant ParseTokens(tokens[..index]) == Some(elements)
    {
      assert tokens[..index + 1][..index] == tokens[..index];
      var (head, attributes) := SplitClassAttributes("", tokens[index]);
      if attributes.None? {
        TypeErrorStays(tokens, index + 1);
        return None;
      }
      var element := Element(None, None, None, None, None, None, None, map[], Some(index));
      if head != "" {
        var tagAndClass := SplitDots(head);
        element := element.(tagName := Some(tagAndClass[0]));
        if |tagAndClass| > 1 {
          element := element.(attrClass := Some(NonEmpty(tagAndClass[1..])));
        }
      }
      element := AssignAttributes(element, AllAttributes(attributes.value));
      elements := elements + [element];
    }
    assert tokens[..|tokens|] == tokens;
    return Some(elements);
  }
}
