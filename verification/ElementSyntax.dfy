// The chain of elements as text: how it is printed and how it is parsed (src/utils/db/utils.ts:16-52, 107-163).  The
// parser uses three regular expressions: one finds the elements, between semicolons and spaces outside quotes, one
// splits an element into its head and its attributes, and one finds the attributes one after the other.  Each is a
// function here that tries the alternatives in the order in which a backtracking matcher tries them.
module ElementSyntax {
  import opened Digits
  import opened KeyOrder
  import opened Text
  import opened Wrappers

  datatype Number = NaN | Int(value: int)

  datatype Element = Element(
    text: Option<string>,
    tagName: Option<string>,
    href: Option<string>,
    attrId: Option<string>,
    attrClass: Option<seq<string>>,
    nthChild: Option<Number>,
    nthOfType: Option<Number>,
    attributes: map<string, string>,
    order: Option<nat>)

  const RESERVED := {"href", "nth-child", "nth-of-type", "text", "attr_id"}

  type Pair = (string, string)

  // ----- printing -----

  function EscapeQuotes(s: string): string {
    if s == "" then "" else (if s[0] == '"' then "\\\"" else [s[0]]) + EscapeQuotes(s[1..])
  }

  function WithoutQuotes(s: string): string {
    if s == "" then "" else (if s[0] == '"' then "" else [s[0]]) + WithoutQuotes(s[1..])
  }

  function Insert(s: string, sorted: seq<string>): seq<string> {
    if sorted == [] || !Less(sorted[0], s) then [s] + sorted else [sorted[0]] + Insert(s, sorted[1..])
  }

  function Sorted(classes: seq<string>): seq<string> {
    if classes == [] then [] else Insert(classes[0], Sorted(classes[1..]))
  }

  function ClassText(classes: seq<string>): string {
    if classes == [] then "" else ClassText(classes[..|classes| - 1]) + ("." + WithoutQuotes(classes[|classes| - 1]))
  }

  function Head(e: Element): string {
    (if e.tagName.Some? then e.tagName.value else "")
    + (if e.attrClass.Some? then ClassText(Sorted(e.attrClass.value)) else "")
  }

  function NumberText(n: Number): string {
    match n
    case NaN => "NaN"
    case Int(value) => if value < 0 then "-" + Decimal(-value) else Decimal(value)
  }

  function OrZero(n: Option<Number>): Number {
    if n.Some? then n.value else Int(0)
  }

  // The entry of an optional property: an empty string counts as missing.
  function Entry(key: string, value: Option<string>): map<string, string> {
    if value.Some? && value.value != "" then map[key := value.value] else map[]
  }

  function ReservedAttributes(e: Element): map<string, string> {
    Entry("text", e.text)
    + map["nth-child" := NumberText(OrZero(e.nthChild))]
    + map["nth-of-type" := NumberText(OrZero(e.nthOfType))]
    + Entry("href", e.href)
    + Entry("attr_id", e.attrId)
  }

  // Later entries win.
  function Attributes(e: Element): map<string, string> {
    ReservedAttributes(e) + e.attributes
  }

  // Object.fromEntries
  function MapOf(pairs: seq<Pair>): map<string, string> {
    if pairs == [] then map[] else MapOf(pairs[..|pairs| - 1])[pairs[|pairs| - 1].0 := pairs[|pairs| - 1].1]
  }

  // The entries of a map in a given order of its keys.
  function EntriesOf(m: map<string, string>, order: seq<string>): seq<Pair>
    requires forall i :: 0 <= i < |order| ==> order[i] in m
  {
    seq(|order|, i requires 0 <= i < |order| => (order[i], m[order[i]]))
  }

  function EscapedPairs(pairs: seq<Pair>): seq<Pair> {
    seq(|pairs|, i requires 0 <= i < |pairs| => (EscapeQuotes(pairs[i].0), EscapeQuotes(pairs[i].1)))
  }

  ghost predicate IsOrderOf(order: seq<string>, keys: set<string>) {
    && (forall i, j :: 0 <= i < j < |order| ==> order[i] != order[j])
    && (forall i :: 0 <= i < |order| ==> order[i] in keys)
    && (forall key <- keys :: key in order)
  }

  function PairText(pair: Pair): string {
    pair.0 + ("=\"" + (pair.1 + "\""))
  }

  function PairsText(pairs: seq<Pair>): string {
    if pairs == [] then "" else PairText(pairs[0]) + PairsText(pairs[1..])
  }

  // How one element's attributes come out of Object.entries: sorted by localeCompare, and after escaping
  // in the order of the new object, where keys that look like array indexes come first. Both orders are
  // parameters.
  datatype Orders = Orders(sorted: seq<string>, printed: seq<string>)

  function Escaped(e: Element, orders: Orders): map<string, string>
    requires IsOrderOf(orders.sorted, Attributes(e).Keys)
  {
    MapOf(EscapedPairs(EntriesOf(Attributes(e), orders.sorted)))
  }

  ghost predicate OrdersFit(e: Element, orders: Orders) {
    IsOrderOf(orders.sorted, Attributes(e).Keys) && IsOrderOf(orders.printed, Escaped(e, orders).Keys)
  }

  function AttributesText(e: Element, orders: Orders): string
    requires OrdersFit(e, orders)
  {
    PairsText(EntriesOf(Escaped(e, orders), orders.printed))
  }

  function ElementText(e: Element, orders: Orders): string
    requires OrdersFit(e, orders)
  {
    Head(e) + (":" + AttributesText(e, orders))
  }

  ghost predicate AllFit(es: seq<Element>, orders: seq<Orders>) {
    |es| == |orders| && forall i :: 0 <= i < |es| ==> OrdersFit(es[i], orders[i])
  }

  function ChainText(es: seq<Element>, orders: seq<Orders>): string
    requires AllFit(es, orders)
  {
    if es == [] then ""
    else if |es| == 1 then ElementText(es[0], orders[0])
    else ElementText(es[0], orders[0]) + (";" + ChainText(es[1..], orders[1..]))
  }

  // ----- the three regular expressions -----

  // The rest of /"(?:\\.|[^"])*"/ after the opening quote: the length of the first match in the order in
  // which the alternatives are tried.
  function Quoted(s: string): (r: Option<nat>)
    ensures r.Some? ==> r.value <= |s|
    decreases |s|
  {
    if s == "" then None
    else
      var pair := if s[0] == '\\' && |s| > 1 && !IsLineTerminator(s[1]) then Quoted(s[2..]) else None;
      if pair.Some? then Some(pair.value + 2)
      else
        var single := if s[0] != '"' then Quoted(s[1..]) else None;
        if single.Some? then Some(single.value + 1) else if s[0] == '"' then Some(1) else None
  }

  // How far /(?:[^\s;"]|"(?:\\.|[^"])*")+/ matches from the start of s; 0 if it does not.
  function TokenLength(s: string): (n: nat)
    ensures n <= |s|
    decreases |s|
  {
    if s == "" then 0
    else if s[0] == '"' then
      match Quoted(s[1..])
      case None => 0
      case Some(n) => 1 + n + TokenLength(s[1 + n..])
    else if IsSpace(s[0]) || s[0] == ';' then 0
    else 1 + TokenLength(s[1..])
  }

  function Tokens(s: string): seq<string>
    decreases |s|
  {
    if s == "" then []
    else
      var n := TokenLength(s);
      if n == 0 then Tokens(s[1..]) else [s[..n]] + Tokens(s[n..])
  }

  predicate IsKeyChar(c: char) {
    'a' <= c <= 'z' || 'A' <= c <= 'Z' || c == '-' || c == '_' || IsDigit(c)
  }

  function KeyRun(s: string): (n: nat)
    ensures n <= |s|
  {
    if s != "" && IsKeyChar(s[0]) then 1 + KeyRun(s[1..]) else 0
  }

  // /:[a-zA-Z\-_0-9]*=/ matches at the start
  predicate AttributesStart(s: string) {
    s != "" && s[0] == ':' && KeyRun(s[1..]) < |s| - 1 && s[1..][KeyRun(s[1..])] == '='
  }

  function ToLineEnd(s: string): string {
    if s == "" || IsLineTerminator(s[0]) then "" else [s[0]] + ToLineEnd(s[1..])
  }

  // Groups 1 and 3 of the first match of /(.*?)($|:([a-zA-Z\-_0-9]*=.*))/, where head precedes s.
  function SplitClassAttributes(head: string, s: string): (string, Option<string>)
    decreases |s|
  {
    if s == "" then (head, None)
    else if AttributesStart(s) then (head, Some(ToLineEnd(s[1..])))
    else if IsLineTerminator(s[0]) then SplitClassAttributes("", s[1..])
    else SplitClassAttributes(head + [s[0]], s[1..])
  }

  // The length of /.*?[^\\]/ before the next quote.
  function ValueLength(s: string): (r: Option<nat>)
    ensures r.Some? ==> 0 < r.value < |s|
    decreases |s|
  {
    if |s| < 2 then None
    else if s[0] != '\\' && s[1] == '"' then Some(1)
    else if IsLineTerminator(s[0]) then None
    else
      match ValueLength(s[1..])
      case None => None
      case Some(n) => Some(n + 1)
  }

  // The first match of /((.*?)="(.*?[^\\])")/, where key precedes s: key, value and what follows.
  function FirstAttribute(key: string, s: string): (r: Option<(Pair, string)>)
    ensures r.Some? ==> |r.value.1| < |s|
    decreases |s|
  {
    if s == "" then None
    else
      var value := if |s| >= 2 && s[..2] == "=\"" then ValueLength(s[2..]) else None;
      if value.Some? then Some(((key, s[2..][..value.value]), s[2..][value.value + 1..]))
      else if IsLineTerminator(s[0]) then FirstAttribute("", s[1..])
      else FirstAttribute(key + [s[0]], s[1..])
  }

  function AllAttributes(s: string): seq<Pair>
    decreases |s|
  {
    match FirstAttribute("", s)
    case None => []
    case Some((pair, rest)) => [pair] + AllAttributes(rest)
  }

  // ----- parsing -----

  function SplitDots(s: string): (parts: seq<string>)
    ensures |parts| > 0
  {
    if s == "" then [""]
    else
      var rest := SplitDots(s[1..]);
      if s[0] == '.' then [""] + rest else [[s[0]] + rest[0]] + rest[1..]
  }

  function NonEmpty(parts: seq<string>): seq<string> {
    if parts == [] then [] else (if parts[0] == "" then [] else [parts[0]]) + NonEmpty(parts[1..])
  }

  // The digits at the start, as parseInt reads them; None if there are none.
  function DigitPrefix(s: string): (n: nat)
    ensures n <= |s| && forall c <- s[..n] :: IsDigit(c)
  {
    if s != "" && IsDigit(s[0]) then
      var n := DigitPrefix(s[1..]);
      assert s[..n + 1] == [s[0]] + s[1..][..n];
      n + 1
    else 0
  }

  function HexPrefix(s: string, value: nat, any: bool): Number {
    if s != "" && IsHex(s[0]) then HexPrefix(s[1..], 16 * value + HexValue(s[0]), true)
    else if any then Int(value)
    else NaN
  }

  function SkipSpace(s: string): string {
    if s != "" && IsSpace(s[0]) then SkipSpace(s[1..]) else s
  }

  function ParseUnsigned(s: string): Number {
    if |s| >= 2 && s[0] == '0' && (s[1] == 'x' || s[1] == 'X') then HexPrefix(s[2..], 0, false)
    else
      var n := DigitPrefix(s);
      if n == 0 then NaN else Int(ParseDigits(s[..n]))
  }

  function ParseInt(s: string): Number {
    var trimmed := SkipSpace(s);
    if trimmed != "" && trimmed[0] == '-' then
      match ParseUnsigned(trimmed[1..])
      case NaN => NaN
      case Int(n) => Int(-n)
    else if trimmed != "" && trimmed[0] == '+' then ParseUnsigned(trimmed[1..])
    else ParseUnsigned(trimmed)
  }

  function Assign(e: Element, pair: Pair): Element {
    var (key, value) := pair;
    if key == "href" then e.(href := Some(value))
    else if key == "nth-child" then e.(nthChild := Some(ParseInt(value)))
    else if key == "nth-of-type" then e.(nthOfType := Some(ParseInt(value)))
    else if key == "text" then e.(text := Some(value))
    else if key == "attr_id" then e.(attrId := Some(value))
    else if key != "" then e.(attributes := e.attributes[key := value])
    else e
  }

  function AssignAll(e: Element, pairs: seq<Pair>): Element {
    if pairs == [] then e else Assign(AssignAll(e, pairs[..|pairs| - 1]), pairs[|pairs| - 1])
  }

  function WithHead(head: string, index: nat): Element {
    var parts := SplitDots(head);
    Element(None, if head == "" then None else Some(parts[0]), None, None,
            if head != "" && |parts| > 1 then Some(NonEmpty(parts[1..])) else None,
            None, None, map[], Some(index))
  }

  // None is the TypeError for an element without attributes.
  function ParseElement(token: string, index: nat): Option<Element> {
    var (head, attributes) := SplitClassAttributes("", token);
    match attributes
    case None => None
    case Some(text) => Some(AssignAll(WithHead(head, index), AllAttributes(text)))
  }

  function ParseTokens(tokens: seq<string>): Option<seq<Element>> {
    if tokens == [] then Some([])
    else
      var n := |tokens| - 1;
      match ParseTokens(tokens[..n])
      case None => None
      case Some(es) =>
        match ParseElement(tokens[n], n)
        case None => None
        case Some(e) => Some(es + [e])
  }

  function ParseChain(chain: string): Option<seq<Element>> {
    ParseTokens(Tokens(chain))
  }
}
