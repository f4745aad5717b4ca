/** Parsing the arguments of a Gemma 4 tool call from a text that may not have arrived completely. */
module Gemma4Parser {
  import opened Wrappers
  import opened PegMatch
  import opened Gemma4Json
  import opened Gemma4Number

  const QUOTE := "<|\"|>"
  const IN_KEY := Class([(':', ':'), ('}', '}')], true)

  /** The node of a rule with the input behind it, or what there is of the node. */
  datatype Parsed = Malformed | Done(node: Node, rest: string) | More(node: Node)

  function TextOf(s: string, rest: string): string
    requires |rest| <= |s|
  {
    s[..|s| - |rest|]
  }

  function Whole(rule: Rule, s: string, children: seq<Node>, rest: string): Parsed
    requires |rest| <= |s|
  {
    Done(Node(rule, OTHER_TAG, TextOf(s, rest), children, false), rest)
  }

  function Begins(rule: Rule, s: string, children: seq<Node>): Parsed {
    More(Node(rule, OTHER_TAG, s, children, true))
  }

  /** A rule around a single token. */
  function Token(rule: Rule, inner: Rule, s: string, m: Match): Parsed
    requires m.Matched? ==> |m.rest| <= |s|
  {
    match m
    case Missed => Malformed
    case Matched(rest) => Whole(rule, s, [Node(inner, OTHER_TAG, TextOf(s, rest), [], false)], rest)
    case Short => Begins(rule, s, [Node(inner, OTHER_TAG, s, [], true)])
  }

  function StringRule(s: string): (p: Parsed)
    ensures p.Done? ==> |p.rest| < |s|
  {
    match Literal(QUOTE, s)
    case Missed => Malformed
    case Short => Begins(STRING, s, [])
    case Matched(r) =>
      var k := Until([QUOTE], r);
      var content := Node(STRING_CONTENT, OTHER_TAG, r[..k], [], k == |r|);
      if k == |r| then Begins(STRING, s, [content])
      else
        match Literal(QUOTE, r[k..])
        case Missed => Malformed
        case Short => Begins(STRING, s, [content])
        case Matched(rest) => Whole(STRING, s, [content], rest)
  }

  function BoolRule(s: string): (p: Parsed)
    ensures p.Done? ==> |p.rest| < |s|
  {
    var t := Literal("true", s);
    Token(BOOL, OTHER_RULE, s, if t.Missed? then Literal("false", s) else t)
  }

  /** Keys are complete for the parser as soon as they have a character. */
  function KeyRule(s: string): (p: Parsed)
    ensures p.Done? ==> |p.rest| < |s|
  {
    match Chars(IN_KEY, 1, None, s)
    case Missed => Malformed
    case Short => Begins(DICT_KEY, s, [Node(DICT_KEY_NAME, OTHER_TAG, s, [], true)])
    case Matched(r) =>
      var name := Node(DICT_KEY_NAME, OTHER_TAG, TextOf(s, r), [], false);
      match Literal(":", r)
      case Missed => Malformed
      case Short => Begins(DICT_KEY, s, [name])
      case Matched(rest) => Whole(DICT_KEY, s, [name], rest)
  }

  datatype Kind = ELEMENT | MEMBER

  function Item(kind: Kind, s: string): (p: Parsed)
    ensures p.Done? ==> |p.rest| < |s|
    decreases |s|, 3
  {
    if kind == ELEMENT then ValueRule(s) else KvRule(s)
  }

  function KvRule(s: string): (p: Parsed)
    ensures p.Done? ==> |p.rest| < |s|
    decreases |s|, 2
  {
    match KeyRule(s)
    case Malformed => Malformed
    case More(key) => Begins(DICT_KV, s, [key])
    case Done(key, r) =>
      match ValueRule(Space(r))
      case Malformed => Malformed
      case More(v) => Begins(DICT_KV, s, [key, v])
      case Done(v, rest) => Whole(DICT_KV, s, [key, v], rest)
  }

  /** The first alternative that does not fail. */
  function Payload(s: string): (p: Parsed)
    ensures p.Done? ==> |p.rest| < |s|
    decreases |s|, 1
  {
    if !StringRule(s).Malformed? then StringRule(s)
    else if !DictRule(s).Malformed? then DictRule(s)
    else if !ArrayRule(s).Malformed? then ArrayRule(s)
    else if !Number(s).Missed? then Token(NUMBER, OTHER_RULE, s, Number(s))
    else if !BoolRule(s).Malformed? then BoolRule(s)
    else Token(NULL, OTHER_RULE, s, Literal("null", s))
  }

  function ValueRule(s: string): (p: Parsed)
    ensures p.Done? ==> |p.rest| < |s|
    decreases |s|, 2
  {
    match Payload(s)
    case Malformed => Malformed
    case More(n) => Begins(VALUE, s, [n])
    case Done(n, rest) => Whole(VALUE, s, [n], rest)
  }

  function DictRule(s: string): (p: Parsed)
    ensures p.Done? ==> |p.rest| < |s|
    decreases |s|, 0
  {
    match Literal("{", s)
    case Missed => Malformed
    case Short => Begins(DICT, s, [])
    case Matched(r) => Bracketed(DICT, s, Inside(MEMBER, "}", Space(r)))
  }

  function ArrayRule(s: string): (p: Parsed)
    ensures p.Done? ==> |p.rest| < |s|
    decreases |s|, 0
  {
    match Literal("[", s)
    case Missed => Malformed
    case Short => Begins(ARRAY, s, [])
    case Matched(r) => Bracketed(ARRAY, s, Inside(ELEMENT, "]", Space(r)))
  }

  /** The items between brackets. */
  datatype Items = NoItems | Closed(nodes: seq<Node>, rest: string) | Unclosed(nodes: seq<Node>)

  function Bracketed(rule: Rule, s: string, items: Items): Parsed
    requires items.Closed? ==> |items.rest| <= |s|
  {
    match items
    case NoItems => Malformed
    case Closed(nodes, rest) => Whole(rule, s, nodes, rest)
    case Unclosed(nodes) => Begins(rule, s, nodes)
  }

  function Closing(close: string, s: string): Items {
    match Literal(close, s)
    case Missed => NoItems
    case Short => Unclosed([])
    case Matched(rest) => Closed([], rest)
  }

  function Cons(n: Node, items: Items): Items {
    match items
    case NoItems => NoItems
    case Closed(nodes, rest) => Closed([n] + nodes, rest)
    case Unclosed(nodes) => Unclosed([n] + nodes)
  }

  /** Behind the opening bracket and its space. */
  function Inside(kind: Kind, close: string, s: string): (items: Items)
    ensures items.Closed? ==> |items.rest| <= |s|
    decreases |s|, 5
  {
    if !Literal(close, s).Missed? then Closing(close, s) else Onwards(kind, close, s)
  }

  /** An item and what follows it. */
  function Onwards(kind: Kind, close: string, s: string): (items: Items)
    ensures items.Closed? ==> |items.rest| <= |s|
    decreases |s|, 4
  {
    match Item(kind, s)
    case Malformed => NoItems
    case More(n) => Unclosed([n])
    case Done(n, rest) => Cons(n, Tail(kind, close, rest))
  }

  /** Behind a comma and its space. */
  function AfterComma(s: string): (r: Option<string>)
    ensures r.Some? ==> |r.value| < |s|
  {
    var m := Literal(",", s);
    if m.Matched? then Some(Space(m.rest)) else None
  }

  /** The end of the items. */
  function AtEnd(close: string, s: string): (items: Items)
    ensures items.Closed? ==> |items.rest| <= |s|
  {
    Closing(close, Space(s))
  }

  /** Behind an item. When the item behind a comma fails, the comma is where a bracket should be. */
  function Tail(kind: Kind, close: string, s: string): (items: Items)
    ensures items.Closed? ==> |items.rest| <= |s|
    decreases |s|, 6
  {
    var r := AfterComma(s);
    if r.None? || Item(kind, r.value).Malformed? then AtEnd(close, s) else Onwards(kind, close, r.value)
  }
}
