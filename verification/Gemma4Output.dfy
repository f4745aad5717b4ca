/** The grammar of a whole Gemma 4 output with tools: thoughts and contents, then tool calls. Parsing in the
    lenient mode gives a forest for every text. */
module Gemma4Output {
  import opened PegMatch
  import opened Gemma4Json
  import opened Gemma4Parser

  const TURN := "<|turn>model\n"
  const CHANNEL := "<|channel>"
  const THOUGHT := "<|channel>thought"
  const CHANNEL_END := "<channel|>"
  const TOOL_BEGIN := "<|tool_call>"
  const CALL := "<|tool_call>call:"
  const CALL_END := "<tool_call|>"
  const STOPS := [CHANNEL, CHANNEL_END, TOOL_BEGIN]

  /** The tools a call may name, and whether there may be several calls. */
  datatype Tools = Tools(names: seq<string>, parallel: bool)

  function Wrapped(tag: Tag, s: string, children: seq<Node>, rest: string, partial: bool): Node
    requires |rest| <= |s|
  {
    Node(OTHER_RULE, tag, TextOf(s, rest), children, partial)
  }

  // ---------- thoughts ----------

  /** Channels that open no thought are passed over. An answer that is short ends where the word `thought`
      might come; `end` is what follows it. */
  datatype Passed = Passed(rest: string) | Pending(end: string)

  function Channels(s: string): (p: Passed)
    ensures p.Passed? ==> |p.rest| <= |s|
    ensures p.Pending? ==> |p.end| <= |s|
    decreases |s|
  {
    if s == "" then Passed(s)
    else
      match Literal(CHANNEL, s)
      case Missed => Passed(s)
      case Short => Pending("")
      case Matched(r) =>
        var word := Literal("thought", r);
        if word.Matched? then Passed(s) else if word.Short? then Pending(r) else Channels(r)
  }

  /** The reasoning goes up to the end of its channel. */
  function Reasoning(s: string): (n: Node) {
    var k := Until([CHANNEL_END], s);
    Node(OTHER_RULE, REASONING, s[..k], [], k == |s|)
  }

  function ThoughtRule(s: string): (p: Parsed)
    ensures p.Done? ==> |p.rest| < |s|
  {
    match Literal(THOUGHT, s)
    case Missed => Malformed
    case Short => More(Wrapped(OTHER_TAG, s, [], "", true))
    case Matched(r0) =>
      var r := Space(r0);
      var k := Until([CHANNEL_END], r);
      if k == |r| then More(Wrapped(OTHER_TAG, s, [Reasoning(r)], "", true))
      else
        match Literal(CHANNEL_END, r[k..])
        case Missed => Malformed
        case Short => More(Wrapped(OTHER_TAG, s, [Reasoning(r)], "", true))
        case Matched(rest) => Done(Wrapped(OTHER_TAG, s, [Reasoning(r)], rest, false), rest)
  }

  /** What the thought in front of a content gives: nodes and the input behind, a stop for want of input, or
      no message. */
  datatype Thought = Behind(nodes: seq<Node>, rest: string) | Waiting(nodes: seq<Node>, end: string) | NoMessage

  function ThoughtOrNot(s: string): (t: Thought)
    ensures t.Behind? ==> |t.rest| <= |s|
    ensures t.Waiting? ==> |t.end| <= |s|
  {
    match Literal(CHANNEL, s)
    case Missed => Behind([], s)
    case Short => Waiting([], s)
    case Matched(_) =>
      var p := Channels(s);
      if p.Pending? then Waiting([], p.end)
      else
        match ThoughtRule(p.rest)
        case Malformed => NoMessage
        case More(n) => Waiting([n], "")
        case Done(n, rest) => Behind([n], rest)
  }

  // ---------- messages ----------

  function ContentRule(s: string): Node {
    var k := Until(STOPS, s);
    Wrapped(OTHER_TAG, s, [Wrapped(CONTENT, s, [], s[k..], k == |s|)], s[k..], k == |s|)
  }

  function MessageRule(s: string): (p: Parsed)
    ensures p.Done? ==> |p.rest| <= |s|
  {
    match ThoughtOrNot(s)
    case NoMessage => Malformed
    case Waiting(nodes, end) => More(Wrapped(OTHER_TAG, s, nodes, end, true))
    case Behind(nodes, r) =>
      var k := Until(STOPS, r);
      var all := nodes + [ContentRule(r)];
      if k == |r| then More(Wrapped(OTHER_TAG, s, all, "", true))
      else Done(Wrapped(OTHER_TAG, s, all, r[k..], false), r[k..])
  }

  // ---------- tool calls ----------

  function NameNode(name: string): Node { Node(OTHER_RULE, TOOL_NAME, name, [], false) }

  /** The rule of one tool: its node and, in it, the call. The name counts as soon as a brace follows. */
  function ToolRule(name: string, s: string): (p: Parsed)
    ensures p.Done? ==> |p.rest| < |s|
  {
    match Literal(name, s)
    case Missed => Malformed
    case Short => Unnamed(s)
    case Matched(r) =>
      match Literal("{", r)
      case Missed => Malformed
      case Short => Unnamed(s)
      case Matched(_) =>
        match DictRule(r)
        case Malformed => Malformed
        case More(d) => More(CallNode(name, s, "", Wrapped(TOOL_ARGS, r, [d], "", true), true))
        case Done(d, rest) => Done(CallNode(name, s, rest, Wrapped(TOOL_ARGS, r, [d], rest, false), false), rest)
  }

  function Unnamed(s: string): Parsed {
    More(Wrapped(OTHER_TAG, s, [Wrapped(TOOL, s, [], "", true)], "", true))
  }

  function CallNode(name: string, s: string, rest: string, args: Node, partial: bool): Node
    requires |rest| <= |s|
  {
    var open := Node(OTHER_RULE, OTHER_TAG, name, [NameNode(name)], false);
    Wrapped(OTHER_TAG, s, [Wrapped(TOOL, s, [open, args], rest, partial)], rest, partial)
  }

  /** The first tool whose rule does not fail. */
  function ToolChoice(names: seq<string>, s: string): (p: Parsed)
    ensures p.Done? ==> |p.rest| < |s|
  {
    if names == [] then Malformed
    else if !ToolRule(names[0], s).Malformed? then ToolRule(names[0], s)
    else ToolChoice(names[1..], s)
  }

  /** One call with its delimiters. A call that is complete but for its end delimiter is already a node. */
  datatype Call = NoCall | Whole(node: Node, rest: string) | Part(nodes: seq<Node>)

  function CallRule(names: seq<string>, s: string): (c: Call)
    ensures c.Whole? ==> |c.rest| < |s|
  {
    match Literal(CALL, s)
    case Missed => NoCall
    case Short => Part([])
    case Matched(r) => Called(ToolChoice(names, r))
  }

  function Called(tool: Parsed): (c: Call)
    ensures c.Whole? ==> tool.Done? && |c.rest| <= |tool.rest|
  {
    match tool
    case Malformed => NoCall
    case More(n) => Part([n])
    case Done(n, rest) =>
      match Literal(CALL_END, rest)
      case Missed => NoCall
      case Short => Part([n])
      case Matched(r) => Whole(n, r)
  }

  /** The calls that have come, and what is behind them; nothing when more is needed. */
  function Calls(tools: Tools, s: string): (nodes: seq<Node>)
    decreases |s|
  {
    if s == "" then []
    else
      match CallRule(tools.names, s)
      case NoCall => []
      case Part(nodes) => nodes
      case Whole(n, r) => [n] + if tools.parallel then Calls(tools, r) else []
  }

  /** Whether the calls stop for want of input, and what is behind them. */
  function CallsEnd(tools: Tools, s: string): (e: (bool, string))
    ensures |e.1| <= |s|
    decreases |s|
  {
    if s == "" then (false, s)
    else
      match CallRule(tools.names, s)
      case NoCall => (false, s)
      case Part(_) => (true, "")
      case Whole(_, r) => if tools.parallel then CallsEnd(tools, r) else (false, r)
  }

  function CallsNode(tools: Tools, s: string): Node {
    var e := CallsEnd(tools, s);
    Wrapped(OTHER_TAG, s, Calls(tools, s), e.1, e.0)
  }

  // ---------- the whole output ----------

  /** Behind the messages: everything up to the first tool call is passed over. */
  function AfterMessages(tools: Tools, s: string): seq<Node> {
    var k := Until([TOOL_BEGIN], s);
    var scan := Wrapped(OTHER_TAG, s, [], s[k..], k == |s|);
    if k == |s| then [scan] else [scan, CallsNode(tools, s[k..])]
  }

  /** Messages as long as they read something. */
  function Body(tools: Tools, s: string): seq<Node>
    decreases |s|
  {
    if s == "" then AfterMessages(tools, s)
    else
      match MessageRule(s)
      case Malformed => AfterMessages(tools, s)
      case More(n) => [n]
      case Done(n, r) => if |r| == |s| then AfterMessages(tools, s) else [n] + Body(tools, r)
  }

  function Forest(tools: Tools, s: string): seq<Node> {
    var turn := if s == "" then Matched(s) else Literal(TURN, s);
    match turn
    case Short => [Wrapped(OTHER_TAG, s, [], "", true)]
    case Missed => [Wrapped(OTHER_TAG, s, [], s, false)] + Body(tools, s)
    case Matched(r) => [Wrapped(OTHER_TAG, s, [], r, false)] + Body(tools, r)
  }
}
