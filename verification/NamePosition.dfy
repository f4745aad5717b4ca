/** Where the name node stands among the argument nodes of a call: arguments seen before the name are
    buffered and moved when it comes. Exactly when that makes no difference. */
module NamePosition {
  import opened Wrappers
  import opened Messages
  import opened JsonText
  import opened QuoteNormalizer
  import opened PegMapper

  /** Nodes that may stand between a call's open and close nodes besides the name. */
  predicate IsInner(t: Tag) {
    t != TOOL_OPEN && t != TOOL_CLOSE && t != TOOL_NAME
  }

  predicate AllInner(nodes: seq<Node>) {
    forall k :: 0 <= k < |nodes| ==> IsInner(nodes[k].tag)
  }

  /** A whole JSON object, which replaces the argument text. */
  predicate IsObject(n: Node) {
    n.tag == TOOL_ARGS && TrimTrailing(n.text) != "" && TrimTrailing(n.text)[0] == '{'
  }

  /** The node begins the argument text: a key, or a whole object. */
  predicate Starts(n: Node) {
    n.tag == ARG_NAME || IsObject(n)
  }

  /** The node writes the text of a value. */
  predicate WritesValue(n: Node) {
    n.tag == ARG_STRING_VALUE || (n.tag == ARG_VALUE && n.text != "")
  }

  /** No node writes argument text. */
  predicate Untouched(nodes: seq<Node>) {
    forall k :: 0 <= k < |nodes| ==> !Starts(nodes[k]) && !WritesValue(nodes[k])
  }

  /** No value text comes before the argument text was begun. */
  predicate Orderly(nodes: seq<Node>) {
    forall k :: 0 <= k < |nodes| && WritesValue(nodes[k]) ==> Begun(nodes, k)
  }

  predicate Begun(nodes: seq<Node>, k: nat)
    requires k <= |nodes|
  {
    exists j :: 0 <= j < k && Starts(nodes[j])
  }

  predicate Replaced(nodes: seq<Node>) {
    exists k :: 0 <= k < |nodes| && IsObject(nodes[k])
  }

  // ---------- a call that is being assembled ----------

  /** What is known of the call and of everything before it; `text` is the argument text so far,
      wherever it is kept. */
  datatype Call = Call(content: string, reasoning: string, earlier: seq<ToolCall>, id: string,
                       text: string, count: nat, closing: bool)

  /** Before the name node; after it; after a blank name, when the text still goes to the buffer. */
  datatype Naming = Early | Named(name: string) | Blank

  function Shown(c: Call, k: Naming): State {
    match k
    case Early =>
      State(Message(c.content, c.reasoning, c.earlier), Some(ToolCall("", "", c.id)), Pending, c.count, c.text, c.closing)
    case Named(name) =>
      State(Message(c.content, c.reasoning, c.earlier + [ToolCall(name, c.text, c.id)]), None, Last, c.count, "", c.closing)
    case Blank =>
      State(Message(c.content, c.reasoning, c.earlier + [ToolCall("", "{", c.id)]), None, Last, c.count, c.text, c.closing)
  }

  predicate Proper(k: Naming) {
    k.Named? ==> k.name != ""
  }

  /** The argument text after an inner node. */
  function NextText(c: Call, n: Node): string {
    if IsObject(n) then TrimTrailing(n.text)
    else if n.tag == ARG_NAME then (if c.text == "" then "{" else c.text) + ArgEntry(c.count, n.text)
    else if n.tag == ARG_VALUE || n.tag == ARG_STRING_VALUE then c.text + ValueText(n, c.closing).0
    else if n.tag == ARG_CLOSE && c.closing then c.text + "\""
    else c.text
  }

  function NextClosing(closing: bool, n: Node): bool {
    if n.tag == ARG_OPEN || n.tag == ARG_CLOSE then false
    else if n.tag == ARG_VALUE || n.tag == ARG_STRING_VALUE then ValueText(n, closing).1
    else closing
  }

  function CallStep(c: Call, n: Node): Call {
    Call(if n.tag == CONTENT then c.content + n.text else c.content,
         if n.tag == REASONING then c.reasoning + n.text else c.reasoning,
         c.earlier,
         if n.tag == TOOL_ID then Unquoted(TrimTrailing(n.text)) else c.id,
         NextText(c, n),
         if n.tag == ARG_NAME then c.count + 1 else c.count,
         NextClosing(c.closing, n))
  }

  function CallRun(c: Call, nodes: seq<Node>): Call
    decreases |nodes|
  {
    if nodes == [] then c else CallRun(CallStep(c, nodes[0]), nodes[1..])
  }

  /** The argument text is the same function of the nodes wherever it is kept. */
  lemma ShownTarget(c: Call, k: Naming, text: string)
    requires Proper(k)
    ensures var s := Shown(c, k);
      && s.Valid() && s.HasTool() && s.Target() == c.text && s.WithTarget(text) == Shown(c.(text := text), k)
  {}

  lemma ShownId(c: Call, k: Naming, id: string)
    requires Proper(k)
    ensures var s := Shown(c, k); s.Valid() && s.HasTool() && s.WithTool(s.Tool().(id := id)) == Shown(c.(id := id), k)
  {}

  lemma ShownFields(c: Call, k: Naming, d: Call)
    ensures var s := Shown(c, k);
      && s.argCount == c.count && s.closing == c.closing
      && s.(argCount := d.count) == Shown(c.(count := d.count), k)
      && s.(closing := d.closing) == Shown(c.(closing := d.closing), k)
    ensures var m := Shown(c, k).msg;
      && m.content == c.content && m.reasoning == c.reasoning
      && Shown(c, k).(msg := m.(content := d.content)) == Shown(c.(content := d.content), k)
      && Shown(c, k).(msg := m.(reasoning := d.reasoning)) == Shown(c.(reasoning := d.reasoning), k)
  {}

  lemma StepShown(c: Call, k: Naming, n: Node)
    requires Proper(k) && IsInner(n.tag)
    ensures Safe(Shown(c, k), n) && MapNode(Shown(c, k), n) == Shown(CallStep(c, n), k)
  {
    hide TrimTrailing, Unquoted, Escape, Normalize, ArgEntry, CloseTool, NameTool, ValueText, Shown, State.WithTarget,
         State.WithTool, State.Target, State.Tool, State.Valid;
    var c1 := CallStep(c, n);
    ShownFields(c, k, c1);
    ShownTarget(c, k, c1.text);
    ShownFields(c.(text := c1.text), k, c1);
    if n.tag == TOOL_ID { ShownId(c, k, Unquoted(TrimTrailing(n.text))); }
  }

  lemma {:induction false} RunShown(c: Call, k: Naming, nodes: seq<Node>)
    requires Proper(k) && AllInner(nodes)
    ensures RunSafe(Shown(c, k), nodes) && Run(Shown(c, k), nodes) == Shown(CallRun(c, nodes), k)
    decreases |nodes|
  {
    hide MapNode, CallStep, Shown;
    ShownTarget(c, k, "");
    if nodes != [] {
      StepShown(c, k, nodes[0]);
      RunShown(CallStep(c, nodes[0]), k, nodes[1..]);
    }
  }

  lemma RunFirst(s: State, n: Node, nodes: seq<Node>)
    requires Safe(s, n) && RunSafe(MapNode(s, n), nodes)
    ensures RunSafe(s, [n] + nodes) && Run(s, [n] + nodes) == Run(MapNode(s, n), nodes)
  {
    hide MapNode;
    assert ([n] + nodes)[1..] == nodes;
  }

  lemma {:induction false} RunPrefix(s: State, a: seq<Node>, b: seq<Node>)
    requires RunSafe(s, a) && RunSafe(s, a + b)
    ensures RunSafe(Run(s, a), b) && Run(s, a + b) == Run(Run(s, a), b)
    decreases |a|
  {
    hide MapNode;
    if a == [] {
      assert a + b == b;
    } else {
      assert (a + b)[1..] == a[1..] + b && (a + b)[0] == a[0];
      RunPrefix(MapNode(s, a[0]), a[1..], b);
    }
  }

  lemma RunEmpty(s: State)
    requires s.Valid()
    ensures RunSafe(s, []) && Run(s, []) == s
  {}

  // ---------- how the text depends on how it began ----------

  /** The text that was begun empty against the text that was begun with the brace: not written yet,
      the same, or without the brace because a value came first. */
  datatype Progress = Fresh | Same | Off

  function After(p: Progress, n: Node): Progress {
    match p
    case Fresh => if Starts(n) then Same else if WritesValue(n) then Off else Fresh
    case Same => Same
    case Off => if IsObject(n) then Same else Off
  }

  function AfterAll(p: Progress, nodes: seq<Node>): Progress
    decreases |nodes|
  {
    if nodes == [] then p else AfterAll(After(p, nodes[0]), nodes[1..])
  }

  predicate Compares(c: Call, d: Call, p: Progress) {
    d == c.(text := d.text) && TextsCompare(c.text, d.text, p) && (p == Fresh ==> !c.closing)
  }

  predicate TextsCompare(x: string, y: string, p: Progress) {
    match p
    case Fresh => x == "" && y == "{"
    case Same => x == y != ""
    case Off => x != "" && y == "{" + x
  }

  /** Appending the same text to both. */
  lemma AppendBoth(x: string, y: string, p: Progress, v: string)
    requires TextsCompare(x, y, p)
    ensures TextsCompare(x + v, y + v, if p == Fresh && v != "" then Off else p)
  {
    assert x + "" == x && y + "" == y && "" + v == v && ("{" + x) + v == "{" + (x + v);
    assert v != "" ==> (x + v)[|x|] == v[0];
  }

  lemma KeyBoth(x: string, y: string, p: Progress, e: string)
    requires TextsCompare(x, y, p)
    ensures TextsCompare((if x == "" then "{" else x) + e, (if y == "" then "{" else y) + e, if p == Fresh then Same else p)
  {
    if p == Fresh { assert ("{" + e)[0] == '{'; } else { AppendBoth(x, y, p, e); }
  }

  lemma NormalizeNonEmpty(text: string)
    requires text != ""
    ensures Normalize(text) != ""
  {
    hide Step;
  }

  lemma ValueNonEmpty(n: Node, closing: bool)
    requires n.tag == ARG_VALUE || n.tag == ARG_STRING_VALUE
    ensures WritesValue(n) <==> ValueText(n, closing).0 != ""
    ensures !WritesValue(n) ==> ValueText(n, closing).1 == closing
  {
    hide Normalize;
    if n.text != "" { NormalizeNonEmpty(n.text); }
  }

  lemma CompareStep(c: Call, d: Call, p: Progress, n: Node)
    requires Compares(c, d, p)
    ensures Compares(CallStep(c, n), CallStep(d, n), After(p, n))
  {
    hide TrimTrailing, Unquoted, ValueText, ArgEntry, TextsCompare;
    TextStep(c, d, p, n);
    hide NextText, Starts, WritesValue;
    if p == Fresh { StaysOpen(n); }
  }

  lemma StaysOpen(n: Node)
    ensures !WritesValue(n) ==> !NextClosing(false, n)
  {
    hide ValueText;
    if n.tag == ARG_VALUE || n.tag == ARG_STRING_VALUE { ValueNonEmpty(n, false); }
  }

  lemma TextStep(c: Call, d: Call, p: Progress, n: Node)
    requires Compares(c, d, p)
    ensures TextsCompare(NextText(c, n), NextText(d, n), After(p, n))
  {
    hide TrimTrailing, ValueText, ArgEntry, TextsCompare;
    if IsObject(n) {
      SameObject(TrimTrailing(n.text));
    } else if n.tag == ARG_NAME {
      KeyBoth(c.text, d.text, p, ArgEntry(c.count, n.text));
    } else if n.tag == ARG_VALUE || n.tag == ARG_STRING_VALUE {
      ValueNonEmpty(n, c.closing);
      AppendBoth(c.text, d.text, p, ValueText(n, c.closing).0);
    } else if n.tag == ARG_CLOSE && c.closing {
      AppendBoth(c.text, d.text, p, "\"");
    }
  }

  lemma SameObject(t: string)
    requires t != ""
    ensures TextsCompare(t, t, Same)
  {}

  lemma {:induction false} CompareRun(c: Call, d: Call, p: Progress, nodes: seq<Node>)
    requires Compares(c, d, p)
    ensures Compares(CallRun(c, nodes), CallRun(d, nodes), AfterAll(p, nodes))
    decreases |nodes|
  {
    hide CallStep, After, Compares;
    if nodes != [] {
      CompareStep(c, d, p, nodes[0]);
      CompareRun(CallStep(c, nodes[0]), CallStep(d, nodes[0]), After(p, nodes[0]), nodes[1..]);
    }
  }

  /** The progress in terms of the nodes alone. */
  lemma {:induction false} ProgressMeaning(p: Progress, nodes: seq<Node>)
    ensures var q := AfterAll(p, nodes);
      && (q == Fresh <==> p == Fresh && Untouched(nodes))
      && (q == Off <==> !Replaced(nodes) && (p == Off || (p == Fresh && !Orderly(nodes))))
    decreases |nodes|
  {
    hide IsObject, WritesValue;
    if nodes != [] {
      var n, rest := nodes[0], nodes[1..];
      ProgressMeaning(After(p, n), rest);
      FirstAndRest(nodes);
      StartsNotValue(n);
    }
  }

  lemma FirstAndRest(nodes: seq<Node>)
    requires nodes != []
    ensures var n, rest := nodes[0], nodes[1..];
      && (Untouched(nodes) <==> !Starts(n) && !WritesValue(n) && Untouched(rest))
      && (Replaced(nodes) <==> IsObject(n) || Replaced(rest))
      && (Orderly(nodes) <==> !WritesValue(n) && (Starts(n) || Orderly(rest)))
  {
    hide IsObject, WritesValue, Starts;
    var n, rest := nodes[0], nodes[1..];
    assert forall k :: 0 <= k < |rest| ==> rest[k] == nodes[k + 1];
    assert forall k :: 0 < k < |nodes| ==> nodes[k] == rest[k - 1];
    StartsNotValue(n);
    forall k | 0 <= k < |rest| ensures Begun(nodes, k + 1) <==> Starts(n) || Begun(rest, k) { BegunRest(nodes, k); }
    if Orderly(nodes) {
      assert !WritesValue(n) by { assert !Begun(nodes, 0); }
      if !Starts(n) {
        forall k | 0 <= k < |rest| && WritesValue(rest[k]) ensures Begun(rest, k) { assert Begun(nodes, k + 1); }
      }
    } else {
      var k :| 0 <= k < |nodes| && WritesValue(nodes[k]) && !Begun(nodes, k);
      if k > 0 { assert WritesValue(rest[k - 1]) && !Begun(rest, k - 1) && !Starts(n); }
    }
  }

  lemma StartsNotValue(n: Node)
    ensures !(Starts(n) && WritesValue(n))
  {}

  lemma BegunRest(nodes: seq<Node>, k: nat)
    requires k < |nodes|
    ensures Begun(nodes, k + 1) <==> Starts(nodes[0]) || Begun(nodes[1..], k)
  {
    var rest := nodes[1..];
    if Begun(rest, k) {
      var j :| 0 <= j < k && Starts(rest[j]);
      assert Starts(nodes[j + 1]);
    }
    if Begun(nodes, k + 1) && !Starts(nodes[0]) {
      var j :| 0 <= j < k + 1 && Starts(nodes[j]);
      assert Starts(rest[j - 1]);
    }
  }

  // ---------- the name node ----------

  function NameFirst(text: string, inner: seq<Node>): seq<Node> {
    [Node(TOOL_OPEN, ""), Node(TOOL_NAME, text)] + inner
  }

  function NameLast(text: string, inner: seq<Node>): seq<Node> {
    [Node(TOOL_OPEN, "")] + inner + [Node(TOOL_NAME, text)]
  }

  function Opened(s: State): Call {
    Call(s.msg.content, s.msg.reasoning, s.msg.calls, "", "", 0, false)
  }

  function NamingOf(text: string): (k: Naming)
    ensures Proper(k)
  {
    if TrimTrailing(text) == "" then Blank else Named(TrimTrailing(text))
  }

  /** The state after the name node has come at the end. */
  lemma NameAtEnd(c: Call, text: string)
    ensures var s, n := Shown(c, Early), Node(TOOL_NAME, text);
      && Safe(s, n)
      && MapNode(s, n) == Shown(c, Early).(
           msg := Message(c.content, c.reasoning,
                          c.earlier + [ToolCall(TrimTrailing(text), if c.text == "" then "{" else c.text, c.id)]),
           pending := None, current := Last, argsBuffer := "")
  {
    hide TrimTrailing;
  }

  lemma OpenAndName(s: State, text: string)
    requires s.Valid()
    ensures Safe(s, Node(TOOL_OPEN, "")) && MapNode(s, Node(TOOL_OPEN, "")) == Shown(Opened(s), Early)
    ensures var x := Shown(Opened(s), Early);
      && Safe(x, Node(TOOL_NAME, text))
      && MapNode(x, Node(TOOL_NAME, text)) ==
           Shown(if NamingOf(text) == Blank then Opened(s) else Opened(s).(text := "{"), NamingOf(text))
  {
    hide TrimTrailing;
  }

  lemma RunNameFirst(s: State, text: string, inner: seq<Node>)
    requires s.Valid() && AllInner(inner)
    ensures var k := NamingOf(text);
      && RunSafe(s, NameFirst(text, inner))
      && Run(s, NameFirst(text, inner)) ==
           Shown(CallRun(if k == Blank then Opened(s) else Opened(s).(text := "{"), inner), k)
  {
    hide MapNode, Run, RunSafe, Shown, CallRun, AllInner, TrimTrailing, State.Valid;
    var open, name, k := Node(TOOL_OPEN, ""), Node(TOOL_NAME, text), NamingOf(text);
    OpenAndName(s, text);
    RunShown(if k == Blank then Opened(s) else Opened(s).(text := "{"), k, inner);
    RunFirst(Shown(Opened(s), Early), name, inner);
    RunFirst(s, open, [name] + inner);
    assert NameFirst(text, inner) == [open] + ([name] + inner);
  }

  lemma RunNameLast(s: State, text: string, inner: seq<Node>)
    requires s.Valid() && AllInner(inner)
    ensures var x := Shown(CallRun(Opened(s), inner), Early);
      && RunSafe(s, NameLast(text, inner)) && Safe(x, Node(TOOL_NAME, text))
      && Run(s, NameLast(text, inner)) == MapNode(x, Node(TOOL_NAME, text))
  {
    hide MapNode, Run, RunSafe, Shown, CallRun, AllInner, TrimTrailing, State.Valid;
    var open, name := Node(TOOL_OPEN, ""), Node(TOOL_NAME, text);
    OpenAndName(s, text);
    var x0 := Shown(Opened(s), Early);
    RunShown(Opened(s), Early, inner);
    var c := CallRun(Opened(s), inner);
    NameAtEnd(c, text);
    var x := Shown(c, Early);
    RunEmpty(MapNode(x, name));
    RunFirst(x, name, []);
    assert [name] + [] == [name];
    RunConcat(x0, inner, [name]);
    RunFirst(s, open, inner + [name]);
    assert NameLast(text, inner) == [open] + (inner + [name]);
  }

  /** Open, name, argument nodes — and open, argument nodes, name — leave the mapper in the same state
      exactly when, for a name that is not blank, no value text came before the text was begun or a
      whole object replaced it; for a blank name, when no node wrote argument text. */
  lemma NamePositionExactly(s: State, text: string, inner: seq<Node>)
    requires s.Valid() && AllInner(inner)
    ensures RunSafe(s, NameFirst(text, inner)) && RunSafe(s, NameLast(text, inner))
    ensures Run(s, NameLast(text, inner)) == Run(s, NameFirst(text, inner)) <==>
      if TrimTrailing(text) == "" then Untouched(inner) else Orderly(inner) || Replaced(inner)
  {
    hide MapNode, Run, RunSafe, CallRun, AllInner, TrimTrailing, Untouched, Orderly, Replaced, CallStep;
    RunNameFirst(s, text, inner);
    RunNameLast(s, text, inner);
    var c0 := Opened(s);
    var c, d := CallRun(c0, inner), CallRun(c0.(text := "{"), inner);
    CompareRun(c0, c0.(text := "{"), Fresh, inner);
    ProgressMeaning(Fresh, inner);
    NameAtEnd(c, text);
    NamedEquals(c, d, AfterAll(Fresh, inner), NamingOf(text));
  }

  lemma NamedEquals(c: Call, d: Call, p: Progress, k: Naming)
    requires Compares(c, d, p) && Proper(k) && k != Early
    ensures var t := Shown(c, Early).(
           msg := Message(c.content, c.reasoning,
                          c.earlier + [ToolCall(if k == Blank then "" else k.name, if c.text == "" then "{" else c.text, c.id)]),
           pending := None, current := Last, argsBuffer := "");
      t == Shown(if k == Blank then c else d, k) <==> if k == Blank then p == Fresh else p != Off
  {
    var a := ToolCall(if k == Blank then "" else k.name, if c.text == "" then "{" else c.text, c.id);
    var b := if k == Blank then ToolCall("", "{", c.id) else ToolCall(k.name, d.text, d.id);
    assert (c.earlier + [a])[|c.earlier|] == a && (c.earlier + [b])[|c.earlier|] == b;
    if p == Off { assert |d.text| == |c.text| + 1; }
  }

  /** With any rest of the parse after them, the two orders then stay together. */
  lemma NamePositionIrrelevant(s: State, text: string, inner: seq<Node>, rest: seq<Node>)
    requires s.Valid() && AllInner(inner)
    requires if TrimTrailing(text) == "" then Untouched(inner) else Orderly(inner) || Replaced(inner)
    requires RunSafe(s, NameFirst(text, inner) + rest)
    ensures RunSafe(s, NameLast(text, inner) + rest)
    ensures Run(s, NameLast(text, inner) + rest) == Run(s, NameFirst(text, inner) + rest)
  {
    hide MapNode, Run, RunSafe, AllInner, TrimTrailing, Untouched, Orderly, Replaced;
    NamePositionExactly(s, text, inner);
    RunPrefix(s, NameFirst(text, inner), rest);
    RunConcat(s, NameLast(text, inner), rest);
  }

  function BlankNamed(arguments: string, count: nat, buffer: string): State {
    State(EMPTY_MESSAGE.(calls := [ToolCall("", arguments, "")]), None, Last, count, buffer, false)
  }

  function Unnamed(count: nat, buffer: string): State {
    State(EMPTY_MESSAGE, Some(EMPTY_CALL), Pending, count, buffer, false)
  }

  lemma BlankNameSteps(k: string, count: nat, text: string)
    requires text != ""
    ensures MapNode(INITIAL, Node(TOOL_OPEN, "")) == Unnamed(0, "")
    ensures MapNode(Unnamed(0, ""), Node(ARG_NAME, k)) == Unnamed(1, "{" + ArgEntry(0, k))
    ensures MapNode(Unnamed(0, ""), Node(TOOL_NAME, "")) == BlankNamed("{", 0, "")
    ensures MapNode(Unnamed(1, text), Node(TOOL_NAME, "")) == BlankNamed(text, 1, "")
    ensures MapNode(BlankNamed(text, count, ""), Node(ARG_NAME, k)) == BlankNamed(text, count + 1, "{" + ArgEntry(count, k))
  {
    hide ArgEntry, CloseTool;
  }

  lemma BlankNameEnds(k: string, arguments: string, text: string)
    requires text != ""
    ensures MapNode(BlankNamed("{", 1, text), Node(ARG_NAME, k)) == BlankNamed("{", 2, text + ArgEntry(1, k))
    ensures MapNode(BlankNamed(arguments, 2, text), Node(TOOL_CLOSE, "")) == BlankNamed(CloseBraces(text), 2, "")
  {
    hide ArgEntry, CloseBraces;
  }

  /** A call with a blank name and two keys, the name before or between them. */
  function BlankCall(k1: string, k2: string, between: bool): seq<Node> {
    var a, name := Node(ARG_NAME, k1), Node(TOOL_NAME, "");
    [Node(TOOL_OPEN, "")] + (if between then [a, name] else [name, a]) + [Node(ARG_NAME, k2), Node(TOOL_CLOSE, "")]
  }

  /** With a blank name the buffer moved by the name node is overwritten by the next argument, so
      the position does matter: of two keys around the name the first one is lost. */
  lemma BlankNameLosesArguments(k1: string, k2: string)
    ensures RunSafe(INITIAL, BlankCall(k1, k2, true)) && RunSafe(INITIAL, BlankCall(k1, k2, false))
    ensures Run(INITIAL, BlankCall(k1, k2, true)).msg.calls == [ToolCall("", CloseBraces("{" + ArgEntry(1, k2)), "")]
    ensures Run(INITIAL, BlankCall(k1, k2, false)).msg.calls ==
      [ToolCall("", CloseBraces("{" + ArgEntry(0, k1) + ArgEntry(1, k2)), "")]
  {
    hide ArgEntry, CloseBraces, MapNode, RunSafe, Run;
    var open, name, close := Node(TOOL_OPEN, ""), Node(TOOL_NAME, ""), Node(TOOL_CLOSE, "");
    var a, b := Node(ARG_NAME, k1), Node(ARG_NAME, k2);
    var t1, t2 := "{" + ArgEntry(0, k1), "{" + ArgEntry(1, k2);
    BlankNameSteps(k1, 0, "{");
    BlankNameSteps(k2, 1, t1);
    BlankNameEnds(k2, t1, t2);
    BlankNameEnds(k2, "{", t1);
    BlankNameEnds(k2, "{", t1 + ArgEntry(1, k2));
    assert BlankCall(k1, k2, true) == [open, a, name, b, close] && BlankCall(k1, k2, false) == [open, name, a, b, close];
    RunFive(INITIAL, [open, a, name, b, close], Unnamed(0, ""), Unnamed(1, t1), BlankNamed(t1, 1, ""), BlankNamed(t1, 2, t2));
    RunFive(INITIAL, [open, name, a, b, close], Unnamed(0, ""), BlankNamed("{", 0, ""), BlankNamed("{", 1, t1),
            BlankNamed("{", 2, t1 + ArgEntry(1, k2)));
  }

  predicate StepsTo(s: State, n: Node, t: State) {
    Safe(s, n) && MapNode(s, n) == t
  }

  lemma RunFive(s: State, n: seq<Node>, s1: State, s2: State, s3: State, s4: State)
    requires |n| == 5 && StepsTo(s, n[0], s1) && StepsTo(s1, n[1], s2) && StepsTo(s2, n[2], s3) && StepsTo(s3, n[3], s4)
    requires Safe(s4, n[4])
    ensures RunSafe(s, n) && Run(s, n) == MapNode(s4, n[4])
  {
    hide MapNode, RunSafe, Run;
    RunEmpty(MapNode(s4, n[4]));
    RunFirst(s4, n[4], []);
    assert [n[4]] + [] == [n[4]];
    RunFirst(s3, n[3], [n[4]]);
    RunFirst(s2, n[2], [n[3]] + [n[4]]);
    RunFirst(s1, n[1], [n[2]] + ([n[3]] + [n[4]]));
    RunFirst(s, n[0], [n[1]] + ([n[2]] + ([n[3]] + [n[4]])));
    assert n == [n[0]] + ([n[1]] + ([n[2]] + ([n[3]] + [n[4]])));
  }
}
