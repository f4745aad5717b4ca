/** Assembling tool calls from the tagged nodes of a parse: arguments are buffered until the tool's
    name is known and closed when the call ends. */
module PegMapper {
  import opened Wrappers
  import opened Messages
  import opened JsonText
  import opened QuoteNormalizer

  datatype Tag =
    | REASONING | CONTENT
    | TOOL_OPEN | TOOL_CLOSE | TOOL_ID | TOOL_NAME | TOOL_ARGS
    | ARG_OPEN | ARG_CLOSE | ARG_NAME | ARG_VALUE | ARG_STRING_VALUE
    | OTHER

  datatype Node = Node(tag: Tag, text: string)

  // ---------- trimming ----------

  predicate IsSpace(c: char) {
    c == ' ' || c == '\t' || c == '\n' || c == '\U{B}' || c == '\U{C}' || c == '\r'
  }

  function TrimTrailing(s: string): (r: string)
    ensures r <= s
    decreases |s|
  {
    if s != "" && IsSpace(s[|s| - 1]) then TrimTrailing(s[..|s| - 1]) else s
  }

  /** At most one leading space character goes, then all trailing ones. */
  function Trim(s: string): string {
    TrimTrailing(if s != "" && IsSpace(s[0]) then s[1..] else s)
  }

  function Unquoted(s: string): string {
    if |s| >= 2 && s[0] == '"' && s[|s| - 1] == '"' then s[1..|s| - 1] else s
  }

  // ---------- the state ----------

  /** Where current_tool points: nowhere, at the pending call, at the last reported call, or at the
      storage of a pending call that is gone. */
  datatype Pointer = NoTool | Pending | Last | Gone

  datatype State = State(
    msg: Message, pending: Option<ToolCall>, current: Pointer,
    argCount: nat, argsBuffer: string, closing: bool)
  {
    predicate Valid() {
      && (current == Pending <==> pending.Some?)
      && (current == Last ==> msg.calls != [])
      && (pending.Some? ==> pending.value.name == "")
    }

    predicate HasTool() { current == Pending || current == Last }

    function Tool(): ToolCall
      requires Valid() && HasTool()
    {
      if current == Pending then pending.value else msg.calls[|msg.calls| - 1]
    }

    function WithTool(c: ToolCall): State
      requires Valid() && HasTool()
    {
      if current == Pending then this.(pending := Some(c))
      else this.(msg := msg.(calls := msg.calls[|msg.calls| - 1 := c]))
    }

    /** The text that argument nodes are written to. */
    function Target(): string
      requires Valid() && HasTool()
    {
      if Tool().name != "" then Tool().arguments else argsBuffer
    }

    function WithTarget(t: string): State
      requires Valid() && HasTool()
    {
      if Tool().name != "" then WithTool(Tool().(arguments := t)) else this.(argsBuffer := t)
    }
  }

  /** Whether a node of this tag reads current_tool when it is set. */
  predicate Touches(t: Tag) {
    t != REASONING && t != CONTENT && t != TOOL_OPEN && t != ARG_OPEN && t != OTHER
  }

  /** The node does not follow current_tool into a pending call that no longer exists. */
  predicate Safe(s: State, n: Node) {
    s.Valid() && !(s.current == Gone && Touches(n.tag))
  }

  function ArgEntry(argCount: nat, key: string): string {
    (if argCount > 0 then "," else "") + Dump(Trim(key)) + ":"
  }

  /** What a value node appends, and whether a closing quote is then pending. */
  function ValueText(n: Node, closing: bool): (string, bool) {
    if n.tag == ARG_STRING_VALUE then
      if n.text == "" then ("\"", true)
      else ((if closing then "" else "\"") + Escape(n.text), true)
    else if n.text != "" then (Normalize(n.text), closing)
    else ("", closing)
  }

  function Max0(d: int): nat { if d > 0 then d else 0 }

  function CloseBraces(text: string): string {
    text + Repeat('}', Max0(ScanText(OUTSIDE, text).depth))
  }

  function NameTool(s: State, text: string): State
    requires s.Valid() && s.HasTool()
  {
    var t := s.Tool().(name := TrimTrailing(text));
    var named :=
      if s.argsBuffer != "" then t.(arguments := s.argsBuffer)
      else if t.arguments == "" then t.(arguments := "{")
      else t;
    var s1 := s.(argsBuffer := "");
    if s.current == Pending then
      s1.(pending := None, current := Last, msg := s.msg.(calls := s.msg.calls + [named]))
    else s1.WithTool(named)
  }

  function CloseTool(s: State): State
    requires s.Valid() && s.HasTool()
  {
    var t0 := s.Tool();
    var flush := t0.name == "" && s.argsBuffer != "";
    var a0 := if flush then s.argsBuffer else t0.arguments;
    var a1 := if s.closing then a0 + "\"" else a0;
    var s1 := s.(closing := false, argsBuffer := if flush then "" else s.argsBuffer);
    if s.current == Pending then s1.(pending := None, current := Gone)  // never named: discarded
    else s1.WithTool(t0.(arguments := CloseBraces(a1)))
  }

  /** A node that concerns the current tool call. */
  function ToolStep(s: State, n: Node): (r: State)
    requires s.Valid() && s.HasTool()
    ensures r.Valid()
  {
    if n.tag == TOOL_ID then s.WithTool(s.Tool().(id := Unquoted(TrimTrailing(n.text))))
    else if n.tag == TOOL_NAME then NameTool(s, n.text)
    else if n.tag == TOOL_ARGS then
      var text := TrimTrailing(n.text);
      if text != "" && text[0] == '{' then s.WithTarget(text) else s
    else if n.tag == ARG_NAME then
      s.WithTarget((if s.Target() == "" then "{" else s.Target()) + ArgEntry(s.argCount, n.text))
       .(argCount := s.argCount + 1)
    else if n.tag == ARG_VALUE || n.tag == ARG_STRING_VALUE then
      var v := ValueText(n, s.closing);
      s.WithTarget(s.Target() + v.0).(closing := v.1)
    else if n.tag == ARG_CLOSE then
      if s.closing then s.WithTarget(s.Target() + "\"").(closing := false) else s
    else if n.tag == TOOL_CLOSE then CloseTool(s)
    else s
  }

  function MapNode(s: State, n: Node): (r: State)
    requires Safe(s, n)
    ensures r.Valid()
  {
    if n.tag == REASONING then s.(msg := s.msg.(reasoning := s.msg.reasoning + n.text))
    else if n.tag == CONTENT then s.(msg := s.msg.(content := s.msg.content + n.text))
    else if n.tag == TOOL_OPEN then
      s.(pending := Some(EMPTY_CALL), current := Pending, argCount := 0, argsBuffer := "", closing := false)
    else if n.tag == ARG_OPEN then s.(closing := false)
    else if s.HasTool() then ToolStep(s, n)
    else s
  }

  /** Counters and flags may be set before or after the argument text. */
  lemma SetBefore(s: State, t: string, argCount: nat, closing: bool)
    requires s.Valid() && s.HasTool()
    ensures var s1 := s.(argCount := argCount, closing := closing);
      && s1.Valid() && s1.HasTool() && s1.Target() == s.Target()
      && s1.WithTarget(t) == s.WithTarget(t).(argCount := argCount, closing := closing)
      && s.WithTarget(t).argCount == s.argCount && s.WithTarget(t).closing == s.closing
  {}

  // ---------- the mapper object ----------

  class Mapper {
    var msg: Message
    var pendingToolCall: Option<ToolCall>
    var currentTool: Pointer
    var argCount: nat
    var argsBuffer: string
    var closingQuotePending: bool

    constructor ()
      ensures Now() == INITIAL
    {
      msg, pendingToolCall, currentTool := EMPTY_MESSAGE, None, NoTool;
      argCount, argsBuffer, closingQuotePending := 0, "", false;
    }

    function Now(): State
      reads this
    {
      State(msg, pendingToolCall, currentTool, argCount, argsBuffer, closingQuotePending)
    }

    /** The call that currentTool points to. */
    function Tool(): (c: ToolCall)
      requires Now().Valid() && Now().HasTool()
      reads this
      ensures c == Now().Tool()
    {
      if currentTool == Pending then pendingToolCall.value else msg.calls[|msg.calls| - 1]
    }

    method SetTool(c: ToolCall)
      requires Now().Valid() && Now().HasTool()
      modifies this`msg, this`pendingToolCall
      ensures Now() == old(Now()).WithTool(c)
    {
      if currentTool == Pending {
        pendingToolCall := Some(c);
      } else {
        msg := msg.(calls := msg.calls[|msg.calls| - 1 := c]);
      }
    }

    /** Appends to the argument text, in the buffer until the tool has a name. */
    method Append(text: string)
      requires Now().Valid() && Now().HasTool()
      modifies this`msg, this`pendingToolCall, this`argsBuffer
      ensures Now() == old(Now()).WithTarget(old(Now()).Target() + text)
    {
      if Tool().name != "" {
        SetTool(Tool().(arguments := Tool().arguments + text));
      } else {
        argsBuffer := argsBuffer + text;
      }
    }

    /** Overwrites the argument text. */
    method Assign(text: string)
      requires Now().Valid() && Now().HasTool()
      modifies this`msg, this`pendingToolCall, this`argsBuffer
      ensures Now() == old(Now()).WithTarget(text)
    {
      if Tool().name != "" {
        SetTool(Tool().(arguments := text));
      } else {
        argsBuffer := text;
      }
    }

    /** The name node: buffered arguments move to the call and the call is reported. */
    method SetName(text: string)
      requires Now().Valid() && Now().HasTool()
      modifies this`msg, this`pendingToolCall, this`currentTool, this`argsBuffer
      ensures Now() == NameTool(old(Now()), text)
    {
      var t := Tool().(name := TrimTrailing(text));
      if argsBuffer != "" {
        t := t.(arguments := argsBuffer);
        argsBuffer := "";
      } else if t.arguments == "" {
        t := t.(arguments := "{");
      }
      if currentTool == Pending {
        msg := msg.(calls := msg.calls + [t]);
        pendingToolCall := None;
        currentTool := Last;
      } else {
        msg := msg.(calls := msg.calls[|msg.calls| - 1 := t]);
      }
    }

    /** The close node: flush, close an open string, close the open braces. */
    method Close()
      requires Now().Valid() && Now().HasTool()
      modifies this`msg, this`pendingToolCall, this`currentTool, this`argsBuffer, this`closingQuotePending
      ensures Now() == CloseTool(old(Now()))
    {
      var t := Tool();
      if t.name == "" && argsBuffer != "" {
        t := t.(arguments := argsBuffer);
        argsBuffer := "";
      }
      if closingQuotePending {
        t := t.(arguments := t.arguments + "\"");
        closingQuotePending := false;
      }
      var closed := AppendClosers(t.arguments);
      t := t.(arguments := closed);
      if currentTool == Pending {
        pendingToolCall := None;
        currentTool := Gone;
      } else {
        msg := msg.(calls := msg.calls[|msg.calls| - 1 := t]);
      }
    }

    /** One node of the parse. */
    method Map(node: Node)
      requires Safe(Now(), node)
      modifies this
      ensures Now() == MapNode(old(Now()), node)
    {
      if node.tag == REASONING {
        msg := msg.(reasoning := msg.reasoning + node.text);
      }
      if node.tag == CONTENT {
        msg := msg.(content := msg.content + node.text);
      }
      if node.tag == TOOL_OPEN {
        pendingToolCall, currentTool := Some(EMPTY_CALL), Pending;
        argCount, argsBuffer, closingQuotePending := 0, "", false;
      }
      if node.tag == ARG_OPEN {
        closingQuotePending := false;
      }
      if currentTool == Pending || currentTool == Last {
        MapTool(node);
      }
    }

    /** The kinds of node that need a current tool call. */
    method MapTool(node: Node)
      requires Now().Valid() && Now().HasTool()
      modifies this
      ensures Now() == ToolStep(old(Now()), node)
    {
      hide CloseTool, NameTool, TrimTrailing, ArgEntry, ValueText, Unquoted, Escape;
      hide State.WithTool, State.WithTarget, State.Target, State.Tool, Mapper.Tool;
      if node.tag == TOOL_ID {
        SetTool(Tool().(id := Unquoted(TrimTrailing(node.text))));
      } else if node.tag == TOOL_NAME {
        SetName(node.text);
      } else if node.tag == TOOL_ARGS {
        var text := TrimTrailing(node.text);
        if text != "" && text[0] == '{' {
          Assign(text);
        }
      } else if node.tag == ARG_NAME {
        var entry := ArgEntry(argCount, node.text);
        var text := (if Now().Target() == "" then "{" else Now().Target()) + entry;
        SetBefore(Now(), text, argCount + 1, closingQuotePending);
        argCount := argCount + 1;
        Assign(text);
      } else if node.tag == ARG_VALUE || node.tag == ARG_STRING_VALUE {
        var (toAdd, closing) := ValueText(node, closingQuotePending);
        SetBefore(Now(), Now().Target() + toAdd, argCount, closing);
        closingQuotePending := closing;
        Append(toAdd);
      } else if node.tag == ARG_CLOSE {
        if closingQuotePending {
          Append("\"");
          closingQuotePending := false;
        }
      } else if node.tag == TOOL_CLOSE {
        Close();
      }
    }

    /** A whole parse: every node, then the final clean-up. */
    method FromAst(nodes: seq<Node>)
      requires RunSafe(Now(), nodes)
      modifies this
      ensures Now() == Finished(Flushed(Run(old(Now()), nodes)))
    {
      for i := 0 to |nodes|
        invariant RunSafe(Now(), nodes[i..])
        invariant Run(Now(), nodes[i..]) == Run(old(Now()), nodes)
      {
        assert nodes[i..][1..] == nodes[i + 1..];
        Map(nodes[i]);
      }
      Flush();
      if msg.reasoning != "" {
        var allWhitespace := IsAllSpace(msg.reasoning);
        if allWhitespace {
          msg := msg.(reasoning := "");
        }
      }
    }

    /** Reports a pending call that has a name already. */
    method Flush()
      modifies this
      ensures Now() == Flushed(old(Now()))
    {
      if pendingToolCall.Some? && pendingToolCall.value.name != "" {
        var t := pendingToolCall.value;
        if argsBuffer != "" {
          t := t.(arguments := argsBuffer);
        }
        if closingQuotePending && t.arguments != "" {
          t := t.(arguments := t.arguments + "\"");
        }
        msg := msg.(calls := msg.calls + [t]);
        pendingToolCall := None;
      }
    }
  }

  /** Appends one closing brace for each unclosed one. */
  method AppendClosers(text: string) returns (r: string)
    ensures r == CloseBraces(text)
  {
    r := text;
    var d := JsonBraceDepth(text);
    while d > 0
      invariant r + Repeat('}', Max0(d)) == CloseBraces(text)
    {
      assert Repeat('}', d) == "}" + Repeat('}', d - 1);
      r := r + "}";
      d := d - 1;
    }
    assert r + "" == r;
  }

  method IsAllSpace(s: string) returns (allWhitespace: bool)
    ensures allWhitespace == AllSpace(s)
  {
    for i := 0 to |s|
      invariant AllSpace(s[..i])
    {
      if s[i] != ' ' && s[i] != '\n' && s[i] != '\r' && s[i] != '\t' {
        return false;
      }
    }
    assert s[..|s|] == s;
    return true;
  }

  const INITIAL := State(EMPTY_MESSAGE, None, NoTool, 0, "", false)

  // ---------- runs ----------

  predicate RunSafe(s: State, nodes: seq<Node>)
    decreases |nodes|
  {
    s.Valid() && (nodes == [] || (Safe(s, nodes[0]) && RunSafe(MapNode(s, nodes[0]), nodes[1..])))
  }

  function Run(s: State, nodes: seq<Node>): (r: State)
    requires RunSafe(s, nodes)
    ensures r.Valid()
    decreases |nodes|
  {
    if nodes == [] then s else Run(MapNode(s, nodes[0]), nodes[1..])
  }

  predicate AllSpace(s: string) {
    forall k :: 0 <= k < |s| ==> s[k] == ' ' || s[k] == '\n' || s[k] == '\r' || s[k] == '\t'
  }

  /** Reports a pending call that already has a name. */
  function Flushed(s: State): State {
    if s.pending.Some? && s.pending.value.name != "" then
      var t := s.pending.value;
      var t1 := if s.argsBuffer != "" then t.(arguments := s.argsBuffer) else t;
      var t2 := if s.closing && t1.arguments != "" then t1.(arguments := t1.arguments + "\"") else t1;
      s.(msg := s.msg.(calls := s.msg.calls + [t2]), pending := None)
    else s
  }

  /** No run leaves a pending call with a name: naming a call reports it at once. */
  lemma FlushFindsNothing(nodes: seq<Node>)
    requires RunSafe(INITIAL, nodes)
    ensures Flushed(Run(INITIAL, nodes)) == Run(INITIAL, nodes)
  {
    assert Run(INITIAL, nodes).Valid();
  }

  /** Reasoning that is only white space is dropped. */
  function Finished(s: State): State {
    if s.msg.reasoning != "" && AllSpace(s.msg.reasoning) then s.(msg := s.msg.(reasoning := "")) else s
  }

  lemma {:induction false} RunConcat(s: State, a: seq<Node>, b: seq<Node>)
    requires RunSafe(s, a) && RunSafe(Run(s, a), b)
    ensures RunSafe(s, a + b) && Run(s, a + b) == Run(Run(s, a), b)
    decreases |a|
  {
    if a == [] {
      assert a + b == b;
    } else {
      assert (a + b)[1..] == a[1..] + b;
      RunConcat(MapNode(s, a[0]), a[1..], b);
    }
  }
}
