/** What a parse reports, said by the texts of its nodes and by what a JSON reader finds in the arguments. */
module MapperMeaning {
  import opened Wrappers
  import opened JsonText
  import opened JsonReader
  import opened PythonValues
  import opened PegMapper
  import opened ToolCallAssembly
  import QuoteNormalizer

  // ---------- contents and reasonings ----------

  /** The texts of the nodes with the tag, in order. */
  function Texts(nodes: seq<Node>, tag: Tag): string {
    if nodes == [] then "" else (if nodes[0].tag == tag then nodes[0].text else "") + Texts(nodes[1..], tag)
  }

  lemma StepTexts(s: State, n: Node)
    requires Safe(s, n)
    ensures var t := MapNode(s, n).msg;
      && t.content == s.msg.content + (if n.tag == CONTENT then n.text else "")
      && t.reasoning == s.msg.reasoning + (if n.tag == REASONING then n.text else "")
  {
    hide TrimTrailing, ArgEntry, ValueText, Unquoted, CloseBraces;
    assert s.msg.content + "" == s.msg.content && s.msg.reasoning + "" == s.msg.reasoning;
  }

  lemma {:induction false} RunTexts(s: State, nodes: seq<Node>)
    requires RunSafe(s, nodes)
    ensures Run(s, nodes).msg.content == s.msg.content + Texts(nodes, CONTENT)
    ensures Run(s, nodes).msg.reasoning == s.msg.reasoning + Texts(nodes, REASONING)
    decreases |nodes|
  {
    hide MapNode;
    if nodes == [] {
      assert s.msg.content + "" == s.msg.content && s.msg.reasoning + "" == s.msg.reasoning;
    } else {
      StepTexts(s, nodes[0]);
      RunTexts(MapNode(s, nodes[0]), nodes[1..]);
    }
  }

  /** The content of a parse is the texts of its content nodes; the reasoning is the texts of its reasoning nodes,
      unless these are nothing but blanks, newlines, returns and tabs. Either way the calls are those of the run. */
  lemma MessageTexts(nodes: seq<Node>)
    requires RunSafe(INITIAL, nodes)
    ensures var r, m := Texts(nodes, REASONING), Finished(Flushed(Run(INITIAL, nodes))).msg;
      && m.content == Texts(nodes, CONTENT)
      && m.reasoning == (if forall k :: 0 <= k < |r| ==> r[k] in " \n\r\t" then "" else r)
      && m.calls == Run(INITIAL, nodes).msg.calls
  {
    hide Run, RunSafe, AllSpace, Flushed;
    RunTexts(INITIAL, nodes);
    FlushFindsNothing(nodes);
    var r := Texts(nodes, REASONING);
    BlankIs(r);
    assert "" + r == r && "" + Texts(nodes, CONTENT) == Texts(nodes, CONTENT);
  }

  lemma BlankIs(r: string)
    ensures AllSpace(r) <==> forall k :: 0 <= k < |r| ==> r[k] in " \n\r\t"
  {
    forall k | 0 <= k < |r| ensures r[k] in " \n\r\t" <==> r[k] == ' ' || r[k] == '\n' || r[k] == '\r' || r[k] == '\t' {}
  }

  // ---------- which calls are reported ----------

  /** How many openings are followed by a name before they are closed and before the next opening. */
  function Named(nodes: seq<Node>, open: bool): nat {
    if nodes == [] then 0
    else
      match nodes[0].tag
      case TOOL_OPEN => Named(nodes[1..], true)
      case TOOL_NAME => (if open then 1 else 0) + Named(nodes[1..], false)
      case TOOL_CLOSE => Named(nodes[1..], false)
      case _ => Named(nodes[1..], open)
  }

  /** A node adds a call exactly when it names the one that was opened; a call before the last one never changes. */
  lemma StepCalls(s: State, n: Node)
    requires Safe(s, n)
    ensures var t, a, b := MapNode(s, n), s.msg.calls, MapNode(s, n).msg.calls;
      && (t.pending.Some? <==> n.tag == TOOL_OPEN || (s.pending.Some? && n.tag != TOOL_NAME && n.tag != TOOL_CLOSE))
      && |b| == |a| + (if s.pending.Some? && n.tag == TOOL_NAME then 1 else 0)
      && (forall k :: 0 <= k < |a| && k + 1 < |b| ==> b[k] == a[k])
  {
    hide TrimTrailing, ArgEntry, ValueText, Unquoted, CloseBraces;
  }

  lemma {:induction false} RunCalls(s: State, nodes: seq<Node>)
    requires RunSafe(s, nodes)
    ensures |Run(s, nodes).msg.calls| == |s.msg.calls| + Named(nodes, s.pending.Some?)
    decreases |nodes|
  {
    hide MapNode;
    if nodes != [] {
      StepCalls(s, nodes[0]);
      RunCalls(MapNode(s, nodes[0]), nodes[1..]);
    }
  }

  /** A parse reports one call for each opening that is named in time, and no other. */
  lemma CallsReported(nodes: seq<Node>)
    requires RunSafe(INITIAL, nodes)
    ensures |Finished(Flushed(Run(INITIAL, nodes))).msg.calls| == Named(nodes, false)
  {
    hide Run, RunSafe, Flushed;
    RunCalls(INITIAL, nodes);
    MessageTexts(nodes);
  }

  // ---------- trimming ----------

  /** Trailing white space goes, all of it and nothing else. */
  lemma {:induction false} TrimmedEnd(s: string)
    ensures var r := TrimTrailing(s);
      && r <= s && (r != "" ==> !IsSpace(r[|r| - 1]))
      && forall k :: |r| <= k < |s| ==> IsSpace(s[k])
    decreases |s|
  {
    if s != "" && IsSpace(s[|s| - 1]) { TrimmedEnd(s[..|s| - 1]); }
  }

  /** Of leading white space one character goes. */
  lemma TrimmedBoth(s: string)
    ensures s == "" || !IsSpace(s[0]) ==> Trim(s) == TrimTrailing(s)
    ensures s != "" && IsSpace(s[0]) ==> Trim(s) == TrimTrailing(s[1..])
  {}

  /** The spaces are those of the C locale. */
  lemma Spaces(c: char)
    ensures IsSpace(c) <==> c as int in {9, 10, 11, 12, 13, 32}
  {}

  /** Quotes around a text go, both or none. */
  lemma UnquotedIs(s: string, t: string)
    ensures s == "\"" + t + "\"" ==> Unquoted(s) == t
    ensures s == "" || s == "\"" || s[0] != '"' || s[|s| - 1] != '"' ==> Unquoted(s) == s
  {
    if s == "\"" + t + "\"" { assert s[1..|s| - 1] == t; }
  }

  // ---------- the id of a call ----------

  function WithId(s: State, id: string): State
    requires s.Valid() && s.HasTool()
  {
    s.WithTool(s.Tool().(id := id))
  }

  /** An id node sets the id of the call and nothing else; any other node of the call leaves it. */
  lemma IdStep(s: State, text: string)
    requires s.Valid() && s.HasTool()
    ensures MapNode(s, Node(TOOL_ID, text)) == WithId(s, Unquoted(TrimTrailing(text)))
  {}

  lemma IdTarget(s: State, t: string, id: string)
    requires s.Valid() && s.HasTool()
    ensures var i := WithId(s, id);
      && i.Valid() && i.HasTool() && i.Target() == s.Target() && i.argCount == s.argCount && i.closing == s.closing
      && s.WithTarget(t).Valid() && s.WithTarget(t).HasTool() && i.WithTarget(t) == WithId(s.WithTarget(t), id)
  {}

  lemma IdFlags(s: State, n: nat, closing: bool, id: string)
    requires s.Valid() && s.HasTool()
    ensures var t := s.(argCount := n, closing := closing);
      t.Valid() && t.HasTool() && WithId(t, id) == WithId(s, id).(argCount := n, closing := closing)
  {}

  lemma IdName(s: State, text: string, id: string)
    requires s.Valid() && s.HasTool()
    ensures WithId(s, id).Valid() && WithId(s, id).HasTool() && NameTool(s, text).Valid() && NameTool(s, text).HasTool()
    ensures NameTool(WithId(s, id), text) == WithId(NameTool(s, text), id)
  {
    hide TrimTrailing;
  }

  lemma IdClose(s: State, id: string)
    requires s.Valid() && s.current == Last
    ensures WithId(s, id).Valid() && WithId(s, id).current == Last && CloseTool(s).Valid() && CloseTool(s).HasTool()
    ensures CloseTool(WithId(s, id)) == WithId(CloseTool(s), id)
  {
    hide CloseBraces;
  }

  /** Writing argument text and setting the flags. */
  lemma IdWrites(s: State, t: string, n: nat, closing: bool, id: string)
    requires s.Valid() && s.current == Last
    ensures var i := WithId(s, id);
      && i.Valid() && i.HasTool() && i.current == Last && s.WithTarget(t).Valid() && s.WithTarget(t).current == Last
      && i.WithTarget(t).(argCount := n, closing := closing) == WithId(s.WithTarget(t).(argCount := n, closing := closing), id)
  {
    hide WithId, State.WithTarget;
    IdTarget(s, t, id);
    TargetStays(s, t);
    IdFlags(s.WithTarget(t), n, closing, id);
    IdValid(s, id);
  }

  lemma FlagsKept(s: State, t: string)
    requires s.Valid() && s.HasTool()
    ensures s.WithTarget(t).argCount == s.argCount && s.WithTarget(t).closing == s.closing
    ensures s.WithTarget(t) == s.WithTarget(t).(argCount := s.argCount, closing := s.closing)
  {}

  lemma IdWriting(s: State, n: Node, id: string)
    requires s.Valid() && s.current == Last
    requires n.tag == TOOL_ARGS || n.tag == ARG_NAME || n.tag == ARG_VALUE || n.tag == ARG_STRING_VALUE || n.tag == ARG_CLOSE
    ensures WithId(s, id).Valid() && WithId(s, id).current == Last && MapNode(s, n).current == Last
    ensures MapNode(WithId(s, id), n) == WithId(MapNode(s, n), id)
  {
    hide TrimTrailing, ArgEntry, ValueText, WithId, State.WithTarget, State.Target, State.WithTool, State.Tool;
    IdTarget(s, "", id);
    IdValid(s, id);
    var i := WithId(s, id);
    var text, key := TrimTrailing(n.text), (if s.Target() == "" then "{" else s.Target()) + ArgEntry(s.argCount, n.text);
    var v := ValueText(n, s.closing);
    if n.tag == TOOL_ARGS {
      IdWrites(s, text, s.argCount, s.closing, id);
      FlagsKept(s, text);
      FlagsKept(i, text);
    } else if n.tag == ARG_NAME {
      IdWrites(s, key, s.argCount + 1, s.closing, id);
      FlagsKept(s, key);
      FlagsKept(i, key);
    } else if n.tag == ARG_CLOSE {
      IdWrites(s, s.Target() + "\"", s.argCount, false, id);
      FlagsKept(s, s.Target() + "\"");
      FlagsKept(i, s.Target() + "\"");
    } else {
      IdWrites(s, s.Target() + v.0, s.argCount, v.1, id);
      FlagsKept(s, s.Target() + v.0);
      FlagsKept(i, s.Target() + v.0);
    }
  }

  lemma IdElsewhere(s: State, n: Node, id: string)
    requires s.Valid() && s.current == Last && (n.tag == REASONING || n.tag == CONTENT || n.tag == ARG_OPEN || n.tag == OTHER)
    ensures WithId(s, id).Valid() && WithId(s, id).current == Last && MapNode(s, n).current == Last
    ensures MapNode(WithId(s, id), n) == WithId(MapNode(s, n), id)
  {}

  lemma IdCommutes(s: State, n: Node, id: string)
    requires s.Valid() && s.current == Last && n.tag != TOOL_OPEN && n.tag != TOOL_ID
    ensures WithId(s, id).Valid() && WithId(s, id).current == Last && MapNode(s, n).current == Last
    ensures MapNode(WithId(s, id), n) == WithId(MapNode(s, n), id)
  {
    if n.tag == TOOL_NAME || n.tag == TOOL_CLOSE {
      hide TrimTrailing, CloseTool, NameTool, WithId;
      IdValid(s, id);
      if n.tag == TOOL_NAME { IdName(s, n.text, id); NameStays(s, n.text); } else { IdClose(s, id); CloseStays(s); }
    } else {
      hide MapNode, WithId;
      if n.tag in {REASONING, CONTENT, ARG_OPEN, OTHER} { IdElsewhere(s, n, id); } else { IdWriting(s, n, id); }
    }
  }

  lemma NameStays(s: State, text: string)
    requires s.Valid() && s.current == Last
    ensures NameTool(s, text).current == Last
  {
    hide TrimTrailing;
  }

  lemma CloseStays(s: State)
    requires s.Valid() && s.current == Last
    ensures CloseTool(s).current == Last
  {
    hide CloseBraces;
  }

  lemma TargetStays(s: State, t: string)
    requires s.Valid() && s.current == Last
    ensures s.WithTarget(t).current == Last
  {}

  predicate Ordinary(nodes: seq<Node>) {
    forall k :: 0 <= k < |nodes| ==> nodes[k].tag != TOOL_OPEN && nodes[k].tag != TOOL_ID
  }

  /** The id stays through the rest of the call, which goes on as it does without. */
  lemma {:induction false} IdStays(s: State, nodes: seq<Node>, id: string)
    requires s.Valid() && s.current == Last && Ordinary(nodes)
    ensures RunSafe(s, nodes) && Run(s, nodes).current == Last
    ensures RunSafe(WithId(s, id), nodes) && Run(WithId(s, id), nodes) == WithId(Run(s, nodes), id)
    decreases |nodes|
  {
    hide MapNode, WithId;
    if nodes == [] {
      IdValid(s, id);
    } else {
      IdCommutes(s, nodes[0], id);
      IdValid(s, id);
      IdStays(MapNode(s, nodes[0]), nodes[1..], id);
    }
  }

  lemma IdValid(s: State, id: string)
    requires s.Valid() && s.current == Last
    ensures WithId(s, id).Valid() && WithId(s, id).current == Last
  {}
}
