/** What the mapper guarantees about one tool call, for every run of its nodes. */
module ToolCallAssembly {
  import opened Wrappers
  import opened Messages
  import opened JsonText
  import opened QuoteNormalizer
  import opened PegMapper

  // ---------- a complete call ----------

  /** One argument of a call: its key and one value, literal text or a Python/JSON value. */
  datatype Arg = Arg(key: string, value: string, isString: bool)

  function ArgNodes(a: Arg): seq<Node> {
    [Node(ARG_OPEN, ""), Node(ARG_NAME, a.key),
     Node(if a.isString then ARG_STRING_VALUE else ARG_VALUE, a.value), Node(ARG_CLOSE, "")]
  }

  function AllArgNodes(args: seq<Arg>): seq<Node> {
    if args == [] then [] else ArgNodes(args[0]) + AllArgNodes(args[1..])
  }

  function CallNodes(name: string, args: seq<Arg>): seq<Node> {
    [Node(TOOL_OPEN, ""), Node(TOOL_NAME, name)] + AllArgNodes(args) + [Node(TOOL_CLOSE, "")]
  }

  /** The JSON member an argument becomes. */
  function Entry(a: Arg): string {
    Dump(Trim(a.key)) + ":" + (if a.isString then Dump(a.value) else Normalize(a.value))
  }

  function Joined(entries: seq<string>): string {
    if entries == [] then ""
    else if |entries| == 1 then entries[0]
    else Joined(entries[..|entries| - 1]) + "," + entries[|entries| - 1]
  }

  function Entries(args: seq<Arg>): (r: seq<string>)
    ensures |r| == |args|
  {
    seq(|args|, k requires 0 <= k < |args| => Entry(args[k]))
  }

  predicate OutsideString(s: Scan) { !s.inString && !s.escaped }

  /** A value leaves the scanner outside every string, with no more closed than opened braces. */
  predicate Balanced(a: Arg) {
    a.isString || (OutsideString(ScanText(OUTSIDE, Normalize(a.value))) && ScanText(OUTSIDE, Normalize(a.value)).depth >= 0)
  }

  function OpenBraces(args: seq<Arg>): int {
    if args == [] then 0
    else OpenBraces(args[..|args| - 1]) + (var a := args[|args| - 1];
         if a.isString then 0 else ScanText(OUTSIDE, Normalize(a.value)).depth)
  }

  /** The argument text before the call is closed. */
  function OpenText(args: seq<Arg>): string {
    "{" + Joined(Entries(args))
  }

  lemma JoinedSnoc(entries: seq<string>, e: string)
    ensures Joined(entries + [e]) == if entries == [] then e else Joined(entries) + "," + e
  {
    assert (entries + [e])[..|entries|] == entries;
  }

  /** The mapper after the name and some complete arguments. Without a usable name the text is
      still in the buffer. */
  function Midway(s: State, name: string, args: seq<Arg>): State {
    var nm := TrimTrailing(name);
    State(
      s.msg.(calls := s.msg.calls + [ToolCall(nm, if nm != "" then OpenText(args) else "{", "")]),
      None, Last, |args|, if nm != "" || args == [] then "" else OpenText(args), false)
  }

  function Opened(s: State): State {
    State(s.msg, Some(EMPTY_CALL), Pending, 0, "", false)
  }

  lemma MapOpen(s: State)
    requires s.Valid()
    ensures MapNode(s, Node(TOOL_OPEN, "")) == Opened(s)
  {}

  lemma MapName(s: State, text: string)
    requires s.Valid() && s.current == Pending
    ensures MapNode(s, Node(TOOL_NAME, text)) == NameTool(s, text)
  {
    hide NameTool;
  }

  lemma OpenNamed(s: State, name: string)
    requires s.Valid()
    ensures var ns := [Node(TOOL_OPEN, ""), Node(TOOL_NAME, name)];
      RunSafe(s, ns) && Run(s, ns) == Midway(s, name, [])
  {
    hide TrimTrailing, MapNode, RunSafe, Run;
    MapOpen(s);
    MapName(Opened(s), name);
    RunTwo(s, Node(TOOL_OPEN, ""), Node(TOOL_NAME, name));
    assert Joined(Entries([])) == "" && "{" + "" == "{";
  }

  lemma RunTwo(s: State, a: Node, b: Node)
    requires Safe(s, a) && Safe(MapNode(s, a), b)
    ensures RunSafe(s, [a, b]) && Run(s, [a, b]) == MapNode(MapNode(s, a), b)
  {
    hide MapNode;
    assert [a, b][1..] == [b];
    RunOne(MapNode(s, a), b);
  }

  lemma RunOne(s: State, a: Node)
    requires Safe(s, a)
    ensures RunSafe(s, [a]) && Run(s, [a]) == MapNode(s, a)
  {
    hide MapNode;
    assert [a][1..] == [];
  }

  /** The text after the key of one more argument. */
  function KeyText(args: seq<Arg>, key: string): string {
    OpenText(args) + ArgEntry(|args|, key)
  }

  function ValueOf(a: Arg): string {
    if a.isString then Dump(a.value) else Normalize(a.value)
  }

  lemma EntryText(args: seq<Arg>, a: Arg)
    ensures OpenText(args + [a]) == KeyText(args, a.key) + ValueOf(a)
  {
    hide Dump, Trim, Normalize, Joined;
    assert Entries(args + [a]) == Entries(args) + [Entry(a)];
    JoinedSnoc(Entries(args), Entry(a));
    if args == [] {
      assert Entries(args) == [];
      JoinedNone();
      FirstEntry(Dump(Trim(a.key)), ValueOf(a));
    } else {
      NextEntry(Joined(Entries(args)), Dump(Trim(a.key)), ValueOf(a));
    }
  }

  lemma JoinedNone()
    ensures Joined([]) == ""
  {}

  lemma FirstEntry(k: string, v: string)
    ensures "{" + (k + ":" + v) == ("{" + "") + ("" + k + ":") + v
  {}

  lemma NextEntry(j: string, k: string, v: string)
    ensures "{" + (j + "," + (k + ":" + v)) == ("{" + j) + ("," + k + ":") + v
  {}

  // ---------- one argument ----------

  lemma MapArgName(s: State, key: string)
    requires s.Valid() && s.current == Last
    ensures MapNode(s, Node(ARG_NAME, key)) ==
      s.WithTarget((if s.Target() == "" then "{" else s.Target()) + ArgEntry(s.argCount, key)).(argCount := s.argCount + 1)
  {}

  lemma MapValue(s: State, n: Node)
    requires s.Valid() && s.current == Last && (n.tag == ARG_VALUE || n.tag == ARG_STRING_VALUE)
    ensures var v := ValueText(n, s.closing); MapNode(s, n) == s.WithTarget(s.Target() + v.0).(closing := v.1)
  {}

  lemma MapArgClose(s: State)
    requires s.Valid() && s.current == Last
    ensures MapNode(s, Node(ARG_CLOSE, "")) == if s.closing then s.WithTarget(s.Target() + "\"").(closing := false) else s
  {}

  lemma MapArgOpen(s: State)
    requires s.Valid()
    ensures MapNode(s, Node(ARG_OPEN, "")) == s.(closing := false)
  {}

  /** The argument text of a call halfway through an argument, wherever it is kept. */
  function WithText(s: State, name: string, n: nat, text: string, closing: bool): State {
    var nm := TrimTrailing(name);
    State(
      s.msg.(calls := s.msg.calls + [ToolCall(nm, if nm != "" then text else "{", "")]),
      None, Last, n, if nm != "" then "" else text, closing)
  }

  /** The four nodes of an argument append exactly its member. */
  lemma OneArgument(s: State, name: string, args: seq<Arg>, a: Arg)
    requires s.Valid()
    ensures var m := Midway(s, name, args);
      m.Valid() && RunSafe(m, ArgNodes(a)) && Run(m, ArgNodes(a)) == Midway(s, name, args + [a])
  {
    hide TrimTrailing, MapNode, Dump, Trim, Normalize, Joined, Escape, RunSafe, Run, KeyText, ValueOf, ArgEntry;
    var m := Midway(s, name, args);
    var t := KeyText(args, a.key);
    var v := Node(if a.isString then ARG_STRING_VALUE else ARG_VALUE, a.value);
    MapArgOpen(m);
    MapArgName(m, a.key);
    var m2 := WithText(s, name, |args| + 1, t, false);
    assert MapNode(m, Node(ARG_NAME, a.key)) == m2 by { NamedTarget(s, name, args, a.key); }
    MapValue(m2, v);
    var w := ValueText(v, false);
    var m3 := WithText(s, name, |args| + 1, t + w.0, w.1);
    assert MapNode(m2, v) == m3;
    MapArgClose(m3);
    var m4 := WithText(s, name, |args| + 1, t + ValueOf(a), false);
    assert MapNode(m3, Node(ARG_CLOSE, "")) == m4 by { ClosedValue(t, a); }
    EntryText(args, a);
    assert m4 == Midway(s, name, args + [a]);
    RunFour(m, Node(ARG_OPEN, ""), Node(ARG_NAME, a.key), v, Node(ARG_CLOSE, ""));
  }

  lemma NamedTarget(s: State, name: string, args: seq<Arg>, key: string)
    requires s.Valid()
    ensures var m := Midway(s, name, args);
      m.Valid() && m.WithTarget((if m.Target() == "" then "{" else m.Target()) + ArgEntry(m.argCount, key)).(argCount := m.argCount + 1)
      == WithText(s, name, |args| + 1, KeyText(args, key), false)
  {
    hide TrimTrailing, Dump, Trim, Joined;
    if args == [] { JoinedNone(); assert Entries(args) == [] && "{" + "" == "{"; }
  }

  /** A string value and its closing quote make up the dumped string. */
  lemma ClosedValue(t: string, a: Arg)
    ensures var w := ValueText(Node(if a.isString then ARG_STRING_VALUE else ARG_VALUE, a.value), false);
      (if w.1 then t + w.0 + "\"" else t + w.0) == t + ValueOf(a)
  {
    hide Normalize;
    if a.isString {
      assert t + ("\"" + Escape(a.value)) + "\"" == t + ("\"" + Escape(a.value) + "\"");
      if a.value == "" { assert "\"" + "" == "\""; }
    } else if a.value == "" {
      NormalizeEmpty();
    }
  }

  lemma NormalizeEmpty()
    ensures Normalize("") == ""
  {}

  lemma RunFour(s: State, a: Node, b: Node, c: Node, e: Node)
    requires Safe(s, a) && Safe(MapNode(s, a), b) && Safe(MapNode(MapNode(s, a), b), c)
    requires Safe(MapNode(MapNode(MapNode(s, a), b), c), e)
    ensures RunSafe(s, [a, b, c, e])
    ensures Run(s, [a, b, c, e]) == MapNode(MapNode(MapNode(MapNode(s, a), b), c), e)
  {
    hide MapNode;
    assert [a, b, c, e] == [a, b] + [c, e];
    RunTwo(s, a, b);
    RunTwo(MapNode(MapNode(s, a), b), c, e);
    RunConcat(s, [a, b], [c, e]);
  }

  lemma RunNone(s: State)
    requires s.Valid()
    ensures RunSafe(s, []) && Run(s, []) == s
  {}

  lemma {:induction false} ManyArguments(s: State, name: string, done: seq<Arg>, rest: seq<Arg>)
    requires s.Valid()
    ensures var m := Midway(s, name, done);
      m.Valid() && RunSafe(m, AllArgNodes(rest)) && Run(m, AllArgNodes(rest)) == Midway(s, name, done + rest)
    decreases |rest|
  {
    hide MapNode, Midway, ArgNodes, RunSafe, Run;
    var m := Midway(s, name, done);
    if rest == [] {
      assert done + rest == done;
      MidwayIsValid(s, name, done);
      RunNone(m);
    } else {
      var first, more := ArgNodes(rest[0]), AllArgNodes(rest[1..]);
      assert AllArgNodes(rest) == first + more;
      OneArgument(s, name, done, rest[0]);
      ManyArguments(s, name, done + [rest[0]], rest[1..]);
      RunConcat(m, first, more);
      assert done + [rest[0]] + rest[1..] == done + rest;
    }
  }

  lemma MidwayIsValid(s: State, name: string, args: seq<Arg>)
    ensures Midway(s, name, args).Valid()
  {}

  lemma ClosedCall(s: State, name: string, args: seq<Arg>)
    requires s.Valid()
    ensures var m := Midway(s, name, args); var close := Node(TOOL_CLOSE, "");
      && m.Valid() && Safe(m, close)
      && MapNode(m, close).msg.content == s.msg.content && MapNode(m, close).msg.reasoning == s.msg.reasoning
      && MapNode(m, close).msg.calls == s.msg.calls + [ToolCall(TrimTrailing(name), CloseBraces(OpenText(args)), "")]
  {
    hide TrimTrailing, CloseBraces, Joined;
    if args == [] { JoinedNone(); assert Entries(args) == [] && "{" + "" == "{"; }
  }

  // ---------- balance ----------

  lemma {:induction false} OpenTextScan(args: seq<Arg>)
    requires forall k :: 0 <= k < |args| ==> Balanced(args[k])
    ensures OpenBraces(args) >= 0 && ScanText(OUTSIDE, OpenText(args)) == Scan(1 + OpenBraces(args), false, false)
    decreases |args|
  {
    hide Dump, Trim, Normalize, Joined;
    if args == [] {
      JoinedNone();
      assert Entries(args) == [];
      ScanOne(OUTSIDE, "{");
      assert "{" + "" == "{";
    } else {
      var init, a := args[..|args| - 1], args[|args| - 1];
      assert args == init + [a];
      OpenTextScan(init);
      EntryText(init, a);
      MemberScan(1 + OpenBraces(init), |init|, a);
      ScanConcat(OUTSIDE, KeyText(init, a.key), ValueOf(a));
      ScanConcat(OUTSIDE, OpenText(init), ArgEntry(|init|, a.key));
    }
  }

  /** Separator and key are neutral; the value adds its own open braces. */
  lemma MemberScan(d: int, n: nat, a: Arg)
    requires Balanced(a)
    ensures var s := Scan(d, false, false);
      && ScanText(s, ArgEntry(n, a.key)) == s
      && ScanText(s, ValueOf(a)) == Scan(d + (if a.isString then 0 else ScanText(OUTSIDE, Normalize(a.value)).depth), false, false)
  {
    hide Trim, Normalize, Dump;
    var s := Scan(d, false, false);
    var k := Dump(Trim(a.key));
    DumpIsNeutral(s, Trim(a.key));
    ScanConcat(s, (if n > 0 then "," else "") + k, ":");
    ScanConcat(s, if n > 0 then "," else "", k);
    ScanOne(s, ",");
    ScanOne(s, ":");
    if a.isString {
      DumpIsNeutral(s, a.value);
    } else {
      ScanShift(OUTSIDE, d, Normalize(a.value));
    }
  }

  /** The arguments of a completed call: the members in node order, separated by single commas,
      and exactly the closing braces that are missing. */
  function CallText(args: seq<Arg>): string {
    OpenText(args) + Repeat('}', Max0(1 + OpenBraces(args)))
  }

  /** A complete call: whatever was reported before, one call is added; its arguments are the
      members in order, and they scan to depth 0 outside every string. */
  lemma CompleteCall(s: State, name: string, args: seq<Arg>)
    requires s.Valid() && forall k :: 0 <= k < |args| ==> Balanced(args[k])
    ensures RunSafe(s, CallNodes(name, args))
    ensures Run(s, CallNodes(name, args)).msg.calls == s.msg.calls + [ToolCall(TrimTrailing(name), CallText(args), "")]
    ensures ScanText(OUTSIDE, CallText(args)) == OUTSIDE
  {
    hide TrimTrailing, MapNode, Midway, OpenText;
    var open, close := [Node(TOOL_OPEN, ""), Node(TOOL_NAME, name)], Node(TOOL_CLOSE, "");
    OpenNamed(s, name);
    ManyArguments(s, name, [], args);
    assert [] + args == args;
    RunConcat(s, open, AllArgNodes(args));
    ClosedCall(s, name, args);
    RunOne(Midway(s, name, args), close);
    RunConcat(s, open + AllArgNodes(args), [close]);
    OpenTextScan(args);
    ScanClosers(Scan(1 + OpenBraces(args), false, false), 1 + OpenBraces(args));
    ScanConcat(OUTSIDE, OpenText(args), Repeat('}', 1 + OpenBraces(args)));
  }

  // ---------- a call that is not complete ----------

  lemma RunThree(s: State, a: Node, b: Node, c: Node)
    requires Safe(s, a) && Safe(MapNode(s, a), b) && Safe(MapNode(MapNode(s, a), b), c)
    ensures RunSafe(s, [a, b, c]) && Run(s, [a, b, c]) == MapNode(MapNode(MapNode(s, a), b), c)
  {
    hide MapNode;
    assert [a, b, c] == [a, b] + [c];
    RunTwo(s, a, b);
    RunOne(MapNode(MapNode(s, a), b), c);
    RunConcat(s, [a, b], [c]);
  }

  function OpenNodes(name: string, args: seq<Arg>, a: Arg): seq<Node> {
    var v := Node(if a.isString then ARG_STRING_VALUE else ARG_VALUE, a.value);
    [Node(TOOL_OPEN, ""), Node(TOOL_NAME, name)] + AllArgNodes(args) + [Node(ARG_OPEN, ""), Node(ARG_NAME, a.key), v]
  }

  /** While a value is being written everything that has come is shown: the members before it, its key, and the value
      itself, a string without its closing quote. */
  lemma ShownSoFar(s: State, name: string, args: seq<Arg>, a: Arg)
    requires s.Valid() && TrimTrailing(name) != ""
    ensures RunSafe(s, OpenNodes(name, args, a))
    ensures var before := "{" + Joined(Entries(args)) + (if args == [] then "" else ",") + Dump(Trim(a.key)) + ":";
      var value := if a.isString then "\"" + Escape(a.value) else Normalize(a.value);
      Run(s, OpenNodes(name, args, a)).msg == s.msg.(calls := s.msg.calls + [ToolCall(TrimTrailing(name), before + value, "")])
  {
    hide TrimTrailing, MapNode, Dump, Trim, Normalize, Joined, Escape, RunSafe, Run, KeyText, ArgEntry;
    MidwayOpen(s, name, args, a);
    KeyTextIs(args, a.key);
    ValueTextIs(a);
  }

  /** A call that ends in the middle of a value is what it is with the value complete. */
  lemma ClosedEarly(s: State, name: string, args: seq<Arg>, a: Arg)
    requires s.Valid() && TrimTrailing(name) != ""
    ensures var early, whole := OpenNodes(name, args, a) + [Node(TOOL_CLOSE, "")], CallNodes(name, args + [a]);
      RunSafe(s, early) && RunSafe(s, whole) && Run(s, early).msg == Run(s, whole).msg
  {
    hide TrimTrailing, MapNode, RunSafe, Run, KeyText, ValueText, OpenText, OpenNodes, WithText, Midway, ValueOf;
    var v := Node(if a.isString then ARG_STRING_VALUE else ARG_VALUE, a.value);
    var t, w := KeyText(args, a.key), ValueText(v, false);
    MidwayOpen(s, name, args, a);
    ClosedEither(s, name, |args| + 1, t + w.0, w.1);
    ThenClose(s, OpenNodes(name, args, a));
    MidwayRun(s, name, args + [a]);
    ClosedValue(t, a);
    WholeValue(s, name, args, a);
    ThenClose(s, [Node(TOOL_OPEN, ""), Node(TOOL_NAME, name)] + AllArgNodes(args + [a]));
  }

  lemma ThenClose(s: State, nodes: seq<Node>)
    requires RunSafe(s, nodes) && Safe(Run(s, nodes), Node(TOOL_CLOSE, ""))
    ensures var all := nodes + [Node(TOOL_CLOSE, "")]; RunSafe(s, all) && Run(s, all) == MapNode(Run(s, nodes), Node(TOOL_CLOSE, ""))
  {
    hide MapNode;
    RunOne(Run(s, nodes), Node(TOOL_CLOSE, ""));
    RunConcat(s, nodes, [Node(TOOL_CLOSE, "")]);
  }

  lemma MidwayRun(s: State, name: string, args: seq<Arg>)
    requires s.Valid()
    ensures var nodes := [Node(TOOL_OPEN, ""), Node(TOOL_NAME, name)] + AllArgNodes(args);
      RunSafe(s, nodes) && Run(s, nodes) == Midway(s, name, args)
  {
    hide MapNode, RunSafe, Run, Midway;
    OpenNamed(s, name);
    ManyArguments(s, name, [], args);
    assert [] + args == args;
    RunConcat(s, [Node(TOOL_OPEN, ""), Node(TOOL_NAME, name)], AllArgNodes(args));
  }

  lemma WholeValue(s: State, name: string, args: seq<Arg>, a: Arg)
    ensures Midway(s, name, args + [a]) == WithText(s, name, |args| + 1, KeyText(args, a.key) + ValueOf(a), false)
  {
    hide TrimTrailing, KeyText, OpenText, ValueOf;
    EntryText(args, a);
  }

  /** The pending quote and then the braces. */
  lemma ClosedEither(s: State, name: string, n: nat, text: string, closing: bool)
    requires s.Valid() && TrimTrailing(name) != ""
    ensures var x, y := WithText(s, name, n, text, closing), WithText(s, name, n, if closing then text + "\"" else text, false);
      && x.Valid() && y.Valid() && x.current == Last == y.current
      && MapNode(x, Node(TOOL_CLOSE, "")) == MapNode(y, Node(TOOL_CLOSE, ""))
  {
    hide TrimTrailing, CloseBraces;
  }

  lemma MidwayOpen(s: State, name: string, args: seq<Arg>, a: Arg)
    requires s.Valid() && TrimTrailing(name) != ""
    ensures var v := Node(if a.isString then ARG_STRING_VALUE else ARG_VALUE, a.value);
      var w := ValueText(v, false);
      && RunSafe(s, OpenNodes(name, args, a))
      && Run(s, OpenNodes(name, args, a)) == WithText(s, name, |args| + 1, KeyText(args, a.key) + w.0, w.1)
  {
    hide TrimTrailing, MapNode, Dump, Trim, Normalize, Joined, Escape, RunSafe, Run, KeyText, ArgEntry;
    var open, m := [Node(TOOL_OPEN, ""), Node(TOOL_NAME, name)], Midway(s, name, args);
    var v := Node(if a.isString then ARG_STRING_VALUE else ARG_VALUE, a.value);
    OpenNamed(s, name);
    ManyArguments(s, name, [], args);
    assert [] + args == args;
    MapArgOpen(m);
    MapArgName(m, a.key);
    var t := KeyText(args, a.key);
    var m2 := WithText(s, name, |args| + 1, t, false);
    assert MapNode(m, Node(ARG_NAME, a.key)) == m2 by { NamedTarget(s, name, args, a.key); }
    MapValue(m2, v);
    RunThree(m, Node(ARG_OPEN, ""), Node(ARG_NAME, a.key), v);
    RunConcat(s, open, AllArgNodes(args));
    RunConcat(s, open + AllArgNodes(args), [Node(ARG_OPEN, ""), Node(ARG_NAME, a.key), v]);
  }

  lemma KeyTextIs(args: seq<Arg>, key: string)
    ensures KeyText(args, key) == "{" + Joined(Entries(args)) + (if args == [] then "" else ",") + Dump(Trim(key)) + ":"
  {
    hide Dump, Trim, Joined;
    var x, d := "{" + Joined(Entries(args)), Dump(Trim(key));
    if args == [] { assert x + ("" + d + ":") == x + "" + d + ":"; } else { assert x + ("," + d + ":") == x + "," + d + ":"; }
  }

  lemma ValueTextIs(a: Arg)
    ensures ValueText(Node(if a.isString then ARG_STRING_VALUE else ARG_VALUE, a.value), false).0 ==
      if a.isString then "\"" + Escape(a.value) else Normalize(a.value)
  {
    hide Normalize;
    if a.isString { assert a.value == "" ==> "\"" + "" == "\""; } else if a.value == "" { NormalizeEmpty(); }
  }

  /** A string that comes in two pieces is shown as one exactly when the second piece is not empty. */
  lemma StringInPieces(s: State, a: string, b: string)
    requires s.Valid() && s.current == Last && !s.closing
    ensures var x := MapNode(s, Node(ARG_STRING_VALUE, a));
      && x.Valid()
      && (MapNode(x, Node(ARG_STRING_VALUE, b)) == MapNode(s, Node(ARG_STRING_VALUE, a + b)) <==> b != "")
  {
    hide Escape, State.Target, State.WithTarget, MapNode;
    EscapeConcat(a, b);
    StringText(a);
    StringText(b);
    StringText(a + b);
    hide ValueText;
    var na, nb, nab := Node(ARG_STRING_VALUE, a), Node(ARG_STRING_VALUE, b), Node(ARG_STRING_VALUE, a + b);
    var t := s.Target();
    var first, second := t + ("\"" + Escape(a)), if b == "" then "\"" else Escape(b);
    MapValue(s, na);
    MapValue(s, nab);
    WriteTwice(s, first, first + second);
    MapValue(MapNode(s, na), nb);
    WriteOnce(s, first + second, t + ("\"" + Escape(a + b)));
    assert first + Escape(b) == t + ("\"" + (Escape(a) + Escape(b)));
    if b == "" { assert |first + second| == |first + Escape(b)| + 1; }
  }

  lemma StringText(a: string)
    ensures ValueText(Node(ARG_STRING_VALUE, a), false) == ("\"" + Escape(a), true)
    ensures ValueText(Node(ARG_STRING_VALUE, a), true) == (if a == "" then "\"" else Escape(a), true)
    ensures a == "" ==> Escape(a) == ""
  {
    assert "\"" + "" == "\"" && "" + Escape(a) == Escape(a);
  }

  lemma WriteTwice(s: State, t: string, u: string)
    requires s.Valid() && s.current == Last
    ensures var x := s.WithTarget(t).(closing := true);
      && x.Valid() && x.current == Last && x.closing && x.Target() == t
      && x.WithTarget(u).(closing := true) == s.WithTarget(u).(closing := true)
  {}

  lemma WriteOnce(s: State, t: string, u: string)
    requires s.Valid() && s.current == Last
    ensures s.WithTarget(t).(closing := true) == s.WithTarget(u).(closing := true) <==> t == u
  {
    var x, y := s.WithTarget(t).(closing := true), s.WithTarget(u).(closing := true);
    if x == y { assert x.msg.calls[|s.msg.calls| - 1] == y.msg.calls[|s.msg.calls| - 1]; }
  }
}
