/** A growing output is parsed again and again. The messages of successive partial parses extend
    one another, so the deltas streamed to the client always exist and add up. */
module StreamedParse {
  import opened Wrappers
  import opened Messages
  import opened MessageStream
  import opened JsonText
  import QuoteNormalizer
  import opened PegMapper
  import MessageDiff
  import opened JsonReader

  // ---------- one more node ----------

  /** The node adds to what has been reported: a call is named once, a whole arguments object comes
      before any single argument, a string argument has one value, and only named calls are closed. */
  predicate Appends(s: State, n: Node) {
    && Safe(s, n)
    && (s.current == Last ==>
          && n.tag != TOOL_NAME
          && (n.tag == TOOL_ARGS ==> s.Target() <= "{")
          && (n.tag == TOOL_CLOSE ==> s.Tool().name != ""))
    && (n.tag == ARG_STRING_VALUE ==> !s.closing)
  }

  lemma PrefixConcat(a: string, b: string)
    ensures a <= a + b
  {}

  lemma TargetGrows(s: State, t: string)
    requires s.Valid() && s.HasTool() && (s.current == Last ==> s.Target() <= t)
    ensures GrowsTo(s.msg, s.WithTarget(t).msg)
  {}

  lemma AppendGrows(s: State, n: Node)
    requires Appends(s, n)
    ensures GrowsTo(s.msg, MapNode(s, n).msg)
  {
    hide ToolStep;
    if s.HasTool() {
      ToolStepGrows(s, n);
    }
  }

  lemma ToolStepGrows(s: State, n: Node)
    requires Appends(s, n) && s.HasTool()
    ensures GrowsTo(s.msg, ToolStep(s, n).msg)
  {
    hide TrimTrailing, ArgEntry, ValueText, ScanText, CloseTool, NameTool, GrowsTo;
    GrowsReflexive(s.msg);
    if n.tag == TOOL_ID {
      IdGrows(s, Unquoted(TrimTrailing(n.text)));
    } else if n.tag == TOOL_NAME {
      NameGrows(s, n.text);
    } else if n.tag == TOOL_ARGS {
      if TrimTrailing(n.text) != "" && TrimTrailing(n.text)[0] == '{' {
        assert "{" <= TrimTrailing(n.text);
        TargetGrows(s, TrimTrailing(n.text));
      }
    } else if n.tag == ARG_NAME {
      TargetGrows(s, (if s.Target() == "" then "{" else s.Target()) + ArgEntry(s.argCount, n.text));
    } else if n.tag == ARG_VALUE || n.tag == ARG_STRING_VALUE {
      TargetGrows(s, s.Target() + ValueText(n, s.closing).0);
    } else if n.tag == ARG_CLOSE {
      TargetGrows(s, s.Target() + "\"");
    } else if n.tag == TOOL_CLOSE {
      CloseGrows(s);
    }
  }

  lemma IdGrows(s: State, text: string)
    requires s.Valid() && s.HasTool()
    ensures GrowsTo(s.msg, s.WithTool(s.Tool().(id := text)).msg)
  {}

  lemma NameGrows(s: State, text: string)
    requires s.Valid() && s.current == Pending
    ensures GrowsTo(s.msg, NameTool(s, text).msg)
  {
    hide TrimTrailing;
  }

  lemma ArgumentsGrow(s: State, a: string)
    requires s.Valid() && s.current == Last && s.Tool().arguments <= a
    ensures GrowsTo(s.msg, s.WithTool(s.Tool().(arguments := a)).msg)
  {}

  lemma CloseGrows(s: State)
    requires s.Valid() && s.HasTool() && (s.current == Last ==> s.Tool().name != "")
    ensures GrowsTo(s.msg, CloseTool(s).msg)
  {
    hide ScanText, GrowsTo;
    GrowsReflexive(s.msg);
    if s.current == Last {
      var a := s.Tool().arguments;
      var b := if s.closing then a + "\"" else a;
      PrefixConcat(b, Repeat('}', Max0(ScanText(OUTSIDE, b).depth)));
      assert a <= b <= CloseBraces(b);
      ArgumentsGrow(s.(closing := false), CloseBraces(b));
    }
  }

  // ---------- a node that was cut off ----------

  /** `x` may stand for the text of the node while the rest has not arrived: tags matched as a
      whole are never cut, a raw value is cut where the rest takes nothing back, and a key only at the
      white space around it. */
  predicate CutOk(n: Node, x: string) {
    && x <= n.text
    && (n.tag == ARG_VALUE ==> !QuoteNormalizer.Retracts(x, n.text, QuoteNormalizer.EndingOf(x)))
    && (n.tag == ARG_NAME ==> Trim(x) == Trim(n.text))
    && (n.tag in {TOOL_OPEN, TOOL_CLOSE, TOOL_ID, ARG_OPEN, ARG_CLOSE} ==> x == n.text)
  }

  lemma {:induction false} TrimMonotone(x: string, y: string)
    requires x <= y
    ensures TrimTrailing(x) <= TrimTrailing(y)
    decreases |y|
  {
    if y != "" && IsSpace(y[|y| - 1]) {
      if x == y {
      } else {
        assert x <= y[..|y| - 1];
        TrimMonotone(x, y[..|y| - 1]);
      }
    } else {
      assert TrimTrailing(x) <= x <= y;
    }
  }

  /** Taking nothing back holds for every shorter continuation too. */
  lemma RetractsShorter(x: string, y: string, t: string)
    requires x <= y <= t && !QuoteNormalizer.Retracts(x, t, QuoteNormalizer.EndingOf(x))
    ensures !QuoteNormalizer.Retracts(x, y, QuoteNormalizer.EndingOf(x))
  {
    hide QuoteNormalizer.Literal, QuoteNormalizer.WordEnd;
    var e := QuoteNormalizer.EndingOf(x);
    if e.PartialLiteral? {
      var i := e.start;
      EndingStartsLiteral(x);
      assert y[i] == x[i];
      QuoteNormalizer.SameWord(y, t, i);
      QuoteNormalizer.SameWord(x, y, i);
      QuoteNormalizer.LiteralPrefixes(y[i..QuoteNormalizer.WordEnd(y, i)], t[i..QuoteNormalizer.WordEnd(t, i)]);
    } else if e.LoneEscape? && |x| < |y| {
      assert y[|x|] == t[|x|];
    }
  }

  lemma {:induction false} EndingStartsLiteralFrom(p: string, i: nat, q: QuoteNormalizer.Quote)
    requires i <= |p| && QuoteNormalizer.EndingFrom(p, i, q).PartialLiteral?
    ensures var k := QuoteNormalizer.EndingFrom(p, i, q).start;
      QuoteNormalizer.StartsLiteral(p[k]) && QuoteNormalizer.WordEnd(p, k) > k
    decreases |p| - i
  {
    hide QuoteNormalizer.Step, QuoteNormalizer.Literal;
    if q == QuoteNormalizer.Outside && QuoteNormalizer.AtLiteral(p, i) && QuoteNormalizer.WordEnd(p, i) == |p|
       && QuoteNormalizer.Literal(p[i..]).Some? {
    } else {
      var t := QuoteNormalizer.Step(p, i, q);
      EndingStartsLiteralFrom(p, i + t.width, t.next);
    }
  }

  lemma EndingStartsLiteral(p: string)
    requires QuoteNormalizer.EndingOf(p).PartialLiteral?
    ensures var k := QuoteNormalizer.EndingOf(p).start;
      QuoteNormalizer.StartsLiteral(p[k]) && QuoteNormalizer.WordEnd(p, k) > k
  {
    EndingStartsLiteralFrom(p, 0, QuoteNormalizer.Outside);
  }

  /** The text a value node appends grows with its own text. */
  lemma ValueGrows(n: Node, x: string, y: string)
    requires n.tag == ARG_VALUE || n.tag == ARG_STRING_VALUE
    requires CutOk(n, x) && CutOk(n, y) && x <= y
    ensures ValueText(Node(n.tag, x), false).0 <= ValueText(Node(n.tag, y), false).0
  {
    hide QuoteNormalizer.Normalize, Escape, QuoteNormalizer.Retracts;
    if n.tag == ARG_STRING_VALUE {
      EscapeMonotone(x, y);
      assert x == "" ==> "\"" <= "\"" + Escape(y);
      PrefixUnder("\"", Escape(x), Escape(y));
    } else if x != "" {
      RetractsShorter(x, y, n.text);
      QuoteNormalizer.NormalizeMonotone(x, y);
    }
  }

  lemma PrefixUnder(a: string, x: string, y: string)
    requires x <= y
    ensures a + x <= a + y
  {}

  lemma CutAppends(s: State, n: Node, x: string)
    requires Appends(s, n)
    ensures Appends(s, Node(n.tag, x))
  {}

  /** Cutting a node later gives a message that extends the message of cutting it earlier. */
  lemma CutGrows(s: State, n: Node, x: string, y: string)
    requires Appends(s, n) && CutOk(n, x) && CutOk(n, y) && x <= y
    ensures Appends(s, Node(n.tag, x)) && Appends(s, Node(n.tag, y))
    ensures GrowsTo(MapNode(s, Node(n.tag, x)).msg, MapNode(s, Node(n.tag, y)).msg)
  {
    CutAppends(s, n, x);
    CutAppends(s, n, y);
    hide TrimTrailing, Trim, ValueText, QuoteNormalizer.Retracts, ArgEntry, CloseTool, NameTool, QuoteNormalizer.Normalize, Escape;
    hide QuoteNormalizer.EndingOf, Dump, Unquoted;
    if n.tag == TOOL_NAME && s.HasTool() {
      TrimMonotone(x, y);
      NamesGrow(s, x, y);
    } else if n.tag == TOOL_ARGS && s.HasTool() {
      ArgsGrow(s, x, y);
    } else if (n.tag == ARG_VALUE || n.tag == ARG_STRING_VALUE) && s.HasTool() {
      ValuesGrow(s, n, x, y);
    } else if n.tag == ARG_NAME && s.HasTool() {
      CutKeyExactly(s, x, y);
    } else if n.tag == REASONING || n.tag == CONTENT || n.tag == OTHER {
      PrefixUnder(s.msg.reasoning, x, y);
      PrefixUnder(s.msg.content, x, y);
    } else {
      GrowsReflexive(MapNode(s, Node(n.tag, x)).msg);
      assert s.HasTool() ==> x == y || n.tag in {TOOL_NAME, TOOL_ARGS, ARG_NAME, ARG_VALUE, ARG_STRING_VALUE};
    }
  }

  lemma SameString(x: string, y: string, w: string)
    requires Escape(x) + "\"" + (":" + w) == Escape(y) + "\"" + ":"
    ensures x == y
  {
    hide Escape, ReadString;
    ReadsEscaped(x, ":" + w);
    ReadsEscaped(y, ":");
  }

  lemma QuotedPrefix(e: string, f: string)
    requires "\"" + e + "\"" + ":" <= "\"" + f + "\"" + ":"
    ensures exists w :: e + "\"" + (":" + w) == f + "\"" + ":"
  {
    var a, b := "\"" + e + "\"" + ":", "\"" + f + "\"" + ":";
    var w := b[|a|..];
    assert b == a + w;
    assert a[1..] == e + "\"" + ":" && b[1..] == f + "\"" + ":";
    assert (a + w)[1..] == e + "\"" + (":" + w);
  }

  /** Two keys of which one is written where the other was. */
  lemma KeysDiffer(x: string, y: string)
    ensures Dump(x) + ":" <= Dump(y) + ":" <==> x == y
  {
    hide Escape;
    if Dump(x) + ":" <= Dump(y) + ":" {
      QuotedPrefix(Escape(x), Escape(y));
      var w :| Escape(x) + "\"" + (":" + w) == Escape(y) + "\"" + ":";
      SameString(x, y, w);
    }
  }

  /** The argument text with a key written behind it. */
  function Keyed(s: State, key: string): string
    requires s.Valid() && s.HasTool()
  {
    (if s.Target() == "" then "{" else s.Target()) + ArgEntry(s.argCount, key)
  }

  /** A key that is cut, for instance to a shorter key that is also declared, is harmless exactly as long as the
      call has no name or both texts trim to the same key. */
  lemma CutKeyExactly(s: State, x: string, y: string)
    requires s.Valid() && s.HasTool()
    ensures GrowsTo(MapNode(s, Node(ARG_NAME, x)).msg, MapNode(s, Node(ARG_NAME, y)).msg) <==>
      s.Tool().name == "" || Trim(x) == Trim(y)
  {
    hide Trim, Dump, ArgEntry, GrowsTo;
    var a, b := Keyed(s, x), Keyed(s, y);
    KeyedGrows(s, x, y);
    TargetsGrowExactly(s, a, b);
  }

  lemma KeyedGrows(s: State, x: string, y: string)
    requires s.Valid() && s.HasTool()
    ensures Keyed(s, x) <= Keyed(s, y) <==> Trim(x) == Trim(y)
  {
    hide Trim, Dump;
    KeysDiffer(Trim(x), Trim(y));
    var t := (if s.Target() == "" then "{" else s.Target()) + if s.argCount > 0 then "," else "";
    var d, e := Dump(Trim(x)) + ":", Dump(Trim(y)) + ":";
    assert Keyed(s, x) == t + d && Keyed(s, y) == t + e;
    UnderExactly(t, d, e);
  }

  lemma UnderExactly(t: string, d: string, e: string)
    ensures t + d <= t + e <==> d <= e
  {
    if t + d <= t + e {
      assert d == (t + d)[|t|..] && e == (t + e)[|t|..];
    }
  }

  lemma TargetsGrowExactly(s: State, t: string, u: string)
    requires s.Valid() && s.HasTool()
    ensures GrowsTo(s.WithTarget(t).msg, s.WithTarget(u).msg) <==> s.Tool().name == "" || t <= u
  {
    if s.Tool().name != "" {
      var k := |s.msg.calls| - 1;
      assert s.WithTarget(t).msg.calls[k].arguments == t && s.WithTarget(u).msg.calls[k].arguments == u;
    }
  }

  lemma NamesGrow(s: State, x: string, y: string)
    requires s.Valid() && s.current == Pending && TrimTrailing(x) <= TrimTrailing(y)
    ensures GrowsTo(NameTool(s, x).msg, NameTool(s, y).msg)
  {
    hide TrimTrailing;
  }

  lemma TargetsGrow(s: State, t: string, u: string)
    requires s.Valid() && s.HasTool() && t <= u
    ensures GrowsTo(s.WithTarget(t).msg, s.WithTarget(u).msg)
  {}

  lemma ArgsGrow(s: State, x: string, y: string)
    requires s.Valid() && s.HasTool() && x <= y && (s.current == Last ==> s.Target() <= "{")
    ensures GrowsTo(MapNode(s, Node(TOOL_ARGS, x)).msg, MapNode(s, Node(TOOL_ARGS, y)).msg)
  {
    hide TrimTrailing, GrowsTo;
    TrimMonotone(x, y);
    GrowsReflexive(s.msg);
    var x1, y1 := TrimTrailing(x), TrimTrailing(y);
    assert x1 != "" ==> y1 != "" && x1[0] == y1[0];
    if x1 != "" && x1[0] == '{' {
      TargetsGrow(s, x1, y1);
    } else if y1 != "" && y1[0] == '{' {
      assert "{" <= y1;
      TargetGrows(s, y1);
    }
  }

  lemma ValuesGrow(s: State, n: Node, x: string, y: string)
    requires s.Valid() && s.HasTool() && (n.tag == ARG_VALUE || n.tag == ARG_STRING_VALUE)
    requires CutOk(n, x) && CutOk(n, y) && x <= y && (n.tag == ARG_STRING_VALUE ==> !s.closing)
    ensures GrowsTo(MapNode(s, Node(n.tag, x)).msg, MapNode(s, Node(n.tag, y)).msg)
  {
    hide ValueText, CutOk;
    ValueGrows(n, x, y);
    ValueIgnoresClosing(n.tag, x, s.closing);
    ValueIgnoresClosing(n.tag, y, s.closing);
    var t := s.Target();
    PrefixUnder(t, ValueText(Node(n.tag, x), false).0, ValueText(Node(n.tag, y), false).0);
  }

  lemma ValueIgnoresClosing(tag: Tag, x: string, closing: bool)
    requires tag == ARG_VALUE || (tag == ARG_STRING_VALUE && !closing)
    ensures ValueText(Node(tag, x), closing).0 == ValueText(Node(tag, x), false).0
  {}

  // ---------- the clean-up after each parse ----------

  lemma FinishedGrows(a: State, b: State)
    requires GrowsTo(a.msg, b.msg)
    ensures GrowsTo(Finished(a).msg, Finished(b).msg)
  {
    if b.msg.reasoning != "" && AllSpace(b.msg.reasoning) {
      assert AllSpace(a.msg.reasoning);
    }
  }

  // ---------- successive parses of one output ----------

  /** The nodes of the complete output, each one appending. */
  predicate Streamable(nodes: seq<Node>, s: State)
    decreases |nodes|
  {
    s.Valid() && (nodes == [] || (Appends(s, nodes[0]) && Streamable(nodes[1..], MapNode(s, nodes[0]))))
  }

  /** How far a partial parse got: some complete nodes, then perhaps a cut one. */
  datatype Snapshot = Snapshot(done: nat, cut: Option<string>)

  predicate SnapshotOk(nodes: seq<Node>, p: Snapshot) {
    p.done <= |nodes| && (p.cut.Some? ==> p.done < |nodes| && CutOk(nodes[p.done], p.cut.value))
  }

  function Parsed(nodes: seq<Node>, p: Snapshot): seq<Node>
    requires SnapshotOk(nodes, p)
  {
    nodes[..p.done] + if p.cut.Some? then [Node(nodes[p.done].tag, p.cut.value)] else []
  }

  /** The second parse saw at least as much of the output as the first. */
  predicate NotBefore(a: Snapshot, b: Snapshot) {
    a.done < b.done ||
    (a.done == b.done && (a.cut.None? || (b.cut.Some? && a.cut.value <= b.cut.value)))
  }

  lemma {:induction false} ParsedIsSafe(nodes: seq<Node>, s: State, p: Snapshot)
    requires Streamable(nodes, s) && SnapshotOk(nodes, p)
    ensures RunSafe(s, Parsed(nodes, p)) && GrowsTo(s.msg, Run(s, Parsed(nodes, p)).msg)
    decreases |nodes|
  {
    hide Appends, MapNode, CutOk, GrowsTo;
    var ns := Parsed(nodes, p);
    if p.done > 0 {
      var q := Snapshot(p.done - 1, p.cut);
      AppendGrows(s, nodes[0]);
      AppendsIsSafe(s, nodes[0]);
      ParsedIsSafe(nodes[1..], MapNode(s, nodes[0]), q);
      assert ns[1..] == Parsed(nodes[1..], q) && ns[0] == nodes[0];
      GrowsTransitive(s.msg, MapNode(s, nodes[0]).msg, Run(s, ns).msg);
    } else if p.cut.Some? {
      var x := p.cut.value;
      CutGrows(s, nodes[0], x, x);
      AppendsIsSafe(s, Node(nodes[0].tag, x));
      AppendGrows(s, Node(nodes[0].tag, x));
      assert ns == [Node(nodes[0].tag, x)] && ns[1..] == [];
    } else {
      assert ns == [];
      GrowsReflexive(s.msg);
    }
  }

  lemma AppendsIsSafe(s: State, n: Node)
    requires Appends(s, n)
    ensures Safe(s, n)
  {}

  lemma CutWhole(n: Node)
    ensures CutOk(n, n.text)
  {
    var e := QuoteNormalizer.EndingOf(n.text);
    if n.tag == ARG_VALUE {
      QuoteNormalizer.NormalizeMonotone(n.text, n.text);
    }
  }

  lemma {:induction false} ParsesGrow(nodes: seq<Node>, s: State, a: Snapshot, b: Snapshot)
    requires Streamable(nodes, s) && SnapshotOk(nodes, a) && SnapshotOk(nodes, b) && NotBefore(a, b)
    ensures RunSafe(s, Parsed(nodes, a)) && RunSafe(s, Parsed(nodes, b))
    ensures GrowsTo(Run(s, Parsed(nodes, a)).msg, Run(s, Parsed(nodes, b)).msg)
    decreases |nodes|
  {
    hide Appends, MapNode, CutOk, GrowsTo;
    ParsedIsSafe(nodes, s, a);
    ParsedIsSafe(nodes, s, b);
    var x, y := Parsed(nodes, a), Parsed(nodes, b);
    if a.done > 0 {
      var a1, b1 := Snapshot(a.done - 1, a.cut), Snapshot(b.done - 1, b.cut);
      assert x[1..] == Parsed(nodes[1..], a1) && y[1..] == Parsed(nodes[1..], b1) && x[0] == nodes[0] == y[0];
      ParsesGrow(nodes[1..], MapNode(s, nodes[0]), a1, b1);
    } else if a.cut.None? {
      assert x == [];
    } else {
      var n, t := nodes[0], a.cut.value;
      var c := Node(n.tag, t);
      assert x == [c] && x[1..] == [];
      assert Run(s, x) == MapNode(s, c);
      if b.done > 0 {
        CutWhole(n);
        CutPrefix(n, t);
        CutGrows(s, n, t, n.text);
        assert Node(n.tag, n.text) == n;
        var b1 := Snapshot(b.done - 1, b.cut);
        ParsedIsSafe(nodes[1..], MapNode(s, n), b1);
        assert y[1..] == Parsed(nodes[1..], b1) && y[0] == n;
        GrowsTransitive(MapNode(s, c).msg, MapNode(s, n).msg, Run(s, y).msg);
      } else {
        var u := b.cut.value;
        assert y == [Node(n.tag, u)] && y[1..] == [];
        CutGrows(s, n, t, u);
      }
    }
  }

  lemma CutPrefix(n: Node, x: string)
    requires CutOk(n, x)
    ensures x <= n.text
  {}

  // ---------- nodes that say nothing ----------

  /** The mapper passes over the node: it has no tag, it is empty text, or it wraps the arguments
      without being an object itself. */
  predicate Inert(n: Node) {
    || n.tag == OTHER
    || (n.text == "" && (n.tag == REASONING || n.tag == CONTENT))
    || (n.tag == TOOL_ARGS && (var t := TrimTrailing(n.text); t == "" || t[0] != '{'))
  }

  function Active(nodes: seq<Node>): seq<Node> {
    if nodes == [] then [] else (if Inert(nodes[0]) then [] else [nodes[0]]) + Active(nodes[1..])
  }

  lemma InertStep(s: State, n: Node)
    requires Safe(s, n) && Inert(n)
    ensures MapNode(s, n) == s
  {
    hide TrimTrailing;
    assert s.msg.reasoning + "" == s.msg.reasoning && s.msg.content + "" == s.msg.content;
  }

  lemma {:induction false} RunActive(s: State, nodes: seq<Node>)
    requires RunSafe(s, nodes)
    ensures RunSafe(s, Active(nodes)) && Run(s, Active(nodes)) == Run(s, nodes)
    decreases |nodes|
  {
    hide MapNode, Inert;
    if nodes != [] {
      RunActive(MapNode(s, nodes[0]), nodes[1..]);
      if Inert(nodes[0]) {
        InertStep(s, nodes[0]);
        assert Active(nodes) == Active(nodes[1..]);
      } else {
        assert Active(nodes)[1..] == Active(nodes[1..]);
      }
    }
  }

  /** One partial parse: the nodes it produced and how far it got. */
  datatype Parse = Parse(nodes: seq<Node>, upTo: Snapshot)

  /** The parse saw the complete nodes and the cut one; nodes that say nothing may be there or not,
      anywhere and cut anywhere. */
  predicate Sees(nodes: seq<Node>, p: Parse) {
    && SnapshotOk(Active(nodes), p.upTo)
    && Active(p.nodes) == Parsed(Active(nodes), p.upTo)
    && RunSafe(INITIAL, p.nodes)
  }

  /** The message of one partial parse. */
  function MessageOf(nodes: seq<Node>, p: Parse): Message
    requires Sees(nodes, p)
  {
    Finished(Flushed(Run(INITIAL, p.nodes))).msg
  }

  /** A parse that saw more gives a message that extends the earlier one. */
  lemma MessagesGrow(nodes: seq<Node>, a: Parse, b: Parse)
    requires Streamable(Active(nodes), INITIAL) && Sees(nodes, a) && Sees(nodes, b) && NotBefore(a.upTo, b.upTo)
    ensures GrowsTo(MessageOf(nodes, a), MessageOf(nodes, b))
  {
    hide Run, Parsed, Active, Streamable, GrowsTo, Flushed, Finished, NotBefore, SnapshotOk;
    ParsesGrow(Active(nodes), INITIAL, a.upTo, b.upTo);
    RunActive(INITIAL, a.nodes);
    RunActive(INITIAL, b.nodes);
    var x, y := Run(INITIAL, a.nodes), Run(INITIAL, b.nodes);
    FlushedIsSame(x);
    FlushedIsSame(y);
    FinishedGrows(x, y);
  }

  lemma FlushedIsSame(s: State)
    requires s.Valid()
    ensures Flushed(s) == s
  {}

  function MessagesOf(nodes: seq<Node>, ps: seq<Parse>): (r: seq<Message>)
    requires forall k :: 0 <= k < |ps| ==> Sees(nodes, ps[k])
    ensures |r| == |ps|
  {
    if ps == [] then [] else [MessageOf(nodes, ps[0])] + MessagesOf(nodes, ps[1..])
  }

  predicate InOrder(ps: seq<Parse>) {
    forall k :: 0 < k < |ps| ==> NotBefore(ps[k - 1].upTo, ps[k].upTo)
  }

  lemma {:induction false} ParsesFormStream(nodes: seq<Node>, m: Message, ps: seq<Parse>)
    requires Streamable(Active(nodes), INITIAL) && (forall k :: 0 <= k < |ps| ==> Sees(nodes, ps[k])) && InOrder(ps)
    requires ps != [] ==> GrowsTo(m, MessageOf(nodes, ps[0]))
    ensures GrowingFrom(m, MessagesOf(nodes, ps))
    decreases |ps|
  {
    hide GrowsTo, MessageOf, Streamable, Active, Sees, NotBefore;
    if ps != [] {
      var ms := MessagesOf(nodes, ps);
      assert ms[1..] == MessagesOf(nodes, ps[1..]);
      if |ps| > 1 {
        assert NotBefore(ps[0].upTo, ps[1].upTo);
        MessagesGrow(nodes, ps[0], ps[1]);
        assert ms[1] == MessageOf(nodes, ps[1]);
      }
      assert InOrder(ps[1..]) by {
        forall k | 0 < k < |ps| - 1 ensures NotBefore(ps[1..][k - 1].upTo, ps[1..][k].upTo) {
          assert NotBefore(ps[k].upTo, ps[k + 1].upTo);
        }
      }
      ParsesFormStream(nodes, ms[0], ps[1..]);
    }
  }

  /** However the output is cut into successive parses, every diff exists and the deltas rebuild the
      message of the last parse. */
  lemma ReparsingStreams(nodes: seq<Node>, ps: seq<Parse>, gen: nat -> string)
    requires Generates(gen) && Streamable(Active(nodes), INITIAL)
    requires (forall k :: 0 <= k < |ps| ==> Sees(nodes, ps[k])) && InOrder(ps)
    ensures var ms := MessagesOf(nodes, ps);
      && AllDeltas(START, ms, gen).Success?
      && Holds(After(START, ms, gen), LastOf(EMPTY_MESSAGE, ms))
      && MessageDiff.Replay(EMPTY_MESSAGE, AllDeltas(START, ms, gen).value) == After(START, ms, gen).msg
  {
    hide MessageOf, Streamable, Active, Sees, GrowingFrom, AllDeltas, After;
    if ps != [] { EmptyGrows(MessageOf(nodes, ps[0])); }
    ParsesFormStream(nodes, EMPTY_MESSAGE, ps);
    StreamRebuilds(START, EMPTY_MESSAGE, MessagesOf(nodes, ps), gen);
  }

  lemma EmptyGrows(m: Message)
    ensures GrowsTo(EMPTY_MESSAGE, m)
  {}
}
