/** A whole Gemma 4 output, from its text to the reported message: the reasoning is the thoughts, the content is the
    contents, and every call is reported with its name and with arguments that a JSON reader reads as the value
    that was written. */
module Gemma4Meaning {
  import opened Wrappers
  import opened Messages
  import opened PegMatch
  import PegMapper
  import opened JsonReader
  import opened Gemma4Json
  import opened Gemma4Value
  import opened Gemma4Parser
  import opened Gemma4Number
  import opened Gemma4Partial
  import opened Gemma4Stream
  import opened Gemma4Output
  import opened Gemma4Writer
  import opened Gemma4Chunks
  import opened Gemma4Drops

  // ---------- outputs as they are written ----------

  datatype Invocation = Invocation(name: string, args: seq<GMember>, end: string)

  /** A thought behind some channels that were opened for nothing and behind white space. */
  datatype Thinking = Thinking(channels: nat, gap: string, text: string)

  /** A thought, if there is one, and the content behind it. */
  datatype Block = Block(thought: Option<Thinking>, content: string)

  /** Blocks, something that is passed over, calls, and something that is not read. */
  datatype Output = Output(turn: bool, blocks: seq<Block>, stray: string, calls: seq<Invocation>, unread: string)

  function Opened(channels: nat, s: string): string {
    if channels == 0 then s else CHANNEL + Opened(channels - 1, s)
  }

  function ThinkingText(t: Thinking, s: string): string {
    Opened(t.channels, THOUGHT + (t.gap + (t.text + (CHANNEL_END + s))))
  }

  function BlockText(b: Block, s: string): string {
    if b.thought.Some? then ThinkingText(b.thought.value, b.content + s) else b.content + s
  }

  /** The blocks and what follows them. */
  function BlocksText(bs: seq<Block>, s: string): string {
    if bs == [] then s else BlockText(bs[0], BlocksText(bs[1..], s))
  }

  function CallText(c: Invocation): string {
    CALL + c.name + ("{" + SpelledMembers(c.args) + c.end + "}") + CALL_END
  }

  function CallsText(cs: seq<Invocation>, s: string): string {
    if cs == [] then s else CallText(cs[0]) + CallsText(cs[1..], s)
  }

  function OutputText(o: Output): string {
    (if o.turn then TURN else "") + BlocksText(o.blocks, o.stray + CallsText(o.calls, o.unread))
  }

  // ---------- what has to hold of them ----------

  predicate ThoughtOk(t: Thinking) {
    Blanks(t.gap) && Without(CHANNEL_END, t.text) && (t.text != "" ==> !PegMapper.IsSpace(t.text[0]))
  }

  predicate BlockOk(b: Block) {
    (b.thought.Some? ==> ThoughtOk(b.thought.value)) && WithoutAll(STOPS, b.content)
  }

  /** No delimiter has begun at the end of the text. */
  predicate EndsClean(t: string) {
    forall j :: 0 <= j < |t| ==> CheckAt(STOPS, t[j..]) == Absent
  }

  /** Contents are separated by thoughts. */
  predicate BlocksOk(bs: seq<Block>) {
    && (forall k :: 0 <= k < |bs| ==> BlockOk(bs[k]))
    && (forall k :: 1 <= k < |bs| ==> bs[k].thought.Some?)
    && (bs != [] && bs[0].thought.None? ==> bs[0].content != "")
  }

  predicate CallOk(tools: Tools, c: Invocation) {
    c.name in tools.names && MembersGOk(c.args) && Blanks(c.end)
  }

  predicate CallsOk(tools: Tools, cs: seq<Invocation>) {
    (forall k :: 0 <= k < |cs| ==> CallOk(tools, cs[k])) && (tools.parallel || |cs| <= 1)
  }

  /** Nothing is passed over, or something that begins with the end of a channel, or with a channel that opens no
      thought and no other channel, and in which no call begins. */
  predicate StrayOk(t: string) {
    Without(TOOL_BEGIN, t) && (t == "" || CHANNEL_END <= t || NoThoughtOpens(t))
  }

  predicate NoThoughtOpens(t: string) {
    CHANNEL <= t && var r := t[|CHANNEL|..]; r != "" && r[0] != '<' && !("thought" <= r) && !(r <= "thought")
  }

  /** Behind the calls there is nothing, or, behind a single call that has to be the only one, anything, or something
      that is not the beginning of a call. */
  predicate UnreadOk(tools: Tools, cs: seq<Invocation>, t: string) {
    t == "" || (cs != [] && (!tools.parallel || (!(CALL <= t) && !(t <= CALL))))
  }

  predicate OutputOk(tools: Tools, o: Output) {
    && Sane(tools.names) && BlocksOk(o.blocks) && StrayOk(o.stray) && CallsOk(tools, o.calls)
    && UnreadOk(tools, o.calls, o.unread)
    && (o.stray == "" && o.calls == [] && o.blocks != [] ==> EndsClean(o.blocks[|o.blocks| - 1].content))
    && (!o.turn ==> OutputText(o) == "" || (!(TURN <= OutputText(o)) && !(OutputText(o) <= TURN)))
  }

  // ---------- what they mean ----------

  function ThoughtsOf(bs: seq<Block>): string {
    if bs == [] then "" else (if bs[0].thought.Some? then bs[0].thought.value.text else "") + ThoughtsOf(bs[1..])
  }

  function ContentsOf(bs: seq<Block>): string {
    if bs == [] then "" else bs[0].content + ContentsOf(bs[1..])
  }

  /** The reported call is the written one. */
  predicate Reports(t: ToolCall, c: Invocation) {
    && t.name == c.name && t.id == ""
    && ReadValue(t.arguments) == Some((Object(AsMembers(c.args)), ""))
  }

  predicate AllReported(ts: seq<ToolCall>, cs: seq<Invocation>) {
    |ts| == |cs| && forall k :: 0 <= k < |ts| ==> Reports(ts[k], cs[k])
  }

  // ---------- one call ----------

  lemma NameFound(name: string, s: string, rest: string, args: Node, partial: bool)
    requires |rest| <= |s| && args.tag == TOOL_ARGS && |args.children| == 1
    ensures var open := Node(OTHER_RULE, OTHER_TAG, name, [NameNode(name)], false);
      var tool := Wrapped(TOOL, s, [open, args], rest, partial);
      ToolCallOf(tool) == Some(ToolCall(name, ToJson(args.children[0]), ""))
  {
    hide ToJson;
    var open := Node(OTHER_RULE, OTHER_TAG, name, [NameNode(name)], false);
    assert open.children[0].tag == TOOL_NAME && open.children[1..] == [] && NameNode(name).children == [];
    assert FindByTag(open.children, TOOL_NAME, 2) == Some(NameNode(name));
    assert [open, args][1..] == [args];
    assert FindByTag([open, args], TOOL_NAME, 3) == Some(NameNode(name));
    assert FindByTag([], TOOL_ARGS, 1).None?;
    assert FindByTag([], TOOL_ARGS, 2).None?;
    assert FindByTag(open.children, TOOL_ARGS, 2).None?;
    assert FindByTag([args], TOOL_ARGS, 3) == Some(args);
    assert FindByTag([open, args], TOOL_ARGS, 3) == Some(args);
  }

  lemma CallVisited(m: Message, name: string, s: string, rest: string, args: Node, partial: bool)
    requires |rest| <= |s| && args.tag == TOOL_ARGS && |args.children| == 1
    ensures Visited(m, CallNode(name, s, rest, args, partial)) == m.(calls := m.calls + [ToolCall(name, ToJson(args.children[0]), "")])
  {
    hide ToJson, ToolCallOf;
    NameFound(name, s, rest, args, partial);
    var open := Node(OTHER_RULE, OTHER_TAG, name, [NameNode(name)], false);
    var tool := Wrapped(TOOL, s, [open, args], rest, partial);
    var n := CallNode(name, s, rest, args, partial);
    assert n.children == [tool] && [tool][1..] == [];
    assert VisitedAll(m, [tool]) == VisitedAll(Visited(m, tool), []);
  }

  /** The rule of the tool reads the call, and its visit reports it. */
  lemma ToolRead(names: seq<string>, c: Invocation, rest: string)
    requires Sane(names) && c.name in names && MembersGOk(c.args) && Blanks(c.end)
    ensures var p := ToolChoice(names, c.name + ("{" + SpelledMembers(c.args) + c.end + "}") + rest);
      && p.Done? && p.rest == rest
      && forall m :: var v := Visited(m, p.node);
           v.content == m.content && v.reasoning == m.reasoning && |v.calls| == |m.calls| + 1 && v.calls[..|m.calls|] == m.calls
           && Reports(v.calls[|m.calls|], c)
  {
    hide DictRule, IsPayload, Meaning, ToolChoice, ReadValue, ToJson, CallNode, Visited, SpelledMembers, AsMembers, Blanks;
    var d := "{" + SpelledMembers(c.args) + c.end + "}";
    var s := c.name + d + rest;
    assert s == c.name + (d + rest);
    LiteralIs(c.name, d + rest);
    assert d + rest == "{" + (SpelledMembers(c.args) + c.end + "}" + rest);
    LiteralIs("{", SpelledMembers(c.args) + c.end + "}" + rest);
    assert c.name + "{" <= s;
    ChoiceIs(names, c.name, s);
    DictRead(c.args, c.end, rest);
    var n := DictRule(d + rest).node;
    CompleteArguments(n);
    var args := Wrapped(TOOL_ARGS, d + rest, [n], rest, false);
    assert ToolRule(c.name, s) == Done(CallNode(c.name, s, rest, args, false), rest);
    forall m ensures var v := Visited(m, ToolChoice(names, s).node);
           v.content == m.content && v.reasoning == m.reasoning && |v.calls| == |m.calls| + 1 && v.calls[..|m.calls|] == m.calls
           && Reports(v.calls[|m.calls|], c)
    {
      CallVisited(m, c.name, s, rest, args, false);
    }
  }

  // ---------- all calls ----------

  lemma CallRead(names: seq<string>, c: Invocation, rest: string)
    requires Sane(names) && c.name in names && MembersGOk(c.args) && Blanks(c.end)
    ensures var r := CallRule(names, CallText(c) + rest);
      && r.Whole? && r.rest == rest
      && var p := ToolChoice(names, c.name + ("{" + SpelledMembers(c.args) + c.end + "}") + (CALL_END + rest));
      && p.Done? && r.node == p.node
  {
    hide ToolChoice, SpelledMembers, Reports, Visited, Literal;
    var body := c.name + ("{" + SpelledMembers(c.args) + c.end + "}");
    assert CallText(c) + rest == CALL + (body + (CALL_END + rest));
    LiteralIs(CALL, body + (CALL_END + rest));
    ToolRead(names, c, CALL_END + rest);
    LiteralIs(CALL_END, rest);
  }

  /** The message after one more reported call. */
  predicate OneMore(m: Message, v: Message, c: Invocation) {
    && v.content == m.content && v.reasoning == m.reasoning && |v.calls| == |m.calls| + 1 && v.calls[..|m.calls|] == m.calls
    && Reports(v.calls[|m.calls|], c)
  }

  predicate MoreReported(m: Message, v: Message, cs: seq<Invocation>) {
    && v.content == m.content && v.reasoning == m.reasoning
    && |v.calls| == |m.calls| + |cs| && v.calls[..|m.calls|] == m.calls && AllReported(v.calls[|m.calls|..], cs)
  }

  lemma OneThenMore(m: Message, w: Message, v: Message, c: Invocation, cs: seq<Invocation>)
    requires OneMore(m, w, c) && MoreReported(w, v, cs)
    ensures MoreReported(m, v, [c] + cs)
  {
    hide Reports;
    var n := |m.calls|;
    assert v.calls[n] == v.calls[..n + 1][n] == w.calls[n];
    assert v.calls[..n] == v.calls[..n + 1][..n];
    forall k | 0 <= k < |cs| + 1 ensures Reports(v.calls[n..][k], ([c] + cs)[k]) {
      if k > 0 { assert v.calls[n..][k] == v.calls[n + 1..][k - 1]; }
    }
  }

  lemma {:induction false} CallsRead(tools: Tools, cs: seq<Invocation>, unread: string, m: Message)
    requires Sane(tools.names) && CallsOk(tools, cs) && UnreadOk(tools, cs, unread)
    ensures MoreReported(m, VisitedAll(m, Calls(tools, CallsText(cs, unread))), cs)
    decreases |cs|
  {
    hide CallRule, ToolChoice, Visited, Reports, CallText, MembersGOk, SpelledMembers, Blanks;
    if cs == [] {
      assert Calls(tools, "") == [];
    } else {
      var c, rest := cs[0], CallsText(cs[1..], unread);
      CallRead(tools.names, c, rest);
      ToolRead(tools.names, c, CALL_END + rest);
      var n := CallRule(tools.names, CallText(c) + rest).node;
      var w := Visited(m, n);
      assert OneMore(m, w, c);
      var more := if tools.parallel then Calls(tools, rest) else [];
      if !tools.parallel {
        assert cs[1..] == [];
      } else if |cs| == 1 {
        NothingRead(tools, unread);
      } else {
        CallsRead(tools, cs[1..], unread, w);
      }
      assert Calls(tools, CallsText(cs, unread)) == [n] + more by { TextGoesOn(c, rest); }
      assert ([n] + more)[1..] == more;
      OneThenMore(m, w, VisitedAll(w, more), c, cs[1..]);
      assert [c] + cs[1..] == cs;
    }
  }

  lemma NothingRead(tools: Tools, unread: string)
    requires unread == "" || (!(CALL <= unread) && !(unread <= CALL))
    ensures Calls(tools, unread) == []
  {
    hide ToolChoice;
  }

  lemma TextGoesOn(c: Invocation, rest: string)
    ensures CallText(c) + rest != ""
  {
    hide SpelledMembers;
  }

  // ---------- blocks ----------

  lemma StopsMarked()
    ensures AllMarked(STOPS) && AllMarked([CHANNEL_END])
  {}

  lemma ThoughtRead(gap: string, t: string, rest: string)
    requires ThoughtOk(Thinking(0, gap, t))
    ensures var s := THOUGHT + (gap + (t + (CHANNEL_END + rest)));
      && ThoughtRule(s).Done? && ThoughtRule(s).rest == rest
      && ThoughtRule(s).node.tag == OTHER_TAG && ThoughtRule(s).node.children == [Node(OTHER_RULE, REASONING, t, [], false)]
  {
    hide Until, Without, Literal, Space, Blanks, PegMapper.IsSpace;
    var x := t + (CHANNEL_END + rest);
    LiteralIs(THOUGHT, gap + x);
    EndIsNoSpace(t, rest);
    Skipped(gap, x);
    StopsMarked();
    UntilStop([CHANNEL_END], t, CHANNEL_END, rest);
    assert x == t + CHANNEL_END + rest;
    LiteralIs(CHANNEL_END, rest);
  }

  lemma EndIsNoSpace(t: string, rest: string)
    requires t != "" ==> !PegMapper.IsSpace(t[0])
    ensures var x := t + (CHANNEL_END + rest); x != "" && !PegMapper.IsSpace(x[0])
  {
    var x := t + (CHANNEL_END + rest);
    assert x[0] == if t == "" then '<' else t[0];
  }

  lemma ThoughtIsChannel(x: string)
    ensures THOUGHT + x == CHANNEL + ("thought" + x)
  {
    assert THOUGHT == CHANNEL + "thought";
  }

  lemma OpenedIsChannel(channels: nat, x: string)
    ensures exists y :: Opened(channels, THOUGHT + x) == CHANNEL + y
  {
    if channels == 0 {
      ThoughtIsChannel(x);
      assert Opened(channels, THOUGHT + x) == CHANNEL + ("thought" + x);
    } else {
      assert Opened(channels, THOUGHT + x) == CHANNEL + Opened(channels - 1, THOUGHT + x);
    }
  }

  /** Channels that open nothing are passed over. */
  lemma {:induction false} ChannelsPass(channels: nat, x: string)
    ensures var s := Opened(channels, THOUGHT + x); Literal(CHANNEL, s).Matched? && Channels(s) == Passed(THOUGHT + x)
  {
    hide Literal;
    var s := Opened(channels, THOUGHT + x);
    if channels == 0 {
      ThoughtIsChannel(x);
      LiteralIs(CHANNEL, "thought" + x);
      LiteralIs("thought", x);
    } else {
      var r := Opened(channels - 1, THOUGHT + x);
      LiteralIs(CHANNEL, r);
      ChannelsPass(channels - 1, x);
      OpenedIsChannel(channels - 1, x);
      var y :| r == CHANNEL + y;
      NotThought(r);
    }
  }

  lemma NotThought(r: string)
    requires r != "" && r[0] == '<'
    ensures Literal("thought", r).Missed?
  {}

  lemma ThoughtFound(t: Thinking, rest: string)
    requires ThoughtOk(t)
    ensures var s, x := ThinkingText(t, rest), THOUGHT + (t.gap + (t.text + (CHANNEL_END + rest)));
      ThoughtRule(x).Done? && ThoughtOrNot(s) == Behind([ThoughtRule(x).node], rest)
  {
    hide ThoughtRule, Literal, Channels, Blanks, Without;
    var x := t.gap + (t.text + (CHANNEL_END + rest));
    ChannelsPass(t.channels, x);
    ThoughtRead(t.gap, t.text, rest);
  }

  lemma NoThoughtHere(s: string)
    requires s != "" && CheckAt(STOPS, s) == Absent
    ensures ThoughtOrNot(s) == Behind([], s)
  {
    assert STOPS[0] == CHANNEL;
    assert !(STOPS[0] <= s) && !(s <= STOPS[0]);
  }

  /** The content up to what follows it. */
  lemma ContentRead(c: string, more: string)
    requires WithoutAll(STOPS, c) && Interrupts(more) && (more == "" ==> EndsClean(c))
    ensures Until(STOPS, c + more) == |c| && (c + more)[..|c|] == c && (c + more)[|c|..] == more
    ensures c != "" ==> CheckAt(STOPS, c + more) == Absent
  {
    hide CheckAt, WithoutAll;
    if more == "" {
      assert c + more == c;
      UntilIs(STOPS, c, |c|);
    } else {
      var stop, x :| stop in STOPS && more == stop + x;
      StopsMarked();
      UntilStop(STOPS, c, stop, x);
      assert c + more == c + stop + x;
    }
    if c != "" { assert (c + more)[0..] == c + more; }
  }

  lemma VisitOne(m: Message, n: Node)
    ensures VisitedAll(m, [n]) == Visited(m, n)
  {
    hide Visited;
    assert [n][1..] == [];
  }

  lemma ContentVisited(m: Message, s: string, k: nat)
    requires k == Until(STOPS, s)
    ensures Visited(m, ContentRule(s)) == m.(content := m.content + s[..k])
  {
    hide Until;
    var inner := Wrapped(CONTENT, s, [], s[k..], k == |s|);
    VisitOne(m, inner);
    assert TextOf(s, s[k..]) == s[..k];
  }

  lemma ReasoningVisited(m: Message, n: Node, t: string)
    requires n.tag == OTHER_TAG && n.children == [Node(OTHER_RULE, REASONING, t, [], false)]
    ensures Visited(m, n) == m.(reasoning := m.reasoning + t)
  {
    VisitOne(m, n.children[0]);
  }

  function Added(m: Message, b: Block): Message {
    m.(reasoning := m.reasoning + (if b.thought.Some? then b.thought.value.text else ""), content := m.content + b.content)
  }

  /** Nothing follows, or a delimiter. */
  ghost predicate Interrupts(more: string) {
    more == "" || exists stop, x :: stop in STOPS && more == stop + x
  }

  /** One block is one message of the grammar. */
  lemma BlockRead(m: Message, b: Block, more: string)
    requires BlockOk(b) && (b.thought.None? ==> b.content != "")
    requires Interrupts(more) && (more == "" ==> EndsClean(b.content))
    ensures var s := BlockText(b, more); var p := MessageRule(s);
      && |more| < |s| && !p.Malformed? && p == (if more == "" then More(p.node) else Done(p.node, more))
      && Visited(m, p.node) == Added(m, b)
  {
    hide ThoughtOrNot, ThoughtRule, ContentRule, Until, Visited, WithoutAll, EndsClean, ThoughtOk, CheckAt, MessageRule, ThinkingText;
    var s := BlockText(b, more);
    var c := b.content;
    ContentRead(c, more);
    ContentVisited(m, c + more, |c|);
    if b.thought.Some? {
      var t := b.thought.value;
      var x := THOUGHT + (t.gap + (t.text + (CHANNEL_END + (c + more))));
      ThoughtFound(t, c + more);
      ThoughtIs(t);
      ThoughtRead(t.gap, t.text, c + more);
      var w := m.(reasoning := m.reasoning + t.text);
      var n := ThoughtRule(x).node;
      ReasoningVisited(m, n, t.text);
      ContentVisited(w, c + more, |c|);
      MessageOfTwo(m, s, n, c, more);
      Longer(t, c + more);
    } else {
      assert m.reasoning + "" == m.reasoning;
      NoThoughtHere(s);
      MessageOfOne(m, s, c, more);
    }
  }

  lemma ThoughtIs(t: Thinking)
    requires ThoughtOk(t)
    ensures ThoughtOk(Thinking(0, t.gap, t.text))
  {}

  lemma {:induction false} OpenedLonger(channels: nat, s: string)
    ensures |Opened(channels, s)| >= |s|
  {
    if channels > 0 { OpenedLonger(channels - 1, s); }
  }

  lemma Longer(t: Thinking, s: string)
    ensures |ThinkingText(t, s)| > |s|
  {
    OpenedLonger(t.channels, THOUGHT + (t.gap + (t.text + (CHANNEL_END + s))));
  }

  lemma MessageOfOne(m: Message, s: string, c: string, more: string)
    requires ThoughtOrNot(s) == Behind([], s) && s == c + more && Until(STOPS, s) == |c| && s[|c|..] == more
    ensures var p := MessageRule(s);
      !p.Malformed? && p == (if more == "" then More(p.node) else Done(p.node, more)) && Visited(m, p.node) == Visited(m, ContentRule(s))
  {
    hide ThoughtOrNot, ContentRule, Until;
    assert [] + [ContentRule(s)] == [ContentRule(s)];
    hide Visited;
    VisitOne(m, ContentRule(s));
    ChildrenVisited(m, MessageRule(s).node);
  }

  lemma MessageOfTwo(m: Message, s: string, n: Node, c: string, more: string)
    requires ThoughtOrNot(s) == Behind([n], c + more) && Until(STOPS, c + more) == |c| && (c + more)[|c|..] == more
    ensures var p := MessageRule(s);
      && !p.Malformed? && p == (if more == "" then More(p.node) else Done(p.node, more))
      && Visited(m, p.node) == Visited(Visited(m, n), ContentRule(c + more))
  {
    hide ThoughtOrNot, ContentRule, Until, Visited;
    var k := ContentRule(c + more);
    assert [n] + [k] == [n, k] && [n, k][1..] == [k];
    VisitOne(Visited(m, n), k);
    ChildrenVisited(m, MessageRule(s).node);
  }

  lemma ChildrenVisited(m: Message, n: Node)
    ensures n.tag == OTHER_TAG ==> Visited(m, n) == VisitedAll(m, n.children)
  {}

  // ---------- the whole output ----------

  /** What follows a block: another thought, or what interrupts the blocks. */
  lemma FollowedBy(bs: seq<Block>, tail: string)
    requires (bs == [] || bs[0].thought.Some?) && Interrupts(tail)
    ensures Interrupts(BlocksText(bs, tail))
    ensures bs != [] ==> BlocksText(bs, tail) != ""
  {
    if bs != [] {
      hide Opened;
      var t, rest := bs[0].thought.value, bs[0].content + BlocksText(bs[1..], tail);
      var x := t.gap + (t.text + (CHANNEL_END + rest));
      OpenedIsChannel(t.channels, x);
      var y :| Opened(t.channels, THOUGHT + x) == CHANNEL + y;
      assert STOPS[0] == CHANNEL;
      assert CHANNEL in STOPS && BlocksText(bs, tail) == CHANNEL + y;
    }
  }

  /** The message after some blocks. */
  function AddedAll(m: Message, bs: seq<Block>): Message
    decreases |bs|
  {
    if bs == [] then m else AddedAll(Added(m, bs[0]), bs[1..])
  }

  lemma {:induction false} AddedIs(m: Message, bs: seq<Block>)
    ensures AddedAll(m, bs) == m.(reasoning := m.reasoning + ThoughtsOf(bs), content := m.content + ContentsOf(bs))
    decreases |bs|
  {
    if bs == [] {
      assert m.reasoning + "" == m.reasoning && m.content + "" == m.content;
    } else {
      AddedIs(Added(m, bs[0]), bs[1..]);
    }
  }

  lemma BodyGoesOn(tools: Tools, m: Message, s: string, more: string)
    requires var p := MessageRule(s);
      |more| < |s| && !p.Malformed? && p == (if more == "" then More(p.node) else Done(p.node, more))
    ensures VisitedAll(m, Body(tools, s)) == VisitedAll(Visited(m, MessageRule(s).node), Body(tools, more))
  {
    hide MessageRule, Visited, AfterMessages;
    var n := MessageRule(s).node;
    if more == "" {
      VisitOne(m, n);
      EmptyBody(tools, Visited(m, n));
    } else {
      assert ([n] + Body(tools, more))[1..] == Body(tools, more);
    }
  }

  lemma {:induction false} BlocksRead(tools: Tools, bs: seq<Block>, tail: string, m: Message)
    requires BlocksOk(bs) && Interrupts(tail)
    requires tail == "" && bs != [] ==> EndsClean(bs[|bs| - 1].content)
    ensures VisitedAll(m, Body(tools, BlocksText(bs, tail))) == VisitedAll(AddedAll(m, bs), Body(tools, tail))
    decreases |bs|
  {
    hide Body, Visited, VisitedAll, BlockOk, EndsClean, BlockText, MessageRule, BlocksOk, Added, Interrupts;
    if bs != [] {
      var more := BlocksText(bs[1..], tail);
      LaterBlocks(bs);
      FollowedBy(bs[1..], tail);
      BlockRead(m, bs[0], more);
      BodyGoesOn(tools, m, BlockText(bs[0], more), more);
      BlocksRead(tools, bs[1..], tail, Added(m, bs[0]));
    }
  }

  lemma LaterBlocks(bs: seq<Block>)
    requires BlocksOk(bs) && bs != []
    ensures BlocksOk(bs[1..]) && BlockOk(bs[0]) && (bs[0].thought.None? ==> bs[0].content != "")
    ensures |bs| > 1 ==> bs[1].thought.Some?
  {
    hide BlockOk;
    assert forall k :: 0 <= k < |bs| - 1 ==> bs[1..][k] == bs[k + 1];
  }

  lemma EmptyBody(tools: Tools, m: Message)
    ensures VisitedAll(m, Body(tools, "")) == m
  {
    ShortAfter(tools, "");
    IdleVisits(m, Body(tools, ""));
  }

  // ---------- behind the blocks ----------

  /** What is passed over is no message. */
  lemma StrayIsNoMessage(stray: string, more: string)
    requires stray != "" && (CHANNEL_END <= stray || NoThoughtOpens(stray))
    ensures var p := MessageRule(stray + more); p.Malformed? || (p.Done? && p.rest == stray + more)
    ensures Interrupts(stray + more)
  {
    hide ThoughtOrNot;
    var s := stray + more;
    if CHANNEL_END <= stray {
      var r := stray[|CHANNEL_END|..];
      assert s == CHANNEL_END + (r + more);
      EndOpensNothing(s, r + more);
      assert STOPS[1] == CHANNEL_END;
      assert CHANNEL_END in STOPS;
      assert s[0..] == s;
    } else {
      var r := stray[|CHANNEL|..];
      assert s == CHANNEL + (r + more);
      OpensNothing(r, more);
      assert STOPS[0] == CHANNEL;
      assert CHANNEL in STOPS;
    }
  }

  lemma EndOpensNothing(s: string, x: string)
    requires s == CHANNEL_END + x
    ensures ThoughtOrNot(s) == Behind([], s) && Until(STOPS, s) == 0
  {
    hide ThoughtOrNot, Until;
    StopHere(s, 1);
    assert s[1] == 'c';
    assert Literal(CHANNEL, s).Missed?;
    hide Literal;
    NoChannel(s);
  }

  lemma StopHere(s: string, k: nat)
    requires k < |STOPS| && STOPS[k] <= s
    ensures CheckAt(STOPS, s) == Complete && Until(STOPS, s) == 0
  {}

  lemma NoChannel(s: string)
    requires Literal(CHANNEL, s).Missed?
    ensures ThoughtOrNot(s) == Behind([], s)
  {
    hide Literal;
  }

  lemma OpensNothing(r: string, more: string)
    requires r != "" && r[0] != '<' && !("thought" <= r) && !(r <= "thought")
    ensures ThoughtOrNot(CHANNEL + (r + more)).NoMessage?
  {
    var s, x := CHANNEL + (r + more), r + more;
    LiteralIs(CHANNEL, x);
    Differs("thought", r, more);
    assert x[0] == r[0];
    hide Literal;
    LiteralMissed("thought", x);
    LiteralMissed(CHANNEL, x);
    LiteralMissed(THOUGHT, x);
    assert Channels(x) == Passed(x);
    assert Channels(s) == Passed(x);
  }

  lemma LiteralMissed(l: string, s: string)
    requires l != "" && s != ""
    ensures s[0] != l[0] || (!(l <= s) && !(s <= l)) ==> Literal(l, s).Missed?
  {}

  /** Everything up to the first call is passed over. */
  lemma TailRead(tools: Tools, stray: string, cs: seq<Invocation>, unread: string, m: Message)
    requires StrayOk(stray) && UnreadOk(tools, cs, unread)
    ensures var s := CallsText(cs, unread);
      Interrupts(stray + s) && VisitedAll(m, Body(tools, stray + s)) == VisitedAll(m, if cs == [] then [] else Calls(tools, s))
  {
    hide SpelledMembers, Visited, Calls, MessageRule, Body, VisitedAll, Without;
    var s := CallsText(cs, unread);
    var all := stray + s;
    if all == "" {
      EmptyBody(tools, m);
      NoneVisited(m);
    } else {
      if stray == "" {
        assert all == s;
        AtFirstCall(tools, cs, unread);
      } else {
        StrayIsNoMessage(stray, s);
      }
      BodyIsOver(tools, all);
      if cs != [] {
        CallsBegin(cs, unread);
        CallsVisited(tools, m, stray, s);
      } else {
        assert all == stray;
        NoCallsVisited(tools, m, stray);
        NoneVisited(m);
      }
    }
  }

  lemma NoneVisited(m: Message)
    ensures VisitedAll(m, []) == m
  {}

  lemma BodyIsOver(tools: Tools, s: string)
    requires s != "" && (MessageRule(s).Malformed? || (MessageRule(s).Done? && MessageRule(s).rest == s))
    ensures Body(tools, s) == AfterMessages(tools, s)
  {
    hide MessageRule, AfterMessages;
  }

  lemma CallsBegin(cs: seq<Invocation>, unread: string)
    requires cs != []
    ensures exists x :: CallsText(cs, unread) == TOOL_BEGIN + x
  {
    hide SpelledMembers;
    var c, rest := cs[0], CallsText(cs[1..], unread);
    var y := c.name + ("{" + SpelledMembers(c.args) + c.end + "}") + CALL_END + rest;
    assert CallsText(cs, unread) == CALL + y;
    assert CALL == TOOL_BEGIN + "call:";
    assert CALL + y == TOOL_BEGIN + ("call:" + y);
  }

  lemma AtFirstCall(tools: Tools, cs: seq<Invocation>, unread: string)
    requires cs != []
    ensures var s := CallsText(cs, unread); Interrupts(s) && MessageRule(s).Done? && MessageRule(s).rest == s
  {
    hide CallsText;
    CallsBegin(cs, unread);
    var s := CallsText(cs, unread);
    var x :| s == TOOL_BEGIN + x;
    assert STOPS[2] == TOOL_BEGIN;
    assert TOOL_BEGIN in STOPS && STOPS[2] <= s;
    assert CheckAt(STOPS, s) == Complete;
    assert s[2] == 't';
    assert Literal(CHANNEL, s).Missed?;
    hide CheckAt;
    assert Until(STOPS, s) == 0 && s[0..] == s;
  }

  lemma CallsVisited(tools: Tools, m: Message, stray: string, s: string)
    requires Without(TOOL_BEGIN, stray) && exists x :: s == TOOL_BEGIN + x
    ensures VisitedAll(m, AfterMessages(tools, stray + s)) == VisitedAll(m, Calls(tools, s))
  {
    hide Calls, Until, CallsEnd, Without;
    var x :| s == TOOL_BEGIN + x;
    ToolBeginMarked();
    UntilStop([TOOL_BEGIN], stray, TOOL_BEGIN, x);
    assert stray + s == stray + TOOL_BEGIN + x;
    var scan, calls := Scan(stray + s, |stray|), CallsNode(tools, s);
    assert AfterMessages(tools, stray + s) == [scan, calls] && [scan, calls][1..] == [calls];
    assert Visited(m, scan) == m;
    VisitOne(m, calls);
  }

  lemma ToolBeginMarked()
    ensures AllMarked([TOOL_BEGIN])
  {}

  /** Where no call begins, at most the beginning of one is found at the end. */
  lemma NoCallsVisited(tools: Tools, m: Message, s: string)
    requires Without(TOOL_BEGIN, s)
    ensures VisitedAll(m, AfterMessages(tools, s)) == m
  {
    hide Calls, CallsEnd, Until;
    var k := Until([TOOL_BEGIN], s);
    var scan := Scan(s, k);
    assert Visited(m, scan) == m;
    if k < |s| {
      var t := s[k..];
      BegunOnly(s, k);
      NothingCalled(tools, t);
      var calls := CallsNode(tools, t);
      assert Visited(m, calls) == m;
      assert AfterMessages(tools, s) == [scan, calls] && [scan, calls][1..] == [calls] && [calls][1..] == [];
    } else {
      VisitOne(m, scan);
    }
  }

  lemma BegunOnly(s: string, k: nat)
    requires Without(TOOL_BEGIN, s) && k < |s| && CheckAt([TOOL_BEGIN], s[k..]) != Absent
    ensures s[k..] <= TOOL_BEGIN
  {}

  lemma NothingCalled(tools: Tools, t: string)
    requires t != "" && t <= TOOL_BEGIN
    ensures Calls(tools, t) == []
  {
    assert CALL == TOOL_BEGIN + "call:";
    assert t <= CALL && !(CALL <= t);
  }

  lemma ForestRead(tools: Tools, o: Output, m: Message)
    requires !o.turn ==> OutputText(o) == "" || (!(TURN <= OutputText(o)) && !(OutputText(o) <= TURN))
    ensures VisitedAll(m, Forest(tools, OutputText(o))) ==
      VisitedAll(m, Body(tools, BlocksText(o.blocks, o.stray + CallsText(o.calls, o.unread))))
  {
    hide Body, BlocksText, CallsText;
    var s, b := OutputText(o), BlocksText(o.blocks, o.stray + CallsText(o.calls, o.unread));
    if o.turn {
      LiteralIs(TURN, b);
      StartVisited(m, s, b, Body(tools, b));
    } else {
      assert s == b;
      StartVisited(m, s, s, Body(tools, s));
    }
  }

  lemma StartVisited(m: Message, s: string, r: string, ns: seq<Node>)
    requires |r| <= |s|
    ensures VisitedAll(m, [Wrapped(OTHER_TAG, s, [], r, false)] + ns) == VisitedAll(m, ns)
  {
    var n := Wrapped(OTHER_TAG, s, [], r, false);
    assert ([n] + ns)[1..] == ns;
    assert Visited(m, n) == m;
  }

  /** For every output: the reasoning is the thoughts one after another, the content is the contents one after another,
      and the calls are reported in order, each with its name and with JSON for the arguments that were written. */
  lemma OutputMeaning(tools: Tools, o: Output)
    requires OutputOk(tools, o)
    ensures var m := MessageOf(tools, OutputText(o));
      m.reasoning == ThoughtsOf(o.blocks) && m.content == ContentsOf(o.blocks) && AllReported(m.calls, o.calls)
  {
    hide Body, Forest, Calls, Reports, BlocksText, CallsText, BlocksOk, CallsOk, EndsClean, VisitedAll, OutputText, StrayOk;
    hide UnreadOk, Interrupts;
    var m, tail := EMPTY_MESSAGE, o.stray + CallsText(o.calls, o.unread);
    var w := AddedAll(m, o.blocks);
    ForestRead(tools, o, m);
    TailRead(tools, o.stray, o.calls, o.unread, w);
    EmptyTail(o);
    BlocksRead(tools, o.blocks, tail, m);
    AddedIs(m, o.blocks);
    if o.calls == [] { NoneReported(w); } else { CallsRead(tools, o.calls, o.unread, w); }
    assert "" + ThoughtsOf(o.blocks) == ThoughtsOf(o.blocks) && "" + ContentsOf(o.blocks) == ContentsOf(o.blocks);
    var v := MessageOf(tools, OutputText(o));
    assert v.calls[0..] == v.calls;
  }

  lemma NoneReported(m: Message)
    ensures MoreReported(m, VisitedAll(m, []), [])
  {}

  lemma EmptyTail(o: Output)
    ensures o.stray + CallsText(o.calls, o.unread) == "" ==> o.stray == "" && o.calls == []
  {
    if o.calls != [] { CallsBegin(o.calls, o.unread); }
  }
}
