/** What a client sees of a Gemma 4 output: complete arguments as compact JSON, and a string that is still being written
    up to its last character. */
module Gemma4Shown {
  import opened Messages
  import opened PegMatch
  import PegMapper
  import opened JsonText
  import opened JsonReader
  import opened Gemma4Json
  import opened Gemma4Value
  import opened Gemma4Number
  import opened Gemma4Parser
  import opened Gemma4Stream
  import opened Gemma4Output
  import opened Gemma4Writer
  import opened Gemma4Drops
  import opened Gemma4Meaning

  // ---------- compact JSON ----------

  function Compact(v: Value): string
    decreases v
  {
    match v
    case Atom(t) => t
    case Text(t) => Dump(t)
    case List(vs) => "[" + CompactItems(vs) + "]"
    case Object(ms) => "{" + CompactMembers(ms) + "}"
  }

  function CompactItems(vs: seq<Value>): string
    decreases vs
  {
    if vs == [] then "" else Compact(vs[0]) + if |vs| == 1 then "" else "," + CompactItems(vs[1..])
  }

  function CompactMembers(ms: seq<(string, Value)>): string
    decreases ms
  {
    if ms == [] then "" else CompactMember(ms[0]) + if |ms| == 1 then "" else "," + CompactMembers(ms[1..])
  }

  function CompactMember(m: (string, Value)): string
    decreases m
  {
    Dump(m.0) + ":" + Compact(m.1)
  }

  /** A complete tree is rendered as the compact JSON of its value. */
  lemma {:induction false} RenderedAs(n: Node)
    requires IsPayload(n)
    ensures ToJson(n) == Compact(Meaning(n))
    decreases n
  {
    hide Escape;
    match n.rule {
      case NUMBER => {}
      case BOOL => {}
      case NULL => {}
      case STRING => EscapeEmpty();
      case ARRAY => ItemsRendered(n.children);
      case DICT => MembersRendered(n.children);
    }
  }

  lemma {:induction false} ItemsRendered(cs: seq<Node>)
    requires AllValues(cs)
    ensures |Values(cs)| == |cs| && Elements(cs) == CompactItems(Values(cs))
    decreases cs
  {
    hide IsPayload, Meaning, ToJson;
    if cs != [] {
      var n := cs[0];
      ValueFirst(n);
      RenderedAs(n.children[0]);
      ItemsRendered(cs[1..]);
    }
  }

  lemma {:induction false} MembersRendered(cs: seq<Node>)
    requires AllMembers(cs)
    ensures |Members(cs)| == |cs| && Elements(cs) == CompactMembers(Members(cs))
    decreases cs
  {
    hide IsMember, MemberOf, ToJson;
    if cs != [] {
      MemberRendered(cs[0]);
      MembersRendered(cs[1..]);
    }
  }

  lemma {:induction false} MemberRendered(n: Node)
    requires IsMember(n)
    ensures ToJson(n) == CompactMember(MemberOf(n))
    decreases n
  {
    hide ToJson, Escape, IsPayload, Meaning;
    MemberFirst(n);
    var v := n.children[1];
    ValueFirst(v);
    RenderedAs(v.children[0]);
    var k, c := Escape(n.children[0].children[0].text), Compact(ValueOf(v));
    assert "\"" + k + "\":" + c == "\"" + k + "\"" + ":" + c;
  }

  // ---------- a string that is still being written ----------

  /** A member whose value is a string of which only the beginning has come. */
  function OpenText(key: string, behind: string, t: string): string {
    key + ":" + (behind + (QUOTE + t))
  }

  function OpenShown(key: string, t: string): string {
    Dump(key) + ":" + ("\"" + Escape(t))
  }

  predicate NoDelimiter(t: string) {
    forall k :: 0 <= k < |t| ==> t[k] != '<'
  }

  lemma UntilTheEnd(words: seq<string>, t: string)
    requires AllMarked(words) && NoDelimiter(t)
    ensures Until(words, t) == |t|
  {
    forall j | 0 <= j < |t| ensures CheckAt(words, t[j..]) == Absent {
      forall k | 0 <= k < |words| ensures !(words[k] <= t[j..]) && !(t[j..] <= words[k]) {
        assert t[j..][0] == t[j] && words[k][0] == '<';
      }
    }
    UntilIs(words, t, |t|);
  }

  lemma StringOpen(t: string)
    requires NoDelimiter(t)
    ensures var p := Payload(QUOTE + t); p.More? && p.node.text != "" && ToJson(p.node) == "\"" + Escape(t)
  {
    hide Until, Literal, Escape;
    QuoteMarked();
    UntilTheEnd([QUOTE], t);
    LiteralIs(QUOTE, t);
    EscapeEmpty();
    assert t[..|t|] == t;
    var content := Node(STRING_CONTENT, OTHER_TAG, t, [], true);
    assert StringRule(QUOTE + t) == Begins(STRING, QUOTE + t, [content]);
    assert ToJson(content) == Escape(t);
  }

  lemma ValueOpen(s: string)
    requires Payload(s).More? && s != ""
    ensures var p := ValueRule(s); p.More? && p.node.text != "" && ToJson(p.node) == ToJson(Payload(s).node)
  {
    hide Payload;
    assert ToJson(Begins(VALUE, s, [Payload(s).node]).node) == ToJson(Payload(s).node);
  }

  /** The key is complete and the string is shown as far as it has come. */
  lemma MemberOpen(key: string, behind: string, t: string)
    requires KeyOk(key) && Blanks(behind) && NoDelimiter(t)
    ensures var p := KvRule(OpenText(key, behind, t)); p.More? && ToJson(p.node) == OpenShown(key, t)
  {
    hide Payload, ValueRule, KeyRule, Escape, Blanks, KeyOk, NoDelimiter;
    var s, x := OpenText(key, behind, t), QUOTE + t;
    KeyRead(key, behind + x);
    Skipped(behind, x);
    StringOpen(t);
    ValueOpen(x);
    KeyShown(KeyRule(s).node);
    var k, v := KeyRule(s).node, ValueRule(x).node;
    PartsOfTwo(k, v);
    KvOpen(s, x);
    assert "\"" + Escape(key) + "\":" + ("\"" + Escape(t)) == Dump(key) + ":" + ("\"" + Escape(t));
  }

  lemma KeyShown(k: Node)
    requires IsKey(k)
    ensures ToJson(k) == "\"" + Escape(k.children[0].text) + "\":"
  {
    hide Escape;
    assert ToJson(k.children[0]) == k.children[0].text;
  }

  lemma KvOpen(s: string, x: string)
    requires s != "" && KeyRule(s).Done? && Space(KeyRule(s).rest) == x && ValueRule(x).More?
    ensures var p := KvRule(s); p.More? && ToJson(p.node) == Parts([KeyRule(s).node, ValueRule(x).node])
  {
    hide KeyRule, ValueRule, Space, Parts;
  }

  /** Complete members are shown in front of the open one. */
  lemma {:induction false} MembersOpen(ms: seq<GMember>, before: string, key: string, behind: string, t: string)
    requires ms != [] && MembersGOk(ms) && Blanks(before) && KeyOk(key) && Blanks(behind) && NoDelimiter(t)
    ensures var o := Onwards(MEMBER, "}", MembersBehind(ms) + ("," + (before + OpenText(key, behind, t))));
      o.Unclosed? && o.nodes != [] && Elements(o.nodes) == CompactMembers(AsMembers(ms)) + ("," + OpenShown(key, t))
    decreases ms
  {
    hide KvRule, Onwards, Tail, KeyAndValue, MemberGOk, IsMember, MemberOf, AsMember, Blanks, SpelledMembers;
    hide OpenText, OpenShown, KeyOk, NoDelimiter, ToJson, CompactMember, PegMapper.IsSpace, Follows;
    hide CompactMembers, MembersBehind, Elements;
    var open := OpenText(key, behind, t);
    var a, end := KeyAndValue(ms[0]), "," + (before + open);
    KeyStarts(ms[0]);
    BehindIs(ms, end);
    CompactIs(ms);
    if |ms| == 1 {
      CommaFollows(before + open);
      OneOpen(before, key, behind, t);
      MemberRead(ms[0], end);
      OnwardsIs(MEMBER, "}", a + end);
      var n := KvRule(a + end).node;
      MemberRendered(n);
      TwoElements(n, KvRule(open).node);
    } else {
      var more, b := ms[1..], MembersBehind(ms[1..]);
      MembersOpen(more, before, key, behind, t);
      CommaFollows(more[0].before + (b + end));
      MemberRead(ms[0], "," + (more[0].before + (b + end)));
      OnwardsKnown(MEMBER, "}", b + end);
      BlanksBefore(more[0]);
      KeyStarts(more[0]);
      FirstBehind(more, end);
      TailGoesOn(MEMBER, "}", more[0].before, b + end);
      OnwardsIs(MEMBER, "}", a + ("," + (more[0].before + (b + end))));
      var n, ns := KvRule(a + ("," + (more[0].before + (b + end)))).node, Onwards(MEMBER, "}", b + end).nodes;
      MemberRendered(n);
      MoreElements(n, ns);
      CommaMore(CompactMember(AsMember(ms[0])), CompactMembers(AsMembers(more)), "," + OpenShown(key, t));
    }
  }

  lemma BehindIs(ms: seq<GMember>, end: string)
    requires ms != []
    ensures |ms| == 1 ==> MembersBehind(ms) + end == KeyAndValue(ms[0]) + end
    ensures |ms| > 1 ==>
      MembersBehind(ms) + end == KeyAndValue(ms[0]) + ("," + (ms[1].before + (MembersBehind(ms[1..]) + end)))
  {
    hide KeyAndValue, SpelledMembers, MembersBehind;
    BehindParts(ms);
    if |ms| == 1 {
      NoMore(KeyAndValue(ms[0]), end);
    } else {
      MembersAre(ms[1..]);
      Apart(KeyAndValue(ms[0]), ms[1].before, MembersBehind(ms[1..]), end);
    }
  }

  lemma BehindParts(ms: seq<GMember>)
    requires ms != []
    ensures MembersBehind(ms) == KeyAndValue(ms[0]) + if |ms| == 1 then "" else "," + SpelledMembers(ms[1..])
  {
    hide KeyAndValue, SpelledMembers;
  }

  lemma CompactIs(ms: seq<GMember>)
    requires ms != []
    ensures var c := CompactMember(AsMember(ms[0]));
      CompactMembers(AsMembers(ms)) == if |ms| == 1 then c else c + ("," + CompactMembers(AsMembers(ms[1..])))
  {
    hide CompactMember, AsMember;
    var a := AsMembers(ms);
    AsManyMembers(ms);
    AsManyMembers(ms[1..]);
    assert a == [AsMember(ms[0])] + AsMembers(ms[1..]);
    assert a[0] == AsMember(ms[0]) && a[1..] == AsMembers(ms[1..]);
    assert CompactMember(a[0]) + "" == CompactMember(a[0]);
  }

  lemma {:induction false} AsManyMembers(ms: seq<GMember>)
    ensures |AsMembers(ms)| == |ms|
  {
    if ms != [] { AsManyMembers(ms[1..]); }
  }

  lemma FirstBehind(ms: seq<GMember>, end: string)
    requires ms != [] && KeyAndValue(ms[0]) != "" && !PegMapper.IsSpace(KeyAndValue(ms[0])[0])
    ensures var s := MembersBehind(ms) + end; s != "" && !PegMapper.IsSpace(s[0])
  {
    hide KeyAndValue, PegMapper.IsSpace;
  }

  lemma TwoElements(a: Node, b: Node)
    ensures Elements([a] + [b]) == ToJson(a) + ("," + ToJson(b))
  {
    hide ToJson;
    assert ([a] + [b])[1..] == [b];
    assert ToJson(b) + "" == ToJson(b);
  }

  lemma MoreElements(n: Node, ns: seq<Node>)
    requires ns != []
    ensures Elements([n] + ns) == ToJson(n) + ("," + Elements(ns))
  {
    hide ToJson;
    assert ([n] + ns)[1..] == ns;
  }

  /** Behind a comma only the open member. */
  lemma OneOpen(before: string, key: string, behind: string, t: string)
    requires Blanks(before) && KeyOk(key) && Blanks(behind) && NoDelimiter(t)
    ensures var open := OpenText(key, behind, t);
      && KvRule(open).More?
      && Tail(MEMBER, "}", "," + (before + open)) == Unclosed([KvRule(open).node])
      && Onwards(MEMBER, "}", open) == Unclosed([KvRule(open).node])
      && ToJson(KvRule(open).node) == OpenShown(key, t)
      && open != "" && !PegMapper.IsSpace(open[0]) && open[0] != '}'
  {
    hide KvRule, OpenShown, NoDelimiter, Blanks, Tail, ToJson, PegMapper.IsSpace;
    var open := OpenText(key, behind, t);
    MemberOpen(key, behind, t);
    OpenFirst(key, behind, t);
    TailGoesOn(MEMBER, "}", before, open);
  }

  lemma OpenFirst(key: string, behind: string, t: string)
    requires KeyOk(key)
    ensures var open := OpenText(key, behind, t); open != "" && !PegMapper.IsSpace(open[0]) && open[0] != '}'
  {
    assert OpenText(key, behind, t)[0] == key[0];
  }

  /** The text of arguments up to the middle of a string. */
  function OpenDict(ms: seq<GMember>, before: string, open: string): string {
    "{" + if ms == [] then before + open else SpelledMembers(ms) + ("," + (before + open))
  }

  /** While a string is being written, all members before it and every character of it are shown. */
  lemma ShownAtOnce(ms: seq<GMember>, before: string, key: string, behind: string, t: string)
    requires MembersGOk(ms) && Blanks(before) && KeyOk(key) && Blanks(behind) && NoDelimiter(t)
    ensures var p := DictRule(OpenDict(ms, before, OpenText(key, behind, t)));
      p.More? && ToJson(p.node) == "{" + (CompactMembers(AsMembers(ms)) + (if ms == [] then "" else ",") + OpenShown(key, t))
  {
    hide DictRule, SpelledMembers, AsMembers, MembersGOk, MembersBehind, Blanks, KvRule, OpenText, OpenShown, OpenDict;
    hide KeyOk, NoDelimiter, CompactMembers, Elements, PegMapper.IsSpace, ToJson, Onwards;
    var open := OpenText(key, behind, t);
    var s := OpenDict(ms, before, open);
    OpenDictIs(ms, before, open);
    OneOpen(before, key, behind, t);
    if ms == [] {
      NoMembersShown();
      OneElement(KvRule(open).node);
      DictOpen(s, before, open, [KvRule(open).node]);
      NothingShown(OpenShown(key, t));
    } else {
      FirstBlanksOf(ms);
      MembersOpen(ms, before, key, behind, t);
      MembersFirst(ms);
      var x := MembersBehind(ms) + ("," + (before + open));
      StillFirst(MembersBehind(ms), "," + (before + open));
      DictOpen(s, ms[0].before, x, Onwards(MEMBER, "}", x).nodes);
      CommaShown(CompactMembers(AsMembers(ms)), OpenShown(key, t));
    }
  }

  lemma OpenDictIs(ms: seq<GMember>, before: string, open: string)
    ensures OpenDict(ms, before, open) ==
      "{" + if ms == [] then before + open else ms[0].before + (MembersBehind(ms) + ("," + (before + open)))
  {
    hide SpelledMembers, MembersBehind;
    if ms != [] {
      MembersAre(ms);
      Braced(ms[0].before, MembersBehind(ms), "," + (before + open));
    }
  }

  lemma StillFirst(a: string, b: string)
    requires a != ""
    ensures (a + b)[0] == a[0]
  {}

  lemma NothingShown(x: string)
    ensures "" + "" + x == x
  {}

  lemma Braced(w: string, x: string, y: string)
    ensures "{" + ((w + x) + y) == "{" + (w + (x + y))
  {}

  lemma CommaShown(x: string, y: string)
    ensures "{" + (x + ("," + y)) == "{" + (x + "," + y)
  {}

  lemma DictOpen(s: string, w: string, x: string, ns: seq<Node>)
    requires Blanks(w) && s == "{" + (w + x) && x != "" && !PegMapper.IsSpace(x[0]) && x[0] != '}'
    requires Onwards(MEMBER, "}", x) == Unclosed(ns)
    ensures DictRule(s).More? && ToJson(DictRule(s).node) == "{" + Elements(ns)
  {
    hide DictRule, Onwards, Blanks, PegMapper.IsSpace, Elements;
    assert s[1..] == w + x;
    DictIs(s);
    InsideItems(MEMBER, "}", w, x);
    OpenDictShown(s, ns);
  }

  lemma OpenDictShown(s: string, ns: seq<Node>)
    requires s != ""
    ensures ToJson(Begins(DICT, s, ns).node) == "{" + Elements(ns)
  {
    hide Elements;
    assert "{" + Elements(ns) + "" == "{" + Elements(ns);
  }

  lemma DictIs(s: string)
    requires s != "" && s[0] == '{'
    ensures DictRule(s) == Bracketed(DICT, s, Inside(MEMBER, "}", Space(s[1..])))
  {
    hide Inside, Space;
  }

  lemma NoMembersShown()
    ensures AsMembers([]) == [] && CompactMembers([]) == ""
  {}

  lemma OneElement(n: Node)
    ensures Elements([n]) == ToJson(n)
  {
    hide ToJson;
    assert ToJson(n) + "" == ToJson(n);
  }

  lemma MembersFirst(ms: seq<GMember>)
    requires ms != [] && MembersGOk(ms)
    ensures MembersBehind(ms) != "" && !PegMapper.IsSpace(MembersBehind(ms)[0]) && MembersBehind(ms)[0] != '}'
  {
    hide MemberGOk, KeyAndValue, PegMapper.IsSpace;
    KeyStarts(ms[0]);
  }

  // ---------- what the client sees ----------

  /** A call that is being written is reported with its name and the JSON so far. */
  lemma UnfinishedCall(tools: Tools, name: string, ms: seq<GMember>, before: string, key: string, behind: string, t: string, m: Message)
    requires Sane(tools.names) && name in tools.names
    requires MembersGOk(ms) && Blanks(before) && KeyOk(key) && Blanks(behind) && NoDelimiter(t)
    ensures var shown := "{" + (CompactMembers(AsMembers(ms)) + (if ms == [] then "" else ",") + OpenShown(key, t));
      VisitedAll(m, Calls(tools, CALL + (name + OpenDict(ms, before, OpenText(key, behind, t))))) ==
        m.(calls := m.calls + [ToolCall(name, shown, "")])
  {
    hide DictRule, ToolChoice, ToJson, CallNode, Visited, SpelledMembers, AsMembers, OpenText, OpenShown, CompactMembers, KeyOk;
    hide NoDelimiter, MembersGOk, Blanks, ToolRule;
    var d := OpenDict(ms, before, OpenText(key, behind, t));
    var s := name + d;
    ShownAtOnce(ms, before, key, behind, t);
    OpensWithBrace(ms, before, OpenText(key, behind, t));
    LiteralIs(name, d);
    var n := DictRule(d).node;
    var args := Wrapped(TOOL_ARGS, d, [n], "", true);
    OpenTool(name, s, d);
    ChoiceIs(tools.names, name, s);
    LiteralIs(CALL, s);
    var c := CallNode(name, s, "", args, true);
    CallVisited(m, name, s, "", args, true);
    CallsOfPart(tools, CALL + s, s, c);
    VisitOne(m, c);
  }

  lemma OpensWithBrace(ms: seq<GMember>, before: string, open: string)
    ensures "{" <= OpenDict(ms, before, open)
  {
    hide SpelledMembers;
  }

  lemma OpenTool(name: string, s: string, d: string)
    requires s == name + d && "{" <= d && DictRule(d).More?
    ensures name + "{" <= s
    ensures ToolRule(name, s) == More(CallNode(name, s, "", Wrapped(TOOL_ARGS, d, [DictRule(d).node], "", true), true))
  {
    hide DictRule, CallNode;
    LiteralIs(name, d);
    assert s == name + "{" + d[1..];
  }

  lemma CallsOfPart(tools: Tools, s: string, r: string, n: Node)
    requires s != "" && Literal(CALL, s) == Matched(r) && ToolChoice(tools.names, r) == More(n)
    ensures Calls(tools, s) == [n]
  {
    hide Literal, ToolChoice;
  }

  /** A thought that is being written is shown up to its last character. */
  lemma UnfinishedThought(tools: Tools, bs: seq<Block>, channels: nat, gap: string, t: string)
    requires BlocksOk(bs) && Blanks(gap) && NoDelimiter(t) && t != "" && !PegMapper.IsSpace(t[0])
    ensures var m := MessageOf(tools, TURN + BlocksText(bs, Opened(channels, THOUGHT + (gap + t))));
      m.reasoning == ThoughtsOf(bs) + t && m.content == ContentsOf(bs) && m.calls == []
  {
    hide Body, BlocksText, BlocksOk, VisitedAll, Visited, Opened, Blanks, NoDelimiter, EndsClean, Interrupts;
    var tail := Opened(channels, THOUGHT + (gap + t));
    var b, w := BlocksText(bs, tail), AddedAll(EMPTY_MESSAGE, bs);
    LiteralIs(TURN, b);
    assert Forest(tools, TURN + b) == [Wrapped(OTHER_TAG, TURN + b, [], b, false)] + Body(tools, b);
    StartVisited(EMPTY_MESSAGE, TURN + b, b, Body(tools, b));
    OpenedIsChannel(channels, gap + t);
    ChannelInterrupts(tail);
    BlocksRead(tools, bs, tail, EMPTY_MESSAGE);
    AddedIs(EMPTY_MESSAGE, bs);
    ThoughtOpen(tools, w, channels, gap, t);
    assert "" + ThoughtsOf(bs) == ThoughtsOf(bs) && "" + ContentsOf(bs) == ContentsOf(bs);
  }

  lemma ChannelInterrupts(s: string)
    requires exists y :: s == CHANNEL + y
    ensures Interrupts(s) && s != ""
  {
    var y :| s == CHANNEL + y;
    assert STOPS[0] == CHANNEL;
    assert CHANNEL in STOPS;
  }

  lemma ThoughtOpen(tools: Tools, m: Message, channels: nat, gap: string, t: string)
    requires Blanks(gap) && NoDelimiter(t) && t != "" && !PegMapper.IsSpace(t[0])
    ensures VisitedAll(m, Body(tools, Opened(channels, THOUGHT + (gap + t)))) == m.(reasoning := m.reasoning + t)
  {
    hide Until, Literal, Space, Blanks, NoDelimiter, Opened, Channels, PegMapper.IsSpace, Visited;
    var s, x := Opened(channels, THOUGHT + (gap + t)), THOUGHT + (gap + t);
    ChannelsPass(channels, gap + t);
    LiteralIs(THOUGHT, gap + t);
    Skipped(gap, t);
    StopsMarked();
    UntilTheEnd([CHANNEL_END], t);
    assert t[..|t|] == t;
    var n := Wrapped(OTHER_TAG, x, [Reasoning(t)], "", true);
    assert ThoughtRule(x) == More(n);
    OpenedNotEmpty(channels, x);
    BodyWaits(tools, s, x, n);
    var all := Wrapped(OTHER_TAG, s, [n], "", true);
    ThoughtVisited(m, n, t);
    VisitOne(m, all);
    ChildrenVisited(m, all);
    VisitOne(m, n);
  }

  lemma OpenedNotEmpty(channels: nat, x: string)
    requires x != ""
    ensures Opened(channels, x) != ""
  {
    OpenedLonger(channels, x);
  }

  lemma BodyWaits(tools: Tools, s: string, x: string, n: Node)
    requires s != "" && Literal(CHANNEL, s).Matched? && Channels(s) == Passed(x) && ThoughtRule(x) == More(n)
    ensures Body(tools, s) == [Wrapped(OTHER_TAG, s, [n], "", true)]
  {
    hide Literal, Channels, ThoughtRule;
  }

  lemma ThoughtVisited(m: Message, n: Node, t: string)
    requires n.tag == OTHER_TAG && n.children == [Reasoning(t)] && Until([CHANNEL_END], t) == |t|
    ensures Visited(m, n) == m.(reasoning := m.reasoning + t)
  {
    hide Until, Reasoning, Visited;
    ReasoningIs(t);
    ReasoningSeen(m, n, t);
  }

  lemma ReasoningIs(t: string)
    requires Until([CHANNEL_END], t) == |t|
    ensures Reasoning(t) == Node(OTHER_RULE, REASONING, t, [], true)
  {
    hide Until;
    assert t[..|t|] == t;
  }

  lemma ReasoningSeen(m: Message, n: Node, t: string)
    requires n.tag == OTHER_TAG && n.children == [Node(OTHER_RULE, REASONING, t, [], true)]
    ensures Visited(m, n) == m.(reasoning := m.reasoning + t)
  {
    VisitOne(m, n.children[0]);
  }
}
