/** A Gemma 4 output with a malformed tool call has a prefix that reports more calls than it: streaming it
    cannot work. Together with Gemma4Chunks this is the exact condition. */
module Gemma4Drops {
  import opened Wrappers
  import PegMapper
  import opened PegMatch
  import opened Messages
  import opened MessageStream
  import MessageDiff
  import opened Gemma4Json
  import opened Gemma4Parser
  import opened Gemma4Number
  import opened Gemma4Partial
  import opened Gemma4Stream
  import opened Gemma4Output
  import opened Gemma4Chunks

  /** Tool names contain no brace. */
  predicate Sane(names: seq<string>) {
    forall k :: 0 <= k < |names| ==> '{' !in names[k]
  }

  // ---------- how many calls are reported ----------

  function Reported(n: Node): nat
    decreases n
  {
    if n.tag == REASONING || n.tag == CONTENT then 0
    else if n.tag == TOOL then (if ToolCallOf(n).Some? then 1 else 0)
    else ReportedAll(n.children)
  }

  function ReportedAll(ns: seq<Node>): nat
    decreases ns
  {
    if ns == [] then 0 else Reported(ns[0]) + ReportedAll(ns[1..])
  }

  lemma {:induction false} VisitCounts(m: Message, n: Node)
    ensures |Visited(m, n).calls| == |m.calls| + Reported(n)
    decreases n
  {
    hide ToolCallOf;
    if n.tag != REASONING && n.tag != CONTENT && n.tag != TOOL { VisitAllCounts(m, n.children); }
  }

  lemma {:induction false} VisitAllCounts(m: Message, ns: seq<Node>)
    ensures |VisitedAll(m, ns).calls| == |m.calls| + ReportedAll(ns)
    decreases ns
  {
    hide Visited, Reported;
    if ns != [] {
      VisitCounts(m, ns[0]);
      VisitAllCounts(Visited(m, ns[0]), ns[1..]);
    }
  }

  lemma ReportedCons(n: Node, ns: seq<Node>)
    ensures ReportedAll([n] + ns) == Reported(n) + ReportedAll(ns)
  {
    hide Reported;
    assert ([n] + ns)[1..] == ns;
  }

  // ---------- the tool is named by what stands before the brace ----------

  /** A longer beginning of the text than the name contains the brace. */
  lemma HasBrace(name: string, s: string, b: string)
    requires name + "{" <= s && b <= s && |b| > |name|
    ensures '{' in b
  {
    assert b[|name|] == s[|name|] == (name + "{")[|name|];
  }

  /** Any other tool fails here. */
  lemma OtherFails(name: string, other: string, s: string)
    requires Named(name, s) && '{' !in name && '{' !in other && other != name
    ensures ToolRule(other, s).Malformed?
  {
    hide DictRule;
    if s <= other {
      assert name + "{" <= other;
      HasBrace(name, other, other);
    } else if other <= s {
      if |other| > |name| { HasBrace(name, s, other); }
      BeforeName(name, other, s);
    }
  }

  lemma BeforeName(name: string, other: string, s: string)
    requires name + "{" <= s && other <= s && |other| <= |name| && other != name && '{' !in name
    ensures Literal("{", Literal(other, s).rest).Missed?
  {
    assert name <= s;
    assert |other| < |name| by { assert other == s[..|other|] && name == s[..|name|]; }
    var r := Literal(other, s).rest;
    assert r[0] == s[|other|] == name[|other|];
  }

  lemma {:induction false} ChoiceIs(names: seq<string>, name: string, s: string)
    requires Sane(names) && name in names && Named(name, s)
    ensures ToolChoice(names, s) == ToolRule(name, s)
    decreases |names|
  {
    hide ToolRule;
    if names[0] != name {
      OtherFails(name, names[0], s);
      ChoiceIs(names[1..], name, s);
    } else if ToolRule(name, s).Malformed? {
      AllFail(names, name, s);
    }
  }

  lemma {:induction false} AllFail(names: seq<string>, name: string, s: string)
    requires Sane(names) && Named(name, s) && '{' !in name && ToolRule(name, s).Malformed?
    ensures ToolChoice(names, s).Malformed?
    decreases |names|
  {
    hide ToolRule;
    if names != [] {
      if names[0] != name { OtherFails(name, names[0], s); }
      AllFail(names[1..], name, s);
    }
  }

  lemma {:induction false} ChosenIsNamed(names: seq<string>, s: string) returns (name: string)
    requires ToolChoice(names, s).Done?
    ensures name in names && Named(name, s) && ToolChoice(names, s) == ToolRule(name, s)
    decreases |names|
  {
    hide ToolRule;
    if !ToolRule(names[0], s).Malformed? {
      NamedOrIdle(names[0], s);
      name := names[0];
    } else {
      name := ChosenIsNamed(names[1..], s);
    }
  }

  // ---------- one call ----------

  lemma NothingInside()
    ensures Inside(MEMBER, "}", "") == Unclosed([])
  {
    hide Onwards;
    NothingClosed("}");
  }

  lemma OpenDict()
    ensures DictRule("{") == More(Node(DICT, OTHER_TAG, "{", [], true))
  {
    hide Inside, DictRule;
    BracketIs(MEMBER, "{");
    assert "{"[1..] == "" && Space("") == "";
    NothingInside();
  }

  /** At its opening brace a call is reported. */
  lemma JustNamed(name: string)
    ensures ToolRule(name, name + "{").More? && Reported(ToolRule(name, name + "{").node) == 1
  {
    hide DictRule, CallNode, Reported, Wrapped;
    var s, d := name + "{", Node(DICT, OTHER_TAG, "{", [], true);
    OpenDict();
    assert Literal(name, s) == Matched("{") && Literal("{", "{") == Matched("");
    ReportedCall(name, s, ArgsNode(d));
  }

  function ArgsNode(d: Node): (n: Node)
    ensures n.tag == TOOL_ARGS
  {
    Wrapped(TOOL_ARGS, "{", [d], "", true)
  }

  lemma ReportedCall(name: string, s: string, args: Node)
    requires args.tag == TOOL_ARGS
    ensures Reported(CallNode(name, s, "", args, true)) == 1
  {
    var open := Node(OTHER_RULE, OTHER_TAG, name, [NameNode(name)], false);
    var tool := Wrapped(TOOL, s, [open, args], "", true);
    assert open.children[0].tag == TOOL_NAME;
    assert FindByTag(open.children, TOOL_NAME, 2) == Some(NameNode(name));
    assert FindByTag([open, args], TOOL_NAME, 3) == Some(NameNode(name));
    assert [open, args][1..] == [args] && open.children[1..] == [];
    assert FindByTag(open.children, TOOL_ARGS, 2).None? by { assert NameNode(name).children == []; }
    assert FindByTag([args], TOOL_ARGS, 3) == Some(args);
    assert FindByTag([open, args], TOOL_ARGS, 3) == Some(args);
    assert ToolCallOf(tool).Some? && Reported(tool) == 1;
    ReportedCons(tool, []);
    assert [tool] + [] == [tool];
  }

  lemma ReportedOne(n: Node)
    ensures ReportedAll([n]) == Reported(n)
  {
    hide Reported;
    assert [n][1..] == [];
  }

  /** The text up to the brace of a call that fails later. */
  lemma BeforeFailure(names: seq<string>, name: string, s: string)
    requires Sane(names) && name in names && Fails(name, s)
    ensures CallRule(names, CALL + s).NoCall?
    ensures var c := CallRule(names, CALL + name + "{"); c.Part? && ReportedAll(c.nodes) == 1
  {
    hide ToolRule, ToolChoice, Called, Reported;
    var t := name + "{";
    AfterCall(s);
    ChoiceIs(names, name, s);
    assert CALL + name + "{" == CALL + t;
    AfterCall(t);
    ChoiceIs(names, name, t);
    JustNamed(name);
    OnlyPart(ToolRule(name, t));
    ReportedOne(ToolRule(name, t).node);
  }

  lemma AfterCall(s: string)
    ensures Literal(CALL, CALL + s) == Matched(s)
  {
    assert (CALL + s)[|CALL|..] == s;
  }

  lemma OnlyPart(p: Parsed)
    requires p.More?
    ensures Called(p) == Part([p.node])
  {}

  lemma CalledWhole(p: Parsed)
    requires Called(p).Whole?
    ensures p.Done? && Called(p).node == p.node && Literal(CALL_END, p.rest) == Matched(Called(p).rest)
    ensures |p.rest| == |CALL_END| + |Called(p).rest|
  {}

  lemma RestBehindBrace(name: string, s: string)
    requires ToolRule(name, s).Done?
    ensures |ToolRule(name, s).rest| + |name| < |s|
  {
    hide DictRule;
  }

  lemma NameIsThere(name: string, s: string, u: string)
    requires Named(name, s + u) && ToolRule(name, s + u).Done? && |ToolRule(name, s + u).rest| >= |u|
    ensures Named(name, s)
  {
    hide ToolRule;
    RestBehindBrace(name, s + u);
    var l := name + "{";
    assert l == (s + u)[..|l|] == s[..|l|];
  }

  lemma EndIsThere(a: Parsed, b: Parsed, u: string)
    requires Extends(a, b, u) && Called(b).Whole? && |Called(b).rest| >= |u|
    ensures Called(a).Whole? && Called(a).node == Called(b).node && Called(a).rest + u == Called(b).rest
  {
    hide Truncates;
    CalledWhole(b);
    var q := a.rest;
    assert b.rest == q + u;
    assert CALL_END <= q by { assert CALL_END == (q + u)[..|CALL_END|] == q[..|CALL_END|]; }
    Shift(q, u, |CALL_END|);
  }

  /** A whole call is read in the same way when less follows it. */
  lemma WholeWithLess(names: seq<string>, s: string, u: string)
    requires Sane(names) && CallRule(names, s + u).Whole? && |CallRule(names, s + u).rest| >= |u|
    ensures CallRule(names, s).Whole? && CallRule(names, s).node == CallRule(names, s + u).node
    ensures CallRule(names, s).rest + u == CallRule(names, s + u).rest
  {
    hide ToolRule, ToolChoice, Called, Literal, Extends;
    LiteralSettled(CALL, s, u);
    var r := Literal(CALL, s + u).rest;
    CalledWhole(ToolChoice(names, r));
    var name := ChosenIsNamed(names, r);
    var r0 := Literal(CALL, s).rest;
    assert r == r0 + u;
    NameIsThere(name, r0, u);
    ChoiceIs(names, name, r0);
    ToolRuleExtends(name, r0, u);
    EndIsThere(ToolRule(name, r0), ToolRule(name, r), u);
  }

  // ---------- all calls ----------

  /** There is a prefix that reports more calls. */
  ghost predicate LosesAt(tools: Tools, s: string, m: nat) {
    |CALL| <= m <= |s| && CALL <= s && ReportedAll(Calls(tools, s[..m])) > ReportedAll(Calls(tools, s))
  }

  lemma {:induction false} CallsLose(tools: Tools, s: string) returns (m: nat)
    requires Sane(tools.names) && CallsDrop(tools, s)
    ensures LosesAt(tools, s, m)
    decreases |s|
  {
    hide CallRule, Reported, AnyFails;
    var r := Literal(CALL, s).rest;
    if AnyFails(tools.names, r) {
      m := FirstLoses(tools, s, r);
    } else {
      var c := CallRule(tools.names, s);
      var k := CallsLose(tools, c.rest);
      m := |s| - |c.rest| + k;
      LaterLoses(tools, s, k);
    }
  }

  lemma FirstLoses(tools: Tools, s: string, r: string) returns (m: nat)
    requires Sane(tools.names) && Literal(CALL, s) == Matched(r) && AnyFails(tools.names, r)
    ensures LosesAt(tools, s, m)
  {
    hide CallRule, Reported, ToolRule, Fails;
    var k :| 0 <= k < |tools.names| && Fails(tools.names[k], r);
    var name := tools.names[k];
    assert s == CALL + r;
    m := |CALL| + |name| + 1;
    FailsIsNamed(name, r);
    assert s[..m] == CALL + name + "{" by { assert r[..|name| + 1] == name + "{"; }
    BeforeFailure(tools.names, name, r);
  }

  lemma FailsIsNamed(name: string, r: string)
    requires Fails(name, r)
    ensures name + "{" <= r
  {}

  lemma LaterLoses(tools: Tools, s: string, k: nat)
    requires Sane(tools.names) && tools.parallel && CALL <= s
    requires CallRule(tools.names, s).Whole? && LosesAt(tools, CallRule(tools.names, s).rest, k)
    ensures LosesAt(tools, s, |s| - |CallRule(tools.names, s).rest| + k)
  {
    hide CallRule, Reported;
    var c := CallRule(tools.names, s);
    var m := |s| - |c.rest| + k;
    var t, u := s[..m], s[m..];
    assert s == t + u;
    WholeWithLess(tools.names, t, u);
    var d := CallRule(tools.names, t);
    assert d.rest == c.rest[..k] by { assert |d.rest| == k && (d.rest + u)[..k] == d.rest; }
    ReportedCons(c.node, Calls(tools, c.rest));
    ReportedCons(c.node, Calls(tools, d.rest));
  }

  // ---------- behind the messages ----------

  /** A call begins at k, before m. */
  predicate CallAt(s: string, k: nat, m: nat) {
    k + |CALL| <= m <= |s| && CALL <= s[k..]
  }

  lemma UntilWithLess(s: string, u: string, k: nat)
    requires k == Until([TOOL_BEGIN], s + u) && CallAt(s, k, |s|)
    ensures Until([TOOL_BEGIN], s) == k
  {
    hide CheckAt;
    var j := Until([TOOL_BEGIN], s);
    UntilGrows([TOOL_BEGIN], s, u);
    CallIsFound(s, k);
    if j < |s| && CheckAt([TOOL_BEGIN], s[j..]) == Begun { BeginIsShort(s[j..]); }
    if j < |s| { BeginNotAbsent(s, j); }
  }

  lemma CallIsComplete(s: string)
    requires CALL <= s
    ensures CheckAt([TOOL_BEGIN], s) == Complete
  {
    assert TOOL_BEGIN == CALL[..|TOOL_BEGIN|];
    assert [TOOL_BEGIN][0] <= s;
  }

  lemma CallIsFound(s: string, k: nat)
    requires CallAt(s, k, |s|)
    ensures CheckAt([TOOL_BEGIN], s[k..]) == Complete && Until([TOOL_BEGIN], s) < |s|
  {
    hide CheckAt;
    CallIsComplete(s[k..]);
  }

  lemma ReportedScan(s: string, ns: seq<Node>, rest: string, x: string, end: string, a: bool, b: bool)
    requires |rest| <= |s| && |end| <= |x|
    ensures ReportedAll([Wrapped(OTHER_TAG, s, [], rest, a), Wrapped(OTHER_TAG, x, ns, end, b)]) == ReportedAll(ns)
  {
    var p, f := Wrapped(OTHER_TAG, s, [], rest, a), Wrapped(OTHER_TAG, x, ns, end, b);
    assert [p, f][1..] == [f] && [f][1..] == [];
    assert ReportedAll([f]) == Reported(f) + ReportedAll([]);
  }

  lemma ReportedAfter(tools: Tools, s: string)
    ensures var k := Until([TOOL_BEGIN], s); k < |s| ==> ReportedAll(AfterMessages(tools, s)) == ReportedAll(Calls(tools, s[k..]))
  {
    hide Until, Calls, Wrapped, Reported;
    var k := Until([TOOL_BEGIN], s);
    var x := s[k..];
    ReportedScan(s, Calls(tools, x), x, x, CallsEnd(tools, x).1, k == |s|, CallsEnd(tools, x).0);
  }

  lemma AfterLoses(tools: Tools, s: string) returns (m: nat, k: nat)
    requires Sane(tools.names) && AfterDrops(tools, s)
    ensures CallAt(s, k, m) && ReportedAll(AfterMessages(tools, s[..m])) > ReportedAll(AfterMessages(tools, s))
  {
    hide AfterMessages, CallsDrop, Calls, Until, Reported;
    k := Until([TOOL_BEGIN], s);
    var j := CallsLose(tools, s[k..]);
    m := k + j;
    var t, u := s[..m], s[m..];
    assert s == t + u && t[k..] == s[k..][..j];
    assert CALL <= t[k..];
    UntilWithLess(t, u, k);
    ReportedAfter(tools, s);
    ReportedAfter(tools, t);
  }

  // ---------- messages ----------

  lemma {:induction false} PendingHasNoCall(s: string, k: nat)
    requires CallAt(s, k, |s|)
    ensures !Channels(s).Pending?
    decreases |s|
  {
    match Literal(CHANNEL, s) {
      case Missed => {}
      case Short => {}
      case Matched(r) => {
        assert s[..|CHANNEL|] == CHANNEL && s[k] == '<' && s[k + 2] == 't' by { assert s[k..][0] == CALL[0] && s[k..][2] == CALL[2]; }
        assert k >= |CHANNEL|;
        assert r[k - |CHANNEL|..] == s[k..];
        if Literal("thought", r).Missed? { PendingHasNoCall(r, k - |CHANNEL|); }
      }
    }
  }

  /** With a call in it the text is long enough to be in the middle of something. */
  lemma Waits(s: string, k: nat)
    requires CallAt(s, k, |s|)
    ensures ThoughtOrNot(s).Waiting? ==> ThoughtOrNot(s).nodes != []
    ensures s != "" && !Literal(TURN, s).Short?
  {
    hide Channels, ThoughtRule;
    PendingHasNoCall(s, k);
  }

  /** A message before a call is read in the same way when less follows the call. */
  lemma MessageWithLess(s: string, u: string, k: nat)
    requires CallAt(s, k, |s|)
    ensures MessageRule(s + u).Malformed? ==> MessageRule(s).Malformed?
    ensures var b := MessageRule(s + u);
      b.Done? && |b.rest| >= |CALL| + |u| ==>
        MessageRule(s).Done? && MessageRule(s).node == b.node && MessageRule(s).rest + u == b.rest
  {
    hide MessageRule, ThoughtOrNot, CheckAt, Truncates, Idle;
    Waits(s, k);
    MessageExtends(s, u);
    MessageMore(s);
    var a := MessageRule(s);
    if a.Done? && CheckAt(STOPS, a.rest) == Begun { StopIsShort(a.rest); }
  }

  lemma MessageMore(s: string)
    ensures ThoughtOrNot(s).NoMessage? <==> MessageRule(s).Malformed?
  {
    hide ThoughtOrNot, Until;
  }

  lemma StopIsShort(s: string)
    requires CheckAt(STOPS, s) == Begun
    ensures |s| < |CALL|
  {}

  /** There is a prefix, with a call in it, that reports more calls. */
  ghost predicate BodyLosesAt(tools: Tools, s: string, m: nat, k: nat) {
    CallAt(s, k, m) && ReportedAll(Body(tools, s[..m])) > ReportedAll(Body(tools, s))
  }

  lemma {:induction false} BodyLoses(tools: Tools, s: string) returns (m: nat, k: nat)
    requires Sane(tools.names) && BodyDrops(tools, s)
    ensures BodyLosesAt(tools, s, m, k)
    decreases |s|
  {
    hide MessageRule, AfterMessages, AfterDrops, Reported, CallAt;
    if s != "" && MessageRule(s).Done? && |MessageRule(s).rest| != |s| {
      var r := MessageRule(s).rest;
      var i, j := BodyLoses(tools, r);
      m, k := BehindMessage(tools, s, i, j);
    } else {
      m, k := AfterLoses(tools, s);
      NoMessageBefore(tools, s, m, k);
    }
  }

  lemma NoMessageBefore(tools: Tools, s: string, m: nat, k: nat)
    requires CallAt(s, k, m) && (s != "" && MessageRule(s).Done? ==> |MessageRule(s).rest| == |s|)
    requires s == "" || !MessageRule(s).More?
    ensures Body(tools, s) == AfterMessages(tools, s) && Body(tools, s[..m]) == AfterMessages(tools, s[..m])
  {
    hide MessageRule, AfterMessages, ThoughtOrNot, CheckAt, Truncates, Idle;
    var t, u := s[..m], s[m..];
    assert s == t + u && t[k..] == s[k..][..m - k];
    assert CALL <= t[k..];
    MessageWithLess(t, u, k);
  }

  predicate IsSuffix(r: string, s: string) {
    |r| <= |s| && r == s[|s| - |r|..]
  }

  lemma SuffixOf(x: string, r: string, s: string)
    requires IsSuffix(x, r) && IsSuffix(r, s)
    ensures IsSuffix(x, s)
  {}

  lemma {:induction false} ChannelsSuffix(s: string)
    requires Channels(s).Passed?
    ensures IsSuffix(Channels(s).rest, s)
    decreases |s|
  {
    if s != "" && Literal(CHANNEL, s).Matched? {
      var r := Literal(CHANNEL, s).rest;
      if Literal("thought", r).Missed? {
        ChannelsSuffix(r);
        SuffixOf(Channels(s).rest, r, s);
      }
    }
  }

  lemma ThoughtSuffix(s: string)
    requires ThoughtRule(s).Done?
    ensures IsSuffix(ThoughtRule(s).rest, s)
  {
    hide Until;
    var r0 := Literal(THOUGHT, s).rest;
    var r := Space(r0);
    var k := Until([CHANNEL_END], r);
    SuffixOf(r, r0, s);
    SuffixOf(r[k..], r, s);
    SuffixOf(ThoughtRule(s).rest, r[k..], s);
  }

  /** What is behind a message is the end of the text. */
  lemma MessageRest(s: string)
    requires MessageRule(s).Done?
    ensures IsSuffix(MessageRule(s).rest, s)
  {
    hide ThoughtRule, Channels, Until;
    var r := ThoughtOrNot(s).rest;
    if Literal(CHANNEL, s).Matched? {
      var c := Channels(s).rest;
      ChannelsSuffix(s);
      ThoughtSuffix(c);
      SuffixOf(r, c, s);
    }
    SuffixOf(MessageRule(s).rest, r, s);
  }

  lemma BehindMessage(tools: Tools, s: string, i: nat, j: nat) returns (m: nat, k: nat)
    requires s != "" && MessageRule(s).Done? && |MessageRule(s).rest| < |s| && BodyLosesAt(tools, MessageRule(s).rest, i, j)
    ensures BodyLosesAt(tools, s, m, k)
  {
    hide MessageRule, AfterMessages, Reported;
    var r := MessageRule(s).rest;
    MessageRest(s);
    m, k := |s| - |r| + i, |s| - |r| + j;
    var t, u := s[..m], s[m..];
    assert s == t + u && t[k..] == s[k..][..m - k] && s[k..] == r[j..];
    assert CALL <= t[k..];
    MessageWithLess(t, u, k);
    var a := MessageRule(t);
    assert a.rest == r[..i] by { assert |a.rest| == i && (a.rest + u)[..i] == a.rest; }
    ReportedCons(a.node, Body(tools, r));
    ReportedCons(a.node, Body(tools, a.rest));
  }

  // ---------- the whole output ----------

  lemma ReportedForest(tools: Tools, s: string)
    requires s != "" && !Literal(TURN, s).Short?
    ensures var m := Literal(TURN, s);
      ReportedAll(Forest(tools, s)) == ReportedAll(Body(tools, if m.Matched? then m.rest else s))
  {
    hide Body, Literal;
    var m := Literal(TURN, s);
    var r := if m.Matched? then m.rest else s;
    var start := Wrapped(OTHER_TAG, s, [], r, false);
    ReportedCons(start, Body(tools, r));
    assert Reported(start) == 0;
  }

  lemma ForestLoses(tools: Tools, s: string) returns (m: nat)
    requires Sane(tools.names) && Drops(tools, s)
    ensures m <= |s| && ReportedAll(Forest(tools, s[..m])) > ReportedAll(Forest(tools, s))
  {
    hide Body, BodyDrops, Forest, Literal, ReportedAll;
    if s == "" { NothingDrops(tools); }
    var w := Literal(TURN, s);
    var r := if w.Matched? then w.rest else s;
    var i, k := BodyLoses(tools, r);
    m := |s| - |r| + i;
    var t, u := s[..m], s[m..];
    assert s == t + u;
    TurnWithLess(s, m, r, i);
    ReportedForest(tools, s);
    ReportedForest(tools, t);
  }

  lemma TurnWithLess(s: string, m: nat, r: string, i: nat)
    requires s != "" && |CALL| <= i <= |r| <= |s| && m == |s| - |r| + i && !Literal(TURN, s).Short?
    requires r == if Literal(TURN, s).Matched? then Literal(TURN, s).rest else s
    ensures var t := s[..m]; t != "" && !Literal(TURN, t).Short?
    ensures var t := s[..m]; r[..i] == if Literal(TURN, t).Matched? then Literal(TURN, t).rest else t
  {
    var t := s[..m];
    assert s == t + s[m..];
    LiteralSettled(TURN, t, s[m..]);
  }

  /** The message of the text that has come so far. */
  function MessageOf(tools: Tools, s: string): Message {
    VisitedAll(EMPTY_MESSAGE, Forest(tools, s))
  }

  function MessagesOf(tools: Tools, texts: seq<string>): (ms: seq<Message>)
    ensures |ms| == |texts|
  {
    if texts == [] then [] else [MessageOf(tools, texts[0])] + MessagesOf(tools, texts[1..])
  }

  /** What has come after each chunk, up to the whole text. */
  predicate Chunked(texts: seq<string>, whole: string) {
    && texts != [] && texts[|texts| - 1] == whole
    && forall k :: 0 < k < |texts| ==> texts[k - 1] <= texts[k]
  }

  /** No diff fails, the deltas add up, and the client holds the message of the last parse. */
  ghost predicate Streams(ms: seq<Message>, gen: nat -> string) {
    && AllDeltas(START, ms, gen).Success?
    && Holds(After(START, ms, gen), LastOf(EMPTY_MESSAGE, ms))
    && MessageDiff.Replay(EMPTY_MESSAGE, AllDeltas(START, ms, gen).value) == After(START, ms, gen).msg
  }

  lemma MessageGrowsWith(tools: Tools, s: string, t: string)
    requires s <= t && !Drops(tools, t)
    ensures GrowsTo(MessageOf(tools, s), MessageOf(tools, t)) && !Drops(tools, s)
  {
    hide Forest, VisitedAll, AllGrow, GrowsTo, Drops;
    var u := t[|s|..];
    assert t == s + u;
    ForestGrows(tools, s, u);
    VisitAllGrows(EMPTY_MESSAGE, Forest(tools, s), Forest(tools, t));
    if Drops(tools, s) { DropsStays(tools, s, u); }
  }

  lemma {:induction false} ChunksGrow(tools: Tools, m: Message, texts: seq<string>, whole: string)
    requires Chunked(texts, whole) && !Drops(tools, whole) && GrowsTo(m, MessageOf(tools, texts[0]))
    ensures GrowingFrom(m, MessagesOf(tools, texts))
    decreases |texts|
  {
    hide MessageOf, GrowsTo, Drops;
    var ms := MessagesOf(tools, texts);
    assert ms[1..] == MessagesOf(tools, texts[1..]);
    if |texts| > 1 {
      NoneDrops(tools, texts, whole, 1);
      MessageGrowsWith(tools, texts[0], texts[1]);
      assert Chunked(texts[1..], whole) by {
        forall k | 0 < k < |texts| - 1 ensures texts[1..][k - 1] <= texts[1..][k] { assert texts[k] <= texts[k + 1]; }
      }
      ChunksGrow(tools, ms[0], texts[1..], whole);
    }
  }

  lemma {:induction false} NoneDrops(tools: Tools, texts: seq<string>, whole: string, k: nat)
    requires Chunked(texts, whole) && !Drops(tools, whole) && k < |texts|
    ensures !Drops(tools, texts[k])
    decreases |texts| - k
  {
    hide Drops;
    if k + 1 < |texts| {
      NoneDrops(tools, texts, whole, k + 1);
      MessageGrowsWith(tools, texts[k], texts[k + 1]);
    }
  }

  /** However an output without a malformed call is cut into chunks, it streams. */
  lemma ChunksStream(tools: Tools, texts: seq<string>, whole: string, gen: nat -> string)
    requires Generates(gen) && Chunked(texts, whole) && !Drops(tools, whole)
    ensures Streams(MessagesOf(tools, texts), gen)
  {
    hide MessageOf, Drops, GrowsTo, AllDeltas, After;
    EmptyGrows(MessageOf(tools, texts[0]));
    ChunksGrow(tools, EMPTY_MESSAGE, texts, whole);
    StreamRebuilds(START, EMPTY_MESSAGE, MessagesOf(tools, texts), gen);
  }

  lemma EmptyGrows(m: Message)
    ensures GrowsTo(EMPTY_MESSAGE, m)
  {}

  lemma FirstHolds(a: Message, gen: nat -> string)
    requires Generates(gen)
    ensures |START.Next(a, gen).msg.calls| == |a.calls|
  {
    EmptyGrows(a);
    StepHolds(START, EMPTY_MESSAGE, a, gen);
  }

  lemma FewerFails(st: StreamState, b: Message, gen: nat -> string)
    requires |st.msg.calls| > |b.calls|
    ensures if b == EMPTY_MESSAGE then st.Next(b, gen) == st else st.Deltas(b, gen).Failure?
  {
    hide MessageDiff.ReasoningDiffs, MessageDiff.ContentDiffs;
  }

  /** A parse with fewer calls than the one before does not stream. */
  lemma FewerCalls(a: Message, b: Message, gen: nat -> string)
    requires Generates(gen) && |a.calls| > |b.calls|
    ensures !Streams([a, b], gen)
  {
    hide MessageDiff.Replay;
    var st := START.Next(a, gen);
    FirstHolds(a, gen);
    FewerFails(st, b, gen);
    assert [a, b][1..] == [b] && [b][1..] == [];
    assert After(st, [b], gen) == After(st.Next(b, gen), [], gen);
    assert After(START, [a, b], gen) == st.Next(b, gen);
    assert AllDeltas(st, [b], gen).Failure? || b == EMPTY_MESSAGE;
  }

  ghost predicate AlwaysStreams(tools: Tools, whole: string, gen: nat -> string) {
    forall texts :: Chunked(texts, whole) ==> Streams(MessagesOf(tools, texts), gen)
  }

  /** An output streams however it is cut into chunks if and only if none of its tool calls is malformed
      after it has begun. */
  lemma StreamsExactly(tools: Tools, whole: string, gen: nat -> string)
    requires Generates(gen) && Sane(tools.names)
    ensures AlwaysStreams(tools, whole, gen) <==> !Drops(tools, whole)
  {
    hide Drops, Streams, MessageOf;
    if Drops(tools, whole) {
      var texts := BadChunks(tools, whole, gen);
    } else {
      forall texts | Chunked(texts, whole) ensures Streams(MessagesOf(tools, texts), gen) {
        ChunksStream(tools, texts, whole, gen);
      }
    }
  }

  lemma BadChunks(tools: Tools, whole: string, gen: nat -> string) returns (texts: seq<string>)
    requires Generates(gen) && Sane(tools.names) && Drops(tools, whole)
    ensures Chunked(texts, whole) && !Streams(MessagesOf(tools, texts), gen)
  {
    hide Drops, Streams, Forest, ReportedAll;
    var m := ForestLoses(tools, whole);
    texts := [whole[..m], whole];
    var a, b := MessageOf(tools, whole[..m]), MessageOf(tools, whole);
    VisitAllCounts(EMPTY_MESSAGE, Forest(tools, whole[..m]));
    VisitAllCounts(EMPTY_MESSAGE, Forest(tools, whole));
    FewerCalls(a, b, gen);
    assert texts[1..] == [whole] && [whole][1..] == [];
    assert MessagesOf(tools, texts) == [a, b];
  }

  // ---------- an example ----------

  /** After the arguments something else comes than the end of the call. */
  function Unended(name: string): string { CALL + name + "{}x" }

  lemma ClosedInside()
    ensures Inside(MEMBER, "}", "}x") == Closed([], "x")
  {
    hide Onwards;
    assert "}x"[1..] == "x" && "}" <= "}x";
    assert Literal("}", "}x") == Matched("x");
  }

  lemma NoSpace()
    ensures "{}x"[1..] == "}x" && Space("}x") == "}x"
  {
    assert !PegMapper.IsSpace('}');
  }

  lemma EmptyDict()
    ensures DictRule("{}x").Done? && DictRule("{}x").rest == "x"
  {
    hide Inside, DictRule, Space, Literal;
    BracketIs(MEMBER, "{}x");
    NoSpace();
    ClosedInside();
  }

  lemma UnendedFails(name: string)
    ensures Fails(name, name + "{}x")
  {
    hide DictRule, CallNode;
    var s := name + "{}x";
    EmptyDict();
    assert name <= s && s[|name|..] == "{}x";
    assert name + "{" <= s;
    assert "{" <= "{}x";
    assert ToolRule(name, s).Done? && ToolRule(name, s).rest == "x";
    assert "x"[0] != CALL_END[0];
    assert Literal(CALL_END, "x").Missed?;
  }

  /** Such an output does not stream, whatever the tool. */
  lemma UnendedDoesNotStream(tools: Tools, name: string, gen: nat -> string)
    requires Generates(gen) && Sane(tools.names) && name in tools.names
    ensures !AlwaysStreams(tools, Unended(name), gen)
  {
    hide AlwaysStreams, Drops;
    UnendedDrops(tools, name);
    StreamsExactly(tools, Unended(name), gen);
  }

  lemma UnendedDrops(tools: Tools, name: string)
    requires name in tools.names
    ensures Drops(tools, Unended(name))
  {
    hide Fails, CallRule;
    var r := name + "{}x";
    var s := Unended(name);
    assert s == CALL + r;
    AfterCall(r);
    UnendedFails(name);
    var k :| 0 <= k < |tools.names| && tools.names[k] == name;
    assert AnyFails(tools.names, r);
    assert CallsDrop(tools, s);
    AtCall(r);
  }

  /** In front of a call there is neither a turn nor a message. */
  lemma AtCall(r: string)
    ensures var s := CALL + r;
      && Literal(TURN, s).Missed? && Literal(CHANNEL, s).Missed?
      && CheckAt(STOPS, s) == Complete && CheckAt([TOOL_BEGIN], s) == Complete
  {
    var s := CALL + r;
    assert s[3] == 'o' && s[2] == 't' && |s| > 3;
    assert TURN[3] == 'u' && CHANNEL[2] == 'c';
    assert STOPS[2] == TOOL_BEGIN && [TOOL_BEGIN][0] == TOOL_BEGIN && TOOL_BEGIN <= s;
  }
}
