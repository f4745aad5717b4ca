/** A Gemma 4 output that arrives in chunks: the forests of its prefixes grow, exactly as long as no tool call
    that was begun turns out to be malformed. */
module Gemma4Chunks {
  import opened Wrappers
  import opened PegMatch
  import opened Gemma4Json
  import opened Gemma4Parser
  import opened Gemma4Number
  import opened Gemma4Partial
  import opened Gemma4Stream
  import opened Gemma4Output

  // ---------- rules outside the arguments ----------

  lemma WrappedGrows(tag: Tag, s: string, u: string, ps: seq<Node>, fs: seq<Node>, end: string, rest: string, a: bool, b: bool)
    requires tag != TOOL_NAME && Cut(ps, fs) && |end| <= |s| && |rest| <= |u| + |end|
    ensures Truncates(Wrapped(tag, s, ps, end, a), Wrapped(tag, s + u, fs, rest, b))
  {
    hide Cut;
    assert TextOf(s, end) <= TextOf(s + u, rest);
  }

  lemma WrappedStays(tag: Tag, s: string, u: string, ns: seq<Node>, rest: string, a: bool)
    requires |rest| <= |s|
    ensures Wrapped(tag, s + u, ns, rest + u, a) == Wrapped(tag, s, ns, rest, a)
  {
    TextStays(s, u, rest);
  }

  // ---------- thoughts ----------

  lemma {:induction false} ChannelsGrow(s: string, u: string)
    requires s != ""
    ensures Channels(s).Passed? ==> Channels(s + u) == Passed(Channels(s).rest + u)
    decreases |s|
  {
    hide Literal;
    LiteralSettled(CHANNEL, s, u);
    if Literal(CHANNEL, s).Matched? {
      var r := Literal(CHANNEL, s).rest;
      LiteralSettled("thought", r, u);
      if Literal("thought", r).Missed? {
        WordNeedsText(r);
        ChannelsGrow(r, u);
      }
    }
  }

  lemma WordNeedsText(r: string)
    requires Literal("thought", r).Missed?
    ensures r != ""
  {}

  lemma ReasoningGrows(s: string, u: string)
    ensures Truncates(Reasoning(s), Reasoning(s + u))
    ensures var k := Until([CHANNEL_END], s); k < |s| && Literal(CHANNEL_END, s[k..]).Matched? ==>
      Reasoning(s + u) == Reasoning(s) && Until([CHANNEL_END], s + u) == k
  {
    hide CheckAt;
    var k, m := Until([CHANNEL_END], s), Until([CHANNEL_END], s + u);
    UntilGrows([CHANNEL_END], s, u);
    assert s[..k] <= (s + u)[..m];
    if k < |s| && Literal(CHANNEL_END, s[k..]).Matched? {
      EndComplete(s[k..]);
      assert (s + u)[..k] == s[..k];
    }
  }

  lemma EndComplete(s: string)
    requires Literal(CHANNEL_END, s).Matched?
    ensures CheckAt([CHANNEL_END], s) == Complete
  {
    assert [CHANNEL_END][0] != "" && [CHANNEL_END][0] <= s;
  }

  /** The reasoning with what ends it. */
  datatype Ended = Ends(rest: string) | Going

  function EndOfReasoning(r: string): (e: Ended)
    ensures e.Ends? ==> |e.rest| < |r|
  {
    var k := Until([CHANNEL_END], r);
    var m := if k == |r| then Short else Literal(CHANNEL_END, r[k..]);
    if m.Matched? then Ends(m.rest) else Going
  }

  lemma FoundNotMissed(s: string)
    requires CheckAt([CHANNEL_END], s) != Absent
    ensures !Literal(CHANNEL_END, s).Missed?
  {}

  lemma EndNotMissed(r: string)
    ensures var k := Until([CHANNEL_END], r); k < |r| ==> !Literal(CHANNEL_END, r[k..]).Missed?
  {
    hide Until;
    var k := Until([CHANNEL_END], r);
    if k < |r| { FoundNotMissed(r[k..]); }
  }

  lemma ThoughtIs(s: string)
    requires Literal(THOUGHT, s).Matched?
    ensures var r := Space(Literal(THOUGHT, s).rest);
      ThoughtRule(s) ==
        match EndOfReasoning(r)
        case Going => More(Wrapped(OTHER_TAG, s, [Reasoning(r)], "", true))
        case Ends(rest) => Done(Wrapped(OTHER_TAG, s, [Reasoning(r)], rest, false), rest)
  {
    hide Until, Space;
    EndNotMissed(Space(Literal(THOUGHT, s).rest));
  }

  lemma EndOfReasoningGrows(r: string, u: string)
    ensures match EndOfReasoning(r)
      case Ends(rest) => EndOfReasoning(r + u) == Ends(rest + u)
      case Going => EndOfReasoning(r + u).Ends? ==> |EndOfReasoning(r + u).rest| <= |u|
  {
    hide CheckAt;
    var k, m := Until([CHANNEL_END], r), Until([CHANNEL_END], r + u);
    UntilGrows([CHANNEL_END], r, u);
    Shift(r, u, k);
    EndNotMissed(r);
    if k < |r| {
      LiteralSettled(CHANNEL_END, r[k..], u);
      if Literal(CHANNEL_END, r[k..]).Matched? { EndComplete(r[k..]); }
    }
    if m < |r| {
      Shift(r, u, m);
      if m > k { assert CheckAt([CHANNEL_END], (r + u)[k..]) == Absent; }
    }
  }

  lemma ThoughtExtends(s: string, u: string)
    requires Literal(THOUGHT, s).Matched?
    ensures Extends(ThoughtRule(s), ThoughtRule(s + u), u)
  {
    hide ThoughtRule, Literal, EndOfReasoning, Reasoning, Truncates, Space;
    LiteralSettled(THOUGHT, s, u);
    ThoughtIs(s);
    ThoughtIs(s + u);
    var r0 := Literal(THOUGHT, s).rest;
    SpaceGrows(r0, u);
    var r, v := Space(r0), Space(r0 + u);
    if r == "" {
      assert r + v == v;
      BodyOfThought(s, u, r, v, v);
    } else {
      BodyOfThought(s, u, r, v, u);
    }
  }

  lemma BodyOfThought(s: string, u: string, r: string, v: string, w: string)
    requires v == r + w && |w| <= |u| && (r != "" ==> w == u) && |r| <= |s|
    requires |v| <= |s + u|
    ensures Extends(ThoughtBody(s, r), ThoughtBody(s + u, v), u)
  {
    hide EndOfReasoning, Reasoning, Truncates, Cut;
    ReasoningGrows(r, w);
    EndOfReasoningGrows(r, w);
    match EndOfReasoning(r) {
      case Ends(rest) => {
        SameReasoning(r, w);
        WrappedStays(OTHER_TAG, s, u, [Reasoning(r)], rest, false);
      }
      case Going => {
        CutOne(Reasoning(r), Reasoning(v));
        var e := EndOfReasoning(v);
        var rest := if e.Ends? then e.rest else "";
        WrappedGrows(OTHER_TAG, s, u, [Reasoning(r)], [Reasoning(v)], "", rest, true, e.Going?);
      }
    }
  }

  function ThoughtBody(s: string, r: string): Parsed
    requires |r| <= |s|
  {
    match EndOfReasoning(r)
    case Going => More(Wrapped(OTHER_TAG, s, [Reasoning(r)], "", true))
    case Ends(rest) => Done(Wrapped(OTHER_TAG, s, [Reasoning(r)], rest, false), rest)
  }

  lemma SameReasoning(r: string, w: string)
    requires EndOfReasoning(r).Ends?
    ensures Reasoning(r + w) == Reasoning(r)
  {
    hide Reasoning, Until;
    ReasoningGrows(r, w);
  }

  predicate ThoughtGrows(a: Thought, b: Thought, u: string) {
    match a
    case NoMessage => b.NoMessage?
    case Behind(ns, rest) => b == Behind(ns, rest + u)
    case Waiting(ns, _) =>
      ns == [] || (|ns| == 1 && !b.NoMessage? && |b.nodes| == 1 && Truncates(ns[0], b.nodes[0]) && (b.Behind? ==> |b.rest| <= |u|))
  }

  lemma BehindExtendsToo(r: string, u: string)
    requires !Literal(THOUGHT, r).Short?
    ensures Extends(ThoughtRule(r), ThoughtRule(r + u), u)
    ensures ThoughtRule(r + u).Malformed? ==> ThoughtRule(r).Malformed?
  {
    hide Literal, ThoughtRule, Truncates;
    LiteralSettled(THOUGHT, r, u);
    if Literal(THOUGHT, r).Matched? {
      ThoughtExtends(r, u);
      ThoughtIs(r + u);
    } else {
      NoThought(r);
      NoThought(r + u);
    }
  }

  lemma ThoughtOrNotGrows(s: string, u: string)
    requires s != ""
    ensures ThoughtGrows(ThoughtOrNot(s), ThoughtOrNot(s + u), u)
  {
    hide Literal, ThoughtRule, Channels, Truncates, Wrapped;
    LiteralSettled(CHANNEL, s, u);
    if Literal(CHANNEL, s).Matched? && Channels(s).Passed? {
      ChannelsGrow(s, u);
      BehindChannels(s);
      BehindExtendsToo(Channels(s).rest, u);
    }
  }

  lemma NoThought(r: string)
    requires Literal(THOUGHT, r).Missed?
    ensures ThoughtRule(r).Malformed?
  {}

  /** What follows the channels passed over is a thought or something else, not a part of a thought. */
  lemma {:induction false} BehindChannels(s: string)
    requires s != "" && Channels(s).Passed?
    ensures !Literal(THOUGHT, Channels(s).rest).Short?
    decreases |s|
  {
    if Literal(CHANNEL, s).Missed? {
      assert !(CHANNEL <= s) && !(s <= CHANNEL);
      Differs(CHANNEL, s, "");
      NotShort(s);
    } else {
      var r := Literal(CHANNEL, s).rest;
      if Literal("thought", r).Matched? {
        assert THOUGHT == CHANNEL + "thought" && s == CHANNEL + r;
        assert THOUGHT <= s;
      } else {
        BehindChannels(r);
      }
    }
  }

  lemma NotShort(s: string)
    requires Literal(CHANNEL, s).Missed?
    ensures Literal(THOUGHT, s).Missed?
  {
    var k :| 0 <= k < |CHANNEL| && k < |s| && CHANNEL[k] != s[k];
    assert THOUGHT[..|CHANNEL|] == CHANNEL;
    assert THOUGHT[k] == CHANNEL[k];
  }

  // ---------- messages ----------

  lemma ContentGrows(r: string, u: string)
    ensures Truncates(ContentRule(r), ContentRule(r + u))
    ensures var k, m := Until(STOPS, r), Until(STOPS, r + u);
      && m >= k
      && (k < |r| && CheckAt(STOPS, r[k..]) == Complete ==>
            m == k && ContentRule(r + u) == ContentRule(r) && (r + u)[k..] == r[k..] + u)
  {
    hide CheckAt, Truncates, Until;
    var k, m := Until(STOPS, r), Until(STOPS, r + u);
    UntilGrows(STOPS, r, u);
    Shift(r, u, k);
    var ps, fs := Wrapped(CONTENT, r, [], r[k..], k == |r|), Wrapped(CONTENT, r + u, [], (r + u)[m..], m == |r + u|);
    WrappedGrows(CONTENT, r, u, [], [], r[k..], (r + u)[m..], k == |r|, m == |r + u|);
    CutOne(ps, fs);
    WrappedGrows(OTHER_TAG, r, u, [ps], [fs], r[k..], (r + u)[m..], k == |r|, m == |r + u|);
    if k < |r| && CheckAt(STOPS, r[k..]) == Complete {
      WrappedStays(CONTENT, r, u, [], r[k..], false);
      WrappedStays(OTHER_TAG, r, u, [ps], r[k..], false);
    }
  }

  /** How a message looks when more has come. */
  predicate MessageGrows(a: Parsed, b: Parsed, u: string) {
    match a
    case Malformed => b.Malformed?
    case More(n) => Idle(n) || Onward(n, b, |u|)
    case Done(n, rest) =>
      rest != "" && (if CheckAt(STOPS, rest) == Complete then b == Done(n, rest + u)
                     else CheckAt(STOPS, rest) == Begun && Onward(n, b, |rest| + |u|))
  }

  predicate Onward(n: Node, b: Parsed, behind: nat) {
    !b.Malformed? && Truncates(n, b.node) && (b.Done? ==> |b.rest| <= behind)
  }

  lemma {:induction false} CutLast(ns: seq<Node>, p: Node, f: Node)
    requires Truncates(p, f)
    ensures Cut(ns + [p], ns + [f])
    decreases |ns|
  {
    hide Truncates;
    if ns == [] {
      assert ns + [p] == [p] && ns + [f] == [f];
    } else {
      CutLast(ns[1..], p, f);
      assert (ns + [p])[1..] == ns[1..] + [p] && (ns + [f])[1..] == ns[1..] + [f];
    }
  }

  lemma MessageExtends(s: string, u: string)
    requires s != ""
    ensures MessageGrows(MessageRule(s), MessageRule(s + u), u)
    ensures MessageRule(s).More? && !(ThoughtOrNot(s).Waiting? && ThoughtOrNot(s).nodes == []) ==>
      Onward(MessageRule(s).node, MessageRule(s + u), |u|)
  {
    hide ThoughtOrNot, Truncates, Idle, CheckAt;
    ThoughtOrNotGrows(s, u);
    var a, b := ThoughtOrNot(s), ThoughtOrNot(s + u);
    match a {
      case NoMessage => {}
      case Behind(ns, r) => BehindExtends(s, u, ns, r);
      case Waiting(ns, end) => {
        if ns == [] { WaitingIsIdle(s, end); } else { WaitingExtends(s, u, ns[0], end); }
      }
    }
  }

  lemma WaitingIsIdle(s: string, end: string)
    requires |end| <= |s|
    ensures Idle(Wrapped(OTHER_TAG, s, [], end, true))
  {}

  lemma WaitingExtends(s: string, u: string, n: Node, end: string)
    requires ThoughtOrNot(s) == Waiting([n], end) && ThoughtGrows(Waiting([n], end), ThoughtOrNot(s + u), u)
    ensures MessageGrows(MessageRule(s), MessageRule(s + u), u)
    ensures MessageRule(s).More? ==> Onward(MessageRule(s).node, MessageRule(s + u), |u|)
  {
    hide ThoughtOrNot, Truncates, Idle, Cut, ContentRule;
    var b := ThoughtOrNot(s + u);
    var f := b.nodes[0];
    var w := MessageRule(s + u);
    assert w.node.children[0] == f;
    CutFirst(n, f, w.node.children);
    var rest := if w.Done? then w.rest else if b.Waiting? then b.end else "";
    EndOfWaiting(s + u);
    EndOfWaiting(s);
    WrappedGrows(OTHER_TAG, s, u, [n], w.node.children, end, rest, true, !w.Done?);
  }

  /** A thought that waits has read everything. */
  lemma EndOfWaiting(s: string)
    ensures var t := ThoughtOrNot(s); t.Waiting? && t.nodes != [] ==> t.end == ""
  {
    hide Channels, ThoughtRule, Literal;
  }

  lemma BehindExtends(s: string, u: string, ns: seq<Node>, r: string)
    requires ThoughtOrNot(s) == Behind(ns, r) && ThoughtOrNot(s + u) == Behind(ns, r + u)
    ensures MessageGrows(MessageRule(s), MessageRule(s + u), u)
    ensures MessageRule(s).More? ==> Onward(MessageRule(s).node, MessageRule(s + u), |u|)
  {
    hide ThoughtOrNot, Truncates, Idle, Cut, ContentRule, CheckAt, Until;
    var k, m := Until(STOPS, r), Until(STOPS, r + u);
    ContentGrows(r, u);
    CutLast(ns, ContentRule(r), ContentRule(r + u));
    var rest := (r + u)[m..];
    WrappedGrows(OTHER_TAG, s, u, ns + [ContentRule(r)], ns + [ContentRule(r + u)], r[k..], rest, k == |r|, m == |r + u|);
    if k < |r| {
      WrappedStays(OTHER_TAG, s, u, ns + [ContentRule(r)], r[k..], false);
      NotAbsent(r, k);
    }
  }

  lemma NotAbsent(r: string, k: nat)
    requires k == Until(STOPS, r) < |r|
    ensures CheckAt(STOPS, r[k..]) != Absent
  {}

  // ---------- tool calls ----------

  lemma ToolRuleExtends(name: string, s: string, u: string)
    ensures Extends(ToolRule(name, s), ToolRule(name, s + u), u)
  {
    hide DictRule, Truncates, Literal;
    LiteralSettled(name, s, u);
    match Literal(name, s) {
      case Missed => {}
      case Short => UnnamedExtends(name, s, u);
      case Matched(r) => {
        LiteralSettled("{", r, u);
        OneLetter("{", r);
        if Literal("{", r).Short? { UnnamedExtends(name, s, u); }
        if Literal("{", r).Matched? {
          ArgumentsExtend(r, u);
          CallExtends(name, s, u, r, DictRule(r), DictRule(r + u));
        }
      }
    }
  }

  /** The node of the call around its arguments. */
  function CallWith(name: string, s: string, r: string, args: Parsed): Parsed
    requires |r| <= |s| && (args.Done? ==> |args.rest| <= |r|)
  {
    match args
    case Malformed => Malformed
    case More(d) => More(CallNode(name, s, "", Wrapped(TOOL_ARGS, r, [d], "", true), true))
    case Done(d, rest) => Done(CallNode(name, s, rest, Wrapped(TOOL_ARGS, r, [d], rest, false), false), rest)
  }

  lemma CallExtends(name: string, s: string, u: string, r: string, a: Parsed, b: Parsed)
    requires |r| <= |s| && (a.Done? ==> |a.rest| <= |r|) && (b.Done? ==> |b.rest| <= |r + u|)
    requires Extends(a, b, u)
    ensures Extends(CallWith(name, s, r, a), CallWith(name, s + u, r + u, b), u)
  {
    hide Truncates, Cut;
    if a.Done? {
      WrappedStays(TOOL_ARGS, r, u, [a.node], a.rest, false);
      CallStays(name, s, u, a.rest, Wrapped(TOOL_ARGS, r, [a.node], a.rest, false));
    } else if a.More? && !b.Malformed? {
      var rest := if b.Done? then b.rest else "";
      CutOne(a.node, b.node);
      WrappedGrows(TOOL_ARGS, r, u, [a.node], [b.node], "", rest, true, b.More?);
      var p, f := Wrapped(TOOL_ARGS, r, [a.node], "", true), Wrapped(TOOL_ARGS, r + u, [b.node], rest, b.More?);
      CallGrowsWith(name, s, u, rest, p, f, b.More?);
    }
  }

  lemma CallStays(name: string, s: string, u: string, rest: string, args: Node)
    requires |rest| <= |s|
    ensures CallNode(name, s + u, rest + u, args, false) == CallNode(name, s, rest, args, false)
  {
    TextStays(s, u, rest);
  }

  lemma CallGrowsWith(name: string, s: string, u: string, rest: string, p: Node, f: Node, partial: bool)
    requires Truncates(p, f) && |rest| <= |u|
    ensures Truncates(CallNode(name, s, "", p, true), CallNode(name, s + u, rest, f, partial))
  {
    hide Truncates, Cut;
    var open := Node(OTHER_RULE, OTHER_TAG, name, [NameNode(name)], false);
    CutSecond(open, p, f);
    WrappedGrows(TOOL, s, u, [open, p], [open, f], "", rest, true, partial);
    var a, b := Wrapped(TOOL, s, [open, p], "", true), Wrapped(TOOL, s + u, [open, f], rest, partial);
    CutOne(a, b);
    WrappedGrows(OTHER_TAG, s, u, [a], [b], "", rest, true, partial);
  }

  lemma ToolShape(name: string, s: string)
    ensures var b := ToolRule(name, s);
      !b.Malformed? ==>
        var rest := if b.Done? then b.rest else "";
        && |b.node.children| == 1
        && b.node == Wrapped(OTHER_TAG, s, [Wrapped(TOOL, s, b.node.children[0].children, rest, b.More?)], rest, b.More?)
  {
    hide DictRule, Literal;
  }

  lemma RestBehindName(name: string, s: string, u: string)
    requires Literal(name, s).Short? || Literal(name, s) == Matched("")
    ensures ToolRule(name, s + u).Done? ==> |ToolRule(name, s + u).rest| <= |u|
  {
    hide DictRule, Literal;
    LiteralSettled(name, s, u);
  }

  lemma NothingCut(fs: seq<Node>)
    ensures Cut([], fs)
  {}

  lemma UnnamedExtends(name: string, s: string, u: string)
    requires ToolRule(name, s) == Unnamed(s) && (Literal(name, s).Short? || Literal(name, s) == Matched(""))
    ensures Extends(ToolRule(name, s), ToolRule(name, s + u), u)
  {
    hide Truncates, Cut, ToolRule, Literal;
    var b := ToolRule(name, s + u);
    ToolShape(name, s + u);
    RestBehindName(name, s, u);
    if !b.Malformed? {
      var rest := if b.Done? then b.rest else "";
      var fs := b.node.children[0].children;
      NothingCut(fs);
      WrappedGrows(TOOL, s, u, [], fs, "", rest, true, b.More?);
      var p, f := Wrapped(TOOL, s, [], "", true), Wrapped(TOOL, s + u, fs, rest, b.More?);
      CutOne(p, f);
      WrappedGrows(OTHER_TAG, s, u, [p], [f], "", rest, true, b.More?);
    }
  }

  // ---------- the call that is chosen ----------

  /** The tool has been named and its arguments have begun. */
  predicate Named(name: string, s: string) {
    name + "{" <= s
  }

  /** The call has begun, but its arguments or what follows them are malformed. */
  predicate Fails(name: string, s: string) {
    Named(name, s) && Called(ToolRule(name, s)).NoCall?
  }

  predicate AnyFails(names: seq<string>, s: string) {
    exists k :: 0 <= k < |names| && Fails(names[k], s)
  }

  lemma UnnamedIsIdle(s: string)
    ensures Idle(Unnamed(s).node)
  {
    var tool := Wrapped(TOOL, s, [], "", true);
    assert Unnamed(s).node.children == [tool] && [tool][1..] == [];
    assert ToolCallOf(tool).None?;
  }

  lemma NamedOrIdle(name: string, s: string)
    ensures Named(name, s) || ToolRule(name, s).Malformed? || (ToolRule(name, s) == Unnamed(s) && Idle(Unnamed(s).node))
  {
    hide DictRule, Idle;
    UnnamedIsIdle(s);
    if Literal(name, s).Matched? && Literal("{", Literal(name, s).rest).Matched? {
      assert s == name + Literal(name, s).rest;
      assert name + "{" <= s;
    }
  }

  lemma NamedStays(name: string, s: string, u: string)
    requires Named(name, s)
    ensures Named(name, s + u)
  {}

  /** How the chosen tool looks when more has come. */
  predicate ChoiceGrows(names: seq<string>, a: Parsed, b: Parsed, s: string, u: string) {
    match a
    case Malformed => b.Malformed?
    case Done(n, rest) => b == Done(n, rest + u)
    case More(n) => Idle(n) || Onward(n, b, |u|) || AnyFails(names, s + u)
  }

  lemma {:induction false} ChoiceExtends(names: seq<string>, s: string, u: string)
    ensures ChoiceGrows(names, ToolChoice(names, s), ToolChoice(names, s + u), s, u)
    decreases |names|
  {
    hide ToolRule, Truncates, Idle, Fails;
    if names != [] {
      var a, b := ToolRule(names[0], s), ToolRule(names[0], s + u);
      ToolRuleExtends(names[0], s, u);
      if a.Malformed? {
        ChoiceExtends(names[1..], s, u);
        FailsLater(names, s + u);
      } else if a.More? && b.Malformed? {
        NamedOrIdle(names[0], s);
        if Named(names[0], s) {
          NamedStays(names[0], s, u);
          FailsFirst(names, s + u);
        }
      }
    }
  }

  lemma FailsLater(names: seq<string>, s: string)
    requires names != []
    ensures AnyFails(names[1..], s) ==> AnyFails(names, s)
  {
    hide Fails;
    if AnyFails(names[1..], s) {
      var k :| 0 <= k < |names| - 1 && Fails(names[1..][k], s);
      assert Fails(names[k + 1], s);
    }
  }

  lemma FailsFirst(names: seq<string>, s: string)
    requires names != [] && Named(names[0], s) && ToolRule(names[0], s).Malformed?
    ensures AnyFails(names, s)
  {
    assert Fails(names[0], s);
  }

  /** A tool whose call is complete but is not followed by its end delimiter. */
  lemma {:induction false} ChosenFails(names: seq<string>, s: string)
    requires ToolChoice(names, s).Done? && Called(ToolChoice(names, s)).NoCall?
    ensures AnyFails(names, s)
    decreases |names|
  {
    hide ToolRule, Called;
    if !ToolRule(names[0], s).Malformed? {
      NamedOrIdle(names[0], s);
      assert Fails(names[0], s);
    } else {
      ChosenFails(names[1..], s);
      FailsLater(names, s);
    }
  }

  /** How one call looks when more has come. */
  predicate CallExtendsTo(a: Call, b: Call, u: string) {
    match a
    case NoCall => b.NoCall?
    case Whole(n, rest) => b == Call.Whole(n, rest + u)
    case Part(ns) => AllIdle(ns) || (|ns| == 1 && !b.NoCall? && NodesOf(b) != [] && Truncates(ns[0], NodesOf(b)[0]))
  }

  function NodesOf(c: Call): seq<Node> {
    match c
    case NoCall => []
    case Whole(n, _) => [n]
    case Part(ns) => ns
  }

  lemma CallRuleExtends(names: seq<string>, s: string, u: string)
    requires s != "" && (Literal(CALL, s + u).Matched? ==> !AnyFails(names, Literal(CALL, s + u).rest))
    ensures CallExtendsTo(CallRule(names, s), CallRule(names, s + u), u)
  {
    hide Literal, ToolChoice, Truncates, Idle, AnyFails;
    LiteralSettled(CALL, s, u);
    if Literal(CALL, s).Matched? {
      var r := Literal(CALL, s).rest;
      ChoiceExtends(names, r, u);
      CalledExtends(names, r, u);
    }
  }

  lemma TruncatesItself(n: Node)
    ensures Truncates(n, n)
  {}

  lemma CalledExtends(names: seq<string>, r: string, u: string)
    requires ChoiceGrows(names, ToolChoice(names, r), ToolChoice(names, r + u), r, u) && !AnyFails(names, r + u)
    ensures CallExtendsTo(Called(ToolChoice(names, r)), Called(ToolChoice(names, r + u)), u)
  {
    hide Literal, ToolChoice, Truncates, Idle, AnyFails;
    var a, b := ToolChoice(names, r), ToolChoice(names, r + u);
    if b.Done? && Called(b).NoCall? { ChosenFails(names, r + u); }
    match a {
      case Malformed => {}
      case More(n) => {
        assert [n][1..] == [];
        if !Idle(n) { assert Onward(n, b, |u|) && NodesOf(Called(b)) == [b.node]; }
        if Idle(n) { assert AllIdle([n]); }
      }
      case Done(n, rest) => {
        LiteralSettled(CALL_END, rest, u);
        TruncatesItself(n);
      }
    }
  }

  /** A call of the text that has begun is malformed. */
  predicate CallsDrop(tools: Tools, s: string)
    decreases |s|
  {
    s != "" && Literal(CALL, s).Matched?
    && (AnyFails(tools.names, Literal(CALL, s).rest) || (tools.parallel && var c := CallRule(tools.names, s);
                                                        c.Whole? && CallsDrop(tools, c.rest)))
  }

  lemma GrowFirst(p: Node, f: Node, fs: seq<Node>)
    requires fs != [] && fs[0] == f && Truncates(p, f)
    ensures AllGrow([p], fs)
  {
    hide Truncates, Idle;
    assert [p][1..] == [];
  }

  lemma GrowRest(n: Node, ps: seq<Node>, fs: seq<Node>)
    requires AllGrow(ps, fs)
    ensures AllGrow([n] + ps, [n] + fs)
  {
    hide Grows, Idle;
    assert ([n] + ps)[1..] == ps && ([n] + fs)[1..] == fs;
  }

  lemma IdleGrow(ps: seq<Node>, fs: seq<Node>)
    requires AllIdle(ps)
    ensures AllGrow(ps, fs)
  {}

  lemma {:induction false} CallsGrow(tools: Tools, s: string, u: string)
    requires !CallsDrop(tools, s + u)
    ensures AllGrow(Calls(tools, s), Calls(tools, s + u))
    decreases |s|
  {
    hide CallRule, Truncates, Idle, AllGrow, AnyFails, Literal;
    if s == "" {
      IdleGrow([], Calls(tools, s + u));
    } else {
      CallRuleExtends(tools.names, s, u);
      var a, b := CallRule(tools.names, s), CallRule(tools.names, s + u);
      match a {
        case NoCall => IdleGrow([], Calls(tools, s + u));
        case Part(ns) => {
          if AllIdle(ns) {
            IdleGrow(ns, Calls(tools, s + u));
          } else {
            assert ns == [ns[0]];
            GrowFirst(ns[0], NodesOf(b)[0], Calls(tools, s + u));
          }
        }
        case Whole(n, r) => {
          var ps, fs := if tools.parallel then Calls(tools, r) else [], if tools.parallel then Calls(tools, r + u) else [];
          if tools.parallel { WholeNeedsCall(tools.names, s + u); CallsGrow(tools, r, u); } else { IdleGrow(ps, fs); }
          GrowRest(n, ps, fs);
        }
      }
    }
  }

  lemma WholeNeedsCall(names: seq<string>, s: string)
    requires CallRule(names, s).Whole?
    ensures Literal(CALL, s).Matched?
  {}

  // ---------- behind the messages ----------

  predicate AfterDrops(tools: Tools, s: string) {
    var k := Until([TOOL_BEGIN], s);
    k < |s| && CallsDrop(tools, s[k..])
  }

  /** A text that is too short to begin a call. */
  lemma ShortCalls(tools: Tools, s: string)
    requires |s| < |CALL|
    ensures Calls(tools, s) == [] && !CallsDrop(tools, s)
  {}

  lemma IdleNode(s: string, ns: seq<Node>, rest: string, partial: bool)
    requires |rest| <= |s| && AllIdle(ns)
    ensures Idle(Wrapped(OTHER_TAG, s, ns, rest, partial))
  {}

  function Scan(s: string, k: nat): Node
    requires k <= |s|
  {
    Wrapped(OTHER_TAG, s, [], s[k..], k == |s|)
  }

  lemma TwoIdle(a: Node, b: Node)
    requires Idle(a) && Idle(b)
    ensures AllIdle([a]) && AllIdle([a, b])
  {
    hide Idle;
    assert [a, b][1..] == [b] && [a][1..] == [];
    assert AllIdle([]);
    assert AllIdle([b]);
  }

  lemma ShortBehind(tools: Tools, s: string, k: nat)
    requires k == Until([TOOL_BEGIN], s) && |s[k..]| < |CALL|
    ensures AllIdle(AfterMessages(tools, s)) && !AfterDrops(tools, s)
  {
    hide Until, Calls, CallsDrop, Idle, Wrapped;
    var x := s[k..];
    ShortCalls(tools, x);
    IdleNode(s, [], x, k == |s|);
    var e := CallsEnd(tools, x);
    IdleNode(x, [], e.1, e.0);
    TwoIdle(Scan(s, k), CallsNode(tools, x));
  }

  lemma ShortAfter(tools: Tools, s: string)
    requires |s| < |CALL|
    ensures AllIdle(AfterMessages(tools, s)) && !AfterDrops(tools, s)
  {
    hide AfterMessages, AfterDrops, Until;
    ShortBehind(tools, s, Until([TOOL_BEGIN], s));
  }

  lemma CallsNodeGrows(tools: Tools, s: string, u: string)
    requires !CallsDrop(tools, s + u)
    ensures AllGrow([CallsNode(tools, s)], [CallsNode(tools, s + u)])
  {
    hide Calls, CallsDrop, Idle, CallsEnd, AllGrow, Truncates;
    CallsGrow(tools, s, u);
    ChildrenGrow(CallsNode(tools, s), CallsNode(tools, s + u));
  }

  lemma ChildrenGrow(p: Node, f: Node)
    requires p.tag == f.tag == OTHER_TAG && AllGrow(p.children, f.children)
    ensures AllGrow([p], [f])
  {
    hide Truncates, Idle;
    assert [p][1..] == [];
  }

  lemma BeginIsShort(s: string)
    requires CheckAt([TOOL_BEGIN], s) == Begun
    ensures |s| < |CALL|
  {}

  lemma AfterGrows(tools: Tools, s: string, u: string)
    requires !AfterDrops(tools, s + u)
    ensures AllGrow(AfterMessages(tools, s), AfterMessages(tools, s + u))
  {
    hide CallsDrop, Idle, CallsNode, AllGrow, CheckAt, Wrapped, Until;
    var k := Until([TOOL_BEGIN], s);
    UntilGrows([TOOL_BEGIN], s, u);
    if k == |s| {
      IdleNode(s, [], "", true);
      assert [Scan(s, k)][1..] == [];
      IdleGrow([Scan(s, k)], AfterMessages(tools, s + u));
    } else {
      var x := s[k..];
      Shift(s, u, k);
      BeginNotAbsent(s, k);
      if CheckAt([TOOL_BEGIN], x) == Complete {
        CallsNodeGrows(tools, x, u);
        WrappedStays(OTHER_TAG, s, u, [], x, false);
        GrowRest(Scan(s, k), [CallsNode(tools, x)], [CallsNode(tools, x + u)]);
        assert [Scan(s, k)] + [CallsNode(tools, x)] == AfterMessages(tools, s);
        assert [Scan(s, k)] + [CallsNode(tools, x + u)] == AfterMessages(tools, s + u);
      } else {
        BeginIsShort(x);
        ShortBehind(tools, s, k);
        IdleGrow(AfterMessages(tools, s), AfterMessages(tools, s + u));
      }
    }
  }

  lemma BeginNotAbsent(s: string, k: nat)
    requires k == Until([TOOL_BEGIN], s) < |s|
    ensures CheckAt([TOOL_BEGIN], s[k..]) != Absent
  {}

  // ---------- the whole output ----------

  predicate BodyDrops(tools: Tools, s: string)
    decreases |s|
  {
    if s == "" then AfterDrops(tools, s)
    else
      match MessageRule(s)
      case Malformed => AfterDrops(tools, s)
      case More(_) => false
      case Done(_, r) => if |r| == |s| then AfterDrops(tools, s) else BodyDrops(tools, r)
  }

  /** Some tool call of the output has begun and is malformed. */
  predicate Drops(tools: Tools, s: string) {
    if s == "" then BodyDrops(tools, s)
    else
      match Literal(TURN, s)
      case Short => false
      case Missed => BodyDrops(tools, s)
      case Matched(r) => BodyDrops(tools, r)
  }

  /** Behind a delimiter that has only begun nothing is reported. */
  lemma BegunIsIdle(tools: Tools, r: string)
    requires CheckAt(STOPS, r) == Begun
    ensures AllIdle(Body(tools, r)) && !BodyDrops(tools, r) && |r| < |CALL|
  {
    hide AfterMessages, AfterDrops, Idle, Channels, ThoughtRule;
    assert |r| < |CALL|;
    ShortAfter(tools, r);
    assert !Literal(CHANNEL, r).Matched? by {
      assert STOPS[0] == CHANNEL;
    }
    assert Until(STOPS, r) == 0;
    if Literal(CHANNEL, r).Short? {
      WaitingIsIdle(r, r);
      assert MessageRule(r) == More(Wrapped(OTHER_TAG, r, [], r, true));
      assert [MessageRule(r).node][1..] == [];
    } else {
      assert ThoughtOrNot(r) == Behind([], r);
      assert MessageRule(r).Done? && MessageRule(r).rest == r;
    }
  }

  lemma GrowThenIdle(p: Node, idle: seq<Node>, f: Node, fs: seq<Node>)
    requires Truncates(p, f) && AllIdle(idle) && fs != [] && fs[0] == f
    ensures AllGrow([p] + idle, fs)
  {
    hide Truncates, Idle;
    assert ([p] + idle)[1..] == idle;
  }

  lemma OneIdle(n: Node)
    requires Idle(n)
    ensures AllIdle([n])
  {
    hide Idle;
    assert [n][1..] == [];
  }

  /** The first message when it has not ended. */
  lemma FirstMessage(tools: Tools, t: string, n: Node, behind: nat)
    requires t != "" && Onward(n, MessageRule(t), behind) && behind < |t|
    ensures Body(tools, t) != [] && Truncates(n, Body(tools, t)[0])
  {
    hide MessageRule, Truncates, AfterMessages;
  }

  lemma {:induction false} BodyGrows(tools: Tools, s: string, u: string)
    requires !BodyDrops(tools, s + u)
    ensures AllGrow(Body(tools, s), Body(tools, s + u))
    decreases |s|
  {
    hide MessageRule, AfterMessages, AfterDrops, AllGrow, Truncates, Idle, CheckAt;
    if s == "" {
      ShortAfter(tools, s);
      IdleGrow(Body(tools, s), Body(tools, s + u));
    } else {
      MessageExtends(s, u);
      var b := MessageRule(s + u);
      match MessageRule(s) {
        case Malformed => AfterGrows(tools, s, u);
        case More(n) => {
          if Idle(n) {
            OneIdle(n);
            IdleGrow([n], Body(tools, s + u));
          } else {
            FirstMessage(tools, s + u, n, |u|);
            GrowFirst(n, Body(tools, s + u)[0], Body(tools, s + u));
          }
        }
        case Done(n, r) => {
          if CheckAt(STOPS, r) == Complete {
            if |r| == |s| {
              AfterGrows(tools, s, u);
            } else {
              BodyGrows(tools, r, u);
              GrowRest(n, Body(tools, r), Body(tools, r + u));
            }
          } else {
            BegunIsIdle(tools, r);
            if |r| == |s| {
              ShortAfter(tools, s);
              IdleGrow(Body(tools, s), Body(tools, s + u));
            } else {
              FirstMessage(tools, s + u, n, |r| + |u|);
              GrowThenIdle(n, Body(tools, r), Body(tools, s + u)[0], Body(tools, s + u));
            }
          }
        }
      }
    }
  }

  /** The forest of a prefix grows into the forest of the text, unless the text drops a call. */
  lemma ForestGrows(tools: Tools, s: string, u: string)
    requires !Drops(tools, s + u)
    ensures AllGrow(Forest(tools, s), Forest(tools, s + u))
  {
    hide Body, BodyDrops, AllGrow, Idle, Literal, Wrapped;
    if s == "" {
      ForestOfNothing(tools);
      IdleGrow(Forest(tools, s), Forest(tools, s + u));
    } else {
      LiteralSettled(TURN, s, u);
      match Literal(TURN, s) {
        case Short => {
          IdleNode(s, [], "", true);
          OneIdle(Wrapped(OTHER_TAG, s, [], "", true));
          IdleGrow(Forest(tools, s), Forest(tools, s + u));
        }
        case Missed => {
          WrappedStays(OTHER_TAG, s, u, [], s, false);
          BodyGrows(tools, s, u);
          GrowRest(Wrapped(OTHER_TAG, s, [], s, false), Body(tools, s), Body(tools, s + u));
        }
        case Matched(r) => {
          WrappedStays(OTHER_TAG, s, u, [], r, false);
          BodyGrows(tools, r, u);
          GrowRest(Wrapped(OTHER_TAG, s, [], r, false), Body(tools, r), Body(tools, r + u));
        }
      }
    }
  }

  lemma ForestOfNothing(tools: Tools)
    ensures AllIdle(Forest(tools, ""))
  {
    hide CallsNode, Idle, Wrapped;
    IdleNode("", [], "", false);
    IdleNode("", [], "", true);
    var start, scan := Wrapped(OTHER_TAG, "", [], "", false), Scan("", 0);
    TwoIdle(start, scan);
    assert Until([TOOL_BEGIN], "") == 0;
    assert AfterMessages(tools, "") == [scan];
    assert [start] + [scan] == [start, scan];
  }

  // ---------- a dropped call stays dropped ----------

  lemma FailsStays(name: string, s: string, u: string)
    requires Fails(name, s)
    ensures Fails(name, s + u)
  {
    hide ToolRule, Truncates, Literal;
    NamedStays(name, s, u);
    ToolRuleExtends(name, s, u);
    var a := ToolRule(name, s);
    if a.Done? { LiteralSettled(CALL_END, a.rest, u); }
  }

  lemma AnyFailsStays(names: seq<string>, s: string, u: string)
    requires AnyFails(names, s)
    ensures AnyFails(names, s + u)
  {
    hide Fails;
    var k :| 0 <= k < |names| && Fails(names[k], s);
    FailsStays(names[k], s, u);
  }

  lemma {:induction false} CallsDropStays(tools: Tools, s: string, u: string)
    requires CallsDrop(tools, s)
    ensures CallsDrop(tools, s + u)
    decreases |s|
  {
    hide CallRule, AnyFails, Literal;
    LiteralSettled(CALL, s, u);
    var r := Literal(CALL, s).rest;
    if AnyFails(tools.names, r) {
      AnyFailsStays(tools.names, r, u);
    } else if !AnyFails(tools.names, r + u) {
      CallRuleExtends(tools.names, s, u);
      CallsDropStays(tools, CallRule(tools.names, s).rest, u);
    }
  }

  lemma AfterDropsStays(tools: Tools, s: string, u: string)
    requires AfterDrops(tools, s)
    ensures AfterDrops(tools, s + u)
  {
    hide CallsDrop, CheckAt, Until;
    var k := Until([TOOL_BEGIN], s);
    UntilGrows([TOOL_BEGIN], s, u);
    Shift(s, u, k);
    CallsDropStays(tools, s[k..], u);
    if CheckAt([TOOL_BEGIN], s[k..]) == Begun {
      BeginIsShort(s[k..]);
      ShortCalls(tools, s[k..]);
    } else {
      BeginNotAbsent(s, k);
    }
  }

  lemma {:induction false} BodyDropsStays(tools: Tools, s: string, u: string)
    requires BodyDrops(tools, s)
    ensures BodyDrops(tools, s + u)
    decreases |s|
  {
    hide MessageRule, AfterDrops, CheckAt, Truncates, Idle;
    if |s| < |CALL| { ShortAfter(tools, s); }
    MessageExtends(s, u);
    match MessageRule(s) {
      case Malformed => AfterDropsStays(tools, s, u);
      case More(_) => {}
      case Done(n, r) => {
        if CheckAt(STOPS, r) == Begun { BegunIsIdle(tools, r); }
        if |r| == |s| { AfterDropsStays(tools, s, u); } else { BodyDropsStays(tools, r, u); }
      }
    }
  }

  lemma DropsStays(tools: Tools, s: string, u: string)
    requires Drops(tools, s)
    ensures Drops(tools, s + u)
  {
    hide BodyDrops, Literal;
    if s == "" {
      NothingDrops(tools);
    } else {
      LiteralSettled(TURN, s, u);
      if Literal(TURN, s).Missed? { BodyDropsStays(tools, s, u); } else { BodyDropsStays(tools, Literal(TURN, s).rest, u); }
    }
  }

  lemma NothingDrops(tools: Tools)
    ensures !BodyDrops(tools, "")
  {
    ShortAfter(tools, "");
  }
}
