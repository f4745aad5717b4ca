/** The Gemma 4 mapper: growing syntax trees give growing messages, so the streamed deltas exist and
    add up. */
module Gemma4Stream {
  import opened Wrappers
  import opened Messages
  import opened MessageStream
  import MessageDiff
  import opened Gemma4Json

  /** First descendant with the tag, in document order, at most `depth` levels down. */
  function FindByTag(cs: seq<Node>, tag: Tag, depth: nat): (r: Option<Node>)
    ensures r.Some? ==> r.value.tag == tag
    decreases cs
  {
    if cs == [] then None
    else if cs[0].tag == tag then Some(cs[0])
    else
      var deep := if depth > 1 then FindByTag(cs[0].children, tag, depth - 1) else None;
      if deep.Some? then deep else FindByTag(cs[1..], tag, depth)
  }

  function ToolCallOf(n: Node): Option<ToolCall> {
    var name, args := FindByTag(n.children, TOOL_NAME, 3), FindByTag(n.children, TOOL_ARGS, 3);
    if name.Some? && args.Some? && !name.value.isPartial then
      var a := args.value.children;
      Some(ToolCall(name.value.text, if a == [] then "" else ToJson(a[0]), ""))
    else None
  }

  function WithCall(m: Message, c: Option<ToolCall>): Message {
    if c.Some? then m.(calls := m.calls + [c.value]) else m
  }

  function Visited(m: Message, n: Node): Message
    decreases n
  {
    if n.tag == REASONING then m.(reasoning := m.reasoning + n.text)
    else if n.tag == CONTENT then m.(content := m.content + n.text)
    else if n.tag == TOOL then WithCall(m, ToolCallOf(n))
    else VisitedAll(m, n.children)
  }

  function VisitedAll(m: Message, ns: seq<Node>): Message
    decreases ns
  {
    if ns == [] then m else VisitedAll(Visited(m, ns[0]), ns[1..])
  }

  class Mapper {
    var result: Message

    constructor ()
      ensures result == EMPTY_MESSAGE
    {
      result := EMPTY_MESSAGE;
    }

    method FromAst(nodes: seq<Node>)
      modifies this
      ensures result == VisitedAll(old(result), nodes)
      decreases nodes, 0
    {
      for i := 0 to |nodes|
        invariant VisitedAll(result, nodes[i..]) == VisitedAll(old(result), nodes)
      {
        assert nodes[i..][1..] == nodes[i + 1..];
        Visit(nodes[i]);
      }
    }

    method Visit(node: Node)
      modifies this
      ensures result == Visited(old(result), node)
      decreases node, 0
    {
      if node.tag == REASONING {
        result := result.(reasoning := result.reasoning + node.text);
        return;
      }
      if node.tag == CONTENT {
        result := result.(content := result.content + node.text);
        return;
      }
      if node.tag == TOOL {
        var name := FindByTag(node.children, TOOL_NAME, 3);
        var args := FindByTag(node.children, TOOL_ARGS, 3);
        if name.Some? && args.Some? {
          if !name.value.isPartial {
            var call := EMPTY_CALL.(name := name.value.text);
            if args.value.children != [] {
              call := call.(arguments := ToJson(args.value.children[0]));
            }
            result := result.(calls := result.calls + [call]);
          }
        }
        return;
      }
      for i := 0 to |node.children|
        invariant VisitedAll(result, node.children[i..]) == VisitedAll(old(result), node.children)
      {
        assert node.children[i..][1..] == node.children[i + 1..];
        Visit(node.children[i]);
      }
    }
  }

  // ---------- visiting only appends ----------

  predicate Appended(a: Message, b: Message) {
    a.reasoning <= b.reasoning && a.content <= b.content && a.calls <= b.calls
  }

  lemma {:induction false} VisitAppends(m: Message, n: Node)
    ensures Appended(m, Visited(m, n))
    decreases n
  {
    hide ToolCallOf;
    if n.tag != REASONING && n.tag != CONTENT && n.tag != TOOL { VisitAllAppends(m, n.children); }
  }

  lemma {:induction false} VisitAllAppends(m: Message, ns: seq<Node>)
    ensures Appended(m, VisitedAll(m, ns))
    decreases ns
  {
    if ns != [] {
      hide Visited;
      VisitAppends(m, ns[0]);
      VisitAllAppends(Visited(m, ns[0]), ns[1..]);
    }
  }

  lemma AppendedGrows(a: Message, b: Message)
    requires Appended(a, b)
    ensures GrowsTo(a, b)
  {}

  // ---------- growing trees ----------

  lemma {:induction false} BlankFindsNothing(ps: seq<Node>, tag: Tag, depth: nat)
    requires AllBlank(ps) && tag != OTHER_TAG
    ensures FindByTag(ps, tag, depth).None?
    decreases ps
  {
    if ps != [] {
      if depth > 1 { BlankFindsNothing(ps[0].children, tag, depth - 1); }
      BlankFindsNothing(ps[1..], tag, depth);
    }
  }

  /** What is found in a partial tree is found in the tree it grows into, grown. */
  lemma {:induction false} FindGrows(ps: seq<Node>, fs: seq<Node>, tag: Tag, depth: nat)
    requires Cut(ps, fs) && tag != OTHER_TAG
    ensures var p, f := FindByTag(ps, tag, depth), FindByTag(fs, tag, depth);
      p.Some? ==> f.Some? && Truncates(p.value, f.value)
    decreases fs
  {
    if |ps| == 1 && Blank(ps[0]) {
      assert ps[1..] == [];
      BlankFindsNothing(ps, tag, depth);
    } else if ps != [] && ps[0].tag != tag {
      if depth > 1 {
        if |ps| == 1 && ps[0] != fs[0] { FindGrows(ps[0].children, fs[0].children, tag, depth - 1); }
      }
      if |ps| > 1 { FindGrows(ps[1..], fs[1..], tag, depth); }
    }
  }

  /** A call is reported once its name is complete; from then on only its arguments grow. */
  lemma CallGrows(p: Node, f: Node)
    requires Truncates(p, f) && ToolCallOf(p).Some?
    ensures ToolCallOf(f).Some?
    ensures ToolCallOf(p).value.name == ToolCallOf(f).value.name
    ensures ToolCallOf(p).value.arguments <= ToolCallOf(f).value.arguments
  {
    hide FindByTag, ToJson;
    if Blank(p) {
      BlankFindsNothing(p.children, TOOL_NAME, 3);
    } else if p != f {
      FindGrows(p.children, f.children, TOOL_NAME, 3);
      FindGrows(p.children, f.children, TOOL_ARGS, 3);
      var a, b := FindByTag(p.children, TOOL_ARGS, 3).value, FindByTag(f.children, TOOL_ARGS, 3).value;
      if a.children != [] && a != b { FirstMonotone(a.children, b.children); }
    }
  }

  // ---------- forests ----------

  /** Visiting the node reports nothing. */
  predicate Idle(n: Node)
    decreases n
  {
    if n.tag == REASONING || n.tag == CONTENT then n.text == ""
    else if n.tag == TOOL then ToolCallOf(n).None?
    else AllIdle(n.children)
  }

  predicate AllIdle(ns: seq<Node>)
    decreases ns
  {
    ns == [] || (Idle(ns[0]) && AllIdle(ns[1..]))
  }

  /** `p` is what a visit saw of `f` earlier. Around reasoning, content and tools only the children
      matter. */
  predicate Grows(p: Node, f: Node)
    decreases f
  {
    Truncates(p, f) || (p.tag == f.tag == OTHER_TAG && AllGrow(p.children, f.children))
  }

  /** The nodes have grown: the last one that reports something may have been truncated, and idle nodes
      behind it may have disappeared because the input turned out to belong to that node. */
  predicate AllGrow(ps: seq<Node>, fs: seq<Node>)
    decreases fs
  {
    AllIdle(ps) ||
    (fs != [] && ((AllIdle(ps[1..]) && Grows(ps[0], fs[0])) || (ps[0] == fs[0] && AllGrow(ps[1..], fs[1..]))))
  }

  lemma {:induction false} IdleVisit(m: Message, n: Node)
    requires Idle(n)
    ensures Visited(m, n) == m
    decreases n
  {
    hide ToolCallOf;
    if n.tag == REASONING || n.tag == CONTENT {
      assert m.reasoning + "" == m.reasoning && m.content + "" == m.content;
    } else if n.tag != TOOL {
      IdleVisits(m, n.children);
    }
  }

  lemma {:induction false} BlankIsIdle(n: Node)
    requires Blank(n)
    ensures Idle(n)
    decreases n
  {
    AllBlankIdle(n.children);
  }

  lemma {:induction false} AllBlankIdle(ns: seq<Node>)
    requires AllBlank(ns)
    ensures AllIdle(ns)
    decreases ns
  {
    if ns != [] {
      BlankIsIdle(ns[0]);
      AllBlankIdle(ns[1..]);
    }
  }

  lemma {:induction false} IdleVisits(m: Message, ns: seq<Node>)
    requires AllIdle(ns)
    ensures VisitedAll(m, ns) == m
    decreases ns
  {
    hide Visited, Idle;
    if ns != [] {
      IdleVisit(m, ns[0]);
      IdleVisits(m, ns[1..]);
    }
  }

  /** Truncating the last of some nodes is one way of growing. */
  lemma {:induction false} CutGrows(ps: seq<Node>, fs: seq<Node>)
    requires Cut(ps, fs)
    ensures AllGrow(ps, fs)
    decreases fs
  {
    hide Truncates, Idle;
    if |ps| > 1 { CutGrows(ps[1..], fs[1..]); }
  }

  lemma {:induction false} VisitGrows(m: Message, p: Node, f: Node)
    requires Grows(p, f)
    ensures GrowsTo(Visited(m, p), Visited(m, f))
    decreases f
  {
    hide ToolCallOf, GrowsTo, AllGrow, Cut;
    GrowsReflexive(Visited(m, f));
    if Blank(p) {
      BlankIsIdle(p);
      IdleVisit(m, p);
      VisitAppends(m, f);
      AppendedGrows(m, Visited(m, f));
    } else if p != f {
      if p.tag == REASONING {
        TextGrows(m, p.text, f.text);
      } else if p.tag == CONTENT {
        TextGrows(m, p.text, f.text);
      } else if p.tag == TOOL {
        CallAppears(m, p, f);
      } else {
        if Truncates(p, f) { CutGrows(p.children, f.children); }
        VisitAllGrows(m, p.children, f.children);
      }
    }
  }

  lemma TextGrows(m: Message, x: string, y: string)
    requires x <= y
    ensures GrowsTo(m.(reasoning := m.reasoning + x), m.(reasoning := m.reasoning + y))
    ensures GrowsTo(m.(content := m.content + x), m.(content := m.content + y))
  {
    Under(m.reasoning, x, y);
    Under(m.content, x, y);
  }

  lemma CallAppears(m: Message, p: Node, f: Node)
    requires Truncates(p, f)
    ensures GrowsTo(WithCall(m, ToolCallOf(p)), WithCall(m, ToolCallOf(f)))
  {
    hide ToolCallOf, Truncates;
    if ToolCallOf(p).Some? { CallGrows(p, f); }
  }

  /** Visiting nodes that have grown extends the message. */
  lemma {:induction false} VisitAllGrows(m: Message, ps: seq<Node>, fs: seq<Node>)
    requires AllGrow(ps, fs)
    ensures GrowsTo(VisitedAll(m, ps), VisitedAll(m, fs))
    decreases fs
  {
    hide Visited, GrowsTo, Appended, Idle, Grows;
    if AllIdle(ps) {
      IdleVisits(m, ps);
      VisitAllAppends(m, fs);
      AppendedGrows(m, VisitedAll(m, fs));
    } else if AllIdle(ps[1..]) && Grows(ps[0], fs[0]) {
      var a, b := Visited(m, ps[0]), Visited(m, fs[0]);
      VisitGrows(m, ps[0], fs[0]);
      IdleVisits(a, ps[1..]);
      VisitAllAppends(b, fs[1..]);
      AppendedGrows(b, VisitedAll(b, fs[1..]));
      GrowsTransitive(a, b, VisitedAll(b, fs[1..]));
    } else {
      VisitAllGrows(Visited(m, ps[0]), ps[1..], fs[1..]);
    }
  }

  /** The input ended in a begun delimiter: the content was complete so far and a next message was tried.
      When the text goes on instead, the content grows and the tried message is gone. */
  lemma BegunDelimiter(t: string, more: string, partial: bool)
    ensures AllGrow([MessageNode(t, false), Node(OTHER_RULE, OTHER_TAG, "", [], true)], [MessageNode(t + more, partial)])
  {
    var p, tried := MessageNode(t, false), Node(OTHER_RULE, OTHER_TAG, "", [], true);
    var f := MessageNode(t + more, partial);
    assert [p, tried][1..] == [tried] && [tried][1..] == [];
    assert Idle(tried) by { assert AllIdle(tried.children); }
    assert AllIdle([tried]) by { assert AllIdle([tried][1..]); }
    assert p.children[1..] == [];
    assert Truncates(p.children[0], f.children[0]);
    assert Cut(p.children, f.children);
  }

  /** A key in two chunks: its name is complete for the parser with every character. */
  lemma CutKey(name: string, more: string, partial: bool)
    ensures Truncates(KeyNode(name, true), KeyNode(name + more, partial))
  {
    var p, f := KeyNode(name, true), KeyNode(name + more, partial);
    assert Truncates(p.children[0], f.children[0]);
  }

  function KeyNode(name: string, partial: bool): Node {
    Node(DICT_KEY, OTHER_TAG, name, [Node(DICT_KEY_NAME, OTHER_TAG, name, [], false)], partial)
  }

  /** A value that has not begun is a string for the parser, whatever it becomes. */
  lemma ValueToCome(f: Node)
    ensures Truncates(Node(VALUE, OTHER_TAG, "", [Node(STRING, OTHER_TAG, "", [], true)], true), f)
  {
    var child := Node(STRING, OTHER_TAG, "", [], true);
    assert [child][1..] == [];
    assert Blank(child);
  }

  function MessageNode(t: string, partial: bool): Node {
    Node(OTHER_RULE, OTHER_TAG, t, [Node(OTHER_RULE, CONTENT, t, [], partial)], partial)
  }

  // ---------- a whole stream ----------

  /** The messages of successive parses. */
  function Parses(forests: seq<seq<Node>>): (r: seq<Message>)
    ensures |r| == |forests|
  {
    if forests == [] then [] else [VisitedAll(EMPTY_MESSAGE, forests[0])] + Parses(forests[1..])
  }

  predicate Grown(forests: seq<seq<Node>>) {
    forall k :: 0 < k < |forests| ==> AllGrow(forests[k - 1], forests[k])
  }

  lemma {:induction false} ParsesGrow(m: Message, forests: seq<seq<Node>>)
    requires Grown(forests) && (forests != [] ==> GrowsTo(m, VisitedAll(EMPTY_MESSAGE, forests[0])))
    ensures GrowingFrom(m, Parses(forests))
    decreases |forests|
  {
    hide GrowsTo, VisitedAll;
    if forests != [] {
      if |forests| > 1 { VisitAllGrows(EMPTY_MESSAGE, forests[0], forests[1]); }
      forall k | 0 < k < |forests| - 1 ensures AllGrow(forests[1..][k - 1], forests[1..][k]) {
        assert AllGrow(forests[k], forests[k + 1]);
      }
      ParsesGrow(VisitedAll(EMPTY_MESSAGE, forests[0]), forests[1..]);
    }
  }

  /** However often the growing output is parsed, every diff exists, the deltas add up, and the client
      holds the message of the last parse. */
  lemma ReparsingStreams(forests: seq<seq<Node>>, gen: nat -> string)
    requires Generates(gen) && Grown(forests)
    ensures var ms := Parses(forests);
      && AllDeltas(START, ms, gen).Success?
      && Holds(After(START, ms, gen), LastOf(EMPTY_MESSAGE, ms))
      && MessageDiff.Replay(EMPTY_MESSAGE, AllDeltas(START, ms, gen).value) == After(START, ms, gen).msg
  {
    if forests != [] {
      VisitAllAppends(EMPTY_MESSAGE, forests[0]);
      AppendedGrows(EMPTY_MESSAGE, VisitedAll(EMPTY_MESSAGE, forests[0]));
    }
    ParsesGrow(EMPTY_MESSAGE, forests);
    StreamRebuilds(START, EMPTY_MESSAGE, Parses(forests), gen);
  }
}
