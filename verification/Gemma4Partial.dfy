/** The tree of arguments that have partly arrived is a truncation of the tree of every text they become,
    unless that text is malformed. */
module Gemma4Partial {
  import opened Wrappers
  import opened PegMatch
  import opened Gemma4Json
  import opened Gemma4Number
  import opened Gemma4Parser

  /** What is done or malformed stays so; what there was of the node is a truncation of what there is now. */
  predicate Extends(a: Parsed, b: Parsed, u: string) {
    match a
    case Malformed => b.Malformed?
    case Done(n, rest) => b == Done(n, rest + u)
    case More(n) => b.Malformed? || (Truncates(n, b.node) && (b.Done? ==> |b.rest| <= |u|))
  }

  predicate ListExtends(a: Items, b: Items, u: string) {
    match a
    case NoItems => b.NoItems?
    case Closed(ns, rest) => b == Closed(ns, rest + u)
    case Unclosed(ns) => b.NoItems? || (Cut(ns, b.nodes) && (b.Closed? ==> |b.rest| <= |u|))
  }

  lemma TextStays(s: string, u: string, rest: string)
    requires |rest| <= |s|
    ensures TextOf(s + u, rest + u) == TextOf(s, rest)
  {}

  lemma TextCovers(s: string, u: string, rest: string)
    requires |rest| <= |u|
    ensures s <= TextOf(s + u, rest) && s <= s + u
  {}

  lemma CutOne(p: Node, f: Node)
    requires Truncates(p, f)
    ensures Cut([p], [f])
  {}

  /** A rule whose children extend. */
  lemma NodeExtends(rule: Rule, s: string, u: string, ps: seq<Node>, fs: seq<Node>, rest: string)
    requires Cut(ps, fs)
    ensures Extends(Begins(rule, s, ps), Begins(rule, s + u, fs), u)
    ensures |rest| <= |u| ==> Extends(Begins(rule, s, ps), Whole(rule, s + u, fs, rest), u)
  {
    hide Cut;
    if |rest| <= |u| { TextCovers(s, u, rest); }
  }

  lemma TokenExtends(rule: Rule, inner: Rule, s: string, u: string, a: Match, b: Match)
    requires Settled(a, b, u) && (a.Matched? ==> |a.rest| <= |s|) && (b.Matched? ==> |b.rest| <= |s + u|)
    ensures Extends(Token(rule, inner, s, a), Token(rule, inner, s + u, b), u)
  {
    match a
    case Missed => {}
    case Matched(rest) => TextStays(s, u, rest);
    case Short => {
      if !b.Missed? {
        var text := if b.Matched? then TextOf(s + u, b.rest) else s + u;
        if b.Matched? { TextCovers(s, u, b.rest); }
        var p, f := Node(inner, OTHER_TAG, s, [], true), Node(inner, OTHER_TAG, text, [], b.Short?);
        assert s <= text;
        CutOne(p, f);
        NodeExtends(rule, s, u, [p], [f], if b.Matched? then b.rest else "");
      }
    }
  }

  function Content(r: string): Node {
    var k := Until([QUOTE], r);
    Node(STRING_CONTENT, OTHER_TAG, r[..k], [], k == |r|)
  }

  lemma ContentGrows(r: string, u: string)
    ensures Truncates(Content(r), Content(r + u))
    ensures var k := Until([QUOTE], r); k < |r| && Literal(QUOTE, r[k..]).Matched? ==>
      Content(r + u) == Content(r) && Until([QUOTE], r + u) == k
  {
    hide CheckAt;
    var k, m := Until([QUOTE], r), Until([QUOTE], r + u);
    UntilGrows([QUOTE], r, u);
    assert r[..k] <= (r + u)[..m];
    if k < |r| && Literal(QUOTE, r[k..]).Matched? {
      QuoteComplete(r[k..]);
      assert (r + u)[..k] == r[..k];
    }
  }

  lemma QuoteComplete(s: string)
    requires Literal(QUOTE, s).Matched?
    ensures CheckAt([QUOTE], s) == Complete
  {
    assert [QUOTE][0] != "" && [QUOTE][0] <= s;
  }

  lemma AfterContent(r: string)
    ensures var k := Until([QUOTE], r); k < |r| ==> !Literal(QUOTE, r[k..]).Missed?
  {
    var k := Until([QUOTE], r);
    if k < |r| {
      assert CheckAt([QUOTE], r[k..]) != Absent;
    }
  }

  /** The string behind its opening quote. */
  lemma StringBody(s: string, r: string)
    requires Literal(QUOTE, s) == Matched(r)
    ensures var k := Until([QUOTE], r);
      if k < |r| && Literal(QUOTE, r[k..]).Matched? then
        StringRule(s) == Whole(STRING, s, [Content(r)], Literal(QUOTE, r[k..]).rest)
      else StringRule(s) == Begins(STRING, s, [Content(r)])
  {
    AfterContent(r);
  }

  lemma StringExtends(s: string, u: string)
    requires s != ""
    ensures Extends(StringRule(s), StringRule(s + u), u)
  {
    hide Literal, Until, Content, Truncates;
    LiteralSettled(QUOTE, s, u);
    match Literal(QUOTE, s) {
      case Missed => {}
      case Short => ShortQuote(s, u);
      case Matched(r) => {
        StringBody(s, r);
        StringBody(s + u, r + u);
        ContentGrows(r, u);
        CutOne(Content(r), Content(r + u));
        BodyExtends(s, u, r);
      }
    }
  }

  lemma ShortQuote(s: string, u: string)
    requires Literal(QUOTE, s).Short?
    ensures Extends(StringRule(s), StringRule(s + u), u)
  {
    hide Literal, Until;
    LiteralSettled(QUOTE, s, u);
    var b := StringRule(s + u);
    if !b.Malformed? {
      NodeExtends(STRING, s, u, [], b.node.children, if b.Done? then b.rest else "");
    }
  }

  lemma BodyExtends(s: string, u: string, r: string)
    requires Literal(QUOTE, s) == Matched(r) && Literal(QUOTE, s + u) == Matched(r + u)
    requires Cut([Content(r)], [Content(r + u)])
    ensures Extends(StringRule(s), StringRule(s + u), u)
  {
    hide Literal, Content, Cut;
    var k, m := Until([QUOTE], r), Until([QUOTE], r + u);
    StringBody(s, r);
    StringBody(s + u, r + u);
    if k < |r| && Literal(QUOTE, r[k..]).Matched? {
      ContentGrows(r, u);
      Shift(r, u, k);
      LiteralSettled(QUOTE, r[k..], u);
      TextStays(s, u, Literal(QUOTE, r[k..]).rest);
    } else {
      var rest := if StringRule(s + u).Done? then StringRule(s + u).rest else "";
      BodyReaches(r, u);
      NodeExtends(STRING, s, u, [Content(r)], [Content(r + u)], rest);
    }
  }

  /** When the string had not ended, it ends within what came. */
  lemma BodyReaches(r: string, u: string)
    ensures var k, m := Until([QUOTE], r), Until([QUOTE], r + u);
      (k == |r| || !Literal(QUOTE, r[k..]).Matched?) && m < |r + u| && Literal(QUOTE, (r + u)[m..]).Matched?
      ==> |Literal(QUOTE, (r + u)[m..]).rest| <= |u|
  {
    hide CheckAt;
    var k, m := Until([QUOTE], r), Until([QUOTE], r + u);
    UntilGrows([QUOTE], r, u);
    if k < |r| && !Literal(QUOTE, r[k..]).Matched? && m < |r| {
      Shift(r, u, m);
      AfterContent(r);
      Shift(r, u, k);
      if m > k { assert CheckAt([QUOTE], (r + u)[k..]) == Absent; }
      LiteralSettled(QUOTE, r[k..], u);
    }
  }

  function KeyName(s: string, r: string): Node
    requires |r| <= |s|
  {
    Node(DICT_KEY_NAME, OTHER_TAG, TextOf(s, r), [], false)
  }

  /** The key behind its name. */
  function AfterName(s: string, r: string): Parsed
    requires |r| <= |s|
  {
    match Literal(":", r)
    case Missed => Malformed
    case Short => Begins(DICT_KEY, s, [KeyName(s, r)])
    case Matched(rest) => Whole(DICT_KEY, s, [KeyName(s, r)], rest)
  }

  lemma KeyIs(s: string)
    requires s != ""
    ensures var m := Chars(IN_KEY, 1, None, s);
      !m.Short? && KeyRule(s) == if m.Missed? then Malformed else AfterName(s, m.rest)
  {
    hide Class.Has;
  }

  lemma KeyExtends(s: string, u: string)
    requires s != ""
    ensures Extends(KeyRule(s), KeyRule(s + u), u)
  {
    hide Chars, Literal, AfterName, KeyRule;
    CharsFirm(IN_KEY, 1, None, s, u);
    KeyIs(s);
    KeyIs(s + u);
    var m := Chars(IN_KEY, 1, None, s);
    if m.Matched? {
      if m.rest != "" { NamedExtends(s, u, m.rest); } else { NameGoesOn(s, u, Chars(IN_KEY, 1, None, s + u).rest); }
    }
  }

  lemma NamedExtends(s: string, u: string, r: string)
    requires r != "" && |r| <= |s|
    ensures Extends(AfterName(s, r), AfterName(s + u, r + u), u)
  {
    LiteralSettled(":", r, u);
    TextStays(s, u, r);
    var m := Literal(":", r);
    if m.Matched? { TextStays(s, u, m.rest); }
  }

  lemma NameGoesOn(s: string, u: string, r: string)
    requires |r| <= |u|
    ensures Extends(AfterName(s, ""), AfterName(s + u, r), u)
  {
    TextCovers(s, u, r);
    CutOne(KeyName(s, ""), KeyName(s + u, r));
    var m := Literal(":", r);
    NodeExtends(DICT_KEY, s, u, [KeyName(s, "")], [KeyName(s + u, r)], if m.Matched? then m.rest else "");
  }

  // ---------- nothing has come yet ----------

  lemma BlankItem(kind: Kind)
    ensures Item(kind, "").More? && Blank(Item(kind, "").node)
  {
    var content: Node := Node(STRING, OTHER_TAG, "", [], true);
    assert Payload("") == More(content) && Blank(content);
    assert Chars(IN_KEY, 1, None, "").Short?;
    var name := Node(DICT_KEY_NAME, OTHER_TAG, "", [], true);
    var key := Node(DICT_KEY, OTHER_TAG, "", [name], true);
    assert [name][1..] == [] && [key][1..] == [] && [content][1..] == [];
    assert KeyRule("") == More(key) && Blank(name) && Blank(key);
  }

  lemma FromNothing(kind: Kind, u: string)
    ensures Extends(Item(kind, ""), Item(kind, u), u)
  {
    hide Item;
    BlankItem(kind);
  }

  // ---------- alternatives ----------

  /** The alternatives begin with different characters. */
  function PayloadBy(c: char, s: string): Parsed {
    if c == '<' then StringRule(s)
    else if c == '{' then DictRule(s)
    else if c == '[' then ArrayRule(s)
    else if c in "-0123456789" then Token(NUMBER, OTHER_RULE, s, Number(s))
    else if c in "tf" then BoolRule(s)
    else Token(NULL, OTHER_RULE, s, Literal("null", s))
  }

  lemma StringFirst(s: string)
    requires s != "" && s[0] != '<'
    ensures StringRule(s).Malformed?
  {
    hide Until;
    if !Literal(QUOTE, s).Missed? { FirstOf(QUOTE, s); }
  }

  lemma BracketFirst(s: string)
    requires s != ""
    ensures s[0] != '{' ==> DictRule(s).Malformed?
    ensures s[0] != '[' ==> ArrayRule(s).Malformed?
  {
    hide Inside;
  }

  lemma BoolFirst(s: string)
    requires s != "" && s[0] !in "tf"
    ensures BoolRule(s).Malformed?
  {
    if !Literal("true", s).Missed? { FirstOf("true", s); }
    if !Literal("false", s).Missed? { FirstOf("false", s); }
  }

  lemma NullFirst(s: string)
    requires s != "" && s[0] != 'n'
    ensures Literal("null", s).Missed?
  {
    if !Literal("null", s).Missed? { FirstOf("null", s); }
  }

  lemma PayloadIs(s: string)
    requires s != ""
    ensures Payload(s) == PayloadBy(s[0], s)
  {
    hide Literal, Number, StringRule, DictRule, ArrayRule, BoolRule;
    if s[0] != '<' { StringFirst(s); }
    BracketFirst(s);
    if s[0] !in "tf" { BoolFirst(s); }
    if s[0] != 'n' { NullFirst(s); }
    if s[0] !in "-0123456789" && !Number(s).Missed? { NumberFirst(s); }
  }

  // ---------- the recursive rules ----------

  lemma BoolExtends(s: string, u: string)
    requires s != ""
    ensures Extends(BoolRule(s), BoolRule(s + u), u)
  {
    hide Literal;
    LiteralSettled("true", s, u);
    LiteralSettled("false", s, u);
    var a := if Literal("true", s).Missed? then Literal("false", s) else Literal("true", s);
    var b := if Literal("true", s + u).Missed? then Literal("false", s + u) else Literal("true", s + u);
    TrueOrFalse(s);
    TokenExtends(BOOL, OTHER_RULE, s, u, a, b);
  }

  lemma TrueOrFalse(s: string)
    requires s != ""
    ensures Literal("true", s).Missed? || Literal("false", s).Missed?
  {
    if !Literal("true", s).Missed? { FirstOf("true", s); }
    if !Literal("false", s).Missed? { FirstOf("false", s); }
  }

  lemma {:induction false} PayloadExtends(s: string, u: string)
    requires s != ""
    ensures Extends(Payload(s), Payload(s + u), u)
    decreases |s|, 1
  {
    hide Payload, Extends, StringRule, DictRule, ArrayRule, BoolRule, Number, Literal;
    PayloadIs(s);
    PayloadIs(s + u);
    assert (s + u)[0] == s[0];
    if s[0] == '<' {
      StringExtends(s, u);
    } else if s[0] == '{' {
      BracketExtends(MEMBER, s, u);
    } else if s[0] == '[' {
      BracketExtends(ELEMENT, s, u);
    } else if s[0] in "-0123456789" {
      NumberSettled(s, u);
      TokenExtends(NUMBER, OTHER_RULE, s, u, Number(s), Number(s + u));
    } else if s[0] in "tf" {
      BoolExtends(s, u);
    } else {
      LiteralSettled("null", s, u);
      TokenExtends(NULL, OTHER_RULE, s, u, Literal("null", s), Literal("null", s + u));
    }
  }

  lemma {:induction false} ValueExtends(s: string, u: string)
    requires s != ""
    ensures Extends(ValueRule(s), ValueRule(s + u), u)
    decreases |s|, 2
  {
    hide Payload, Truncates;
    PayloadExtends(s, u);
    var a, b := Payload(s), Payload(s + u);
    if a.Done? {
      TextStays(s, u, a.rest);
    } else if a.More? && !b.Malformed? {
      CutOne(a.node, b.node);
      NodeExtends(VALUE, s, u, [a.node], [b.node], if b.Done? then b.rest else "");
    }
  }

  lemma CutSecond(k: Node, p: Node, f: Node)
    requires Truncates(p, f)
    ensures Cut([k, p], [k, f]) && Cut([k], [k, f])
  {
    hide Blank, Open;
    assert [k, p][1..] == [p] && [k, f][1..] == [f];
  }

  lemma {:induction false} KvExtends(s: string, u: string)
    requires s != ""
    ensures Extends(KvRule(s), KvRule(s + u), u)
    decreases |s|, 2
  {
    hide KeyRule, ValueRule, Truncates, Cut, Space;
    KeyExtends(s, u);
    var a, b := KeyRule(s), KeyRule(s + u);
    if a.Done? {
      SpaceGrows(a.rest, u);
      var r := Space(a.rest);
      if r == "" { ValueFromNothing(Space(u), u); } else { ValueExtends(r, u); }
      PairExtends(s, u, a.node, ValueRule(r), ValueRule(Space(a.rest + u)));
    } else if a.More? && !b.Malformed? {
      KeyStillMore(s, u, a.node, b);
    }
  }

  lemma ValueFromNothing(v: string, u: string)
    requires |v| <= |u|
    ensures Extends(ValueRule(""), ValueRule(v), u)
  {
    hide ValueRule;
    BlankItem(ELEMENT);
  }

  /** The pair when the key was complete. */
  function Pair(s: string, key: Node, v: Parsed): Parsed
    requires v.Done? ==> |v.rest| <= |s|
  {
    match v
    case Malformed => Malformed
    case More(n) => Begins(DICT_KV, s, [key, n])
    case Done(n, rest) => Whole(DICT_KV, s, [key, n], rest)
  }

  lemma PairExtends(s: string, u: string, key: Node, v: Parsed, w: Parsed)
    requires Extends(v, w, u) && (v.Done? ==> |v.rest| <= |s|) && (w.Done? ==> |w.rest| <= |s + u|)
    ensures Extends(Pair(s, key, v), Pair(s + u, key, w), u)
  {
    hide Truncates, Cut;
    if v.Done? {
      TextStays(s, u, v.rest);
    } else if v.More? && !w.Malformed? {
      CutSecond(key, v.node, w.node);
      NodeExtends(DICT_KV, s, u, [key, v.node], [key, w.node], if w.Done? then w.rest else "");
    }
  }

  /** The pair when the key had not ended. */
  lemma KeyStillMore(s: string, u: string, key: Node, b: Parsed)
    requires KeyRule(s) == More(key) && b == KeyRule(s + u) && !b.Malformed?
    requires Truncates(key, b.node) && (b.Done? ==> |b.rest| <= |u|)
    ensures Extends(KvRule(s), KvRule(s + u), u)
  {
    hide KeyRule, ValueRule, Truncates, Cut, Space;
    var w := KvRule(s + u);
    if !w.Malformed? {
      CutFirst(key, b.node, w.node.children);
      NodeExtends(DICT_KV, s, u, [key], w.node.children, if w.Done? then w.rest else "");
    }
  }

  lemma CutFirst(p: Node, f: Node, fs: seq<Node>)
    requires Truncates(p, f) && fs != [] && fs[0] == f
    ensures Cut([p], fs)
  {}

  lemma {:induction false} ItemExtends(kind: Kind, s: string, u: string)
    ensures Extends(Item(kind, s), Item(kind, s + u), u)
    decreases |s|, 3
  {
    hide ValueRule, KvRule, Extends;
    if s == "" {
      assert s + u == u;
      FromNothing(kind, u);
    } else if kind == ELEMENT {
      ValueExtends(s, u);
    } else {
      KvExtends(s, u);
    }
  }

  // ---------- lists ----------

  lemma NothingClosed(close: string)
    requires close != ""
    ensures Closing(close, "") == Unclosed([])
  {}

  lemma EndExtends(close: string, s: string, u: string)
    requires close != ""
    ensures ListExtends(AtEnd(close, s), AtEnd(close, s + u), u)
  {
    hide Space, Literal;
    SpaceGrows(s, u);
    var r := Space(s);
    if r == "" {
      NothingClosed(close);
    } else {
      LiteralSettled(close, r, u);
    }
  }

  lemma ConsExtends(n: Node, a: Items, b: Items, u: string)
    requires ListExtends(a, b, u)
    ensures ListExtends(Cons(n, a), Cons(n, b), u)
  {
    if a.Unclosed? && !b.NoItems? {
      var ps, fs := [n] + a.nodes, [n] + b.nodes;
      assert ps[1..] == a.nodes && fs[1..] == b.nodes;
    }
  }

  lemma StillFirst(p: Node, f: Node, b: Items, u: string)
    requires Truncates(p, f) && (b.Closed? ==> |b.rest| <= |u|)
    requires !b.NoItems? ==> b.nodes != [] && b.nodes[0] == f
    ensures ListExtends(Unclosed([p]), b, u)
  {
    hide Truncates;
    if !b.NoItems? { CutFirst(p, f, b.nodes); }
  }

  lemma {:induction false} OnwardsExtends(kind: Kind, close: string, s: string, u: string)
    requires s != "" && close in {"}", "]"}
    ensures ListExtends(Onwards(kind, close, s), Onwards(kind, close, s + u), u)
    decreases |s|, 4
  {
    hide Item, Tail, ListExtends, Truncates;
    ItemExtends(kind, s, u);
    var a, b := Item(kind, s), Item(kind, s + u);
    match a {
      case Malformed => NoListExtends(u);
      case More(n) => {
        if b.Malformed? { EndsMalformed(n, u); } else { StillFirst(n, b.node, Onwards(kind, close, s + u), u); }
      }
      case Done(n, rest) => {
        TailExtends(kind, close, rest, u);
        ConsExtends(n, Tail(kind, close, rest), Tail(kind, close, rest + u), u);
      }
    }
  }

  lemma NoListExtends(u: string)
    ensures ListExtends(NoItems, NoItems, u)
  {}

  lemma EndsMalformed(n: Node, u: string)
    ensures ListExtends(Unclosed([n]), NoItems, u)
  {}

  lemma CommaIs(s: string)
    ensures AfterComma(s).Some? <==> s != "" && s[0] == ','
    ensures AfterComma(s).Some? ==> AfterComma(s).value == Space(s[1..])
  {}

  lemma CommaIsNoEnd(close: string, s: string)
    requires s != "" && s[0] == ',' && close in {"}", "]"}
    ensures AtEnd(close, s).NoItems?
  {
    assert Space(s) == s;
    if !Literal(close, s).Missed? { FirstOf(close, s); }
  }

  lemma {:induction false} TailExtends(kind: Kind, close: string, s: string, u: string)
    requires close in {"}", "]"}
    ensures ListExtends(Tail(kind, close, s), Tail(kind, close, s + u), u)
    decreases |s|, 6
  {
    hide Item, Onwards, AtEnd, AfterComma, ListExtends, Extends, Space;
    CommaIs(s);
    CommaIs(s + u);
    if s == "" {
      assert s + u == u;
      EndOfInput(kind, close, u);
    } else if s[0] != ',' {
      EndExtends(close, s, u);
    } else {
      Shift(s, u, 1);
      SpaceGrows(s[1..], u);
      CommaIsNoEnd(close, s);
      CommaIsNoEnd(close, s + u);
      var r := Space(s[1..]);
      if r == "" {
        BlankItem(kind);
        CommaThenNothing(kind, close, Space(u), Tail(kind, close, s + u), u);
      } else {
        OnwardsExtends(kind, close, r, u);
        BothOrNone(kind, close, r, u);
        NoListExtends(u);
      }
    }
  }

  /** A malformed item is no list. */
  lemma BothOrNone(kind: Kind, close: string, s: string, u: string)
    ensures Item(kind, s).Malformed? ==> Onwards(kind, close, s).NoItems?
    ensures Item(kind, s + u).Malformed? ==> Onwards(kind, close, s + u).NoItems?
  {}

  lemma EndOfInput(kind: Kind, close: string, u: string)
    requires close != ""
    ensures ListExtends(Tail(kind, close, ""), Tail(kind, close, u), u)
  {
    hide Item, Onwards, Closing, AfterComma;
    CommaIs("");
    NothingClosed(close);
    assert Space("") == "";
  }

  lemma CommaThenNothing(kind: Kind, close: string, v: string, b: Items, u: string)
    requires |v| <= |u| && (b.NoItems? || b == Onwards(kind, close, v))
    ensures ListExtends(Onwards(kind, close, ""), b, u)
  {
    hide Item, Tail;
    BlankItem(kind);
    if !b.NoItems? { StillFirst(Item(kind, "").node, b.nodes[0], b, u); }
  }

  // ---------- brackets ----------

  lemma ClosingExtends(close: string, s: string, u: string)
    requires close != ""
    ensures ListExtends(Closing(close, s), Closing(close, s + u), u)
  {
    hide Literal;
    LiteralSettled(close, s, u);
  }

  lemma OneLetter(close: string, s: string)
    requires |close| == 1
    ensures Literal(close, s).Short? <==> s == ""
  {}

  lemma {:induction false} InsideExtends(kind: Kind, close: string, s: string, u: string)
    requires s != "" && close in {"}", "]"}
    ensures ListExtends(Inside(kind, close, s), Inside(kind, close, s + u), u)
    decreases |s|, 5
  {
    hide Literal, Closing, Onwards, ListExtends;
    OneLetter(close, s);
    LiteralSettled(close, s, u);
    if Literal(close, s).Missed? {
      OnwardsExtends(kind, close, s, u);
    } else {
      ClosingExtends(close, s, u);
    }
  }

  lemma InsideNothing(kind: Kind, close: string, v: string, u: string)
    requires |v| <= |u| && close != ""
    ensures ListExtends(Inside(kind, close, ""), Inside(kind, close, v), u)
  {
    hide Onwards;
  }

  lemma BracketedExtends(rule: Rule, s: string, u: string, a: Items, b: Items)
    requires ListExtends(a, b, u) && (a.Closed? ==> |a.rest| <= |s|) && (b.Closed? ==> |b.rest| <= |s + u|)
    ensures Extends(Bracketed(rule, s, a), Bracketed(rule, s + u, b), u)
  {
    hide Truncates, Cut;
    if a.Closed? {
      TextStays(s, u, a.rest);
    } else if a.Unclosed? && !b.NoItems? {
      NodeExtends(rule, s, u, a.nodes, b.nodes, if b.Closed? then b.rest else "");
    }
  }

  function OpenOf(kind: Kind): string { if kind == MEMBER then "{" else "[" }

  function CloseOf(kind: Kind): string { if kind == MEMBER then "}" else "]" }

  function BracketRule(kind: Kind, s: string): Parsed {
    if kind == MEMBER then DictRule(s) else ArrayRule(s)
  }

  lemma BracketIs(kind: Kind, s: string)
    requires s != ""
    ensures BracketRule(kind, s) ==
      if s[0] != OpenOf(kind)[0] then Malformed
      else Bracketed(if kind == MEMBER then DICT else ARRAY, s, Inside(kind, CloseOf(kind), Space(s[1..])))
  {
    hide Inside, Space;
  }

  lemma {:induction false} BracketExtends(kind: Kind, s: string, u: string)
    requires s != ""
    ensures Extends(BracketRule(kind, s), BracketRule(kind, s + u), u)
    decreases |s|, 0
  {
    hide BracketRule, Inside, Space, ListExtends, Extends;
    BracketIs(kind, s);
    BracketIs(kind, s + u);
    var rule := if kind == MEMBER then DICT else ARRAY;
    if s[0] == OpenOf(kind)[0] {
      Shift(s, u, 1);
      SpaceGrows(s[1..], u);
      var r, r1 := Space(s[1..]), Space(s[1..] + u);
      if r == "" { InsideNothing(kind, CloseOf(kind), r1, u); } else { InsideExtends(kind, CloseOf(kind), r, u); }
      BracketedExtends(rule, s, u, Inside(kind, CloseOf(kind), r), Inside(kind, CloseOf(kind), r1));
    } else {
      BothMalformed(u);
    }
  }

  lemma BothMalformed(u: string)
    ensures Extends(Malformed, Malformed, u)
  {}

  // ---------- arguments ----------

  /** The tree of arguments that have partly arrived is a truncation of the tree they become; what is
      malformed stays so and what is complete stays as it is. */
  lemma ArgumentsExtend(s: string, u: string)
    ensures Extends(DictRule(s), DictRule(s + u), u)
  {
    if s == "" {
      assert s + u == u;
      assert DictRule("") == More(Node(DICT, OTHER_TAG, "", [], true));
    } else {
      BracketExtends(MEMBER, s, u);
    }
  }

  /** Wherever the text of the arguments is cut, their rendering so far is a prefix of the later one. */
  lemma ArgumentsGrow(s: string, u: string)
    requires !DictRule(s + u).Malformed?
    ensures !DictRule(s).Malformed? && ToJson(DictRule(s).node) <= ToJson(DictRule(s + u).node)
  {
    hide DictRule, ToJson, Truncates;
    ArgumentsExtend(s, u);
    if DictRule(s).More? { ToJsonMonotone(DictRule(s).node, DictRule(s + u).node); }
  }
}
