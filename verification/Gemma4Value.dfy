/** What a complete Gemma 4 tree means, and that its rendering is the JSON text of that value. */
module Gemma4Value {
  import opened Wrappers
  import opened JsonText
  import opened JsonReader
  import opened Gemma4Json

  // ---------- complete trees, as the grammar builds them ----------

  predicate IsKey(n: Node) {
    !n.isPartial && n.rule == DICT_KEY && n.text != "" && |n.children| == 1 && n.children[0].rule == DICT_KEY_NAME
  }

  predicate IsMember(n: Node)
    decreases n
  {
    n.rule == DICT_KV && n.text != "" && |n.children| == 2 && IsKey(n.children[0]) && IsValue(n.children[1])
  }

  predicate IsValue(n: Node)
    decreases n
  {
    n.rule == VALUE && n.text != "" && |n.children| == 1 && IsPayload(n.children[0])
  }

  predicate IsPayload(n: Node)
    decreases n
  {
    !n.isPartial && n.text != "" &&
    match n.rule
    case NUMBER => IsAtom(n.text)
    case BOOL => IsAtom(n.text)
    case NULL => IsAtom(n.text)
    case STRING => |n.children| == 1 && n.children[0].rule == STRING_CONTENT
    case ARRAY => AllValues(n.children)
    case DICT => AllMembers(n.children)
    case STRING_CONTENT => false
    case DICT_KEY_NAME => false
    case DICT_KEY => false
    case DICT_KV => false
    case VALUE => false
    case OTHER_RULE => false
  }

  predicate AllValues(cs: seq<Node>)
    decreases cs
  {
    cs == [] || (IsValue(cs[0]) && AllValues(cs[1..]))
  }

  predicate AllMembers(cs: seq<Node>)
    decreases cs
  {
    cs == [] || (IsMember(cs[0]) && AllMembers(cs[1..]))
  }

  // ---------- their meaning ----------

  function Meaning(n: Node): Value
    requires IsPayload(n)
    decreases n
  {
    if n.rule == STRING then Text(n.children[0].text)
    else if n.rule == ARRAY then List(Values(n.children))
    else if n.rule == DICT then Object(Members(n.children))
    else Atom(n.text)
  }

  function ValueOf(n: Node): Value
    requires IsValue(n)
    decreases n
  {
    Meaning(n.children[0])
  }

  function MemberOf(n: Node): (string, Value)
    requires IsMember(n)
    decreases n
  {
    (n.children[0].children[0].text, ValueOf(n.children[1]))
  }

  function Values(cs: seq<Node>): seq<Value>
    requires AllValues(cs)
    decreases cs
  {
    if cs == [] then [] else [ValueOf(cs[0])] + Values(cs[1..])
  }

  function Members(cs: seq<Node>): seq<(string, Value)>
    requires AllMembers(cs)
    decreases cs
  {
    if cs == [] then [] else [MemberOf(cs[0])] + Members(cs[1..])
  }

  // ---------- the rendering reads back as the meaning ----------

  /** What may follow a value inside JSON text. */
  predicate Ends(rest: string) {
    rest == "" || rest[0] in ",]}"
  }

  lemma ValueFirst(n: Node)
    requires IsValue(n)
    ensures ToJson(n) == ToJson(n.children[0]) && ToJson(n) != "" && ToJson(n)[0] !in ",]} \t\n\r"
  {
    hide Escape;
  }

  lemma {:induction false} RenderingReads(n: Node, rest: string)
    requires IsPayload(n) && Ends(rest)
    ensures ReadValue(ToJson(n) + rest) == Some((Meaning(n), rest))
    decreases n
  {
    hide Escape;
    var s := ToJson(n) + rest;
    match n.rule {
      case NUMBER => AtomReads(n.text, rest);
      case BOOL => AtomReads(n.text, rest);
      case NULL => AtomReads(n.text, rest);
      case STRING => {
        var t := n.children[0].text;
        TextShown(n);
        InQuotes(Escape(t), rest);
        ReadsEscaped(t, rest);
      }
      case ARRAY => ArrayReads(n.children, s, rest);
      case DICT => DictReads(n.children, s, rest);
    }
  }

  lemma TextShown(n: Node)
    requires IsPayload(n) && n.rule == STRING
    ensures ToJson(n) == "\"" + Escape(n.children[0].text) + "\""
  {
    EscapeEmpty();
    hide Escape;
    var c := n.children[0];
    assert ToJson(c) == Escape(c.text);
    assert "\"" + (Escape(c.text) + "\"") == "\"" + Escape(c.text) + "\"";
  }

  lemma InQuotes(e: string, rest: string)
    ensures var s := "\"" + e + "\"" + rest; s[0] == '"' && s[1..] == e + "\"" + rest
  {}

  lemma EscapeEmpty()
    ensures Escape("") == ""
  {}

  lemma AtomReads(t: string, rest: string)
    requires IsAtom(t) && Ends(rest)
    ensures ReadValue(t + rest) == Some((Atom(t), rest))
  {
    AtomEnds(t, rest);
    assert (t + rest)[0] == t[0] && (t + rest)[..|t|] == t && (t + rest)[|t|..] == rest;
  }

  lemma {:induction false} ArrayReads(cs: seq<Node>, s: string, rest: string)
    requires AllValues(cs) && s == "[" + Elements(cs) + "]" + rest
    ensures ReadValue(s) == Some((List(Values(cs)), rest))
    decreases cs, 1
  {
    hide ReadElements, ToJson, IsValue, ValueOf, ReadString;
    SkipSign(s);
    if cs == [] {
      assert s == "[]" + rest && s[1..] == "]" + rest && ("]" + rest)[1..] == rest;
      SkipSign(s[1..]);
      Nothing();
    } else {
      assert s[1..] == Elements(cs) + "]" + rest == Elements(cs) + ("]" + rest);
      ElementsRead(cs, s[1..], rest);
      ValueFirst(cs[0]);
      FirstShown(cs, "]" + rest);
      SkipSign(s[1..]);
    }
  }

  lemma {:induction false} ValueReads(n: Node, rest: string)
    requires IsValue(n) && Ends(rest)
    ensures ReadValue(ToJson(n) + rest) == Some((ValueOf(n), rest))
    decreases n
  {
    hide ReadValue, Meaning, IsPayload;
    ValueFirst(n);
    RenderingReads(n.children[0], rest);
  }

  lemma SkipSign(s: string)
    requires s != "" ==> s[0] !in " \t\n\r"
    ensures Skip(s) == s
  {}

  lemma Nothing()
    ensures Values([]) == [] && Members([]) == [] && Elements([]) == ""
  {}

  lemma FirstShown(cs: seq<Node>, end: string)
    requires cs != [] && ToJson(cs[0]) != ""
    ensures Elements(cs) + end != "" && (Elements(cs) + end)[0] == ToJson(cs[0])[0]
  {
    hide ToJson;
    ElementsText(cs, end);
  }

  lemma ElementsText(cs: seq<Node>, end: string)
    requires cs != []
    ensures |cs| == 1 ==> Elements(cs) + end == ToJson(cs[0]) + end
    ensures |cs| > 1 ==> Elements(cs) + end == ToJson(cs[0]) + ("," + (Elements(cs[1..]) + end))
  {
    hide ToJson;
    if |cs| == 1 {
      NothingMore(ToJson(cs[0]));
    } else {
      CommaMore(ToJson(cs[0]), Elements(cs[1..]), end);
    }
  }

  lemma NothingMore(s: string)
    ensures s + "" == s
  {}

  lemma CommaMore(s: string, more: string, end: string)
    ensures s + ("," + more) + end == s + ("," + (more + end))
  {}

  lemma ReadLastElement(s: string, v: Value, rest: string)
    requires ReadValue(s) == Some((v, "]" + rest))
    ensures ReadElements(s) == Some(([v], rest))
  {
    hide ReadValue;
    assert ("]" + rest)[1..] == rest;
  }

  lemma ReadNextElement(s: string, v: Value, more: string, vs: seq<Value>, rest: string)
    requires ReadValue(s) == Some((v, "," + more)) && ReadElements(more) == Some((vs, rest))
    ensures ReadElements(s) == Some(([v] + vs, rest))
  {
    hide ReadValue;
    assert ("," + more)[1..] == more;
  }

  lemma {:induction false} ElementsRead(cs: seq<Node>, s: string, rest: string)
    requires AllValues(cs) && cs != [] && s == Elements(cs) + ("]" + rest)
    ensures ReadElements(s) == Some((Values(cs), rest))
    decreases cs, 0
  {
    hide ReadValue, ReadElements, Elements, ToJson, IsValue, ValueOf;
    var v, end := cs[0], "]" + rest;
    ElementsText(cs, end);
    if |cs| == 1 {
      ValueReads(v, end);
      ReadLastElement(s, ValueOf(v), rest);
      assert cs[1..] == [] && Values(cs) == [ValueOf(v)];
    } else {
      var more := Elements(cs[1..]) + end;
      ValueReads(v, "," + more);
      ElementsRead(cs[1..], more, rest);
      ReadNextElement(s, ValueOf(v), more, Values(cs[1..]), rest);
    }
  }

  lemma {:induction false} DictReads(cs: seq<Node>, s: string, rest: string)
    requires AllMembers(cs) && s == "{" + Elements(cs) + "}" + rest
    ensures ReadValue(s) == Some((Object(Members(cs)), rest))
    decreases cs, 2
  {
    hide ReadMembers, ToJson, IsMember, MemberOf, ReadString;
    SkipSign(s);
    if cs == [] {
      assert s == "{}" + rest && s[1..] == "}" + rest && ("}" + rest)[1..] == rest;
      SkipSign(s[1..]);
      Nothing();
    } else {
      assert s[1..] == Elements(cs) + "}" + rest == Elements(cs) + ("}" + rest);
      MembersRead(cs, s[1..], rest);
      MemberFirst(cs[0]);
      FirstShown(cs, "}" + rest);
      SkipSign(s[1..]);
    }
  }

  /** A member is its dumped key, a colon and its value. */
  lemma MemberFirst(n: Node)
    requires IsMember(n)
    ensures ToJson(n) == "\"" + Escape(n.children[0].children[0].text) + "\":" + ToJson(n.children[1])
    ensures ToJson(n)[0] == '"'
  {
    hide Escape;
    var k, w := n.children[0], n.children[1];
    PartsOfTwo(k, w);
    assert n.children == [k, w];
    assert ToJson(k.children[0]) == k.children[0].text;
    assert ToJson(k) == "\"" + Escape(k.children[0].text) + "\":";
  }

  lemma PartsOfTwo(a: Node, b: Node)
    ensures Parts([a, b]) == ToJson(a) + ToJson(b)
  {
    hide ToJson;
    assert [a, b][1..] == [b] && [b][1..] == [];
    assert Parts([b]) == ToJson(b);
  }

  lemma {:induction false} MemberReads(n: Node, rest: string)
    requires IsMember(n) && Ends(rest)
    ensures ReadMember(ToJson(n) + rest) == Some((MemberOf(n), rest))
    decreases n
  {
    hide ToJson, Escape, ReadValue, ReadString, ValueOf, IsValue;
    var key, v := n.children[0].children[0].text, n.children[1];
    MemberFirst(n);
    var s, more := ToJson(n) + rest, ":" + (ToJson(v) + rest);
    assert s == "\"" + (Escape(key) + "\"" + more) && s[1..] == Escape(key) + "\"" + more;
    ReadsEscaped(key, more);
    assert more[1..] == ToJson(v) + rest;
    ValueReads(v, rest);
  }

  lemma ReadLastMember(s: string, m: (string, Value), rest: string)
    requires ReadMember(s) == Some((m, "}" + rest))
    ensures ReadMembers(s) == Some(([m], rest))
  {
    hide ReadMember;
    assert ("}" + rest)[1..] == rest;
  }

  lemma ReadNextMember(s: string, m: (string, Value), more: string, ms: seq<(string, Value)>, rest: string)
    requires ReadMember(s) == Some((m, "," + more)) && ReadMembers(more) == Some((ms, rest))
    ensures ReadMembers(s) == Some(([m] + ms, rest))
  {
    hide ReadMember;
    assert ("," + more)[1..] == more;
  }

  lemma {:induction false} MembersRead(cs: seq<Node>, s: string, rest: string)
    requires AllMembers(cs) && cs != [] && s == Elements(cs) + ("}" + rest)
    ensures ReadMembers(s) == Some((Members(cs), rest))
    decreases cs, 1
  {
    hide ReadMember, ReadMembers, Elements, ToJson, IsMember, MemberOf;
    var m, end := cs[0], "}" + rest;
    ElementsText(cs, end);
    if |cs| == 1 {
      MemberReads(m, end);
      ReadLastMember(s, MemberOf(m), rest);
      assert cs[1..] == [] && Members(cs) == [MemberOf(m)];
    } else {
      var more := Elements(cs[1..]) + end;
      MemberReads(m, "," + more);
      MembersRead(cs[1..], more, rest);
      ReadNextMember(s, MemberOf(m), more, Members(cs[1..]), rest);
    }
  }

  /** Complete arguments are JSON text, and a reader finds exactly the value the model wrote. */
  lemma CompleteArguments(n: Node)
    requires IsPayload(n)
    ensures ReadValue(ToJson(n)) == Some((Meaning(n), ""))
  {
    RenderingReads(n, "");
    assert ToJson(n) + "" == ToJson(n);
  }
}
