/** A complete tool call, read by a JSON reader: its arguments are the object whose members are the keys and values
    that were given. */
module CallMeaning {
  import opened Wrappers
  import opened Messages
  import opened JsonText
  import opened JsonReader
  import opened QuoteNormalizer
  import opened PythonValues
  import opened PegMapper
  import opened ToolCallAssembly
  import opened MapperMeaning

  // ---------- values are neutral for the brace scanner ----------

  lemma PlainChar(s: Scan, c: char)
    requires InString(s) && c != '"' && c != '\\'
    ensures ScanText(s, [c]) == s
  {
    ScanOne(s, [c]);
  }

  lemma EscapedChar(s: Scan, e: char)
    requires InString(s)
    ensures ScanText(s, ['\\', e]) == s
  {
    ScanSmall(s, ['\\', e]);
  }

  lemma {:induction false} PlainText(s: Scan, t: string)
    requires InString(s) && forall k :: 0 <= k < |t| ==> t[k] != '"' && t[k] != '\\'
    ensures ScanText(s, t) == s
    decreases |t|
  {
    if t != "" {
      PlainChar(s, t[0]);
      PlainText(s, t[1..]);
      ScanOne(s, t);
    }
  }

  lemma CharNeutral(s: Scan, double: bool, p: PyChar)
    requires InString(s) && CharOk(double, p)
    ensures ScanText(s, CharJson(double, p)) == s
  {
    hide HexCode;
    match p {
      case Raw(c) => if c == '"' { EscapedChar(s, '"'); assert CharJson(double, p) == ['\\', '"']; } else { PlainChar(s, c); }
      case Escaped(e) => if e == '\'' && !double { PlainChar(s, e); } else { EscapedChar(s, e); }
      case Code(d) => {
        DigitsPlain(d);
        EscapedChar(s, 'u');
        PlainText(s, d);
        assert CharJson(double, p) == ['\\', 'u'] + d;
        ScanConcat(s, ['\\', 'u'], d);
      }
    }
  }

  lemma {:induction false} CharsNeutral(s: Scan, double: bool, ps: seq<PyChar>)
    requires InString(s) && forall k :: 0 <= k < |ps| ==> CharOk(double, ps[k])
    ensures ScanText(s, CharsJson(double, ps)) == s
    decreases |ps|
  {
    hide CharOk, CharJson;
    if ps != [] {
      CharNeutral(s, double, ps[0]);
      CharsNeutral(s, double, ps[1..]);
      ScanConcat(s, CharJson(double, ps[0]), CharsJson(double, ps[1..]));
    }
  }

  lemma StringNeutral(s: Scan, w: PyString)
    requires OutsideString(s) && StringOk(w)
    ensures ScanText(s, StringJson(w)) == s
  {
    hide CharsJson, CharOk;
    var i := s.(inString := true);
    var c := CharsJson(w.double, w.chars);
    assert StringJson(w) == "\"" + (c + "\"");
    ScanOne(s, "\"");
    ScanOne(i, "\"");
    CharsNeutral(i, w.double, w.chars);
    ScanConcat(i, c, "\"");
    ScanConcat(s, "\"", c + "\"");
  }

  lemma {:induction false} TokenNeutral(s: Scan, t: string)
    requires OutsideString(s) && forall k :: 0 <= k < |t| ==> t[k] !in "\"{}"
    ensures ScanText(s, t) == s
    decreases |t|
  {
    if t != "" {
      ScanOne(s, t);
      TokenNeutral(s, t[1..]);
    }
  }

  lemma NumeralNeutral(s: Scan, t: string)
    requires OutsideString(s) && IsNumeral(t)
    ensures ScanText(s, t) == s
  {
    TokenNeutral(s, t);
  }

  lemma {:induction false} ValueNeutral(s: Scan, v: PyValue, l: Layout)
    requires OutsideString(s) && ValueOk(v) && l.Valid()
    ensures ScanText(s, Json(v, l)) == s
    decreases v
  {
    hide StringJson, ScanText, StringOk;
    match v {
      case PyNone => TokenNeutral(s, "null");
      case PyBool(b) => if b { TokenNeutral(s, "true"); } else { TokenNeutral(s, "false"); }
      case PyNumber(t) => NumeralNeutral(s, t);
      case PyText(w) => StringNeutral(s, w);
      case PyList(vs) => {
        ItemsNeutral(s, vs, l);
        TokenNeutral(s, "[");
        TokenNeutral(s, "]");
        ScanConcat(s, "[", ItemsJson(vs, l));
        ScanConcat(s, "[" + ItemsJson(vs, l), "]");
      }
      case PyDict(ms) => {
        var i := s.(depth := s.depth + 1);
        MembersNeutral(i, ms, l);
        ScanOne(s, "{");
        ScanOne(i, "}");
        ScanConcat(s, "{", MembersJson(ms, l));
        ScanConcat(s, "{" + MembersJson(ms, l), "}");
      }
    }
  }

  lemma CommaNeutral(s: Scan, sign: string, ws: string)
    requires OutsideString(s) && sign in {",", ":"} && forall k :: 0 <= k < |ws| ==> ws[k] in " \t\n\r"
    ensures ScanText(s, sign + ws) == s
  {
    TokenNeutral(s, sign + ws);
  }

  lemma {:induction false} ItemsNeutral(s: Scan, vs: seq<PyValue>, l: Layout)
    requires OutsideString(s) && AllOk(vs) && l.Valid()
    ensures ScanText(s, ItemsJson(vs, l)) == s
    decreases vs
  {
    hide Json, ScanText, ValueOk;
    if vs == [] {
      NothingScanned(s);
    } else {
      ValueNeutral(s, vs[0], l);
      var more := if |vs| == 1 then "" else "," + l.comma + ItemsJson(vs[1..], l);
      if |vs| == 1 { NothingScanned(s); } else {
        ItemsNeutral(s, vs[1..], l);
        CommaNeutral(s, ",", l.comma);
        ScanConcat(s, "," + l.comma, ItemsJson(vs[1..], l));
      }
      ScanConcat(s, Json(vs[0], l), more);
    }
  }

  lemma NothingScanned(s: Scan)
    ensures ScanText(s, "") == s
  {}

  lemma {:induction false} MembersNeutral(s: Scan, ms: seq<Member>, l: Layout)
    requires OutsideString(s) && MembersOk(ms) && l.Valid()
    ensures ScanText(s, MembersJson(ms, l)) == s
    decreases ms
  {
    hide MemberJson, ScanText, MemberOk;
    if ms == [] {
      NothingScanned(s);
    } else {
      MemberNeutral(s, ms[0], l);
      var more := if |ms| == 1 then "" else "," + l.comma + MembersJson(ms[1..], l);
      if |ms| == 1 { NothingScanned(s); } else {
        MembersNeutral(s, ms[1..], l);
        CommaNeutral(s, ",", l.comma);
        ScanConcat(s, "," + l.comma, MembersJson(ms[1..], l));
      }
      ScanConcat(s, MemberJson(ms[0], l), more);
    }
  }

  lemma {:induction false} MemberNeutral(s: Scan, m: Member, l: Layout)
    requires OutsideString(s) && MemberOk(m) && l.Valid()
    ensures ScanText(s, MemberJson(m, l)) == s
    decreases m
  {
    hide StringJson, Json, ScanText, StringOk, ValueOk;
    StringNeutral(s, m.key);
    CommaNeutral(s, ":", l.colon);
    ValueNeutral(s, m.value, l);
    assert MemberJson(m, l) == StringJson(m.key) + ((":" + l.colon) + Json(m.value, l));
    ScanConcat(s, ":" + l.colon, Json(m.value, l));
    ScanConcat(s, StringJson(m.key), (":" + l.colon) + Json(m.value, l));
  }

  // ---------- arguments as they are given ----------

  datatype Given = Words(text: string) | Python(v: PyValue, l: Layout)

  datatype Argument = Argument(key: string, given: Given)

  predicate GivenOk(g: Given) {
    g.Python? ==> ValueOk(g.v) && g.l.Valid()
  }

  predicate ArgumentsOk(args: seq<Argument>) {
    forall k :: 0 <= k < |args| ==> GivenOk(args[k].given)
  }

  /** The nodes carry the text as it was written. */
  function Taken(a: Argument): Arg {
    Arg(a.key, if a.given.Words? then a.given.text else Written(a.given.v, a.given.l), a.given.Words?)
  }

  function AllTaken(args: seq<Argument>): (r: seq<Arg>)
    ensures |r| == |args|
  {
    seq(|args|, k requires 0 <= k < |args| => Taken(args[k]))
  }

  function MeantBy(g: Given): Value
    requires GivenOk(g)
  {
    if g.Words? then Text(g.text) else ValueMeant(g.v)
  }

  /** The members that the arguments should have: the keys without the white space around them, and the values. */
  function MembersGiven(args: seq<Argument>): (r: seq<(string, Value)>)
    requires ArgumentsOk(args)
    ensures |r| == |args|
  {
    seq(|args|, k requires 0 <= k < |args| => (Trim(args[k].key), MeantBy(args[k].given)))
  }

  function Shown(g: Given): string {
    if g.Words? then Dump(g.text) else Json(g.v, g.l)
  }

  lemma NormalizedIs(v: PyValue, l: Layout)
    requires ValueOk(v) && l.Valid()
    ensures Normalize(Written(v, l)) == Json(v, l)
  {
    hide Written, Json, NormalizeFrom;
    var s := Written(v, l);
    assert s[0..0 + |s|] == s;
    ValueAnswers(s, 0, v, l);
    NothingLeft(s);
    assert Json(v, l) + "" == Json(v, l);
  }

  lemma EntryIs(a: Argument)
    requires GivenOk(a.given)
    ensures Entry(Taken(a)) == Dump(Trim(a.key)) + ":" + Shown(a.given)
    ensures Balanced(Taken(a))
    ensures a.given.Python? ==> ScanText(OUTSIDE, Normalize(Taken(a).value)) == OUTSIDE
  {
    hide Normalize, Written, Json, ScanText, Dump, Trim, ValueOk;
    if a.given.Python? {
      NormalizedIs(a.given.v, a.given.l);
      ValueNeutral(OUTSIDE, a.given.v, a.given.l);
    }
  }

  lemma OpenBracesSnoc(init: seq<Arg>, a: Arg)
    ensures OpenBraces(init + [a]) == OpenBraces(init) + if a.isString then 0 else ScanText(OUTSIDE, Normalize(a.value)).depth
  {
    hide Normalize, ScanText;
    assert (init + [a])[..|init|] == init;
  }

  lemma {:induction false} NothingOpen(args: seq<Argument>)
    requires ArgumentsOk(args)
    ensures OpenBraces(AllTaken(args)) == 0
    decreases |args|
  {
    if args == [] {
      assert AllTaken(args) == [];
    } else {
      hide Normalize, ScanText, OpenBraces, AllTaken, Taken, GivenOk, Balanced, Entry;
      var init, a := args[..|args| - 1], args[|args| - 1];
      NothingOpen(init);
      LastOpens(a);
      TakenSnoc(args);
      OpenBracesSnoc(AllTaken(init), Taken(a));
    }
  }

  lemma TakenSnoc(args: seq<Argument>)
    requires args != []
    ensures AllTaken(args) == AllTaken(args[..|args| - 1]) + [Taken(args[|args| - 1])]
  {
    hide Taken;
  }

  lemma LastOpens(a: Argument)
    requires GivenOk(a.given)
    ensures !Taken(a).isString ==> ScanText(OUTSIDE, Normalize(Taken(a).value)).depth == 0
  {
    hide Normalize, ScanText, Balanced, Entry;
    EntryIs(a);
  }

  // ---------- reading the members ----------

  lemma WordsRead(t: string, rest: string)
    ensures ReadValue(Dump(t) + rest) == Some((Text(t), rest))
  {
    hide Escape, ReadString;
    ReadsEscaped(t, rest);
    var s := Dump(t) + rest;
    assert s[0] == '"' && s[1..] == Escape(t) + "\"" + rest;
    TextIsRead(s, t, rest);
  }

  lemma GivenReads(g: Given, rest: string)
    requires GivenOk(g) && Ended(rest)
    ensures ReadValue(Shown(g) + rest) == Some((MeantBy(g), rest))
  {
    hide ReadValue, Json, Dump, ValueOk, Layout.Valid;
    if g.Words? { WordsRead(g.text, rest); } else { ValueReads(g.v, g.l, rest); }
  }

  lemma EntryReads(k: string, g: Given, rest: string)
    requires GivenOk(g) && Ended(rest)
    ensures ReadMember(Dump(k) + ":" + Shown(g) + rest) == Some(((k, MeantBy(g)), rest))
  {
    hide ReadValue, Shown, ReadString, Escape, GivenOk, MeantBy;
    var v := Shown(g) + rest;
    var s := Dump(k) + ":" + Shown(g) + rest;
    assert s == "\"" + (Escape(k) + "\"" + (":" + v));
    assert s[0] == '"' && s[1..] == Escape(k) + "\"" + (":" + v);
    SkipNothing(s);
    ReadsEscaped(k, ":" + v);
    SkipNothing(":" + v);
    assert (":" + v)[1..] == v;
    GivenReads(g, rest);
  }

  lemma {:induction false} JoinedCons(e: string, es: seq<string>)
    requires es != []
    ensures Joined([e] + es) == e + "," + Joined(es)
    decreases |es|
  {
    var all := [e] + es;
    if |es| == 1 {
      assert all[..1] == [e];
    } else {
      assert all[..|all| - 1] == [e] + es[..|es| - 1];
      JoinedCons(e, es[..|es| - 1]);
      var j, x := Joined(es[..|es| - 1]), es[|es| - 1];
      assert (e + "," + j) + "," + x == e + "," + (j + "," + x);
    }
  }

  function MembersShown(args: seq<Argument>): string {
    Joined(Entries(AllTaken(args)))
  }

  lemma MembersShownIs(args: seq<Argument>)
    requires args != [] && GivenOk(args[0].given)
    ensures var e := Dump(Trim(args[0].key)) + ":" + Shown(args[0].given);
      MembersShown(args) == if |args| == 1 then e else e + "," + MembersShown(args[1..])
  {
    hide Entry, Dump, Trim, Shown, Joined, Taken;
    EntryIs(args[0]);
    var es := Entries(AllTaken(args));
    if |args| == 1 {
      JoinedOne(es);
    } else {
      assert es == [es[0]] + Entries(AllTaken(args[1..]));
      JoinedCons(es[0], Entries(AllTaken(args[1..])));
    }
  }

  lemma JoinedOne(es: seq<string>)
    requires |es| == 1
    ensures Joined(es) == es[0]
  {}

  lemma CommaText(e: string, m: string, end: string)
    ensures e + "," + m + end == e + ("," + ("" + (m + end)))
  {}

  lemma MembersGivenCons(args: seq<Argument>)
    requires ArgumentsOk(args) && args != []
    ensures ArgumentsOk(args[1..])
    ensures MembersGiven(args) == [(Trim(args[0].key), MeantBy(args[0].given))] + MembersGiven(args[1..])
  {
    hide Trim, GivenOk, MeantBy;
    assert forall k :: 0 <= k < |args| - 1 ==> args[1..][k] == args[k + 1];
  }

  lemma {:induction false} MembersShownRead(args: seq<Argument>, rest: string)
    requires ArgumentsOk(args) && args != []
    ensures ReadMembers(MembersShown(args) + ("}" + rest)) == Some((MembersGiven(args), rest))
    decreases |args|
  {
    hide ReadMember, ReadMembers, Dump, Trim, Shown, GivenOk, MeantBy, MembersShown, MembersGiven, IsAtomChar;
    var k, g, end := Trim(args[0].key), args[0].given, "}" + rest;
    var e := Dump(k) + ":" + Shown(g);
    MembersShownIs(args);
    MembersGivenCons(args);
    if |args| == 1 {
      EndsHere(end);
      EntryReads(k, g, end);
      LastMember(e + end, (k, MeantBy(g)), rest);
      assert args[1..] == [] && MembersGiven(args[1..]) == [];
      assert MembersGiven(args) == [(k, MeantBy(g))];
    } else {
      var m := MembersShown(args[1..]);
      MembersShownRead(args[1..], rest);
      CommaText(e, m, end);
      EndsHere("," + ("" + (m + end)));
      EntryReads(k, g, "," + ("" + (m + end)));
      NextMember(e + ("," + ("" + (m + end))), (k, MeantBy(g)), "", m + end, MembersGiven(args[1..]), rest);
    }
  }

  lemma ObjectIsRead(w: string, ms: seq<(string, Value)>, rest: string)
    requires w != "" && w[0] == '"' && ReadMembers(w + ("}" + rest)) == Some((ms, rest))
    ensures ReadValue("{" + w + "}" + rest) == Some((Object(ms), rest))
  {
    hide ReadMembers, ReadElements, ReadString;
    var s := "{" + w + "}" + rest;
    SkipNothing(s);
    assert s[1..] == w + ("}" + rest);
    SkipNothing(s[1..]);
  }

  lemma EmptyIsRead()
    ensures ReadValue("{" + "" + "}" + "") == Some((Object([]), ""))
  {
    hide ReadMembers, ReadElements, ReadString;
    var s := "{" + "" + "}" + "";
    assert s == "{}" && s[1..] == "}" && "}"[1..] == "";
    SkipNothing(s);
    SkipNothing("}");
  }

  /** The arguments of a complete call are JSON for the object of the given members. */
  lemma ArgumentsRead(args: seq<Argument>)
    requires ArgumentsOk(args)
    ensures ReadValue(CallText(AllTaken(args))) == Some((Object(MembersGiven(args)), ""))
  {
    hide ReadValue, ReadMembers, MembersShown, GivenOk, OpenBraces, MeantBy, CallText, Trim;
    NothingOpen(args);
    TextOfCall(args);
    var w := MembersShown(args);
    assert "{" + w + "}" + "" == "{" + w + "}";
    if args == [] {
      NoneShown();
      EmptyIsRead();
      assert MembersGiven(args) == [];
    } else {
      MembersShownRead(args, "");
      FirstIsQuote(args);
      ObjectIsRead(w, MembersGiven(args), "");
    }
  }

  lemma TextOfCall(args: seq<Argument>)
    requires OpenBraces(AllTaken(args)) == 0
    ensures CallText(AllTaken(args)) == "{" + MembersShown(args) + "}"
  {
    hide Joined, OpenBraces;
    assert Repeat('}', 0) == "" && Repeat('}', 1) == "}";
  }

  lemma NoneShown()
    ensures MembersShown([]) == ""
  {
    assert AllTaken([]) == [] && Entries([]) == [];
  }

  lemma FirstIsQuote(args: seq<Argument>)
    requires args != [] && ArgumentsOk(args)
    ensures MembersShown(args) != "" && MembersShown(args)[0] == '"'
  {
    hide Escape, Trim, Shown, MembersShown;
    MembersShownIs(args);
  }

  // ---------- the whole call ----------

  /** The nodes of a call: the id is reported before the name, or not at all. */
  function NodesOf(id: Option<string>, name: string, args: seq<Argument>): seq<Node> {
    [Node(TOOL_OPEN, "")] + (if id.Some? then [Node(TOOL_ID, id.value)] else []) + [Node(TOOL_NAME, name)]
    + AllArgNodes(AllTaken(args)) + [Node(TOOL_CLOSE, "")]
  }

  lemma {:induction false} ArgNodesOrdinary(args: seq<Arg>)
    ensures Ordinary(AllArgNodes(args))
    decreases |args|
  {
    if args != [] { ArgNodesOrdinary(args[1..]); }
  }

  lemma OrdinaryConcat(a: seq<Node>, b: seq<Node>)
    requires Ordinary(a) && Ordinary(b)
    ensures Ordinary(a + b)
  {}

  /** Open, id and name: the call halfway, with its id. */
  lemma OpenIdName(s: State, id: string, name: string)
    requires s.Valid()
    ensures var ns := [Node(TOOL_OPEN, ""), Node(TOOL_ID, id), Node(TOOL_NAME, name)];
      var m := Midway(s, name, []);
      && m.Valid() && m.current == Last
      && RunSafe(s, ns) && Run(s, ns) == WithId(m, Unquoted(TrimTrailing(id)))
  {
    hide TrimTrailing, MapNode, RunSafe, Run, NameTool, WithId, Unquoted;
    var o, i, x := Opened(s), Unquoted(TrimTrailing(id)), Node(TOOL_NAME, name);
    MapOpen(s);
    IdStep(o, id);
    IdName(o, name, i);
    OpenNamed(s, name);
    MidwayStands(s, name, []);
    MapNamed(o, name);
    MapNamed(WithId(o, i), name);
    RunTwo(s, Node(TOOL_OPEN, ""), x);
    RunTwo(s, Node(TOOL_OPEN, ""), Node(TOOL_ID, id));
    RunOne(WithId(o, i), x);
    RunConcat(s, [Node(TOOL_OPEN, ""), Node(TOOL_ID, id)], [x]);
    assert [Node(TOOL_OPEN, ""), Node(TOOL_ID, id)] + [x] == [Node(TOOL_OPEN, ""), Node(TOOL_ID, id), x];
  }

  lemma MapNamed(s: State, name: string)
    requires s.Valid() && s.HasTool()
    ensures MapNode(s, Node(TOOL_NAME, name)) == NameTool(s, name)
  {
    hide NameTool;
  }

  lemma MidwayStands(s: State, name: string, args: seq<Arg>)
    ensures Midway(s, name, args).Valid() && Midway(s, name, args).current == Last
  {}

  /** The run of the rest of a call, from its name on. */
  lemma RestOfCall(s: State, name: string, args: seq<Arg>)
    requires s.Valid() && forall k :: 0 <= k < |args| ==> Balanced(args[k])
    ensures var m, rest := Midway(s, name, []), AllArgNodes(args) + [Node(TOOL_CLOSE, "")];
      && m.Valid() && RunSafe(m, rest)
      && Run(m, rest).Valid() && Run(m, rest).current == Last
      && Run(m, rest).msg == s.msg.(calls := s.msg.calls + [ToolCall(TrimTrailing(name), CallText(args), "")])
  {
    hide TrimTrailing, MapNode, Midway, OpenText;
    var close := Node(TOOL_CLOSE, "");
    MidwayStands(s, name, []);
    MidwayStands(s, name, args);
    ManyArguments(s, name, [], args);
    assert [] + args == args;
    ClosedCall(s, name, args);
    RunOne(Midway(s, name, args), close);
    RunConcat(Midway(s, name, []), AllArgNodes(args), [close]);
    OpenTextScan(args);
    ClosedStands(s, name, args);
    ClosersAre(args);
  }

  lemma ClosedStands(s: State, name: string, args: seq<Arg>)
    requires s.Valid()
    ensures MapNode(Midway(s, name, args), Node(TOOL_CLOSE, "")).current == Last
  {
    hide CloseTool, Midway;
    MidwayStands(s, name, args);
    CloseStays(Midway(s, name, args));
  }

  lemma ClosersAre(args: seq<Arg>)
    requires forall k :: 0 <= k < |args| ==> Balanced(args[k])
    ensures CloseBraces(OpenText(args)) == CallText(args)
  {
    hide OpenText;
    OpenTextScan(args);
  }

  /** A complete call adds one call to what was reported. Its name is the text of the name node without the white space
      at its end, its id is that of the id node without white space and quotes, and a JSON reader finds in its
      arguments the object of the given keys and values, in order. Reasoning and content stay. */
  lemma CallMeaning(s: State, id: Option<string>, name: string, args: seq<Argument>)
    requires s.Valid() && ArgumentsOk(args)
    ensures RunSafe(s, NodesOf(id, name, args))
    ensures var m := Run(s, NodesOf(id, name, args)).msg;
      && m.content == s.msg.content && m.reasoning == s.msg.reasoning
      && |m.calls| == |s.msg.calls| + 1 && m.calls[..|s.msg.calls|] == s.msg.calls
      && var c := m.calls[|s.msg.calls|];
      && c.name == TrimTrailing(name)
      && c.id == (if id.Some? then Unquoted(TrimTrailing(id.value)) else "")
      && ReadValue(c.arguments) == Some((Object(MembersGiven(args)), ""))
  {
    hide TrimTrailing, Unquoted, MapNode, Midway, Balanced, CallText, ReadValue, WithId, Run, RunSafe, AllArgNodes;
    var taken := AllTaken(args);
    forall k | 0 <= k < |taken| ensures Balanced(taken[k]) { EntryIs(args[k]); }
    ArgumentsRead(args);
    RestOfCall(s, name, taken);
    var m, rest := Midway(s, name, []), AllArgNodes(taken) + [Node(TOOL_CLOSE, "")];
    MidwayStands(s, name, []);
    if id.Some? {
      var open := [Node(TOOL_OPEN, ""), Node(TOOL_ID, id.value), Node(TOOL_NAME, name)];
      var i := Unquoted(TrimTrailing(id.value));
      OpenIdName(s, id.value, name);
      RestOrdinary(taken);
      IdStays(m, rest, i);
      RunConcat(s, open, rest);
      assert NodesOf(id, name, args) == open + rest;
      IdShows(Run(m, rest), i);
    } else {
      var open := [Node(TOOL_OPEN, ""), Node(TOOL_NAME, name)];
      OpenNamed(s, name);
      RunConcat(s, open, rest);
      assert NodesOf(id, name, args) == open + rest;
    }
  }

  lemma RestOrdinary(args: seq<Arg>)
    ensures Ordinary(AllArgNodes(args) + [Node(TOOL_CLOSE, "")])
  {
    ArgNodesOrdinary(args);
    OrdinaryConcat(AllArgNodes(args), [Node(TOOL_CLOSE, "")]);
  }

  lemma IdShows(s: State, id: string)
    requires s.Valid() && s.current == Last
    ensures var n := |s.msg.calls| - 1;
      WithId(s, id).msg == s.msg.(calls := s.msg.calls[..n] + [s.msg.calls[n].(id := id)])
  {}

  /** Arguments that come as one object are reported as they are, without the white space behind them. */
  lemma ObjectCall(s: State, name: string, text: string)
    requires s.Valid() && TrimTrailing(name) != ""
    requires var t := TrimTrailing(text); t != "" && t[0] == '{' && ScanText(OUTSIDE, t) == OUTSIDE
    ensures var ns := [Node(TOOL_OPEN, ""), Node(TOOL_NAME, name), Node(TOOL_ARGS, text), Node(TOOL_CLOSE, "")];
      && RunSafe(s, ns)
      && Run(s, ns).msg == s.msg.(calls := s.msg.calls + [ToolCall(TrimTrailing(name), TrimTrailing(text), "")])
  {
    hide TrimTrailing, MapNode, Run, RunSafe, ScanText;
    var open, args, close := [Node(TOOL_OPEN, ""), Node(TOOL_NAME, name)], Node(TOOL_ARGS, text), Node(TOOL_CLOSE, "");
    OpenNamed(s, name);
    MidwayStands(s, name, []);
    var m := Midway(s, name, []);
    ObjectSteps(s, name, text);
    RunTwo(m, args, close);
    RunConcat(s, open, [args, close]);
    assert open + [args, close] == [Node(TOOL_OPEN, ""), Node(TOOL_NAME, name), args, close];
  }

  lemma ObjectSteps(s: State, name: string, text: string)
    requires s.Valid() && TrimTrailing(name) != ""
    requires var t := TrimTrailing(text); t != "" && t[0] == '{' && ScanText(OUTSIDE, t) == OUTSIDE
    ensures var m := Midway(s, name, []); var x := MapNode(m, Node(TOOL_ARGS, text));
      && m.Valid() && x.current == Last
      && MapNode(x, Node(TOOL_CLOSE, "")).msg == s.msg.(calls := s.msg.calls + [ToolCall(TrimTrailing(name), TrimTrailing(text), "")])
  {
    hide TrimTrailing, ScanText, Joined, Entries;
    assert Repeat('}', 0) == "" && TrimTrailing(text) + "" == TrimTrailing(text);
  }
}
