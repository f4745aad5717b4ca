/** Values written in Python's notation: after the quotes are normalised, a JSON reader finds exactly the value
    that was written. */
module PythonValues {
  import opened Wrappers
  import opened JsonText
  import opened JsonReader
  import opened QuoteNormalizer

  // ---------- values as they are written ----------

  /** One character of a string: itself, an escape of one letter, or four hexadecimal digits. */
  datatype PyChar = Raw(c: char) | Escaped(e: char) | Code(digits: string)

  datatype PyString = PyString(double: bool, chars: seq<PyChar>)

  datatype PyValue =
    | PyNone
    | PyBool(b: bool)
    | PyNumber(text: string)
    | PyText(s: PyString)
    | PyList(items: seq<PyValue>)
    | PyDict(members: seq<Member>)

  datatype Member = Member(key: PyString, value: PyValue)

  /** Both Python and JSON know the escape, but for the single quote, which needs none in double quotes. */
  predicate CharOk(double: bool, p: PyChar) {
    match p
    case Raw(c) => c >= ' ' && c != '\\' && c != (if double then '"' else '\'')
    case Escaped(e) => e in "\"\\bfnrt" || (e == '\'' && !double)
    case Code(d) => |d| == 4 && HexCode(d) >= 0
  }

  /** Python knows the character: in double quotes also the escaped single quote, which is no escape of JSON. */
  predicate Spellable(double: bool, p: PyChar) {
    CharOk(double, p) || p == Escaped('\'')
  }

  predicate StringOk(s: PyString) {
    forall k :: 0 <= k < |s.chars| ==> CharOk(s.double, s.chars[k])
  }

  predicate AllSpellable(s: PyString) {
    forall k :: 0 <= k < |s.chars| ==> Spellable(s.double, s.chars[k])
  }

  predicate IsNumeral(t: string) {
    t != "" && forall k :: 0 <= k < |t| ==> t[k] in "0123456789+-.eE"
  }

  predicate ValueOk(v: PyValue)
    decreases v
  {
    match v
    case PyNone => true
    case PyBool(_) => true
    case PyNumber(t) => IsNumeral(t)
    case PyText(s) => StringOk(s)
    case PyList(vs) => AllOk(vs)
    case PyDict(ms) => MembersOk(ms)
  }

  predicate AllOk(vs: seq<PyValue>)
    decreases vs
  {
    vs == [] || (ValueOk(vs[0]) && AllOk(vs[1..]))
  }

  predicate MembersOk(ms: seq<Member>)
    decreases ms
  {
    ms == [] || (MemberOk(ms[0]) && MembersOk(ms[1..]))
  }

  predicate MemberOk(m: Member)
    decreases m
  {
    StringOk(m.key) && ValueOk(m.value)
  }

  // ---------- what they mean ----------

  function CharMeant(p: PyChar): char
    requires CharOk(true, p) || CharOk(false, p)
  {
    match p
    case Raw(c) => c
    case Escaped(e) =>
      if e == 'n' then '\n' else if e == 'r' then '\r' else if e == 't' then '\t'
      else if e == 'b' then '\U{8}' else if e == 'f' then '\U{C}' else e
    case Code(d) => HexCode(d) as char
  }

  function Meant(s: PyString): (t: string)
    requires StringOk(s)
    ensures |t| == |s.chars|
  {
    seq(|s.chars|, k requires 0 <= k < |s.chars| => CharMeant(s.chars[k]))
  }

  function ValueMeant(v: PyValue): Value
    requires ValueOk(v)
    decreases v
  {
    match v
    case PyNone => Atom("null")
    case PyBool(b) => Atom(if b then "true" else "false")
    case PyNumber(t) => Atom(t)
    case PyText(s) => Text(Meant(s))
    case PyList(vs) => List(AllMeant(vs))
    case PyDict(ms) => Object(MembersMeant(ms))
  }

  function AllMeant(vs: seq<PyValue>): seq<Value>
    requires AllOk(vs)
    decreases vs
  {
    if vs == [] then [] else [ValueMeant(vs[0])] + AllMeant(vs[1..])
  }

  function MembersMeant(ms: seq<Member>): seq<(string, Value)>
    requires MembersOk(ms)
    decreases ms
  {
    if ms == [] then [] else [MemberMeant(ms[0])] + MembersMeant(ms[1..])
  }

  function MemberMeant(m: Member): (string, Value)
    requires MemberOk(m)
    decreases m
  {
    (Meant(m.key), ValueMeant(m.value))
  }

  // ---------- Python's notation ----------

  /** The white space written behind commas and colons. */
  datatype Layout = Layout(comma: string, colon: string) {
    predicate Valid() {
      (forall k :: 0 <= k < |comma| ==> comma[k] in " \t\n\r") && (forall k :: 0 <= k < |colon| ==> colon[k] in " \t\n\r")
    }
  }

  function CharWritten(p: PyChar): string {
    match p
    case Raw(c) => [c]
    case Escaped(e) => ['\\', e]
    case Code(d) => "\\u" + d
  }

  function CharsWritten(ps: seq<PyChar>): string {
    if ps == [] then "" else CharWritten(ps[0]) + CharsWritten(ps[1..])
  }

  function QuoteMark(double: bool): char { if double then '"' else '\'' }

  function StringWritten(s: PyString): string {
    [QuoteMark(s.double)] + CharsWritten(s.chars) + [QuoteMark(s.double)]
  }

  function Written(v: PyValue, l: Layout): string
    decreases v
  {
    match v
    case PyNone => "None"
    case PyBool(b) => if b then "True" else "False"
    case PyNumber(t) => t
    case PyText(s) => StringWritten(s)
    case PyList(vs) => "[" + ItemsWritten(vs, l) + "]"
    case PyDict(ms) => "{" + MembersWritten(ms, l) + "}"
  }

  function ItemsWritten(vs: seq<PyValue>, l: Layout): string
    decreases vs
  {
    if vs == [] then ""
    else Written(vs[0], l) + if |vs| == 1 then "" else "," + l.comma + ItemsWritten(vs[1..], l)
  }

  function MembersWritten(ms: seq<Member>, l: Layout): string
    decreases ms
  {
    if ms == [] then ""
    else MemberWritten(ms[0], l) + if |ms| == 1 then "" else "," + l.comma + MembersWritten(ms[1..], l)
  }

  function MemberWritten(m: Member, l: Layout): string
    decreases m
  {
    StringWritten(m.key) + ":" + l.colon + Written(m.value, l)
  }

  // ---------- JSON's notation ----------

  function CharJson(double: bool, p: PyChar): string {
    match p
    case Raw(c) => if c == '"' then "\\\"" else [c]
    case Escaped(e) => if e == '\'' && !double then "'" else ['\\', e]
    case Code(d) => "\\u" + d
  }

  function CharsJson(double: bool, ps: seq<PyChar>): string {
    if ps == [] then "" else CharJson(double, ps[0]) + CharsJson(double, ps[1..])
  }

  function StringJson(s: PyString): string {
    "\"" + CharsJson(s.double, s.chars) + "\""
  }

  function Json(v: PyValue, l: Layout): string
    decreases v
  {
    match v
    case PyNone => "null"
    case PyBool(b) => if b then "true" else "false"
    case PyNumber(t) => t
    case PyText(s) => StringJson(s)
    case PyList(vs) => "[" + ItemsJson(vs, l) + "]"
    case PyDict(ms) => "{" + MembersJson(ms, l) + "}"
  }

  function ItemsJson(vs: seq<PyValue>, l: Layout): string
    decreases vs
  {
    if vs == [] then ""
    else Json(vs[0], l) + if |vs| == 1 then "" else "," + l.comma + ItemsJson(vs[1..], l)
  }

  function MembersJson(ms: seq<Member>, l: Layout): string
    decreases ms
  {
    if ms == [] then ""
    else MemberJson(ms[0], l) + if |ms| == 1 then "" else "," + l.comma + MembersJson(ms[1..], l)
  }

  function MemberJson(m: Member, l: Layout): string
    decreases m
  {
    StringJson(m.key) + ":" + l.colon + Json(m.value, l)
  }

  // ---------- the scan passes from one notation to the other ----------

  predicate IsAt(s: string, i: nat, w: string) {
    i + |w| <= |s| && s[i..i + |w|] == w
  }

  /** The scan, outside or inside a string, answers w at i with o and goes on behind it. */
  predicate Answers(s: string, i: nat, w: string, q: Quote, o: string) {
    IsAt(s, i, w) && NormalizeFrom(s, i, q) == o + NormalizeFrom(s, i + |w|, q)
  }

  lemma PartsAt(s: string, i: nat, a: string, b: string)
    requires IsAt(s, i, a + b)
    ensures IsAt(s, i, a) && IsAt(s, i + |a|, b)
  {
    var w := a + b;
    assert s[i..i + |w|][..|a|] == a && s[i..i + |w|][|a|..] == b;
  }

  lemma AnswersThen(s: string, i: nat, a: string, b: string, q: Quote, o: string, p: string)
    requires Answers(s, i, a, q, o) && Answers(s, i + |a|, b, q, p) && IsAt(s, i, a + b)
    ensures Answers(s, i, a + b, q, o + p)
  {
    hide NormalizeFrom;
  }

  lemma InertAnswers(s: string, i: nat, w: string, q: Quote)
    requires IsAt(s, i, w) && forall k :: 0 <= k < |w| ==> Inert(w[k])
    ensures Answers(s, i, w, q, w)
  {
    hide NormalizeFrom;
    forall k | i <= k < i + |w| ensures Inert(s[k]) { assert s[k] == s[i..i + |w|][k - i]; }
    InertRun(s, i, i + |w|, q);
  }

  // ---------- strings ----------

  function Inside(double: bool): Quote { if double then Double else Single }

  /** Inside a string everything but quotes and backslashes is repeated. */
  lemma {:induction false} PlainAnswers(s: string, i: nat, w: string, q: Quote)
    requires IsAt(s, i, w) && q != Outside && forall k :: 0 <= k < |w| ==> w[k] !in "\\\"'"
    ensures Answers(s, i, w, q, w)
    decreases |w|
  {
    hide NormalizeFrom;
    if w == "" {
      assert "" + NormalizeFrom(s, i, q) == NormalizeFrom(s, i, q);
    } else {
      CharAt(s, i, w, 0);
      Unfold(s, i, q);
      assert [w[0]] + w[1..] == w;
      PartsAt(s, i, [w[0]], w[1..]);
      PlainAnswers(s, i + 1, w[1..], q);
      AnswersThen(s, i, [w[0]], w[1..], q, [w[0]], w[1..]);
    }
  }

  lemma CharAt(s: string, i: nat, w: string, k: nat)
    requires IsAt(s, i, w) && k < |w|
    ensures s[i + k] == w[k]
  {
    assert s[i..i + |w|][k] == w[k];
  }

  lemma EscapeStep(s: string, i: nat, double: bool, e: char)
    requires IsAt(s, i, ['\\', e])
    ensures Step(s, i, Inside(double)) ==
      Turn(if e == '\'' && !double then "'" else ['\\', e], 2, Inside(double))
  {
    CharAt(s, i, ['\\', e], 0);
    CharAt(s, i, ['\\', e], 1);
  }

  lemma CharAnswers(s: string, i: nat, double: bool, p: PyChar)
    requires Spellable(double, p) && IsAt(s, i, CharWritten(p))
    ensures Answers(s, i, CharWritten(p), Inside(double), CharJson(double, p))
  {
    hide NormalizeFrom, Step, HexCode;
    var q := Inside(double);
    match p {
      case Raw(c) => {
        CharAt(s, i, [c], 0);
        RawStep(s, i, double);
        Unfold(s, i, q);
      }
      case Escaped(e) => {
        EscapeStep(s, i, double, e);
        Unfold(s, i, q);
      }
      case Code(d) => {
        CodeAnswers(s, i, double, d);
      }
    }
  }

  lemma CodeAnswers(s: string, i: nat, double: bool, d: string)
    requires Spellable(double, Code(d)) && IsAt(s, i, "\\u" + d)
    ensures Answers(s, i, "\\u" + d, Inside(double), "\\u" + d)
  {
    hide NormalizeFrom, Step, HexCode, Inside, Answers, IsAt;
    var q := Inside(double);
    PartsAt(s, i, "\\u", d);
    EscapeStep(s, i, double, 'u');
    AnswersOne(s, i, "\\u", q);
    DigitsPlain(d);
    InsideIs(double);
    PlainAnswers(s, i + 2, d, q);
    AnswersThen(s, i, "\\u", d, q, "\\u", d);
  }

  lemma InsideIs(double: bool)
    ensures Inside(double) != Outside
  {}

  lemma AnswersOne(s: string, i: nat, w: string, q: Quote)
    requires w != "" && IsAt(s, i, w) && Step(s, i, q) == Turn(w, |w|, q)
    ensures Answers(s, i, w, q, w)
  {
    hide NormalizeFrom, Step;
    Unfold(s, i, q);
  }

  lemma RawStep(s: string, i: nat, double: bool)
    requires i < |s| && s[i] != '\\' && s[i] != QuoteMark(double)
    ensures Step(s, i, Inside(double)) == Turn(if s[i] == '"' then "\\\"" else [s[i]], 1, Inside(double))
  {}

  lemma DigitsPlain(d: string)
    requires |d| == 4 && HexCode(d) >= 0
    ensures forall k :: 0 <= k < |d| ==> d[k] !in "\\\"'"
  {
    forall k | 0 <= k < |d| ensures d[k] !in "\\\"'" { assert HexValue(d[k]) >= 0; }
  }

  lemma {:induction false} CharsAnswer(s: string, i: nat, double: bool, ps: seq<PyChar>)
    requires (forall k :: 0 <= k < |ps| ==> Spellable(double, ps[k])) && IsAt(s, i, CharsWritten(ps))
    ensures Answers(s, i, CharsWritten(ps), Inside(double), CharsJson(double, ps))
    decreases |ps|
  {
    hide NormalizeFrom, Spellable, CharWritten, CharJson;
    if ps == [] {
      assert "" + NormalizeFrom(s, i, Inside(double)) == NormalizeFrom(s, i, Inside(double));
    } else {
      var a, b := CharWritten(ps[0]), CharsWritten(ps[1..]);
      PartsAt(s, i, a, b);
      CharAnswers(s, i, double, ps[0]);
      CharsAnswer(s, i + |a|, double, ps[1..]);
      AnswersThen(s, i, a, b, Inside(double), CharJson(double, ps[0]), CharsJson(double, ps[1..]));
    }
  }

  /** A quote mark outside strings, or at the end of its own. */
  lemma MarkStep(s: string, i: nat, double: bool)
    requires i < |s| && s[i] == QuoteMark(double)
    ensures Step(s, i, Outside) == Turn("\"", 1, Inside(double))
    ensures Step(s, i, Inside(double)) == Turn("\"", 1, Outside)
  {}

  lemma StringAnswers(s: string, i: nat, w: PyString)
    requires AllSpellable(w) && IsAt(s, i, StringWritten(w))
    ensures Answers(s, i, StringWritten(w), Outside, StringJson(w))
  {
    hide NormalizeFrom, Step, CharsWritten, CharsJson;
    var m, c := [QuoteMark(w.double)], CharsWritten(w.chars);
    assert StringWritten(w) == m + (c + m) == (m + c) + m;
    PartsAt(s, i, m, c + m);
    PartsAt(s, i + 1, c, m);
    CharAt(s, i, m, 0);
    CharAt(s, i + 1 + |c|, m, 0);
    CharsAnswer(s, i + 1, w.double, w.chars);
    MarkStep(s, i, w.double);
    MarkStep(s, i + 1 + |c|, w.double);
    Unfold(s, i, Outside);
    Unfold(s, i + 1 + |c|, Inside(w.double));
    var rest := NormalizeFrom(s, i + |StringWritten(w)|, Outside);
    assert "\"" + (CharsJson(w.double, w.chars) + ("\"" + rest)) == StringJson(w) + rest;
  }

  // ---------- words and numbers ----------

  /** Nothing before i or behind the end of w continues a word. */
  predicate Apart(s: string, i: nat, w: string) {
    IsAt(s, i, w) && !AfterWord(s, i) && (i + |w| < |s| ==> !IsWordChar(s[i + |w|]))
  }

  lemma WordAnswers(s: string, i: nat, w: string, js: string)
    requires Apart(s, i, w) && (w, js) in {("None", "null"), ("True", "true"), ("False", "false")}
    ensures Answers(s, i, w, Outside, js)
  {
    hide NormalizeFrom, Step;
    CharAt(s, i, w, 0);
    forall k | i <= k < i + |w| ensures IsWordChar(s[k]) { CharAt(s, i, w, k - i); }
    WordEndIs(s, i, i + |w|);
    StepAtLiteral(s, i);
    WordIs(w, js);
    Unfold(s, i, Outside);
  }

  lemma WordIs(w: string, js: string)
    requires (w, js) in {("None", "null"), ("True", "true"), ("False", "false")}
    ensures Literal(w) == Some(js)
  {
    assert "None"[0] != "True"[0] && "None"[0] != "False"[0] && "False"[0] != "True"[0];
    assert js[..|js|] == js;
  }

  lemma NumeralInert(t: string)
    requires IsNumeral(t)
    ensures forall k :: 0 <= k < |t| ==> Inert(t[k])
  {}

  // ---------- whole values ----------

  lemma SeparatorInert(sign: char, ws: string)
    requires sign in ",:[]{}" && forall k :: 0 <= k < |ws| ==> ws[k] in " \t\n\r"
    ensures forall k :: 0 <= k < |[sign] + ws| ==> Inert(([sign] + ws)[k]) && !IsWordChar(([sign] + ws)[k])
  {}

  /** A separator is repeated, and what follows it is apart from what came before. */
  lemma SeparatorAnswers(s: string, i: nat, sign: char, ws: string)
    requires sign in ",:[]{}" && (forall k :: 0 <= k < |ws| ==> ws[k] in " \t\n\r") && IsAt(s, i, [sign] + ws)
    ensures Answers(s, i, [sign] + ws, Outside, [sign] + ws) && !AfterWord(s, i + 1 + |ws|)
    ensures !IsWordChar(s[i])
  {
    hide NormalizeFrom;
    var w := [sign] + ws;
    SeparatorInert(sign, ws);
    InertAnswers(s, i, w, Outside);
    CharAt(s, i, w, |w| - 1);
    CharAt(s, i, w, 0);
  }

  lemma {:induction false} ValueAnswers(s: string, i: nat, v: PyValue, l: Layout)
    requires ValueOk(v) && l.Valid() && Apart(s, i, Written(v, l))
    ensures Answers(s, i, Written(v, l), Outside, Json(v, l))
    decreases v
  {
    hide NormalizeFrom, StringWritten, StringJson, Inert;
    match v {
      case PyNone => WordAnswers(s, i, "None", "null");
      case PyBool(b) => if b { WordAnswers(s, i, "True", "true"); } else { WordAnswers(s, i, "False", "false"); }
      case PyNumber(t) => {
        NumeralInert(t);
        InertAnswers(s, i, t, Outside);
      }
      case PyText(w) => StringAnswers(s, i, w);
      case PyList(vs) => ListAnswers(s, i, vs, l);
      case PyDict(ms) => DictAnswers(s, i, ms, l);
    }
  }

  lemma EnclosedParts(s: string, i: nat, open: char, w: string, close: char)
    requires open in "[{" && close in "]}" && IsAt(s, i, [open] + w + [close])
    ensures IsAt(s, i, [open]) && Apart(s, i + 1, w) && IsAt(s, i + 1 + |w|, [close])
  {
    assert [open] + w + [close] == [open] + (w + [close]);
    PartsAt(s, i, [open], w + [close]);
    PartsAt(s, i + 1, w, [close]);
    CharAt(s, i, [open], 0);
    CharAt(s, i + 1 + |w|, [close], 0);
  }

  /** Something between two brackets. */
  lemma Enclosed(s: string, i: nat, open: char, w: string, close: char, o: string)
    requires open in "[{" && close in "]}" && IsAt(s, i, [open] + w + [close])
    requires Answers(s, i + 1, w, Outside, o)
    ensures Answers(s, i, [open] + w + [close], Outside, [open] + o + [close])
  {
    hide NormalizeFrom;
    EnclosedParts(s, i, open, w, close);
    assert [open] + w + [close] == [open] + (w + [close]);
    PartsAt(s, i, [open], w + [close]);
    assert [open] + "" == [open] && [close] + "" == [close];
    SeparatorAnswers(s, i, open, "");
    SeparatorAnswers(s, i + 1 + |w|, close, "");
    AnswersThen(s, i + 1, w, [close], Outside, o, [close]);
    AnswersThen(s, i, [open], w + [close], Outside, [open], o + [close]);
    assert [open] + (o + [close]) == [open] + o + [close];
  }

  lemma EmptyAnswers(s: string, i: nat)
    requires i <= |s|
    ensures Answers(s, i, "", Outside, "")
  {
    hide NormalizeFrom;
    assert "" + NormalizeFrom(s, i, Outside) == NormalizeFrom(s, i, Outside) && s[i..i] == "";
  }

  lemma {:induction false} ListAnswers(s: string, i: nat, vs: seq<PyValue>, l: Layout)
    requires AllOk(vs) && l.Valid() && IsAt(s, i, "[" + ItemsWritten(vs, l) + "]")
    ensures Answers(s, i, "[" + ItemsWritten(vs, l) + "]", Outside, "[" + ItemsJson(vs, l) + "]")
    decreases vs, 1
  {
    hide NormalizeFrom, ItemsWritten, ItemsJson, Answers;
    EnclosedParts(s, i, '[', ItemsWritten(vs, l), ']');
    ItemsAnswer(s, i + 1, vs, l);
    Enclosed(s, i, '[', ItemsWritten(vs, l), ']', ItemsJson(vs, l));
  }

  /** One item, and behind a comma the others. */
  lemma SeparatedAnswers(s: string, i: nat, a: string, comma: string, b: string, o: string, p: string)
    requires IsAt(s, i, a + ("," + comma + b)) && (forall k :: 0 <= k < |comma| ==> comma[k] in " \t\n\r")
    requires Answers(s, i, a, Outside, o) && Answers(s, i + |a| + 1 + |comma|, b, Outside, p)
    ensures Answers(s, i, a + ("," + comma + b), Outside, o + ("," + comma + p))
  {
    hide NormalizeFrom;
    var c := [','] + comma;
    assert "," + comma + b == c + b && "," + comma + p == c + p;
    PartsAt(s, i, a, c + b);
    PartsAt(s, i + |a|, c, b);
    SeparatorAnswers(s, i + |a|, ',', comma);
    AnswersThen(s, i + |a|, c, b, Outside, c, p);
    AnswersThen(s, i, a, c + b, Outside, o, c + p);
  }

  lemma SeparatedParts(s: string, i: nat, a: string, comma: string, b: string)
    requires Apart(s, i, a + ("," + comma + b)) && (forall k :: 0 <= k < |comma| ==> comma[k] in " \t\n\r")
    ensures Apart(s, i, a) && Apart(s, i + |a| + 1 + |comma|, b)
  {
    var c := [','] + comma;
    assert "," + comma + b == c + b;
    PartsAt(s, i, a, c + b);
    PartsAt(s, i + |a|, c, b);
    SeparatorAnswers(s, i + |a|, ',', comma);
  }

  lemma {:induction false} ItemsAnswer(s: string, i: nat, vs: seq<PyValue>, l: Layout)
    requires AllOk(vs) && l.Valid() && Apart(s, i, ItemsWritten(vs, l))
    ensures Answers(s, i, ItemsWritten(vs, l), Outside, ItemsJson(vs, l))
    decreases vs, 0
  {
    hide NormalizeFrom, Written, Json, Answers, Apart;
    if vs == [] {
      assert i <= |s| by { ApartFits(s, i, ""); }
      EmptyAnswers(s, i);
    } else if |vs| == 1 {
      assert Written(vs[0], l) + "" == Written(vs[0], l) && Json(vs[0], l) + "" == Json(vs[0], l);
      ValueAnswers(s, i, vs[0], l);
    } else {
      var a, b := Written(vs[0], l), ItemsWritten(vs[1..], l);
      SeparatedParts(s, i, a, l.comma, b);
      ApartFits(s, i, ItemsWritten(vs, l));
      ValueAnswers(s, i, vs[0], l);
      ItemsAnswer(s, i + |a| + 1 + |l.comma|, vs[1..], l);
      SeparatedAnswers(s, i, a, l.comma, b, Json(vs[0], l), ItemsJson(vs[1..], l));
    }
  }

  lemma ApartFits(s: string, i: nat, w: string)
    requires Apart(s, i, w)
    ensures IsAt(s, i, w)
  {}

  lemma {:induction false} DictAnswers(s: string, i: nat, ms: seq<Member>, l: Layout)
    requires MembersOk(ms) && l.Valid() && IsAt(s, i, "{" + MembersWritten(ms, l) + "}")
    ensures Answers(s, i, "{" + MembersWritten(ms, l) + "}", Outside, "{" + MembersJson(ms, l) + "}")
    decreases ms, 1
  {
    hide NormalizeFrom, MembersWritten, MembersJson, Answers;
    EnclosedParts(s, i, '{', MembersWritten(ms, l), '}');
    MembersAnswer(s, i + 1, ms, l);
    Enclosed(s, i, '{', MembersWritten(ms, l), '}', MembersJson(ms, l));
  }

  lemma {:induction false} MembersAnswer(s: string, i: nat, ms: seq<Member>, l: Layout)
    requires MembersOk(ms) && l.Valid() && Apart(s, i, MembersWritten(ms, l))
    ensures Answers(s, i, MembersWritten(ms, l), Outside, MembersJson(ms, l))
    decreases ms, 0
  {
    hide NormalizeFrom, MemberWritten, MemberJson, Answers, Apart;
    if ms == [] {
      assert i <= |s| by { ApartFits(s, i, ""); }
      EmptyAnswers(s, i);
    } else if |ms| == 1 {
      assert MemberWritten(ms[0], l) + "" == MemberWritten(ms[0], l) && MemberJson(ms[0], l) + "" == MemberJson(ms[0], l);
      MemberAnswers(s, i, ms[0], l);
    } else {
      var a, b := MemberWritten(ms[0], l), MembersWritten(ms[1..], l);
      SeparatedParts(s, i, a, l.comma, b);
      ApartFits(s, i, MembersWritten(ms, l));
      MemberAnswers(s, i, ms[0], l);
      MembersAnswer(s, i + |a| + 1 + |l.comma|, ms[1..], l);
      SeparatedAnswers(s, i, a, l.comma, b, MemberJson(ms[0], l), MembersJson(ms[1..], l));
    }
  }

  lemma {:induction false} MemberAnswers(s: string, i: nat, m: Member, l: Layout)
    requires MemberOk(m) && l.Valid() && Apart(s, i, MemberWritten(m, l))
    ensures Answers(s, i, MemberWritten(m, l), Outside, MemberJson(m, l))
    decreases m
  {
    hide NormalizeFrom, StringWritten, StringJson, Written, Json, Answers;
    var k, c, v := StringWritten(m.key), [':'] + l.colon, Written(m.value, l);
    var j, o := StringJson(m.key), Json(m.value, l);
    PairText(k, l.colon, v);
    PairText(j, l.colon, o);
    PairParts(s, i, k, l.colon, v);
    StringAnswers(s, i, m.key);
    ValueAnswers(s, i + |k| + |c|, m.value, l);
    AnswersThen(s, i + |k|, c, v, Outside, c, o);
    AnswersThen(s, i, k, c + v, Outside, j, c + o);
  }

  lemma PairText(k: string, colon: string, v: string)
    ensures k + ":" + colon + v == k + (([':'] + colon) + v)
  {}

  lemma PairParts(s: string, i: nat, k: string, colon: string, v: string)
    requires Apart(s, i, k + (([':'] + colon) + v)) && forall x :: 0 <= x < |colon| ==> colon[x] in " \t\n\r"
    ensures var c := [':'] + colon;
      && IsAt(s, i, k) && IsAt(s, i, k + (c + v)) && IsAt(s, i + |k|, c + v)
      && Answers(s, i + |k|, c, Outside, c) && Apart(s, i + |k| + |c|, v)
  {
    hide NormalizeFrom;
    var c := [':'] + colon;
    PartsAt(s, i, k, c + v);
    PartsAt(s, i + |k|, c, v);
    SeparatorAnswers(s, i + |k|, ':', colon);
  }

  // ---------- the reader finds the value ----------

  lemma SkipNothing(s: string)
    requires s != "" ==> s[0] !in " \t\n\r"
    ensures Skip(s) == s
  {}

  lemma {:induction false} SkipSpace(ws: string, s: string)
    requires forall k :: 0 <= k < |ws| ==> ws[k] in " \t\n\r"
    ensures Skip(ws + s) == Skip(s)
    decreases |ws|
  {
    if ws == "" {
      assert ws + s == s;
    } else {
      assert (ws + s)[1..] == ws[1..] + s;
      SkipSpace(ws[1..], s);
    }
  }

  lemma SpaceBefore(ws: string, s: string)
    requires forall k :: 0 <= k < |ws| ==> ws[k] in " \t\n\r"
    ensures ReadValue(ws + s) == ReadValue(s) && ReadMember(ws + s) == ReadMember(s)
    ensures ReadElements(ws + s) == ReadElements(s) && ReadMembers(ws + s) == ReadMembers(s)
  {
    hide Skip, ReadString;
    SkipSpace(ws, s);
    SameMember(ws + s, s);
    SameValue(ws + s, s);
  }

  lemma SameValue(s: string, t: string)
    requires Skip(s) == Skip(t)
    ensures ReadValue(s) == ReadValue(t)
  {
    hide Skip, ReadString, ReadElements, ReadMembers;
  }

  lemma SameMember(s: string, t: string)
    requires Skip(s) == Skip(t)
    ensures ReadMember(s) == ReadMember(t)
  {
    hide Skip, ReadString, ReadValue;
  }

  lemma StepIsRead(w: string, c: char, s: string, t: string, rest: string)
    requires w != "" && w[0] >= ' ' && w[0] != '"' && (w[0] == '\\' ==> IsEscape(w + s))
    requires ReadChar(w + s) == (c, |w|) && ReadString(s) == Some((t, rest))
    ensures ReadString(w + s) == Some(([c] + t, rest))
  {
    hide ReadChar, IsEscape;
    var x := w + s;
    assert x[0] == w[0] && x[|w|..] == s;
  }

  lemma LetterIsEscape(e: char, s: string)
    requires e in "\"\\bfnrt"
    ensures IsEscape(['\\', e] + s) && ReadChar(['\\', e] + s) == (CharMeant(Escaped(e)), 2)
  {
    hide HexCode;
    var x := ['\\', e] + s;
    assert x[0] == '\\' && x[1] == e;
  }

  lemma CodeIsEscape(d: string, s: string)
    requires |d| == 4 && HexCode(d) >= 0
    ensures var w := "\\u" + d; IsEscape(w + s) && ReadChar(w + s) == (HexCode(d) as char, 6)
  {
    hide HexCode;
    var x := "\\u" + d + s;
    assert x[0] == '\\' && x[1] == 'u' && x[2..] == d + s;
    CodeReads(d, s);
  }

  lemma PlainIsNone(c: char, s: string)
    requires c != '\\'
    ensures ReadChar([c] + s) == (c, 1)
  {
    assert ([c] + s)[0] == c;
  }

  lemma CharReads(double: bool, p: PyChar, s: string, t: string, rest: string)
    requires CharOk(double, p) && ReadString(s) == Some((t, rest))
    ensures ReadString(CharJson(double, p) + s) == Some(([CharMeant(p)] + t, rest))
  {
    hide HexCode, ReadString, ReadChar, IsEscape;
    var w := CharJson(double, p);
    match p {
      case Raw(c) => {
        if c == '"' { LetterIsEscape('"', s); assert w == ['\\', '"']; } else { PlainIsNone(c, s); }
      }
      case Escaped(e) => {
        if e == '\'' { PlainIsNone(e, s); } else { LetterIsEscape(e, s); }
      }
      case Code(d) => CodeIsEscape(d, s);
    }
    StepIsRead(w, CharMeant(p), s, t, rest);
  }

  lemma CodeReads(d: string, s: string)
    requires |d| == 4
    ensures HexCode(d + s) == HexCode(d)
  {
    assert forall k :: 0 <= k < 4 ==> (d + s)[k] == d[k];
  }

  lemma {:induction false} CharsRead(double: bool, ps: seq<PyChar>, rest: string)
    requires forall k :: 0 <= k < |ps| ==> CharOk(double, ps[k])
    ensures ReadString(CharsJson(double, ps) + "\"" + rest) == Some((Meant(PyString(double, ps)), rest))
    decreases |ps|
  {
    hide CharOk, CharJson, ReadString, CharMeant;
    if ps == [] {
      ReadsQuote(rest);
      assert CharsJson(double, ps) + "\"" + rest == "\"" + rest && Meant(PyString(double, ps)) == "";
    } else {
      CharsRead(double, ps[1..], rest);
      var more := CharsJson(double, ps[1..]) + "\"" + rest;
      assert CharsJson(double, ps) + "\"" + rest == CharJson(double, ps[0]) + more;
      CharReads(double, ps[0], more, Meant(PyString(double, ps[1..])), rest);
      assert Meant(PyString(double, ps)) == [CharMeant(ps[0])] + Meant(PyString(double, ps[1..]));
    }
  }

  lemma StringReads(w: PyString, rest: string)
    requires StringOk(w)
    ensures ReadString((StringJson(w) + rest)[1..]) == Some((Meant(w), rest))
    ensures StringJson(w) != "" && StringJson(w)[0] == '"'
  {
    hide ReadString, CharsJson;
    CharsRead(w.double, w.chars, rest);
    assert (StringJson(w) + rest)[1..] == CharsJson(w.double, w.chars) + "\"" + rest;
  }

  /** Nothing that follows continues a token. */
  predicate Ended(rest: string) {
    rest == "" || !IsAtomChar(rest[0])
  }

  lemma {:induction false} ValueReads(v: PyValue, l: Layout, rest: string)
    requires ValueOk(v) && l.Valid() && Ended(rest)
    ensures ReadValue(Json(v, l) + rest) == Some((ValueMeant(v), rest))
    ensures Json(v, l) != "" && Json(v, l)[0] !in " \t\n\r]}"
    decreases v
  {
    hide ReadValue, StringJson, ReadString, IsNumeral, IsAtom, Ended, ItemsJson, MembersJson, Meant;
    NamesAreAtoms();
    match v {
      case PyNone => AtomIsRead("null", rest);
      case PyBool(b) => if b { AtomIsRead("true", rest); } else { AtomIsRead("false", rest); }
      case PyNumber(t) => {
        NumeralIsAtom(t);
        AtomIsRead(t, rest);
      }
      case PyText(w) => {
        StringReads(w, rest);
        TextIsRead(StringJson(w) + rest, Meant(w), rest);
      }
      case PyList(vs) => ListIsRead(vs, l, rest);
      case PyDict(ms) => DictIsRead(ms, l, rest);
    }
  }

  lemma NamesAreAtoms()
    ensures IsAtom("null") && IsAtom("true") && IsAtom("false")
  {}

  lemma NumeralIsAtom(t: string)
    requires IsNumeral(t)
    ensures IsAtom(t)
  {}

  lemma AtomIsRead(t: string, rest: string)
    requires IsAtom(t) && Ended(rest)
    ensures ReadValue(t + rest) == Some((Atom(t), rest))
    ensures t[0] !in " \t\n\r]}"
  {
    var s := t + rest;
    assert s[0] == t[0];
    SkipNothing(s);
    AtomEnds(t, rest);
    assert s[..|t|] == t && s[|t|..] == rest;
  }

  lemma TextIsRead(s: string, t: string, rest: string)
    requires s != "" && s[0] == '"' && ReadString(s[1..]) == Some((t, rest))
    ensures ReadValue(s) == Some((Text(t), rest))
  {
    hide ReadString;
    SkipNothing(s);
  }

  // ---------- lists ----------

  lemma LastElement(s: string, v: Value, rest: string)
    requires ReadValue(s) == Some((v, "]" + rest))
    ensures ReadElements(s) == Some(([v], rest))
  {
    hide ReadValue;
    SkipNothing("]" + rest);
    assert ("]" + rest)[1..] == rest;
  }

  lemma NextElement(s: string, v: Value, comma: string, more: string, vs: seq<Value>, rest: string)
    requires ReadValue(s) == Some((v, "," + (comma + more))) && ReadElements(more) == Some((vs, rest))
    requires forall k :: 0 <= k < |comma| ==> comma[k] in " \t\n\r"
    ensures ReadElements(s) == Some(([v] + vs, rest))
  {
    hide ReadValue;
    var t := "," + (comma + more);
    SkipNothing(t);
    assert t[1..] == comma + more;
    SpaceBefore(comma, more);
  }

  lemma {:induction false} ItemsRead(vs: seq<PyValue>, l: Layout, rest: string)
    requires AllOk(vs) && l.Valid() && vs != []
    ensures ReadElements(ItemsJson(vs, l) + ("]" + rest)) == Some((AllMeant(vs), rest))
    ensures ItemsJson(vs, l) != "" && ItemsJson(vs, l)[0] !in " \t\n\r]"
    decreases vs, 0
  {
    hide ReadValue, ReadElements, Json, ValueOk, ValueMeant, Layout.Valid;
    var a, end := Json(vs[0], l), "]" + rest;
    if |vs| == 1 {
      assert vs[1..] == [] && AllMeant(vs[1..]) == [] && AllMeant(vs) == [ValueMeant(vs[0])];
      assert ItemsJson(vs, l) + end == a + end by { assert a + "" == a; }
      EndsHere(end);
      ValueReads(vs[0], l, end);
      LastElement(a + end, ValueMeant(vs[0]), rest);
    } else {
      var b := ItemsJson(vs[1..], l);
      var more := b + end;
      ItemsText(a, l.comma, b, end);
      EndsHere("," + (l.comma + more));
      ValueReads(vs[0], l, "," + (l.comma + more));
      ItemsRead(vs[1..], l, rest);
      CommaSpace(l);
      NextElement(a + ("," + (l.comma + more)), ValueMeant(vs[0]), l.comma, more, AllMeant(vs[1..]), rest);
    }
  }

  lemma CommaSpace(l: Layout)
    requires l.Valid()
    ensures forall k :: 0 <= k < |l.comma| ==> l.comma[k] in " \t\n\r"
    ensures forall k :: 0 <= k < |l.colon| ==> l.colon[k] in " \t\n\r"
  {}

  lemma EndsHere(s: string)
    requires s != "" && s[0] in ",]}"
    ensures Ended(s)
  {}

  lemma ItemsText(a: string, comma: string, b: string, end: string)
    ensures a + ("," + comma + b) + end == a + ("," + (comma + (b + end)))
  {}

  lemma {:induction false} ListIsRead(vs: seq<PyValue>, l: Layout, rest: string)
    requires AllOk(vs) && l.Valid()
    ensures ReadValue("[" + ItemsJson(vs, l) + "]" + rest) == Some((List(AllMeant(vs)), rest))
    decreases vs, 1
  {
    hide ReadElements, AllOk, AllMeant, ItemsJson;
    var w := ItemsJson(vs, l);
    var s := "[" + w + "]" + rest;
    SkipNothing(s);
    assert s[1..] == w + ("]" + rest);
    if vs == [] {
      NoItems(l);
      assert w + ("]" + rest) == "]" + rest;
      SkipNothing("]" + rest);
      assert ("]" + rest)[1..] == rest;
    } else {
      ItemsRead(vs, l, rest);
      SkipNothing(w + ("]" + rest));
    }
  }

  lemma NoItems(l: Layout)
    ensures ItemsJson([], l) == "" && AllMeant([]) == []
    ensures MembersJson([], l) == "" && MembersMeant([]) == []
  {}

  // ---------- dictionaries ----------

  lemma LastMember(s: string, m: (string, Value), rest: string)
    requires ReadMember(s) == Some((m, "}" + rest))
    ensures ReadMembers(s) == Some(([m], rest))
  {
    hide ReadMember;
    SkipNothing("}" + rest);
    assert ("}" + rest)[1..] == rest;
  }

  lemma NextMember(s: string, m: (string, Value), comma: string, more: string, ms: seq<(string, Value)>, rest: string)
    requires ReadMember(s) == Some((m, "," + (comma + more))) && ReadMembers(more) == Some((ms, rest))
    requires forall k :: 0 <= k < |comma| ==> comma[k] in " \t\n\r"
    ensures ReadMembers(s) == Some(([m] + ms, rest))
  {
    hide ReadMember;
    var t := "," + (comma + more);
    SkipNothing(t);
    assert t[1..] == comma + more;
    SpaceBefore(comma, more);
  }

  lemma {:induction false} MemberReads(m: Member, l: Layout, rest: string)
    requires MemberOk(m) && l.Valid() && Ended(rest)
    ensures ReadMember(MemberJson(m, l) + rest) == Some((MemberMeant(m), rest))
    ensures MemberJson(m, l) != "" && MemberJson(m, l)[0] == '"'
    decreases m
  {
    hide ReadString, ReadValue, StringJson, Json, ValueOk, ValueMeant, Layout.Valid;
    var k, v := StringJson(m.key), Json(m.value, l);
    var after := ":" + (l.colon + (v + rest));
    var s := k + after;
    assert MemberJson(m, l) + rest == s;
    StringReads(m.key, after);
    assert s[0] == '"';
    SkipNothing(s);
    SkipNothing(after);
    assert after[1..] == l.colon + (v + rest);
    CommaSpace(l);
    SpaceBefore(l.colon, v + rest);
    ValueReads(m.value, l, rest);
  }

  lemma {:induction false} MembersRead(ms: seq<Member>, l: Layout, rest: string)
    requires MembersOk(ms) && l.Valid() && ms != []
    ensures ReadMembers(MembersJson(ms, l) + ("}" + rest)) == Some((MembersMeant(ms), rest))
    ensures MembersJson(ms, l) != "" && MembersJson(ms, l)[0] == '"'
    decreases ms, 0
  {
    hide ReadMember, ReadMembers, MemberJson, MemberOk, MemberMeant, Layout.Valid;
    var a, end := MemberJson(ms[0], l), "}" + rest;
    if |ms| == 1 {
      assert ms[1..] == [] && MembersMeant(ms[1..]) == [] && MembersMeant(ms) == [MemberMeant(ms[0])];
      assert MembersJson(ms, l) + end == a + end by { assert a + "" == a; }
      EndsHere(end);
      MemberReads(ms[0], l, end);
      LastMember(a + end, MemberMeant(ms[0]), rest);
    } else {
      var b := MembersJson(ms[1..], l);
      var more := b + end;
      ItemsText(a, l.comma, b, end);
      EndsHere("," + (l.comma + more));
      MemberReads(ms[0], l, "," + (l.comma + more));
      MembersRead(ms[1..], l, rest);
      CommaSpace(l);
      NextMember(a + ("," + (l.comma + more)), MemberMeant(ms[0]), l.comma, more, MembersMeant(ms[1..]), rest);
    }
  }

  lemma {:induction false} DictIsRead(ms: seq<Member>, l: Layout, rest: string)
    requires MembersOk(ms) && l.Valid()
    ensures ReadValue("{" + MembersJson(ms, l) + "}" + rest) == Some((Object(MembersMeant(ms)), rest))
    decreases ms, 1
  {
    hide ReadMembers, MembersOk, MembersMeant, MembersJson;
    var w := MembersJson(ms, l);
    var s := "{" + w + "}" + rest;
    SkipNothing(s);
    assert s[1..] == w + ("}" + rest);
    if ms == [] {
      NoItems(l);
      assert w + ("}" + rest) == "}" + rest;
      SkipNothing("}" + rest);
      assert ("}" + rest)[1..] == rest;
    } else {
      MembersRead(ms, l, rest);
      SkipNothing(w + ("}" + rest));
    }
  }

  // ---------- the whole way ----------

  /** For every value written in Python's notation, with either quotes and any white space behind commas and colons,
      a JSON reader finds in the normalised text exactly that value. */
  lemma NormalizeMeaning(v: PyValue, l: Layout)
    requires ValueOk(v) && l.Valid()
    ensures ReadValue(Normalize(Written(v, l))) == Some((ValueMeant(v), ""))
  {
    hide Written, Json, NormalizeFrom, ReadValue;
    var s := Written(v, l);
    assert s[0..0 + |s|] == s;
    ValueAnswers(s, 0, v, l);
    NothingLeft(s);
    assert Json(v, l) + "" == Json(v, l);
    ValueReads(v, l, "");
  }

  lemma NothingLeft(s: string)
    ensures NormalizeFrom(s, |s|, Outside) == ""
  {}

  // ---------- the escape that is lost ----------

  lemma BadEscape(s: string)
    ensures ReadString(['\\', '\''] + s) == None
  {
    hide HexCode;
    var x := ['\\', '\''] + s;
    assert x[0] == '\\' && x[1] == '\'';
  }

  lemma NoneBehind(w: string, s: string)
    requires w != "" && w[0] != '"' && (w[0] == '\\' ==> IsEscape(w + s)) && ReadChar(w + s).1 == |w| && ReadString(s) == None
    ensures ReadString(w + s) == None
  {
    hide ReadChar, IsEscape;
    assert (w + s)[0] == w[0] && (w + s)[|w|..] == s;
  }

  lemma CharRefuses(p: PyChar, s: string)
    requires CharOk(true, p) && ReadString(s) == None
    ensures ReadString(CharJson(true, p) + s) == None
  {
    hide HexCode, ReadString, ReadChar, IsEscape;
    match p {
      case Raw(c) => PlainIsNone(c, s);
      case Escaped(e) => LetterIsEscape(e, s);
      case Code(d) => CodeIsEscape(d, s);
    }
    NoneBehind(CharJson(true, p), s);
  }

  lemma {:induction false} CharsRefuse(ps: seq<PyChar>, rest: string)
    requires (forall k :: 0 <= k < |ps| ==> Spellable(true, ps[k])) && Escaped('\'') in ps
    ensures ReadString(CharsJson(true, ps) + "\"" + rest) == None
    decreases |ps|
  {
    hide ReadString, CharOk;
    var more := CharsJson(true, ps[1..]) + "\"" + rest;
    assert CharsJson(true, ps) + "\"" + rest == CharJson(true, ps[0]) + more;
    if ps[0] == Escaped('\'') {
      BadEscape(more);
    } else {
      assert Escaped('\'') in ps[1..];
      CharsRefuse(ps[1..], rest);
      CharRefuses(ps[0], more);
    }
  }

  /** A string is read back exactly unless an escaped single quote stands in double quotes, which is left as it is
      although JSON has no such escape. */
  lemma QuotedExactly(w: PyString)
    requires AllSpellable(w)
    ensures ReadValue(Normalize(StringWritten(w))) == if StringOk(w) then Some((Text(Meant(w)), "")) else None
  {
    hide StringWritten, NormalizeFrom, ReadValue, ReadString, CharOk, CharsJson;
    var s := StringWritten(w);
    assert s[0..0 + |s|] == s;
    StringAnswers(s, 0, w);
    NothingLeft(s);
    assert StringJson(w) + "" == StringJson(w);
    if StringOk(w) {
      StringReads(w, "");
      TextIsRead(StringJson(w), Meant(w), "");
    } else {
      Apostrophe(w);
      CharsRefuse(w.chars, "");
      assert StringJson(w)[1..] == CharsJson(true, w.chars) + "\"" + "";
      TextIsRefused(StringJson(w));
    }
  }

  lemma Apostrophe(w: PyString)
    requires AllSpellable(w) && !StringOk(w)
    ensures w.double && Escaped('\'') in w.chars
  {
    hide HexCode;
    var k :| 0 <= k < |w.chars| && !CharOk(w.double, w.chars[k]);
    assert Spellable(w.double, w.chars[k]);
    assert w.chars[k] == Escaped('\'');
  }

  lemma TextIsRefused(s: string)
    requires s != "" && s[0] == '"' && ReadString(s[1..]) == None
    ensures ReadValue(s) == None
  {
    hide ReadString;
    SkipNothing(s);
  }
}
