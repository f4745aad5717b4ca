/** Values written in Gemma 4's notation and what the argument grammar reads from them: exactly the value. */
module Gemma4Writer {
  import opened Wrappers
  import opened PegMatch
  import PegMapper
  import opened JsonReader
  import opened Gemma4Json
  import opened Gemma4Value
  import opened Gemma4Number
  import opened Gemma4Parser
  import opened Gemma4Partial
  import opened Gemma4Complete

  // ---------- values ----------

  /** A number by its parts: integer, fraction and exponent. */
  datatype Numeral = Numeral(minus: bool, whole: string, fraction: Option<string>, exponent: Option<Power>)

  datatype Power = Power(mark: char, sign: Option<char>, digits: string)

  datatype Word = True | False | Null

  datatype GValue =
    | GNumber(n: Numeral)
    | GWord(w: Word)
    | GText(t: string)
    | GList(items: seq<GItem>, end: string)
    | GDict(members: seq<GMember>, end: string)

  /** White space may stand before an item, behind the colon of a member, and at the end of a list or dictionary. */
  datatype GItem = GItem(before: string, value: GValue)

  datatype GMember = GMember(before: string, key: string, behind: string, value: GValue)

  predicate AllDigits(t: string) {
    t != "" && forall k :: 0 <= k < |t| ==> '0' <= t[k] <= '9'
  }

  predicate NumeralOk(n: Numeral) {
    && AllDigits(n.whole) && (n.whole[0] == '0' ==> |n.whole| == 1)
    && (n.fraction.Some? ==> AllDigits(n.fraction.value))
    && (n.exponent.Some? ==>
          var e := n.exponent.value;
          e.mark in "eE" && (e.sign.Some? ==> e.sign.value in "+-") && AllDigits(e.digits))
  }

  /** The word does not stand in the text. */
  predicate Without(w: string, t: string) {
    forall k :: 0 <= k < |t| ==> !(w <= t[k..])
  }

  predicate Blanks(w: string) {
    forall k :: 0 <= k < |w| ==> PegMapper.IsSpace(w[k])
  }

  /** A key has a character, does not begin with white space, and has neither colon nor closing brace. */
  predicate KeyOk(k: string) {
    k != "" && !PegMapper.IsSpace(k[0]) && forall j :: 0 <= j < |k| ==> k[j] != ':' && k[j] != '}'
  }

  predicate GOk(v: GValue)
    decreases v
  {
    match v
    case GNumber(n) => NumeralOk(n)
    case GWord(_) => true
    case GText(t) => Without(QUOTE, t)
    case GList(vs, w) => AllGOk(vs) && Blanks(w)
    case GDict(ms, w) => MembersGOk(ms) && Blanks(w)
  }

  predicate AllGOk(vs: seq<GItem>)
    decreases vs
  {
    vs == [] || (ItemGOk(vs[0]) && AllGOk(vs[1..]))
  }

  predicate ItemGOk(i: GItem)
    decreases i
  {
    Blanks(i.before) && GOk(i.value)
  }

  predicate MembersGOk(ms: seq<GMember>)
    decreases ms
  {
    ms == [] || (MemberGOk(ms[0]) && MembersGOk(ms[1..]))
  }

  predicate MemberGOk(m: GMember)
    decreases m
  {
    Blanks(m.before) && KeyOk(m.key) && Blanks(m.behind) && GOk(m.value)
  }

  // ---------- the text of a value ----------

  function NumeralText(n: Numeral): string {
    (if n.minus then "-" else "") + n.whole
    + (if n.fraction.Some? then "." + n.fraction.value else "")
    + (if n.exponent.Some? then PowerText(n.exponent.value) else "")
  }

  function PowerText(e: Power): string {
    [e.mark] + (if e.sign.Some? then [e.sign.value] else "") + e.digits
  }

  function WordText(w: Word): string {
    match w case True => "true" case False => "false" case Null => "null"
  }

  function Spelled(v: GValue): string
    decreases v
  {
    match v
    case GNumber(n) => NumeralText(n)
    case GWord(w) => WordText(w)
    case GText(t) => QUOTE + t + QUOTE
    case GList(vs, w) => "[" + SpelledItems(vs) + w + "]"
    case GDict(ms, w) => "{" + SpelledMembers(ms) + w + "}"
  }

  function SpelledItems(vs: seq<GItem>): string
    decreases vs
  {
    if vs == [] then "" else SpelledItem(vs[0]) + if |vs| == 1 then "" else "," + SpelledItems(vs[1..])
  }

  function SpelledItem(i: GItem): string
    decreases i
  {
    i.before + Spelled(i.value)
  }

  function SpelledMembers(ms: seq<GMember>): string
    decreases ms
  {
    if ms == [] then "" else SpelledMember(ms[0]) + if |ms| == 1 then "" else "," + SpelledMembers(ms[1..])
  }

  function SpelledMember(m: GMember): string
    decreases m, 1
  {
    m.before + KeyAndValue(m)
  }

  /** A member without the white space before it. */
  function KeyAndValue(m: GMember): string
    decreases m, 0
  {
    m.key + ":" + (m.behind + Spelled(m.value))
  }

  // ---------- the value as JSON knows it ----------

  function AsValue(v: GValue): Value
    decreases v
  {
    match v
    case GNumber(n) => Atom(NumeralText(n))
    case GWord(w) => Atom(WordText(w))
    case GText(t) => Text(t)
    case GList(vs, _) => List(AsItems(vs))
    case GDict(ms, _) => Object(AsMembers(ms))
  }

  function AsItems(vs: seq<GItem>): seq<Value>
    decreases vs
  {
    if vs == [] then [] else [AsItem(vs[0])] + AsItems(vs[1..])
  }

  function AsItem(i: GItem): Value
    decreases i
  {
    AsValue(i.value)
  }

  function AsMembers(ms: seq<GMember>): seq<(string, Value)>
    decreases ms
  {
    if ms == [] then [] else [AsMember(ms[0])] + AsMembers(ms[1..])
  }

  function AsMember(m: GMember): (string, Value)
    decreases m
  {
    (m.key, AsValue(m.value))
  }

  // ---------- tokens ----------

  lemma LiteralIs(l: string, rest: string)
    ensures Literal(l, l + rest) == Matched(rest)
  {
    assert (l + rest)[|l|..] == rest;
  }

  lemma OtherLiteral(c: char, s: string)
    requires s != "" && s[0] != c
    ensures Literal([c], s) == Missed
  {}

  lemma {:induction false} CountRun(class_: Class, t: string, rest: string)
    requires (forall k :: 0 <= k < |t| ==> class_.Has(t[k])) && (rest != "" ==> !class_.Has(rest[0]))
    ensures Count(class_, None, t + rest) == |t|
    decreases |t|
  {
    hide Class.Has;
    if t == "" {
      assert t + rest == rest;
    } else {
      assert (t + rest)[0] == t[0] && (t + rest)[1..] == t[1..] + rest;
      CountRun(class_, t[1..], rest);
    }
  }

  lemma CharsRun(class_: Class, min: nat, t: string, rest: string)
    requires (forall k :: 0 <= k < |t| ==> class_.Has(t[k])) && (rest != "" ==> !class_.Has(rest[0])) && |t| >= min
    ensures Chars(class_, min, None, t + rest) == Matched(rest)
  {
    hide Class.Has;
    CountRun(class_, t, rest);
    assert (t + rest)[|t|..] == rest;
  }

  lemma Classes(c: char)
    ensures DIGIT.Has(c) <==> '0' <= c <= '9'
    ensures FIRST_DIGIT.Has(c) <==> '1' <= c <= '9'
    ensures EXPONENT_SIGN.Has(c) <==> c in "+-"
    ensures IN_NUMBER.Has(c) <==> '0' <= c <= '9' || c in ".eE+-"
    ensures IN_KEY.Has(c) <==> c != ':' && c != '}'
  {
    assert DIGIT.Has(c) <==> DIGIT.ranges[0].0 <= c <= DIGIT.ranges[0].1;
    assert FIRST_DIGIT.Has(c) <==> FIRST_DIGIT.ranges[0].0 <= c <= FIRST_DIGIT.ranges[0].1;
    var e, n, k := EXPONENT_SIGN.ranges, IN_NUMBER.ranges, IN_KEY.ranges;
    assert |e| == 2 && |n| == 6 && |k| == 2;
    if c in "+-" { assert e[if c == '+' then 0 else 1].0 <= c <= e[if c == '+' then 0 else 1].1; }
    if '0' <= c <= '9' { assert n[0].0 <= c <= n[0].1; }
    if c in ".eE+-" {
      var j := if c == '.' then 1 else if c == 'e' then 2 else if c == 'E' then 3 else if c == '+' then 4 else 5;
      assert n[j].0 <= c <= n[j].1;
    }
    if c == ':' || c == '}' { assert k[if c == ':' then 0 else 1].0 <= c <= k[if c == ':' then 0 else 1].1; }
  }

  lemma DigitsRun(min: nat, t: string, rest: string)
    requires AllDigits(t) && min <= 1 && rest != "" && !('0' <= rest[0] <= '9')
    ensures Digits(min, t + rest) == Matched(rest)
  {
    hide Class.Has;
    forall k | 0 <= k < |t| ensures DIGIT.Has(t[k]) { Classes(t[k]); }
    Classes(rest[0]);
    CharsRun(DIGIT, min, t, rest);
  }

  // ---------- numbers ----------

  /** What may stand behind a number. */
  predicate Stops(rest: string) {
    rest != "" && !('0' <= rest[0] <= '9') && rest[0] !in ".eE+-"
  }

  lemma EndRead(rest: string)
    requires Stops(rest)
    ensures NumberEnd(rest) == Matched(rest)
  {
    hide Class.Has;
    OneCharacter(IN_NUMBER, rest);
    Classes(rest[0]);
  }

  lemma MarkRead(c: char, rest: string)
    requires c in "eE"
    ensures ExponentMark([c] + rest) == Matched(rest)
  {
    var s := [c] + rest;
    assert s[0] == c && s[1..] == rest;
  }

  lemma SignRead(sign: Option<char>, digits: string, rest: string)
    requires (sign.Some? ==> sign.value in "+-") && AllDigits(digits)
    ensures var s := (if sign.Some? then [sign.value] else "") + (digits + rest);
      Optional(Chars(EXPONENT_SIGN, 1, Some(1), s), s) == Matched(digits + rest)
  {
    hide Class.Has;
    var s := (if sign.Some? then [sign.value] else "") + (digits + rest);
    OneCharacter(EXPONENT_SIGN, s);
    Classes(s[0]);
    if sign.Some? { assert s[1..] == digits + rest; } else { assert s == digits + rest && s[0] == digits[0]; }
  }

  lemma PowerRead(e: Power, rest: string)
    requires e.mark in "eE" && (e.sign.Some? ==> e.sign.value in "+-") && AllDigits(e.digits) && Stops(rest)
    ensures Exponent(PowerText(e) + rest) == Matched(rest)
  {
    hide ExponentMark, Chars, Optional;
    var sign := if e.sign.Some? then [e.sign.value] else "";
    assert PowerText(e) + rest == [e.mark] + (sign + (e.digits + rest));
    MarkRead(e.mark, sign + (e.digits + rest));
    SignRead(e.sign, e.digits, rest);
    DigitsRun(1, e.digits, rest);
  }

  lemma NoPower(s: string)
    requires s != "" && s[0] !in "eE"
    ensures Exponent(s).Missed?
  {
    OtherLiteral('e', s);
    OtherLiteral('E', s);
  }

  lemma NoFraction(s: string)
    requires s != "" && s[0] != '.'
    ensures Fraction(s).Missed?
  {
    OtherLiteral('.', s);
  }

  function Tail3(n: Numeral, rest: string): string {
    (if n.exponent.Some? then PowerText(n.exponent.value) else "") + rest
  }

  function Tail2(n: Numeral, rest: string): string {
    (if n.fraction.Some? then "." + n.fraction.value else "") + Tail3(n, rest)
  }

  lemma AfterFractionRead(n: Numeral, rest: string)
    requires NumeralOk(n) && Stops(rest)
    ensures AfterFraction(Tail3(n, rest)) == Matched(rest)
  {
    hide Exponent, NumberEnd, PowerText;
    var s := Tail3(n, rest);
    EndRead(rest);
    if n.exponent.Some? {
      PowerRead(n.exponent.value, rest);
      PowerShown(n.exponent.value, rest);
    } else {
      assert s == rest;
      NoPower(rest);
    }
  }

  lemma PowerShown(e: Power, rest: string)
    ensures PowerText(e) + rest != "" && (PowerText(e) + rest)[0] == e.mark
  {}

  lemma AfterIntRead(n: Numeral, rest: string)
    requires NumeralOk(n) && Stops(rest)
    ensures AfterInt(Tail2(n, rest)) == Matched(rest)
  {
    hide Fraction, AfterFraction, Tail3;
    var s, t := Tail2(n, rest), Tail3(n, rest);
    AfterFractionRead(n, rest);
    Tail3First(n, rest);
    if n.fraction.Some? {
      assert s == "." + (n.fraction.value + t);
      FractionRead(n.fraction.value, t);
    } else {
      assert s == t;
      NoFraction(t);
    }
  }

  lemma FractionRead(d: string, t: string)
    requires AllDigits(d) && t != "" && !('0' <= t[0] <= '9')
    ensures Fraction("." + (d + t)) == Matched(t)
  {
    hide Chars;
    LiteralIs(".", d + t);
    DigitsRun(1, d, t);
  }

  lemma Tail3First(n: Numeral, rest: string)
    requires NumeralOk(n) && Stops(rest)
    ensures var t := Tail3(n, rest); t != "" && !('0' <= t[0] <= '9') && t[0] != '.'
  {}

  lemma Tail2First(n: Numeral, rest: string)
    requires NumeralOk(n) && Stops(rest)
    ensures var t := Tail2(n, rest); t != "" && !('0' <= t[0] <= '9')
  {
    hide Tail3;
    Tail3First(n, rest);
  }

  lemma IntRead(w: string, t: string)
    requires AllDigits(w) && (w[0] == '0' ==> |w| == 1) && t != "" && !('0' <= t[0] <= '9')
    ensures IntPart(w + t) == Matched(t)
  {
    hide Chars, Class.Has;
    var s := w + t;
    assert s[0] == w[0];
    if w[0] == '0' {
      assert w == "0";
      LiteralIs("0", t);
    } else {
      OtherLiteral('0', s);
      OneCharacter(FIRST_DIGIT, s);
      Classes(w[0]);
      assert s[1..] == w[1..] + t;
      if |w| == 1 {
        assert s[1..] == t;
        NoDigits(t);
      } else {
        DigitsRun(0, w[1..], t);
      }
    }
  }

  lemma NoDigits(t: string)
    requires t != "" && !('0' <= t[0] <= '9')
    ensures Digits(0, t) == Matched(t)
  {
    hide Class.Has;
    Classes(t[0]);
    CharsRun(DIGIT, 0, "", t);
    assert "" + t == t;
  }

  /** A number is read to its end. */
  lemma NumberRead(n: Numeral, rest: string)
    requires NumeralOk(n) && Stops(rest)
    ensures Number(NumeralText(n) + rest) == Matched(rest)
    ensures NumeralText(n)[0] in "-0123456789"
  {
    hide IntPart, AfterInt, Tail2, Literal;
    var t := Tail2(n, rest);
    Tail2First(n, rest);
    AfterIntRead(n, rest);
    IntRead(n.whole, t);
    NumeralSplits(n, rest);
    if n.minus {
      LiteralIs("-", n.whole + t);
    } else {
      assert (n.whole + t)[0] == n.whole[0];
      OtherLiteral('-', n.whole + t);
    }
  }

  lemma NumeralSplits(n: Numeral, rest: string)
    requires n.whole != ""
    ensures var t := Tail2(n, rest);
      NumeralText(n) + rest == (if n.minus then "-" + (n.whole + t) else n.whole + t)
    ensures NumeralText(n) != "" && NumeralText(n)[0] == if n.minus then '-' else n.whole[0]
  {
    hide PowerText;
  }

  // ---------- up to a delimiter ----------

  lemma {:induction false} UntilIs(words: seq<string>, s: string, k: nat)
    requires k <= |s| && (k < |s| ==> CheckAt(words, s[k..]) != Absent)
    requires forall j :: 0 <= j < k ==> CheckAt(words, s[j..]) == Absent
    ensures Until(words, s) == k
    decreases k
  {
    hide CheckAt;
    if s != "" {
      assert s[0..] == s;
      if k > 0 {
        assert CheckAt(words, s[0..]) == Absent;
        assert forall j :: 0 <= j < k - 1 ==> s[1..][j..] == s[j + 1..];
        UntilIs(words, s[1..], k - 1);
      }
    }
  }

  /** The word has a single '<', in front. */
  predicate Marked(w: string) {
    w != "" && w[0] == '<' && forall k :: 1 <= k < |w| ==> w[k] != '<'
  }

  predicate AllMarked(words: seq<string>) {
    forall k :: 0 <= k < |words| ==> Marked(words[k])
  }

  predicate WithoutAll(words: seq<string>, t: string) {
    forall k :: 0 <= k < |words| ==> Without(words[k], t)
  }

  lemma WithinFirst(w: string, a: string, x: string)
    ensures w <= a + x && |w| <= |a| ==> w <= a
  {}

  lemma NotHere(w: string, t: string, x: string, j: nat)
    requires Marked(w) && Without(w, t) && x != "" && x[0] == '<' && j < |t|
    ensures var s := t[j..] + x; !(w <= s) && !(s <= w)
  {
    var s, m := t[j..] + x, |t| - j;
    assert s[m] == '<';
    WithinFirst(w, t[j..], x);
  }

  /** A text without the delimiters is read up to the one behind it. */
  lemma UntilStop(words: seq<string>, t: string, stop: string, rest: string)
    requires AllMarked(words) && WithoutAll(words, t) && stop in words
    ensures Until(words, t + stop + rest) == |t| < |t + stop + rest|
    ensures (t + stop + rest)[..|t|] == t && (t + stop + rest)[|t|..] == stop + rest
  {
    var s, x := t + stop + rest, stop + rest;
    forall j | 0 <= j < |t| ensures CheckAt(words, s[j..]) == Absent {
      assert s[j..] == t[j..] + x;
      forall k | 0 <= k < |words| ensures !(words[k] <= s[j..]) && !(s[j..] <= words[k]) { NotHere(words[k], t, x, j); }
    }
    assert s[|t|..] == x;
    var k :| 0 <= k < |words| && words[k] == stop;
    assert words[k] <= x;
    UntilIs(words, s, |t|);
  }

  // ---------- strings, words and keys ----------

  lemma QuoteMarked()
    ensures AllMarked([QUOTE])
  {}

  lemma StringRead(t: string, rest: string)
    requires Without(QUOTE, t)
    ensures var p := StringRule(QUOTE + t + QUOTE + rest);
      && p.Done? && p.rest == rest && p.node.rule == STRING && IsPayload(p.node) && Meaning(p.node) == Text(t)
  {
    hide Literal, Until, Without;
    QuoteMarked();
    assert QUOTE + t + QUOTE + rest == QUOTE + (t + QUOTE + rest);
    LiteralIs(QUOTE, t + QUOTE + rest);
    UntilStop([QUOTE], t, QUOTE, rest);
    LiteralIs(QUOTE, rest);
  }

  lemma WordRead(w: Word, rest: string)
    ensures var p := Payload(WordText(w) + rest);
      p.Done? && p.rest == rest && IsPayload(p.node) && Meaning(p.node) == Atom(WordText(w))
    ensures WordText(w)[0] in "tfn"
  {
    hide Payload, IsPayload, Literal, Meaning;
    var t := WordText(w);
    var s := t + rest;
    assert s[0] == t[0];
    PayloadIs(s);
    LiteralIs(t, rest);
    if w == False { TrueMissed(s); }
    AtomWord(w);
    TokenRead(if w == Null then NULL else BOOL, OTHER_RULE, t, rest);
  }

  lemma TrueMissed(s: string)
    requires s != "" && s[0] == 'f'
    ensures Literal("true", s).Missed?
  {
    if !Literal("true", s).Missed? { FirstOf("true", s); }
  }

  lemma AtomWord(w: Word)
    ensures IsAtom(WordText(w))
  {}

  lemma TokenRead(rule: Rule, inner: Rule, t: string, rest: string)
    requires rule in {NUMBER, BOOL, NULL} && IsAtom(t)
    ensures var p := Token(rule, inner, t + rest, Matched(rest));
      p.Done? && p.rest == rest && IsPayload(p.node) && Meaning(p.node) == Atom(t)
  {
    assert TextOf(t + rest, rest) == t;
  }

  lemma NumeralAtom(n: Numeral)
    requires NumeralOk(n)
    ensures IsAtom(NumeralText(n))
  {
    DigitsAtom(n.whole);
    if n.fraction.Some? { DigitsAtom(n.fraction.value); }
    if n.exponent.Some? { DigitsAtom(n.exponent.value.digits); PowerAtom(n.exponent.value); }
  }

  lemma PowerAtom(e: Power)
    requires e.mark in "eE" && (e.sign.Some? ==> e.sign.value in "+-") && AllDigits(e.digits)
    ensures IsAtom(PowerText(e))
  {
    DigitsAtom(e.digits);
  }

  lemma DigitsAtom(t: string)
    requires AllDigits(t)
    ensures IsAtom(t)
  {}

  lemma NumberPayload(n: Numeral, rest: string)
    requires NumeralOk(n) && Stops(rest)
    ensures var p := Payload(NumeralText(n) + rest);
      p.Done? && p.rest == rest && IsPayload(p.node) && Meaning(p.node) == Atom(NumeralText(n))
  {
    hide Payload, IsPayload, Meaning, Number, NumeralText, NumeralOk;
    var t := NumeralText(n);
    NumberRead(n, rest);
    NumeralAtom(n);
    assert (t + rest)[0] == t[0];
    PayloadIs(t + rest);
    TokenRead(NUMBER, OTHER_RULE, t, rest);
  }

  lemma KeyRead(k: string, rest: string)
    requires KeyOk(k)
    ensures var p := KeyRule(k + ":" + rest);
      p.Done? && p.rest == rest && IsKey(p.node) && p.node.children[0].text == k
  {
    hide Chars, Literal, Class.Has;
    var s := k + ":" + rest;
    assert s == k + (":" + rest);
    forall j | 0 <= j < |k| ensures IN_KEY.Has(k[j]) { Classes(k[j]); }
    Classes(':');
    CharsRun(IN_KEY, 1, k, ":" + rest);
    LiteralIs(":", rest);
    assert TextOf(s, ":" + rest) == k;
  }

  // ---------- values ----------

  /** What stands behind a value inside the arguments. */
  predicate Follows(rest: string) {
    rest != "" && (rest[0] in ",]}" || PegMapper.IsSpace(rest[0]))
  }

  /** White space is skipped up to what follows it. */
  lemma {:induction false} Skipped(w: string, s: string)
    requires Blanks(w) && (s == "" || !PegMapper.IsSpace(s[0]))
    ensures Space(w + s) == s
    decreases |w|
  {
    if w == "" {
      assert w + s == s;
    } else {
      assert (w + s)[0] == w[0] && (w + s)[1..] == w[1..] + s;
      Skipped(w[1..], s);
    }
  }

  lemma BlanksFollow(w: string, c: char, rest: string)
    requires Blanks(w) && c in ",]}"
    ensures Follows(w + ([c] + rest))
  {
    var s := w + ([c] + rest);
    assert s[0] == if w == "" then c else w[0];
  }

  lemma CommaFollows(rest: string)
    ensures Follows("," + rest)
  {}

  lemma FollowStops(rest: string)
    requires Follows(rest)
    ensures Stops(rest)
  {}

  /** The rule reads the written value to its end, and the tree means the value. */
  lemma {:induction false} PayloadRead(v: GValue, rest: string)
    requires GOk(v) && Follows(rest)
    ensures var p := Payload(Spelled(v) + rest);
      p.Done? && p.rest == rest && IsPayload(p.node) && Meaning(p.node) == AsValue(v)
    ensures Spelled(v) != "" && Spelled(v)[0] in "-0123456789tfn<[{"
    decreases v, 1
  {
    hide Payload, IsPayload, Meaning, StringRule, NumeralOk, Without, BracketRule, DictRule, ArrayRule, Follows, Blanks;
    var s := Spelled(v) + rest;
    match v {
      case GNumber(n) => {
        FollowStops(rest);
        NumberPayload(n, rest);
        NumberRead(n, rest);
      }
      case GWord(w) => WordRead(w, rest);
      case GText(t) => {
        assert s[0] == '<';
        PayloadIs(s);
        StringRead(t, rest);
      }
      case GList(vs, w) => {
        assert s[0] == '[';
        PayloadIs(s);
        ListRead(vs, w, rest);
      }
      case GDict(ms, w) => {
        assert s[0] == '{';
        PayloadIs(s);
        DictRead(ms, w, rest);
      }
    }
  }

  lemma ValueDone(s: string)
    requires Payload(s).Done? && IsPayload(Payload(s).node)
    ensures var p := ValueRule(s);
      p.Done? && p.rest == Payload(s).rest && IsValue(p.node) && ValueOf(p.node) == Meaning(Payload(s).node)
  {
    hide Payload, IsPayload, Meaning;
  }

  lemma FirstOfValue(c: char)
    requires c in "-0123456789tfn<[{"
    ensures !PegMapper.IsSpace(c) && c != ']'
  {}

  lemma {:induction false} ValueRead(v: GValue, rest: string)
    requires GOk(v) && Follows(rest)
    ensures var p := ValueRule(Spelled(v) + rest);
      p.Done? && p.rest == rest && IsValue(p.node) && ValueOf(p.node) == AsValue(v)
    ensures Spelled(v) != "" && !PegMapper.IsSpace(Spelled(v)[0]) && Spelled(v)[0] != ']'
    decreases v, 2
  {
    hide Payload, IsPayload, Meaning, Spelled, ValueRule, IsValue, ValueOf, AsValue, GOk, PegMapper.IsSpace, Follows;
    PayloadRead(v, rest);
    ValueDone(Spelled(v) + rest);
    FirstOfValue(Spelled(v)[0]);
  }

  lemma KvDone(s: string)
    requires KeyRule(s).Done? && IsKey(KeyRule(s).node)
    requires var v := ValueRule(Space(KeyRule(s).rest)); v.Done? && IsValue(v.node)
    ensures var p, v := KvRule(s), ValueRule(Space(KeyRule(s).rest));
      && p.Done? && p.rest == v.rest && IsMember(p.node)
      && MemberOf(p.node) == (KeyRule(s).node.children[0].text, ValueOf(v.node))
  {
    hide KeyRule, ValueRule, IsValue, ValueOf, Space;
  }

  lemma {:induction false} MemberRead(m: GMember, rest: string)
    requires MemberGOk(m) && Follows(rest)
    ensures var p := KvRule(KeyAndValue(m) + rest);
      p.Done? && p.rest == rest && IsMember(p.node) && MemberOf(p.node) == AsMember(m)
    decreases m
  {
    hide KeyRule, ValueRule, IsValue, ValueOf, IsKey, Spelled, AsValue, GOk, KeyOk, KvRule, IsMember, MemberOf, PegMapper.IsSpace;
    hide Follows, Blanks;
    var v := Spelled(m.value) + rest;
    var s := KeyAndValue(m) + rest;
    assert s == m.key + ":" + (m.behind + v);
    KeyRead(m.key, m.behind + v);
    ValueRead(m.value, rest);
    assert v[0] == Spelled(m.value)[0];
    Skipped(m.behind, v);
    KvDone(s);
  }

  // ---------- lists and dictionaries ----------

  lemma TailCloses(kind: Kind, close: string, w: string, rest: string)
    requires close in {"}", "]"} && Blanks(w)
    ensures Tail(kind, close, w + (close + rest)) == Closed([], rest)
  {
    hide Item, Onwards, Space, Blanks;
    var s := w + (close + rest);
    FirstOfEnd(w, close, rest);
    CommaIs(s);
    Skipped(w, close + rest);
    LiteralIs(close, rest);
  }

  lemma FirstOfEnd(w: string, close: string, rest: string)
    requires close in {"}", "]"} && Blanks(w)
    ensures var s := w + (close + rest); s != "" && s[0] != ','
    ensures (close + rest)[0] == close[0] && !PegMapper.IsSpace(close[0])
  {
    var s := w + (close + rest);
    assert s[0] == if w == "" then close[0] else w[0];
  }

  lemma TailGoesOn(kind: Kind, close: string, w: string, more: string)
    requires Blanks(w) && more != "" && !PegMapper.IsSpace(more[0]) && !Item(kind, more).Malformed?
    ensures Tail(kind, close, "," + (w + more)) == Onwards(kind, close, more)
  {
    hide Item, Onwards, Space, AtEnd, Blanks;
    CommaIs("," + (w + more));
    assert ("," + (w + more))[1..] == w + more;
    Skipped(w, more);
  }

  lemma OnwardsIs(kind: Kind, close: string, s: string)
    requires Item(kind, s).Done?
    ensures Onwards(kind, close, s) == Cons(Item(kind, s).node, Tail(kind, close, Item(kind, s).rest))
  {
    hide Item, Tail;
  }

  /** The items without the white space before the first one. */
  function ItemsBehind(vs: seq<GItem>): string
    requires vs != []
  {
    Spelled(vs[0].value) + if |vs| == 1 then "" else "," + SpelledItems(vs[1..])
  }

  function MembersBehind(ms: seq<GMember>): string
    requires ms != []
  {
    KeyAndValue(ms[0]) + if |ms| == 1 then "" else "," + SpelledMembers(ms[1..])
  }

  lemma ItemsAre(vs: seq<GItem>)
    requires vs != []
    ensures SpelledItems(vs) == vs[0].before + ItemsBehind(vs)
  {
    hide Spelled;
  }

  lemma MembersAre(ms: seq<GMember>)
    requires ms != []
    ensures SpelledMembers(ms) == ms[0].before + MembersBehind(ms)
  {
    hide Spelled, KeyAndValue;
    var more := if |ms| == 1 then "" else "," + SpelledMembers(ms[1..]);
    assert ms[0].before + KeyAndValue(ms[0]) + more == ms[0].before + (KeyAndValue(ms[0]) + more);
  }

  lemma Apart(a: string, w: string, b: string, end: string)
    ensures a + ("," + (w + b)) + end == a + ("," + (w + (b + end)))
  {}

  lemma NoMore(a: string, end: string)
    ensures a + "" + end == a + end
  {}

  lemma {:induction false} ItemsRead(vs: seq<GItem>, w: string, rest: string)
    requires AllGOk(vs) && vs != [] && Blanks(w)
    ensures var o := Onwards(ELEMENT, "]", ItemsBehind(vs) + (w + ("]" + rest)));
      o.Closed? && o.rest == rest && AllValues(o.nodes) && Values(o.nodes) == AsItems(vs)
    ensures ItemsBehind(vs) != "" && !PegMapper.IsSpace(ItemsBehind(vs)[0]) && ItemsBehind(vs)[0] != ']'
    decreases vs, 0
  {
    hide ValueRule, Onwards, Tail, Spelled, GOk, IsValue, ValueOf, AsValue, Follows, Blanks, SpelledItems;
    var a, end := Spelled(vs[0].value), w + ("]" + rest);
    if |vs| == 1 {
      NoMore(a, end);
      BlanksFollow(w, ']', rest);
      ValueRead(vs[0].value, end);
      TailCloses(ELEMENT, "]", w, rest);
      OnwardsIs(ELEMENT, "]", a + end);
      OneValue(ValueRule(a + end).node);
      assert AsItems(vs) == [AsItem(vs[0])] by { assert vs[1..] == []; }
    } else {
      var more, b := vs[1..], ItemsBehind(vs[1..]);
      ItemsAre(more);
      Apart(a, more[0].before, b, end);
      ItemsRead(more, w, rest);
      CommaFollows(more[0].before + (b + end));
      ValueRead(vs[0].value, "," + (more[0].before + (b + end)));
      OnwardsKnown(ELEMENT, "]", b + end);
      TailGoesOn(ELEMENT, "]", more[0].before, b + end);
      OnwardsIs(ELEMENT, "]", a + ("," + (more[0].before + (b + end))));
      var n, ns := ValueRule(a + ("," + (more[0].before + (b + end)))).node, Onwards(ELEMENT, "]", b + end).nodes;
      assert ([n] + ns)[1..] == ns;
    }
  }

  lemma OneValue(n: Node)
    requires IsValue(n)
    ensures [n] + [] == [n] && AllValues([n]) && Values([n]) == [ValueOf(n)]
  {
    hide IsValue, ValueOf;
    assert [n][1..] == [];
  }

  lemma OneMember(n: Node)
    requires IsMember(n)
    ensures [n] + [] == [n] && AllMembers([n]) && Members([n]) == [MemberOf(n)]
  {
    hide IsMember, MemberOf;
    assert [n][1..] == [];
  }

  lemma OnwardsKnown(kind: Kind, close: string, s: string)
    requires !Onwards(kind, close, s).NoItems?
    ensures !Item(kind, s).Malformed?
  {
    hide Item;
  }

  lemma {:induction false} MembersRead(ms: seq<GMember>, w: string, rest: string)
    requires MembersGOk(ms) && ms != [] && Blanks(w)
    ensures var o := Onwards(MEMBER, "}", MembersBehind(ms) + (w + ("}" + rest)));
      o.Closed? && o.rest == rest && AllMembers(o.nodes) && Members(o.nodes) == AsMembers(ms)
    ensures MembersBehind(ms) != "" && !PegMapper.IsSpace(MembersBehind(ms)[0]) && MembersBehind(ms)[0] != '}'
    decreases ms, 0
  {
    hide KvRule, Onwards, Tail, KeyAndValue, MemberGOk, IsMember, MemberOf, AsMember, Follows, Blanks, SpelledMembers;
    var a, end := KeyAndValue(ms[0]), w + ("}" + rest);
    KeyStarts(ms[0]);
    if |ms| == 1 {
      NoMore(a, end);
      BlanksFollow(w, '}', rest);
      MemberRead(ms[0], end);
      TailCloses(MEMBER, "}", w, rest);
      OnwardsIs(MEMBER, "}", a + end);
      OneMember(KvRule(a + end).node);
      assert AsMembers(ms) == [AsMember(ms[0])] by { assert ms[1..] == []; }
    } else {
      var more, b := ms[1..], MembersBehind(ms[1..]);
      MembersAre(more);
      Apart(a, more[0].before, b, end);
      MembersRead(more, w, rest);
      CommaFollows(more[0].before + (b + end));
      MemberRead(ms[0], "," + (more[0].before + (b + end)));
      OnwardsKnown(MEMBER, "}", b + end);
      BlanksBefore(more[0]);
      TailGoesOn(MEMBER, "}", more[0].before, b + end);
      OnwardsIs(MEMBER, "}", a + ("," + (more[0].before + (b + end))));
      var n, ns := KvRule(a + ("," + (more[0].before + (b + end)))).node, Onwards(MEMBER, "}", b + end).nodes;
      assert ([n] + ns)[1..] == ns;
    }
  }

  lemma BlanksBefore(m: GMember)
    requires MemberGOk(m)
    ensures Blanks(m.before)
  {}

  lemma KeyStarts(m: GMember)
    requires MemberGOk(m)
    ensures KeyAndValue(m) != "" && !PegMapper.IsSpace(KeyAndValue(m)[0]) && KeyAndValue(m)[0] != '}'
  {
    assert KeyAndValue(m)[0] == m.key[0];
  }

  lemma InsideEmpty(kind: Kind, close: string, w: string, rest: string)
    requires close in {"}", "]"} && Blanks(w)
    ensures Inside(kind, close, Space(w + (close + rest))) == Closed([], rest)
  {
    hide Onwards, Space, Blanks;
    FirstOfEnd(w, close, rest);
    Skipped(w, close + rest);
    LiteralIs(close, rest);
  }

  lemma InsideItems(kind: Kind, close: string, w: string, s: string)
    requires close in {"}", "]"} && Blanks(w) && s != "" && !PegMapper.IsSpace(s[0]) && s[0] != close[0]
    ensures Inside(kind, close, Space(w + s)) == Onwards(kind, close, s)
  {
    hide Onwards, Space, Blanks;
    Skipped(w, s);
    assert close == [close[0]];
    OtherLiteral(close[0], s);
  }

  lemma BracketedMeans(rule: Rule, s: string, o: Items)
    requires rule in {ARRAY, DICT} && o.Closed? && |o.rest| < |s| && (if rule == ARRAY then AllValues(o.nodes) else AllMembers(o.nodes))
    ensures var p := Bracketed(rule, s, o);
      && p.Done? && p.rest == o.rest && IsPayload(p.node)
      && Meaning(p.node) == if rule == ARRAY then List(Values(o.nodes)) else Object(Members(o.nodes))
  {
    hide AllValues, AllMembers, Values, Members;
  }

  lemma Bracketing(open: char, x: string, w: string, close: string, rest: string)
    ensures var s := [open] + x + w + close + rest; s[0] == open && s[1..] == x + (w + (close + rest))
  {}

  lemma {:induction false} ListRead(vs: seq<GItem>, w: string, rest: string)
    requires AllGOk(vs) && Blanks(w)
    ensures var p := ArrayRule("[" + SpelledItems(vs) + w + "]" + rest);
      p.Done? && p.rest == rest && IsPayload(p.node) && Meaning(p.node) == List(AsItems(vs))
    decreases vs, 1
  {
    hide Inside, Space, IsPayload, Meaning, Bracketed, ArrayRule, SpelledItems, AllValues, Values, AsItems, AllGOk, Blanks;
    hide ItemsBehind;
    var end := w + ("]" + rest);
    var s := "[" + SpelledItems(vs) + w + "]" + rest;
    Bracketing('[', SpelledItems(vs), w, "]", rest);
    BracketIs(ELEMENT, s);
    if vs == [] {
      NothingSpelled();
      assert s[1..] == end;
      InsideEmpty(ELEMENT, "]", w, rest);
      NoTrees();
    } else {
      ItemsAre(vs);
      ItemsRead(vs, w, rest);
      FirstBlanks(vs);
      var t := ItemsBehind(vs) + end;
      assert s[1..] == vs[0].before + t;
      InsideItems(ELEMENT, "]", vs[0].before, t);
    }
    BracketedMeans(ARRAY, s, Inside(ELEMENT, "]", Space(s[1..])));
  }

  lemma FirstBlanks(vs: seq<GItem>)
    requires AllGOk(vs) && vs != []
    ensures Blanks(vs[0].before)
  {}

  lemma FirstBlanksOf(ms: seq<GMember>)
    requires MembersGOk(ms) && ms != []
    ensures Blanks(ms[0].before)
  {}

  lemma NothingSpelled()
    ensures SpelledItems([]) == "" && SpelledMembers([]) == "" && AsItems([]) == [] && AsMembers([]) == []
  {}

  lemma NoTrees()
    ensures AllValues([]) && Values([]) == [] && AllMembers([]) && Members([]) == []
  {}

  /** A written dictionary is read to its end, whatever follows. */
  lemma {:induction false} DictRead(ms: seq<GMember>, w: string, rest: string)
    requires MembersGOk(ms) && Blanks(w)
    ensures var p := DictRule("{" + SpelledMembers(ms) + w + "}" + rest);
      p.Done? && p.rest == rest && IsPayload(p.node) && Meaning(p.node) == Object(AsMembers(ms))
    decreases ms, 1
  {
    hide Inside, Space, IsPayload, Meaning, Bracketed, DictRule, SpelledMembers, AllMembers, Members, AsMembers, MembersGOk;
    hide MembersBehind, Blanks;
    var end := w + ("}" + rest);
    var s := "{" + SpelledMembers(ms) + w + "}" + rest;
    Bracketing('{', SpelledMembers(ms), w, "}", rest);
    BracketIs(MEMBER, s);
    if ms == [] {
      NothingSpelled();
      assert s[1..] == end;
      InsideEmpty(MEMBER, "}", w, rest);
      NoTrees();
    } else {
      MembersAre(ms);
      MembersRead(ms, w, rest);
      FirstBlanksOf(ms);
      var t := MembersBehind(ms) + end;
      assert s[1..] == ms[0].before + t;
      InsideItems(MEMBER, "}", ms[0].before, t);
    }
    BracketedMeans(DICT, s, Inside(MEMBER, "}", Space(s[1..])));
  }
}
