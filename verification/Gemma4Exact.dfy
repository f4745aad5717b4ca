/** The argument grammar reads the written dictionaries and nothing else: a text is accepted exactly when it begins with
    one, waits for more exactly when it is the beginning of one, and is malformed otherwise. */
module Gemma4Exact {
  import opened Wrappers
  import opened PegMatch
  import PegMapper
  import opened Gemma4Json
  import opened Gemma4Number
  import opened Gemma4Parser
  import opened Gemma4Partial
  import opened Gemma4Writer

  // ---------- classes ----------

  lemma {:induction false} CountSplits(class_: Class, max: Option<nat>, s: string)
    ensures var n := Count(class_, max, s);
      && (forall k :: 0 <= k < n ==> class_.Has(s[k]))
      && (n < |s| && (max.None? || n < max.value) ==> !class_.Has(s[n]))
    decreases |s|
  {
    hide Class.Has;
    if s != "" && max != Some(0) && class_.Has(s[0]) {
      var less := if max.Some? then Some(max.value - 1) else None;
      CountSplits(class_, less, s[1..]);
      var n := Count(class_, less, s[1..]);
      forall k | 0 <= k < n + 1 ensures class_.Has(s[k]) { if k > 0 { assert s[1..][k - 1] == s[k]; } }
    }
  }

  lemma CharsSplit(class_: Class, min: nat, s: string)
    requires Chars(class_, min, None, s).Matched?
    ensures var r := Chars(class_, min, None, s).rest; var t := TextOf(s, r);
      && s == t + r && |t| >= min && (forall k :: 0 <= k < |t| ==> class_.Has(t[k])) && (r != "" ==> !class_.Has(r[0]))
  {
    hide Class.Has;
    CountSplits(class_, None, s);
  }

  lemma CharsShort(class_: Class, s: string)
    ensures Chars(class_, 1, None, s).Short? <==> s == ""
    ensures !Chars(class_, 0, None, s).Short?
  {}

  lemma OneMatched(class_: Class, s: string)
    requires Chars(class_, 1, Some(1), s).Matched?
    ensures s != "" && class_.Has(s[0]) && Chars(class_, 1, Some(1), s).rest == s[1..]
  {
    hide Class.Has;
    if s != "" { OneCharacter(class_, s); }
  }

  lemma OneShort(class_: Class, s: string)
    requires Chars(class_, 1, Some(1), s).Short?
    ensures s == ""
  {
    hide Class.Has;
    if s != "" { OneCharacter(class_, s); }
  }

  // ---------- numbers ----------

  lemma DigitsSplit(s: string)
    ensures Digits(0, s).Matched?
    ensures forall min :: 0 <= min <= 1 && Digits(min, s).Matched? ==>
      var r := Digits(min, s).rest;
      s == TextOf(s, r) + r && |TextOf(s, r)| >= min && forall k :: 0 <= k < |TextOf(s, r)| ==> '0' <= TextOf(s, r)[k] <= '9'
  {
    hide Class.Has;
    CharsShort(DIGIT, s);
    forall min | 0 <= min <= 1 && Digits(min, s).Matched?
      ensures var r := Digits(min, s).rest;
        s == TextOf(s, r) + r && |TextOf(s, r)| >= min && forall k :: 0 <= k < |TextOf(s, r)| ==> '0' <= TextOf(s, r)[k] <= '9'
    {
      CharsSplit(DIGIT, min, s);
      var t := TextOf(s, Digits(min, s).rest);
      forall k | 0 <= k < |t| ensures '0' <= t[k] <= '9' { Classes(t[k]); }
    }
  }

  lemma IntSplit(s: string)
    requires IntPart(s).Matched?
    ensures var r := IntPart(s).rest; var t := TextOf(s, r);
      s == t + r && AllDigits(t) && (t[0] == '0' ==> |t| == 1)
  {
    hide Chars, Class.Has, Digits;
    if !Literal("0", s).Missed? {
      assert "0" <= s;
      assert s[0] == '0' && IntPart(s).rest == s[1..];
    } else {
      OneMatched(FIRST_DIGIT, s);
      Classes(s[0]);
      DigitsSplit(s[1..]);
      var r := Digits(0, s[1..]).rest;
      var t, u := TextOf(s, r), TextOf(s[1..], r);
      assert t == [s[0]] + u;
      forall k | 0 <= k < |t| ensures '0' <= t[k] <= '9' { if k > 0 { assert t[k] == u[k - 1]; } }
    }
  }

  lemma IntShort(s: string)
    requires IntPart(s).Short?
    ensures s == ""
  {
    hide Chars, Class.Has, Digits;
    if Literal("0", s).Missed? {
      var first := Chars(FIRST_DIGIT, 1, Some(1), s);
      if first.Short? { OneShort(FIRST_DIGIT, s); } else if first.Matched? { DigitsSplit(first.rest); }
    }
  }

  lemma FractionSplit(s: string)
    requires Fraction(s).Matched?
    ensures var r := Fraction(s).rest; s != "" && AllDigits(TextOf(s[1..], r)) && s == "." + TextOf(s[1..], r) + r
  {
    hide Digits;
    assert "." <= s && s == "." + s[1..];
    DigitsSplit(s[1..]);
  }

  lemma FractionShort(s: string)
    requires Fraction(s).Short?
    ensures s <= "."
  {
    hide Chars;
    if Literal(".", s).Matched? { CharsShort(DIGIT, s[1..]); }
  }

  predicate PowerOk(e: Power) {
    e.mark in "eE" && (e.sign.Some? ==> e.sign.value in "+-") && AllDigits(e.digits)
  }

  lemma MarkSplit(s: string)
    requires ExponentMark(s).Matched?
    ensures s != "" && s[0] in "eE" && ExponentMark(s).rest == s[1..]
  {
    if Literal("e", s).Missed? { assert "E" <= s; } else { assert "e" <= s; }
  }

  lemma MarkShort(s: string)
    requires ExponentMark(s).Short?
    ensures s == ""
  {}

  /** The optional sign is never short. */
  lemma SignSplit(s: string) returns (sign: Option<char>)
    ensures var m := Optional(Chars(EXPONENT_SIGN, 1, Some(1), s), s);
      m.Matched? && (sign.Some? ==> sign.value in "+-") && s == (if sign.Some? then [sign.value] else "") + m.rest
  {
    hide Chars, Class.Has;
    sign := None;
    var m := Chars(EXPONENT_SIGN, 1, Some(1), s);
    if s != "" && m.Matched? {
      OneMatched(EXPONENT_SIGN, s);
      Classes(s[0]);
      sign := Some(s[0]);
      assert s == [s[0]] + s[1..];
    } else if s != "" && m.Short? {
      OneShort(EXPONENT_SIGN, s);
    }
  }

  /** An exponent that is complete, or one that is begun. */
  lemma ExponentSplit(s: string) returns (e: Power)
    requires Exponent(s).Matched?
    ensures PowerOk(e) && s == PowerText(e) + Exponent(s).rest
  {
    hide Chars, ExponentMark, Optional, Digits, PowerText;
    MarkSplit(s);
    var sign := SignSplit(s[1..]);
    var r := Optional(Chars(EXPONENT_SIGN, 1, Some(1), s[1..]), s[1..]).rest;
    DigitsSplit(r);
    var rest := Exponent(s).rest;
    e := Power(s[0], sign, TextOf(r, rest));
    FirstAndRest(s);
    PowerParts(e, rest);
  }

  lemma FirstAndRest(s: string)
    requires s != ""
    ensures s == [s[0]] + s[1..]
  {}

  lemma PowerParts(e: Power, rest: string)
    ensures PowerText(e) + rest == [e.mark] + ((if e.sign.Some? then [e.sign.value] else "") + (e.digits + rest))
  {}

  lemma ExponentBegun(s: string) returns (e: Power)
    requires Exponent(s).Short?
    ensures PowerOk(e) && s <= PowerText(e)
  {
    hide Chars, ExponentMark, Optional, Class.Has;
    if ExponentMark(s).Short? {
      MarkShort(s);
      e := Power('e', None, "0");
    } else {
      MarkSplit(s);
      var sign := SignSplit(s[1..]);
      var r := Optional(Chars(EXPONENT_SIGN, 1, Some(1), s[1..]), s[1..]).rest;
      CharsShort(DIGIT, r);
      e := Power(s[0], sign, "0");
      assert s == [s[0]] + s[1..];
    }
  }

  lemma EndSplit(s: string)
    requires NumberEnd(s).Matched?
    ensures NumberEnd(s).rest == s && Stops(s)
  {
    hide Chars, Class.Has;
    if s == "" { NothingEnds(); } else { OneCharacter(IN_NUMBER, s); Classes(s[0]); }
  }

  lemma NothingEnds()
    ensures NumberEnd("").Short?
  {}

  lemma EndBegun(s: string)
    requires NumberEnd(s).Short?
    ensures s == ""
  {
    hide Chars, Class.Has;
    var next := Chars(IN_NUMBER, 1, Some(1), s);
    if next.Short? { OneShort(IN_NUMBER, s); }
  }

  function PowerPart(e: Option<Power>): string {
    if e.Some? then PowerText(e.value) else ""
  }

  function FractionPart(f: Option<string>): string {
    if f.Some? then "." + f.value else ""
  }

  lemma AfterFractionSplit(s: string) returns (e: Option<Power>)
    requires AfterFraction(s).Matched?
    ensures (e.Some? ==> PowerOk(e.value)) && s == PowerPart(e) + AfterFraction(s).rest && Stops(AfterFraction(s).rest)
  {
    hide Exponent, NumberEnd, PowerText, Stops;
    e := None;
    if s != "" && Exponent(s).Matched? {
      var p := ExponentSplit(s);
      e := Some(p);
      EndSplit(Exponent(s).rest);
    } else {
      EndSplit(s);
    }
  }

  lemma AfterFractionBegun(s: string) returns (e: Option<Power>)
    requires AfterFraction(s).Short?
    ensures (e.Some? ==> PowerOk(e.value)) && s <= PowerPart(e)
  {
    hide Exponent, NumberEnd, PowerText;
    e := None;
    if s != "" {
      if Exponent(s).Short? {
        var p := ExponentBegun(s);
        e := Some(p);
      } else if Exponent(s).Matched? {
        var p := ExponentSplit(s);
        e := Some(p);
        EndBegun(Exponent(s).rest);
      } else {
        EndBegun(s);
      }
    }
  }

  lemma AfterIntSplit(s: string) returns (f: Option<string>, e: Option<Power>)
    requires AfterInt(s).Matched?
    ensures (f.Some? ==> AllDigits(f.value)) && (e.Some? ==> PowerOk(e.value))
    ensures s == FractionPart(f) + (PowerPart(e) + AfterInt(s).rest) && Stops(AfterInt(s).rest)
  {
    hide Fraction, AfterFraction, PowerPart, Stops;
    f := None;
    if s != "" && Fraction(s).Matched? {
      FractionSplit(s);
      var r := Fraction(s).rest;
      f := Some(TextOf(s[1..], r));
      e := AfterFractionSplit(r);
    } else {
      e := AfterFractionSplit(s);
    }
  }

  lemma AfterIntBegun(s: string) returns (f: Option<string>, e: Option<Power>)
    requires AfterInt(s).Short?
    ensures (f.Some? ==> AllDigits(f.value)) && (e.Some? ==> PowerOk(e.value))
    ensures s <= FractionPart(f) + PowerPart(e)
  {
    hide Fraction, AfterFraction, PowerPart;
    f, e := None, None;
    if s != "" && Fraction(s).Matched? {
      FractionSplit(s);
      var r := Fraction(s).rest;
      f := Some(TextOf(s[1..], r));
      e := AfterFractionBegun(r);
      Under(FractionPart(f), r, PowerPart(e));
    } else if s != "" && Fraction(s).Short? {
      FractionShort(s);
      f := Some("0");
    } else {
      e := AfterFractionBegun(s);
      assert "" + PowerPart(e) == PowerPart(e);
    }
  }

  lemma MinusSplit(s: string) returns (minus: bool)
    ensures var m := Optional(Literal("-", s), s);
      m.Matched? && s == (if minus then "-" else "") + m.rest && (minus ==> s != "" && s[0] == '-')
  {
    minus := "-" <= s;
    assert minus ==> s == "-" + s[1..];
    assert s != "" && s <= "-" ==> s == "-";
  }

  /** A number that is read is a written number. */
  lemma NumberSplit(s: string) returns (n: Numeral)
    requires Number(s).Matched?
    ensures NumeralOk(n) && s == NumeralText(n) + Number(s).rest && Stops(Number(s).rest)
  {
    hide IntPart, AfterInt, Literal, Optional, PowerPart, Stops, AllDigits;
    var minus := MinusSplit(s);
    var t := Optional(Literal("-", s), s).rest;
    IntSplit(t);
    var r := IntPart(t).rest;
    var f, e := AfterIntSplit(r);
    n := Numeral(minus, TextOf(t, r), f, e);
    NumberShown(n, Number(s).rest);
    NumeralParts(n);
  }

  lemma NumeralParts(n: Numeral)
    requires AllDigits(n.whole) && (n.whole[0] == '0' ==> |n.whole| == 1)
    requires (n.fraction.Some? ==> AllDigits(n.fraction.value)) && (n.exponent.Some? ==> PowerOk(n.exponent.value))
    ensures NumeralOk(n)
  {}

  lemma NumberShown(n: Numeral, rest: string)
    ensures NumeralText(n) + rest ==
      (if n.minus then "-" else "") + (n.whole + (FractionPart(n.fraction) + (PowerPart(n.exponent) + rest)))
  {
    hide PowerText;
  }

  /** One that waits for more is the beginning of a written number. */
  lemma NumberBegun(s: string) returns (n: Numeral)
    requires Number(s).Short?
    ensures NumeralOk(n) && s <= NumeralText(n)
  {
    hide IntPart, AfterInt, Literal, Optional, PowerPart, NumeralText, NumeralOk;
    var minus := MinusSplit(s);
    var sign := if minus then "-" else "";
    var t := Optional(Literal("-", s), s).rest;
    if IntPart(t).Short? {
      IntShort(t);
      n := Numeral(minus, "0", None, None);
      ZeroBegun(minus);
    } else {
      IntSplit(t);
      var r := IntPart(t).rest;
      var f, e := AfterIntBegun(r);
      n := Numeral(minus, TextOf(t, r), f, e);
      NumeralParts(n);
      NumberShown(n, "");
      assert NumeralText(n) + "" == NumeralText(n) && PowerPart(e) + "" == PowerPart(e);
      Under(n.whole, r, FractionPart(f) + PowerPart(e));
      Under(sign, n.whole + r, n.whole + (FractionPart(f) + PowerPart(e)));
    }
  }

  lemma ZeroBegun(minus: bool)
    ensures var n := Numeral(minus, "0", None, None); NumeralOk(n) && (if minus then "-" else "") <= NumeralText(n)
  {}

  // ---------- strings, words and keys ----------

  lemma NotWithin(words: seq<string>, r: string, k: nat)
    requires |words| == 1 && words[0] != "" && k <= |r| && forall j :: 0 <= j < k ==> CheckAt(words, r[j..]) == Absent
    ensures Without(words[0], r[..k])
  {
    forall j | 0 <= j < k ensures !(words[0] <= r[..k][j..]) {
      assert r[j..] == r[..k][j..] + r[k..];
      assert CheckAt(words, r[j..]) == Absent && !(words[0] <= r[j..]);
    }
  }

  /** The text behind the opening quote, up to the next quote or its beginning, and from there on. */
  lemma StringParts(s: string)
    requires Literal(QUOTE, s).Matched?
    ensures var r := Literal(QUOTE, s).rest; var k := Until([QUOTE], r);
      s == QUOTE + r && Without(QUOTE, r[..k]) && r == r[..k] + r[k..]
  {
    hide Until, Without, CheckAt;
    var r := Literal(QUOTE, s).rest;
    NotWithin([QUOTE], r, Until([QUOTE], r));
  }

  lemma StringShape(s: string)
    ensures var first := Literal(QUOTE, s);
      if !first.Matched? then (StringRule(s).More? <==> first.Short?) && !StringRule(s).Done?
      else
        var k := Until([QUOTE], first.rest);
        var last := Literal(QUOTE, first.rest[k..]);
        && (StringRule(s).Done? ==> last == Matched(StringRule(s).rest))
        && (StringRule(s).More? ==> k == |first.rest| || last.Short?)
  {
    hide Until, Literal;
  }

  lemma LiteralParts(l: string, s: string)
    ensures Literal(l, s).Matched? ==> s == l + Literal(l, s).rest
    ensures Literal(l, s).Short? ==> s <= l
  {}

  lemma StringSplit(s: string) returns (t: string)
    requires StringRule(s).Done?
    ensures Without(QUOTE, t) && s == QUOTE + t + QUOTE + StringRule(s).rest
  {
    hide Until, Without, Literal, StringRule;
    StringShape(s);
    StringParts(s);
    var r := Literal(QUOTE, s).rest;
    var k := Until([QUOTE], r);
    t := r[..k];
    LiteralParts(QUOTE, r[k..]);
    InsideQuotes(t, StringRule(s).rest);
  }

  lemma InsideQuotes(t: string, rest: string)
    ensures QUOTE + (t + (QUOTE + rest)) == QUOTE + t + QUOTE + rest
  {}

  lemma StringBegun(s: string) returns (t: string)
    requires StringRule(s).More?
    ensures Without(QUOTE, t) && s <= QUOTE + t + QUOTE
  {
    hide Until, Without, Literal, StringRule;
    StringShape(s);
    LiteralParts(QUOTE, s);
    if Literal(QUOTE, s).Short? {
      t := "";
      NothingWithin();
      ShortQuoteBegins(s);
    } else {
      StringParts(s);
      var r := Literal(QUOTE, s).rest;
      var k := Until([QUOTE], r);
      t := r[..k];
      LiteralParts(QUOTE, r[k..]);
      QuoteBegun(t, r[k..]);
    }
  }

  lemma ShortQuoteBegins(s: string)
    requires s <= QUOTE
    ensures s <= QUOTE + "" + QUOTE
  {}

  lemma QuoteBegun(t: string, x: string)
    requires x <= QUOTE
    ensures QUOTE + (t + x) <= QUOTE + t + QUOTE
  {
    assert QUOTE + (t + x) == QUOTE + t + x;
    Under(QUOTE + t, x, QUOTE);
  }

  lemma NothingWithin()
    ensures Without(QUOTE, "")
  {}

  predicate NameOk(k: string) {
    k != "" && forall j :: 0 <= j < |k| ==> k[j] != ':' && k[j] != '}'
  }

  lemma KeySplit(s: string) returns (k: string)
    requires KeyRule(s).Done?
    ensures NameOk(k) && s == k + (":" + KeyRule(s).rest)
  {
    hide Chars, Class.Has;
    var r := Chars(IN_KEY, 1, None, s).rest;
    CharsSplit(IN_KEY, 1, s);
    k := TextOf(s, r);
    forall j | 0 <= j < |k| ensures k[j] != ':' && k[j] != '}' { Classes(k[j]); }
    assert r == ":" + KeyRule(s).rest;
  }

  lemma KeyBegun(s: string) returns (k: string)
    requires KeyRule(s).More?
    ensures NameOk(k) && s <= k + ":" && (if s == "" then k == "k" else k[0] == s[0])
  {
    hide Class.Has;
    if Chars(IN_KEY, 1, None, s).Short? {
      k := "k";
    } else {
      var r := Chars(IN_KEY, 1, None, s).rest;
      CharsSplit(IN_KEY, 1, s);
      k := TextOf(s, r);
      hide Chars;
      forall j | 0 <= j < |k| ensures k[j] != ':' && k[j] != '}' { Classes(k[j]); }
      assert r <= ":";
      Under(k, r, ":");
    }
  }

  lemma WordSplit(s: string) returns (w: Word)
    requires s != "" && s[0] in "tfn" && Payload(s).Done?
    ensures s == WordText(w) + Payload(s).rest
  {
    hide Payload;
    PayloadIs(s);
    w := if s[0] == 'n' then Null else if s[0] == 't' then True else False;
    WordWhole(w, s);
  }

  lemma WordWhole(w: Word, s: string)
    requires s != "" && s[0] == WordText(w)[0] && PayloadBy(s[0], s).Done?
    ensures s == WordText(w) + PayloadBy(s[0], s).rest
  {
    hide Literal;
    if s[0] == 'f' { LiteralMissed("true", s); }
    if s[0] == 't' { LiteralMissed("false", s); }
    LiteralParts(WordText(w), s);
  }

  lemma LiteralMissed(l: string, s: string)
    requires l != "" && s != "" && s[0] != l[0]
    ensures Literal(l, s).Missed?
  {}

  lemma WordBegun(s: string) returns (w: Word)
    requires s != "" && s[0] in "tfn" && Payload(s).More?
    ensures s <= WordText(w)
  {
    hide Payload;
    PayloadIs(s);
    w := if s[0] == 'n' then Null else if s[0] == 't' then True else False;
  }

  // ---------- white space ----------

  lemma {:induction false} SkippedIsBlank(s: string, k: nat)
    requires k < |s| - |Space(s)|
    ensures PegMapper.IsSpace(s[k])
    decreases k
  {
    hide PegMapper.IsSpace;
    if k > 0 {
      assert s[k] == s[1..][k - 1];
      SkippedIsBlank(s[1..], k - 1);
    }
  }

  lemma SpaceSplit(s: string) returns (w: string)
    ensures Blanks(w) && s == w + Space(s) && (Space(s) == "" || !PegMapper.IsSpace(Space(s)[0]))
  {
    hide PegMapper.IsSpace, Space;
    w := TextOf(s, Space(s));
    forall k | 0 <= k < |w| ensures PegMapper.IsSpace(w[k]) { SkippedIsBlank(s, k); }
  }

  // ---------- lists and dictionaries ----------

  function Moved(i: GItem, w: string): GItem { i.(before := w) }

  function MovedMember(m: GMember, w: string): GMember { m.(before := w) }

  lemma OneItem(v: GValue)
    requires GOk(v)
    ensures var vs := [GItem("", v)]; AllGOk(vs) && ItemsBehind(vs) == Spelled(v)
  {
    hide GOk, Spelled;
    assert [GItem("", v)][1..] == [];
  }

  lemma ItemAndMore(v: GValue, w: string, vs: seq<GItem>)
    requires GOk(v) && Blanks(w) && vs != [] && AllGOk(vs)
    ensures var all := [GItem("", v), Moved(vs[0], w)] + vs[1..];
      AllGOk(all) && ItemsBehind(all) == Spelled(v) + ("," + (w + ItemsBehind(vs)))
  {
    hide GOk, Spelled, Blanks;
    var more := [Moved(vs[0], w)] + vs[1..];
    var all := [GItem("", v), Moved(vs[0], w)] + vs[1..];
    NoBlanks();
    assert all[1..] == more && more[1..] == vs[1..];
    assert ItemGOk(more[0]) && AllGOk(more);
    ItemsAre(more);
    assert ItemsBehind(more) == ItemsBehind(vs);
  }

  lemma NoBlanks()
    ensures Blanks("")
  {}

  lemma OnePair(m: GMember)
    requires MemberGOk(m)
    ensures MembersGOk([m]) && MembersBehind([m]) == KeyAndValue(m)
  {
    hide MemberGOk, KeyAndValue;
    assert [m][1..] == [];
  }

  lemma PairAndMore(m: GMember, w: string, ms: seq<GMember>)
    requires MemberGOk(m) && Blanks(w) && ms != [] && MembersGOk(ms)
    ensures var all := [m, MovedMember(ms[0], w)] + ms[1..];
      MembersGOk(all) && MembersBehind(all) == KeyAndValue(m) + ("," + (w + MembersBehind(ms)))
  {
    hide Blanks, GOk, KeyOk, Spelled;
    var more := [MovedMember(ms[0], w)] + ms[1..];
    var all := [m, MovedMember(ms[0], w)] + ms[1..];
    assert all[1..] == more && more[1..] == ms[1..];
    assert MemberGOk(more[0]) && MembersGOk(more);
    MembersAre(more);
    assert KeyAndValue(more[0]) == KeyAndValue(ms[0]);
    assert MembersBehind(more) == MembersBehind(ms);
  }

  // ---------- what is read is written ----------

  lemma {:induction false} PayloadSplit(s: string) returns (v: GValue)
    requires Payload(s).Done?
    ensures GOk(v) && s == Spelled(v) + Payload(s).rest
    ensures s != "" && !PegMapper.IsSpace(s[0])
    decreases |s|, 1
  {
    hide Payload, StringRule, Number, BoolRule, NumeralOk, Without, DictRule, ArrayRule, Literal;
    NotNothing(s);
    PayloadIs(s);
    var rest := Payload(s).rest;
    FirstIsNoSpace(s);
    if s[0] == '<' {
      var t := StringSplit(s);
      v := GText(t);
    } else if s[0] == '{' {
      var ms, w := DictSplit(s);
      v := GDict(ms, w);
    } else if s[0] == '[' {
      var vs, w := ListSplit(s);
      v := GList(vs, w);
    } else if s[0] in "-0123456789" {
      var n := NumberSplit(s);
      v := GNumber(n);
    } else {
      var w := WordSplit(s);
      v := GWord(w);
    }
  }

  lemma NotNothing(s: string)
    requires Payload(s).Done?
    ensures s != ""
  {
    hide Payload;
  }

  lemma FirstIsNoSpace(s: string)
    requires s != "" && PayloadBy(s[0], s).Done?
    ensures !PegMapper.IsSpace(s[0]) && s[0] in "<{[-0123456789tfn"
  {
    hide StringRule, DictRule, ArrayRule, Number;
    if s[0] !in "<{[-0123456789tf" && s[0] != 'n' { LiteralMissed("null", s); }
  }

  lemma {:induction false} ListSplit(s: string) returns (vs: seq<GItem>, w: string)
    requires s != "" && ArrayRule(s).Done?
    ensures AllGOk(vs) && Blanks(w) && s == "[" + SpelledItems(vs) + w + "]" + ArrayRule(s).rest
    decreases |s|, 0
  {
    hide Inside, Space, Onwards, Blanks, ArrayRule, AllGOk, SpelledItems, ItemsBehind;
    BracketIs(ELEMENT, s);
    var b := SpaceSplit(s[1..]);
    var x, rest := Space(s[1..]), ArrayRule(s).rest;
    InsideSplit(ELEMENT, "]", x);
    if Literal("]", x).Missed? {
      var items, end := ItemsSplit(x);
      vs, w := [Moved(items[0], b)] + items[1..], end;
      MoveItem(items, b);
      ItemsAre(vs);
      Assemble("[", s, b, ItemsBehind(items), w, "]", rest);
    } else {
      vs, w := [], b;
      NothingSpelled();
      NoItemsOk();
      Assemble("[", s, "", "", b, "]", rest);
      assert "" + "" == "";
    }
  }

  lemma NoItemsOk()
    ensures AllGOk([]) && MembersGOk([])
  {}

  lemma MoveItem(vs: seq<GItem>, w: string)
    requires vs != [] && AllGOk(vs) && Blanks(w)
    ensures var all := [Moved(vs[0], w)] + vs[1..]; AllGOk(all) && ItemsBehind(all) == ItemsBehind(vs)
  {
    hide GOk, Spelled, Blanks;
    var all := [Moved(vs[0], w)] + vs[1..];
    assert all[1..] == vs[1..];
    assert ItemGOk(all[0]);
  }

  lemma MoveMember(ms: seq<GMember>, w: string)
    requires ms != [] && MembersGOk(ms) && Blanks(w)
    ensures var all := [MovedMember(ms[0], w)] + ms[1..]; MembersGOk(all) && MembersBehind(all) == MembersBehind(ms)
  {
    hide GOk, Spelled, Blanks, KeyOk;
    var all := [MovedMember(ms[0], w)] + ms[1..];
    assert all[1..] == ms[1..];
    assert MemberGOk(all[0]);
    assert KeyAndValue(all[0]) == KeyAndValue(ms[0]);
  }

  lemma Assemble(open: string, s: string, b: string, x: string, w: string, close: string, rest: string)
    requires |open| == 1 && s != "" && s[0] == open[0] && s[1..] == b + (x + (w + (close + rest)))
    ensures s == open + (b + x) + w + close + rest
  {
    assert s == open + s[1..];
  }

  /** Behind the bracket: the end, or something else. */
  lemma InsideSplit(kind: Kind, close: string, x: string)
    requires Inside(kind, close, x).Closed?
    ensures if Literal(close, x).Missed? then Inside(kind, close, x) == Onwards(kind, close, x)
      else x == close + Inside(kind, close, x).rest
  {
    hide Onwards;
  }

  predicate GoesOn(kind: Kind, close: string, s: string, w: string) {
    var r := AfterComma(s);
    r.Some? && s == "," + (w + r.value) && Tail(kind, close, s) == Onwards(kind, close, r.value)
  }

  lemma EndThere(close: string, s: string, rest: string)
    requires AtEnd(close, s) == Closed([], rest)
    ensures Space(s) == close + rest
  {
    hide Space;
  }

  /** Behind an item: the end, or a comma and more. */
  lemma TailSplit(kind: Kind, close: string, s: string) returns (w: string)
    requires Tail(kind, close, s).Closed?
    ensures Blanks(w)
    ensures s == w + (close + Tail(kind, close, s).rest) || GoesOn(kind, close, s, w)
    ensures AfterComma(s).Some? && AfterComma(s).value != "" ==> !PegMapper.IsSpace(AfterComma(s).value[0])
  {
    hide Onwards, Item, Space, Blanks, PegMapper.IsSpace;
    CommaIs(s);
    if AfterComma(s).Some? { var x := SpaceSplit(s[1..]); }
    if AfterComma(s).None? || Item(kind, AfterComma(s).value).Malformed? {
      var rest := Tail(kind, close, s).rest;
      assert AtEnd(close, s) == Closed([], rest);
      hide Tail, GoesOn;
      w := SpaceSplit(s);
      EndThere(close, s, rest);
    } else {
      w := SpaceSplit(s[1..]);
      assert s == "," + s[1..];
    }
  }

  lemma {:induction false} ItemsSplit(s: string) returns (vs: seq<GItem>, w: string)
    requires Onwards(ELEMENT, "]", s).Closed?
    ensures vs != [] && AllGOk(vs) && Blanks(w)
    ensures s == ItemsBehind(vs) + (w + ("]" + Onwards(ELEMENT, "]", s).rest))
    decreases |s|, 4
  {
    hide Tail, Blanks, AllGOk, ItemsBehind, GOk, Spelled, Payload;
    var r, rest := Item(ELEMENT, s).rest, Onwards(ELEMENT, "]", s).rest;
    OnwardsDone(ELEMENT, "]", s);
    ValueIs(s);
    var v := PayloadSplit(s);
    var b := TailSplit(ELEMENT, "]", r);
    if r == b + ("]" + rest) {
      vs, w := [GItem("", v)], b;
      OneItem(v);
    } else {
      var x := AfterComma(r).value;
      var more, end := ItemsSplit(x);
      vs, w := [GItem("", v), Moved(more[0], b)] + more[1..], end;
      ItemAndMore(v, b, more);
      Regroup(Spelled(v), b, ItemsBehind(more), w + ("]" + rest));
    }
  }

  lemma Regroup(a: string, w: string, b: string, end: string)
    ensures a + ("," + (w + (b + end))) == a + ("," + (w + b)) + end
  {}

  lemma OnwardsDone(kind: Kind, close: string, s: string)
    requires Onwards(kind, close, s).Closed?
    ensures Item(kind, s).Done? && Tail(kind, close, Item(kind, s).rest).Closed?
    ensures Tail(kind, close, Item(kind, s).rest).rest == Onwards(kind, close, s).rest
  {
    hide Item, Tail;
  }

  lemma ValueIs(s: string)
    ensures Item(ELEMENT, s).Done? ==> Payload(s).Done? && Payload(s).rest == Item(ELEMENT, s).rest
    ensures Item(ELEMENT, s).More? ==> Payload(s).More?
  {
    hide ValueRule;
    assert Item(ELEMENT, s) == ValueRule(s);
    ValueRuleIs(s);
  }

  lemma ValueRuleIs(s: string)
    ensures ValueRule(s).Done? ==> Payload(s).Done? && Payload(s).rest == ValueRule(s).rest
    ensures ValueRule(s).More? ==> Payload(s).More?
  {
    hide Payload;
  }

  lemma {:induction false} MembersSplit(s: string) returns (ms: seq<GMember>, w: string)
    requires Onwards(MEMBER, "}", s).Closed? && (s == "" || !PegMapper.IsSpace(s[0]))
    ensures ms != [] && MembersGOk(ms) && Blanks(w)
    ensures s == MembersBehind(ms) + (w + ("}" + Onwards(MEMBER, "}", s).rest))
    decreases |s|, 4
  {
    hide Tail, Blanks, MembersGOk, MembersBehind, MemberGOk, KeyAndValue, KvRule, PegMapper.IsSpace;
    var r, rest := Item(MEMBER, s).rest, Onwards(MEMBER, "}", s).rest;
    OnwardsDone(MEMBER, "}", s);
    var m := KvSplit(s);
    var b := TailSplit(MEMBER, "}", r);
    if r == b + ("}" + rest) {
      ms, w := [m], b;
      OnePair(m);
    } else {
      var x := AfterComma(r).value;
      var more, end := MembersSplit(x);
      ms, w := [m, MovedMember(more[0], b)] + more[1..], end;
      PairAndMore(m, b, more);
      Regroup(KeyAndValue(m), b, MembersBehind(more), w + ("}" + rest));
    }
  }

  lemma {:induction false} KvSplit(s: string) returns (m: GMember)
    requires KvRule(s).Done? && (s == "" || !PegMapper.IsSpace(s[0]))
    ensures MemberGOk(m) && s == KeyAndValue(m) + KvRule(s).rest
    decreases |s|, 2
  {
    hide KeyRule, Payload, Blanks, KeyOk, GOk, Spelled, Space, PegMapper.IsSpace, NameOk;
    var k := KeySplit(s);
    KeyInFront(k, s);
    var r := KeyRule(s).rest;
    var b := SpaceSplit(r);
    ValueIs(Space(r));
    var v := PayloadSplit(Space(r));
    m := GMember("", k, b, v);
    NoBlanks();
    var rest := KvRule(s).rest;
    assert k + (":" + (b + (Spelled(v) + rest))) == k + ":" + (b + Spelled(v)) + rest;
  }

  lemma KeyInFront(k: string, s: string)
    requires NameOk(k) && k <= s && !PegMapper.IsSpace(s[0])
    ensures KeyOk(k)
  {
    hide PegMapper.IsSpace;
    assert k[0] == s[0];
  }

  lemma {:induction false} DictSplit(s: string) returns (ms: seq<GMember>, w: string)
    requires s != "" && DictRule(s).Done?
    ensures MembersGOk(ms) && Blanks(w) && s == "{" + SpelledMembers(ms) + w + "}" + DictRule(s).rest
    decreases |s|, 0
  {
    hide Inside, Space, Onwards, Blanks, DictRule, MembersGOk, SpelledMembers, MembersBehind;
    BracketIs(MEMBER, s);
    var b := SpaceSplit(s[1..]);
    var x, rest := Space(s[1..]), DictRule(s).rest;
    InsideSplit(MEMBER, "}", x);
    if Literal("}", x).Missed? {
      var members, end := MembersSplit(x);
      ms, w := [MovedMember(members[0], b)] + members[1..], end;
      MoveMember(members, b);
      MembersAre(ms);
      Assemble("{", s, b, MembersBehind(members), w, "}", rest);
    } else {
      ms, w := [], b;
      NothingSpelled();
      NoItemsOk();
      Assemble("{", s, "", "", b, "}", rest);
      assert "" + "" == "";
    }
  }

  // ---------- what waits for more is the beginning of something written ----------

  lemma {:induction false} PayloadBegun(s: string) returns (v: GValue)
    requires Payload(s).More?
    ensures GOk(v) && s <= Spelled(v)
    decreases |s|, 1
  {
    hide Payload, StringRule, Number, BoolRule, NumeralOk, Without, DictRule, ArrayRule, Literal;
    hide NumeralText, WordText, AllGOk, MembersGOk, SpelledItems, SpelledMembers, Blanks, Spelled, GOk, PayloadBy;
    if s == "" {
      v := GWord(Null);
    } else {
      KindsBegun(s);
      if s[0] == '<' {
        var t := StringBegun(s);
        v := GText(t);
      } else if s[0] == '{' {
        var ms, w := DictBegun(s);
        v := GDict(ms, w);
      } else if s[0] == '[' {
        var vs, w := ListBegun(s);
        v := GList(vs, w);
      } else if s[0] in "-0123456789" {
        var n := NumberBegun(s);
        v := GNumber(n);
      } else {
        var w := WordBegun(s);
        v := GWord(w);
      }
    }
    SpelledAs(v);
  }

  lemma SpelledAs(v: GValue)
    ensures match v
      case GNumber(n) => Spelled(v) == NumeralText(n) && (NumeralOk(n) ==> GOk(v))
      case GWord(w) => Spelled(v) == WordText(w) && GOk(v)
      case GText(t) => Spelled(v) == QUOTE + t + QUOTE && (Without(QUOTE, t) ==> GOk(v))
      case GList(vs, w) => Spelled(v) == "[" + SpelledItems(vs) + w + "]" && (AllGOk(vs) && Blanks(w) ==> GOk(v))
      case GDict(ms, w) => Spelled(v) == "{" + SpelledMembers(ms) + w + "}" && (MembersGOk(ms) && Blanks(w) ==> GOk(v))
  {
    hide Without, NumeralOk, AllGOk, MembersGOk, NumeralText;
  }

  lemma KindsBegun(s: string)
    requires s != "" && Payload(s).More?
    ensures match s[0]
      case '<' => StringRule(s).More?
      case '{' => DictRule(s).More?
      case '[' => ArrayRule(s).More?
      case c => if c in "-0123456789" then Number(s).Short? else c in "tfn"
  {
    hide Payload, StringRule, DictRule, ArrayRule, Number;
    PayloadIs(s);
    if s[0] !in "<{[-0123456789tf" && s[0] != 'n' { LiteralMissed("null", s); }
  }

  lemma {:induction false} ListBegun(s: string) returns (vs: seq<GItem>, w: string)
    requires s != "" && ArrayRule(s).More?
    ensures AllGOk(vs) && Blanks(w) && s <= "[" + SpelledItems(vs) + w + "]"
    decreases |s|, 0
  {
    hide Inside, Space, Onwards, Blanks, ArrayRule, AllGOk, SpelledItems, ItemsBehind;
    BracketIs(ELEMENT, s);
    var b := SpaceSplit(s[1..]);
    var x := Space(s[1..]);
    InsideBegun(ELEMENT, "]", x);
    if Literal("]", x).Missed? {
      var items, end := ItemsBegun(x);
      vs, w := [Moved(items[0], b)] + items[1..], end;
      MoveItem(items, b);
      ItemsAre(vs);
      AssembleBegun("[", s, b, x, ItemsBehind(items), w, "]");
    } else {
      vs, w := [], b;
      NothingSpelled();
      NoItemsOk();
      AssembleBegun("[", s, "", b, "", b, "]");
      assert "" + "" == "";
    }
  }

  lemma AssembleBegun(open: string, s: string, b: string, x: string, y: string, w: string, close: string)
    requires |open| == 1 && s != "" && s[0] == open[0] && s[1..] == b + x && x <= y + (w + close)
    ensures s <= open + (b + y) + w + close
  {
    assert s == open + s[1..];
    Under(b, x, y + (w + close));
    Under(open, b + x, b + (y + (w + close)));
    assert open + (b + (y + (w + close))) == open + (b + y) + w + close;
  }

  lemma InsideBegun(kind: Kind, close: string, x: string)
    requires Inside(kind, close, x).Unclosed? && |close| == 1
    ensures if Literal(close, x).Missed? then Inside(kind, close, x) == Onwards(kind, close, x) else x == ""
  {
    hide Onwards;
  }

  lemma NoMoreInput(close: string, s: string)
    requires AtEnd(close, s).Unclosed? && |close| == 1
    ensures Space(s) == ""
  {
    hide Space;
  }

  lemma TailBegun(kind: Kind, close: string, s: string) returns (w: string)
    requires Tail(kind, close, s).Unclosed? && |close| == 1
    ensures Blanks(w) && (s == w || GoesOn(kind, close, s, w))
    ensures AfterComma(s).Some? && AfterComma(s).value != "" ==> !PegMapper.IsSpace(AfterComma(s).value[0])
  {
    hide Onwards, Item, Space, Blanks, PegMapper.IsSpace;
    CommaIs(s);
    if AfterComma(s).Some? { var x := SpaceSplit(s[1..]); }
    if AfterComma(s).None? || Item(kind, AfterComma(s).value).Malformed? {
      assert AtEnd(close, s).Unclosed?;
      hide Tail;
      w := SpaceSplit(s);
      NoMoreInput(close, s);
    } else {
      w := SpaceSplit(s[1..]);
      assert s == "," + s[1..];
    }
  }

  lemma OnwardsBegun(kind: Kind, close: string, s: string)
    requires Onwards(kind, close, s).Unclosed?
    ensures Item(kind, s).More? || (Item(kind, s).Done? && Tail(kind, close, Item(kind, s).rest).Unclosed?)
  {
    hide Item, Tail;
  }

  lemma {:induction false} ItemsBegun(s: string) returns (vs: seq<GItem>, w: string)
    requires Onwards(ELEMENT, "]", s).Unclosed?
    ensures vs != [] && AllGOk(vs) && Blanks(w) && s <= ItemsBehind(vs) + (w + "]")
    decreases |s|, 4
  {
    hide Tail, Blanks, AllGOk, ItemsBehind, GOk, Spelled, Payload;
    OnwardsBegun(ELEMENT, "]", s);
    ValueIs(s);
    if Item(ELEMENT, s).More? {
      var v := PayloadBegun(s);
      vs, w := [GItem("", v)], "";
      OneItem(v);
      NoBlanks();
    } else {
      var r := Item(ELEMENT, s).rest;
      var v := PayloadSplit(s);
      var b := TailBegun(ELEMENT, "]", r);
      if r == b {
        vs, w := [GItem("", v)], b;
        OneItem(v);
        assert Spelled(v) + b + "]" == Spelled(v) + (b + "]");
      } else {
        var x := AfterComma(r).value;
        var more, end := ItemsBegun(x);
        vs, w := [GItem("", v), Moved(more[0], b)] + more[1..], end;
        ItemAndMore(v, b, more);
        RegroupBegun(Spelled(v), b, x, ItemsBehind(more), w + "]");
      }
    }
  }

  lemma RegroupBegun(a: string, w: string, x: string, b: string, end: string)
    requires x <= b + end
    ensures a + ("," + (w + x)) <= a + ("," + (w + b)) + end
  {
    Under(w, x, b + end);
    Under(",", w + x, w + (b + end));
    Under(a, "," + (w + x), "," + (w + (b + end)));
    Regroup(a, w, b, end);
  }

  lemma {:induction false} MembersBegun(s: string) returns (ms: seq<GMember>, w: string)
    requires Onwards(MEMBER, "}", s).Unclosed? && (s == "" || !PegMapper.IsSpace(s[0]))
    ensures ms != [] && MembersGOk(ms) && Blanks(w) && s <= MembersBehind(ms) + (w + "}")
    decreases |s|, 4
  {
    hide Tail, Blanks, MembersGOk, MembersBehind, MemberGOk, KeyAndValue, KvRule, PegMapper.IsSpace;
    OnwardsBegun(MEMBER, "}", s);
    if Item(MEMBER, s).More? {
      var m := KvBegun(s);
      ms, w := [m], "";
      OnePair(m);
      NoBlanks();
    } else {
      var r := Item(MEMBER, s).rest;
      var m := KvSplit(s);
      var b := TailBegun(MEMBER, "}", r);
      if r == b {
        ms, w := [m], b;
        OnePair(m);
        assert KeyAndValue(m) + b + "}" == KeyAndValue(m) + (b + "}");
      } else {
        var x := AfterComma(r).value;
        var more, end := MembersBegun(x);
        ms, w := [m, MovedMember(more[0], b)] + more[1..], end;
        PairAndMore(m, b, more);
        RegroupBegun(KeyAndValue(m), b, x, MembersBehind(more), w + "}");
      }
    }
  }

  lemma {:induction false} KvBegun(s: string) returns (m: GMember)
    requires KvRule(s).More? && (s == "" || !PegMapper.IsSpace(s[0]))
    ensures MemberGOk(m) && s <= KeyAndValue(m)
    decreases |s|, 2
  {
    hide KeyRule, Payload, Blanks, KeyOk, GOk, Spelled, Space, PegMapper.IsSpace, NameOk;
    NoBlanks();
    if KeyRule(s).More? {
      var k := KeyBegun(s);
      KeyBegunOk(k, s);
      m := GMember("", k, "", GWord(Null));
      WordOk(Null);
      assert k + ":" <= k + ":" + ("" + Spelled(GWord(Null)));
    } else {
      var k := KeySplit(s);
      KeyInFront(k, s);
      var r := KeyRule(s).rest;
      var b := SpaceSplit(r);
      ValueIs(Space(r));
      KvWaits(s);
      var v := PayloadBegun(Space(r));
      m := GMember("", k, b, v);
      Under(b, Space(r), Spelled(v));
      Under(k + ":", b + Space(r), b + Spelled(v));
      assert k + (":" + r) == k + ":" + r;
    }
  }

  lemma KvWaits(s: string)
    requires KvRule(s).More? && !KeyRule(s).More?
    ensures KeyRule(s).Done? && Item(ELEMENT, Space(KeyRule(s).rest)).More?
  {
    hide KeyRule, ValueRule, Space;
  }

  lemma WordOk(w: Word)
    ensures GOk(GWord(w))
  {}

  lemma KeyBegunOk(k: string, s: string)
    requires NameOk(k) && (if s == "" then k == "k" else k[0] == s[0] && !PegMapper.IsSpace(s[0]))
    ensures KeyOk(k)
  {}

  lemma {:induction false} DictBegun(s: string) returns (ms: seq<GMember>, w: string)
    requires s != "" && DictRule(s).More?
    ensures MembersGOk(ms) && Blanks(w) && s <= "{" + SpelledMembers(ms) + w + "}"
    decreases |s|, 0
  {
    hide Inside, Space, Onwards, Blanks, DictRule, MembersGOk, SpelledMembers, MembersBehind;
    BracketIs(MEMBER, s);
    var b := SpaceSplit(s[1..]);
    var x := Space(s[1..]);
    InsideBegun(MEMBER, "}", x);
    if Literal("}", x).Missed? {
      var members, end := MembersBegun(x);
      ms, w := [MovedMember(members[0], b)] + members[1..], end;
      MoveMember(members, b);
      MembersAre(ms);
      AssembleBegun("{", s, b, x, MembersBehind(members), w, "}");
    } else {
      ms, w := [], b;
      NothingSpelled();
      NoItemsOk();
      AssembleBegun("{", s, "", b, "", b, "}");
      assert "" + "" == "";
    }
  }

  // ---------- exactly ----------

  /** The value is a dictionary as the notation writes it. */
  predicate IsDict(v: GValue) {
    v.GDict? && GOk(v)
  }

  lemma DictReads(v: GValue, rest: string)
    requires IsDict(v)
    ensures DictRule(Spelled(v) + rest).Done? && DictRule(Spelled(v) + rest).rest == rest
  {
    hide DictRule, SpelledMembers, MembersGOk, Blanks;
    DictRead(v.members, v.end, rest);
  }

  lemma DictAccepted(s: string, rest: string)
    ensures DictRule(s).Done? && DictRule(s).rest == rest <==> exists v :: IsDict(v) && s == Spelled(v) + rest
  {
    hide DictRule, Spelled;
    if DictRule(s).Done? && DictRule(s).rest == rest {
      NothingIsNoDict();
      var ms, w := DictSplit(s);
      DictSpelled(ms, w);
      assert IsDict(GDict(ms, w)) && s == Spelled(GDict(ms, w)) + rest;
    }
    if v :| IsDict(v) && s == Spelled(v) + rest { DictReads(v, rest); }
  }

  lemma NothingIsNoDict()
    ensures DictRule("").More?
  {}

  lemma DictSpelled(ms: seq<GMember>, w: string)
    ensures Spelled(GDict(ms, w)) == "{" + SpelledMembers(ms) + w + "}"
    ensures MembersGOk(ms) && Blanks(w) ==> IsDict(GDict(ms, w))
  {}

  /** Every text of arguments either begins with a written dictionary, and is then read up to its end; or it is the
      beginning of one, and then waits for more; or it is malformed. */
  lemma ArgumentsExactly(s: string)
    ensures DictRule(s).Done? <==> exists v, rest :: IsDict(v) && s == Spelled(v) + rest
    ensures DictRule(s).Done? ==> exists v :: IsDict(v) && s == Spelled(v) + DictRule(s).rest
    ensures DictRule(s).More? <==> exists v :: IsDict(v) && s < Spelled(v)
  {
    hide DictRule, Spelled;
    if DictRule(s).Done? { DictAccepted(s, DictRule(s).rest); }
    if v, rest :| IsDict(v) && s == Spelled(v) + rest { DictReads(v, rest); }
    if DictRule(s).More? {
      var ms, w := [], "";
      if s != "" { ms, w := DictBegun(s); } else { NoItemsOk(); NoBlanks(); }
      var v := GDict(ms, w);
      DictSpelled(ms, w);
      if s == Spelled(v) {
        assert Spelled(v) + "" == s;
        DictReads(v, "");
        assert false;
      }
      assert s < Spelled(v);
    }
    if v :| IsDict(v) && s < Spelled(v) {
      var u := Spelled(v)[|s|..];
      assert s + u == Spelled(v) == Spelled(v) + "";
      DictReads(v, "");
      ArgumentsExtend(s, u);
    }
  }
}
