/** JSON numbers as the PEG engine reads them from a text that may go on: a number is not committed before a
    character has come that cannot continue it. */
module Gemma4Number {
  import opened Wrappers
  import opened PegMatch
  import opened JsonReader

  const DIGIT := Class([('0', '9')], false)
  const FIRST_DIGIT := Class([('1', '9')], false)
  const EXPONENT_SIGN := Class([('+', '+'), ('-', '-')], false)
  const IN_NUMBER := Class([('0', '9'), ('.', '.'), ('e', 'e'), ('E', 'E'), ('+', '+'), ('-', '-')], false)

  /** An optional part: at the end of the input it is not tried. */
  function Optional(m: Match, s: string): (r: Match)
    requires m.Matched? ==> |m.rest| <= |s|
    ensures r.Matched? ==> |r.rest| <= |s|
  {
    if s == "" || m.Missed? then Matched(s) else m
  }

  function Digits(min: nat, s: string): (m: Match)
    ensures m.Matched? ==> |m.rest| <= |s|
  {
    Chars(DIGIT, min, None, s)
  }

  function IntPart(s: string): (m: Match)
    ensures m.Matched? ==> |m.rest| < |s|
  {
    var zero := Literal("0", s);
    if !zero.Missed? then zero
    else
      var first := Chars(FIRST_DIGIT, 1, Some(1), s);
      if first.Matched? then Digits(0, first.rest) else first
  }

  function Fraction(s: string): (m: Match)
    ensures m.Matched? ==> |m.rest| < |s|
  {
    var point := Literal(".", s);
    if point.Matched? then Digits(1, point.rest) else point
  }

  function ExponentMark(s: string): (m: Match)
    ensures m.Matched? ==> |m.rest| < |s|
  {
    var lower := Literal("e", s);
    if lower.Missed? then Literal("E", s) else lower
  }

  function Exponent(s: string): (m: Match)
    ensures m.Matched? ==> |m.rest| < |s|
  {
    var mark := ExponentMark(s);
    if !mark.Matched? then mark
    else
      var sign := Optional(Chars(EXPONENT_SIGN, 1, Some(1), mark.rest), mark.rest);
      if sign.Matched? then Digits(1, sign.rest) else sign
  }

  /** The number is not committed before a character has come that cannot continue it. */
  function NumberEnd(s: string): (m: Match)
    ensures m.Matched? ==> m.rest == s
  {
    var next := Chars(IN_NUMBER, 1, Some(1), s);
    if next.Matched? then Missed else if next.Missed? then Matched(s) else Short
  }

  function AfterFraction(s: string): (m: Match)
    ensures m.Matched? ==> |m.rest| <= |s|
  {
    var e := Optional(Exponent(s), s);
    if e.Matched? then NumberEnd(e.rest) else e
  }

  function AfterInt(s: string): (m: Match)
    ensures m.Matched? ==> |m.rest| <= |s|
  {
    var f := Optional(Fraction(s), s);
    if f.Matched? then AfterFraction(f.rest) else f
  }

  function AfterMinus(s: string): (m: Match)
    ensures m.Matched? ==> |m.rest| < |s|
  {
    var i := IntPart(s);
    if i.Matched? then AfterInt(i.rest) else i
  }

  function Number(s: string): (m: Match)
    ensures m.Matched? ==> |m.rest| < |s|
  {
    var minus := Optional(Literal("-", s), s);
    if minus.Matched? then AfterMinus(minus.rest) else minus
  }

  // ---------- when more input comes ----------

  /** What matched or failed stays so; what was short goes at least as far as it was. */
  predicate Settled(a: Match, b: Match, u: string) {
    match a
    case Missed => b.Missed?
    case Matched(rest) => b == Matched(rest + u)
    case Short => b.Matched? ==> |b.rest| <= |u|
  }

  /** The same, but a match up to the end of the input may go on. */
  predicate Firm(a: Match, b: Match, u: string) {
    match a
    case Missed => b.Missed?
    case Matched(rest) => if rest != "" then b == Matched(rest + u) else b.Matched? && |b.rest| <= |u|
    case Short => b.Matched? ==> |b.rest| <= |u|
  }

  lemma LiteralSettled(l: string, s: string, u: string)
    ensures Settled(Literal(l, s), Literal(l, s + u), u)
  {
    LiteralGrows(l, s, u);
  }

  lemma CharsFirm(class_: Class, min: nat, max: Option<nat>, s: string, u: string)
    ensures Firm(Chars(class_, min, max, s), Chars(class_, min, max, s + u), u)
  {
    CharsGrow(class_, min, max, s, u);
  }

  lemma OneCharacter(class_: Class, s: string)
    requires s != ""
    ensures Chars(class_, 1, Some(1), s) == if class_.Has(s[0]) then Matched(s[1..]) else Missed
  {
    hide Class.Has;
    assert Count(class_, Some(0), s[1..]) == 0;
  }

  /** One character is settled as soon as it is there. */
  lemma OneSettled(class_: Class, s: string, u: string)
    ensures Settled(Chars(class_, 1, Some(1), s), Chars(class_, 1, Some(1), s + u), u)
  {
    hide Class.Has;
    CharsGrow(class_, 1, Some(1), s, u);
    if s != "" {
      OneCharacter(class_, s);
      OneCharacter(class_, s + u);
      Shift(s, u, 1);
    }
  }

  lemma IntPartFirm(s: string, u: string)
    ensures Firm(IntPart(s), IntPart(s + u), u)
  {
    hide Chars, Literal;
    LiteralSettled("0", s, u);
    OneSettled(FIRST_DIGIT, s, u);
    var first := Chars(FIRST_DIGIT, 1, Some(1), s);
    if first.Matched? { CharsFirm(DIGIT, 0, None, first.rest, u); }
    NothingShort(s);
    if s == "" { assert s + u == u; }
  }

  /** At the end of the input every required part is short. */
  lemma NothingShort(s: string)
    ensures s == "" ==> Literal("0", s).Short? && Literal(".", s).Short? && ExponentMark(s).Short?
    ensures s != "" ==> !Literal("0", s).Short? && !Literal(".", s).Short? && !ExponentMark(s).Short?
  {}

  lemma FractionFirm(s: string, u: string)
    ensures Firm(Fraction(s), Fraction(s + u), u)
  {
    hide Chars, Literal;
    LiteralSettled(".", s, u);
    var point := Literal(".", s);
    if point.Matched? { CharsFirm(DIGIT, 1, None, point.rest, u); }
    NothingShort(s);
    if s == "" { assert s + u == u; }
  }

  lemma MarkSettled(s: string, u: string)
    ensures Settled(ExponentMark(s), ExponentMark(s + u), u)
  {
    hide Literal;
    LiteralSettled("e", s, u);
    LiteralSettled("E", s, u);
    NothingShort(s);
    if s == "" { assert s + u == u; }
  }

  lemma SignSettled(s: string, u: string)
    requires s != ""
    ensures Optional(Chars(EXPONENT_SIGN, 1, Some(1), s), s).Matched?
    ensures Settled(Optional(Chars(EXPONENT_SIGN, 1, Some(1), s), s), Optional(Chars(EXPONENT_SIGN, 1, Some(1), s + u), s + u), u)
  {
    hide Class.Has;
    OneSettled(EXPONENT_SIGN, s, u);
    OneCharacter(EXPONENT_SIGN, s);
  }

  lemma ExponentFirm(s: string, u: string)
    ensures Firm(Exponent(s), Exponent(s + u), u)
  {
    hide ExponentMark, Optional, Class.Has;
    MarkSettled(s, u);
    NothingShort(s);
    if s == "" { assert s + u == u; }
    var mark := ExponentMark(s);
    if mark.Matched? {
      if mark.rest == "" {
        assert mark.rest + u == u;
        NothingBehind();
      } else {
        SignSettled(mark.rest, u);
        var sign := Optional(Chars(EXPONENT_SIGN, 1, Some(1), mark.rest), mark.rest);
        CharsFirm(DIGIT, 1, None, sign.rest, u);
      }
    }
  }

  lemma NothingBehind()
    ensures Optional(Chars(EXPONENT_SIGN, 1, Some(1), ""), "") == Matched("") && Digits(1, "").Short?
  {
    assert Count(DIGIT, None, "") == 0;
  }

  /** Where a number can go on it is not committed. */
  lemma GoesOn(s: string)
    requires s != "" && s[0] in ".eE"
    ensures NumberEnd(s).Missed?
  {
    OneCharacter(IN_NUMBER, s);
    var r := IN_NUMBER.ranges;
    assert r[1] == ('.', '.') && r[2] == ('e', 'e') && r[3] == ('E', 'E');
  }

  lemma EndSettled(s: string, u: string)
    ensures Settled(NumberEnd(s), NumberEnd(s + u), u)
  {
    hide Class.Has;
    OneSettled(IN_NUMBER, s, u);
    if s == "" { assert s + u == u; }
  }

  lemma EndShort()
    ensures NumberEnd("").Short? && AfterFraction("").Short? && AfterInt("").Short?
  {
    assert Chars(IN_NUMBER, 1, Some(1), "").Short?;
  }

  /** What has not failed begins with its letter or point. */
  lemma ExponentBegins(s: string)
    requires s != "" && !Exponent(s).Missed?
    ensures s[0] in "eE"
  {
    hide Chars;
  }

  lemma FractionBegins(s: string)
    requires s != "" && !Fraction(s).Missed?
    ensures s[0] == '.'
  {
    hide Chars;
  }

  lemma PointStops(s: string)
    requires s != "" && s[0] == '.'
    ensures AfterFraction(s).Missed?
  {
    hide Chars;
    GoesOn(s);
  }

  lemma AfterFractionSettled(s: string, u: string)
    ensures Settled(AfterFraction(s), AfterFraction(s + u), u)
  {
    hide Exponent, NumberEnd;
    ExponentFirm(s, u);
    EndShort();
    var e := Optional(Exponent(s), s);
    if s == "" {
      assert s + u == u;
    } else if e.Matched? && e.rest != "" {
      EndSettled(e.rest, u);
    } else if Exponent(s + u).Missed? {
      ExponentBegins(s);
      GoesOn(s + u);
    }
  }

  lemma AfterIntSettled(s: string, u: string)
    ensures Settled(AfterInt(s), AfterInt(s + u), u)
  {
    hide Fraction, AfterFraction;
    FractionFirm(s, u);
    EndShort();
    var f := Optional(Fraction(s), s);
    if s == "" {
      assert s + u == u;
    } else if f.Matched? && f.rest != "" {
      AfterFractionSettled(f.rest, u);
    } else if Fraction(s + u).Missed? {
      FractionBegins(s);
      PointStops(s + u);
    }
  }

  lemma AfterMinusSettled(s: string, u: string)
    ensures Settled(AfterMinus(s), AfterMinus(s + u), u)
  {
    hide IntPart, AfterInt;
    IntPartFirm(s, u);
    EndShort();
    var i := IntPart(s);
    if i.Matched? && i.rest != "" { AfterIntSettled(i.rest, u); }
  }

  lemma NumberSettled(s: string, u: string)
    ensures Settled(Number(s), Number(s + u), u)
  {
    hide AfterMinus, Literal;
    LiteralSettled("-", s, u);
    SignAlone(s);
    if s == "" {
      assert s + u == u;
      NumberShort();
    } else {
      var minus := Optional(Literal("-", s), s);
      AfterMinusSettled(minus.rest, u);
    }
  }

  lemma SignAlone(s: string)
    ensures s != "" ==> !Literal("-", s).Short?
  {}

  lemma NumberShort()
    ensures Number("").Short?
  {
    NothingShort("");
    assert IntPart("").Short?;
  }

  // ---------- what a number begins with ----------

  lemma FirstOf(l: string, s: string)
    requires l != "" && s != "" && !Literal(l, s).Missed?
    ensures s[0] == l[0]
  {}

  lemma NumberFirst(s: string)
    requires s != "" && !Number(s).Missed?
    ensures s[0] in "-0123456789"
  {
    hide AfterMinus, Chars, Class.Has;
    if !Literal("-", s).Missed? {
      FirstOf("-", s);
    } else {
      IntPartFirst(s);
    }
  }

  lemma IntPartFirst(s: string)
    requires s != "" && (!IntPart(s).Missed? || !AfterMinus(s).Missed?)
    ensures s[0] in "0123456789"
  {
    hide Class.Has, Chars, AfterInt;
    if !Literal("0", s).Missed? {
      FirstOf("0", s);
    } else {
      OneCharacter(FIRST_DIGIT, s);
      DigitHas(s[0]);
    }
  }

  lemma DigitHas(c: char)
    ensures FIRST_DIGIT.Has(c) ==> c in "0123456789"
  {}

  // ---------- what a number consists of ----------

  /** What was read are characters of a JSON token. */
  predicate ReadsAtoms(s: string, rest: string) {
    |rest| <= |s| && rest == s[|s| - |rest|..] && forall j :: 0 <= j < |s| - |rest| ==> IsAtomChar(s[j])
  }

  lemma ReadsThen(s: string, r: string, rest: string)
    requires ReadsAtoms(s, r) && ReadsAtoms(r, rest)
    ensures ReadsAtoms(s, rest)
  {
    forall j | 0 <= j < |s| - |rest| ensures IsAtomChar(s[j]) {
      if j >= |s| - |r| { assert s[j] == r[j - (|s| - |r|)]; }
    }
  }

  lemma LiteralReads(l: string, s: string)
    requires Literal(l, s).Matched? && forall j :: 0 <= j < |l| ==> IsAtomChar(l[j])
    ensures ReadsAtoms(s, Literal(l, s).rest)
  {}

  lemma {:induction false} CountHas(class_: Class, max: Option<nat>, s: string, j: nat)
    requires j < Count(class_, max, s)
    ensures class_.Has(s[j])
    decreases |s|
  {
    hide Class.Has;
    if j > 0 { CountHas(class_, if max.Some? then Some(max.value - 1) else None, s[1..], j - 1); }
  }

  predicate OfNumbers(class_: Class) {
    forall c: char :: class_.Has(c) ==> IsAtomChar(c)
  }

  lemma CharsRead(class_: Class, min: nat, max: Option<nat>, s: string)
    requires OfNumbers(class_) && Chars(class_, min, max, s).Matched?
    ensures ReadsAtoms(s, Chars(class_, min, max, s).rest)
  {
    hide Class.Has;
    var n := Count(class_, max, s);
    forall j | 0 <= j < n ensures IsAtomChar(s[j]) { CountHas(class_, max, s, j); }
  }

  lemma OptionalReads(m: Match, s: string)
    requires m.Matched? ==> ReadsAtoms(s, m.rest)
    ensures Optional(m, s).Matched? ==> ReadsAtoms(s, Optional(m, s).rest)
  {}

  lemma IntPartReads(s: string)
    requires IntPart(s).Matched?
    ensures ReadsAtoms(s, IntPart(s).rest)
  {
    hide Chars, Literal, ReadsAtoms;
    assert OfNumbers(DIGIT) && OfNumbers(FIRST_DIGIT);
    if Literal("0", s).Matched? {
      LiteralReads("0", s);
    } else {
      CharsRead(FIRST_DIGIT, 1, Some(1), s);
      var r := Chars(FIRST_DIGIT, 1, Some(1), s).rest;
      CharsRead(DIGIT, 0, None, r);
      ReadsThen(s, r, Digits(0, r).rest);
    }
  }

  lemma FractionReads(s: string)
    requires Fraction(s).Matched?
    ensures ReadsAtoms(s, Fraction(s).rest)
  {
    hide Chars, Literal, ReadsAtoms;
    assert OfNumbers(DIGIT);
    LiteralReads(".", s);
    var r := Literal(".", s).rest;
    CharsRead(DIGIT, 1, None, r);
    ReadsThen(s, r, Digits(1, r).rest);
  }

  lemma ExponentReads(s: string)
    requires Exponent(s).Matched?
    ensures ReadsAtoms(s, Exponent(s).rest)
  {
    hide Chars, Literal, ReadsAtoms, Optional;
    assert OfNumbers(DIGIT) && OfNumbers(EXPONENT_SIGN);
    if Literal("e", s).Matched? { LiteralReads("e", s); } else { LiteralReads("E", s); }
    var r := ExponentMark(s).rest;
    var m := Chars(EXPONENT_SIGN, 1, Some(1), r);
    if m.Matched? { CharsRead(EXPONENT_SIGN, 1, Some(1), r); }
    OptionalReads(m, r);
    var q := Optional(m, r).rest;
    CharsRead(DIGIT, 1, None, q);
    ReadsThen(r, q, Digits(1, q).rest);
    ReadsThen(s, r, Digits(1, q).rest);
  }

  lemma NumberReads(s: string)
    requires Number(s).Matched?
    ensures ReadsAtoms(s, Number(s).rest)
  {
    hide Literal, ReadsAtoms, Optional, IntPart, Fraction, Exponent, NumberEnd;
    if Literal("-", s).Matched? { LiteralReads("-", s); }
    OptionalReads(Literal("-", s), s);
    var a := Optional(Literal("-", s), s).rest;
    IntPartReads(a);
    var b := IntPart(a).rest;
    ReadsThen(s, a, b);
    if Fraction(b).Matched? { FractionReads(b); }
    OptionalReads(Fraction(b), b);
    var c := Optional(Fraction(b), b).rest;
    ReadsThen(s, b, c);
    if Exponent(c).Matched? { ExponentReads(c); }
    OptionalReads(Exponent(c), c);
    ReadsThen(s, c, Optional(Exponent(c), c).rest);
  }
}
