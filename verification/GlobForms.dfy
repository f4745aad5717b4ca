/** What each form of a glob pattern stands for. */
module GlobForms {
  import opened Glob

  /** The text belongs to the pattern. */
  ghost predicate Fits(p: string, s: string) {
    InLanguage(Parse(p), s)
  }

  lemma FitsIs(p: string, s: string)
    ensures Fits(p, s) <==> Matches(Parse(p), s)
  {
    MatchesIsMembership(Parse(p), s);
  }

  lemma EmptyPattern(s: string)
    ensures Fits("", s) <==> s == ""
  {
    FitsIs("", s);
  }

  lemma FirstItem(i: Item, rest: seq<Item>, s: string)
    ensures Matches([i] + rest, s) <==> exists k :: 0 <= k <= |s| && Means(i, s[..k]) && Matches(rest, s[k..])
  {
    assert ([i] + rest)[1..] == rest;
  }

  lemma FitsFirst(p: string, i: Item, q: string, s: string)
    requires Parse(p) == [i] + Parse(q)
    ensures Fits(p, s) <==> exists k :: 0 <= k <= |s| && Means(i, s[..k]) && Fits(q, s[k..])
  {
    hide Matches, Means, Parse;
    FitsIs(p, s);
    FirstItem(i, Parse(q), s);
    forall k | 0 <= k <= |s| ensures Fits(q, s[k..]) <==> Matches(Parse(q), s[k..]) { FitsIs(q, s[k..]); }
  }

  /** Characters are compared by their codes. Where the plain character type is signed, the codes from 128 to 255
      come before all others. */
  lemma RangeOrder(c: char, low: char, high: char)
    requires c as int < 256 && low as int < 256 && high as int < 256
    ensures (c as int < 128 <==> low as int < 128) && (c as int < 128 <==> high as int < 128) ==>
      (Within(c, low, high) <==> low <= c <= high)
    ensures !CHAR_IS_SIGNED ==> (Within(c, low, high) <==> low <= c <= high)
    ensures CHAR_IS_SIGNED && low as int < 128 <= high as int ==> !Within(c, low, high)
    ensures CHAR_IS_SIGNED && high as int < 128 <= low as int ==> (Within(c, low, high) <==> c >= low || c <= high)
  {}

  /** Two stars stand for any text. */
  lemma TwoStars(p: string, s: string)
    ensures Fits("**" + p, s) <==> exists k :: 0 <= k <= |s| && Fits(p, s[k..])
  {
    hide Fits;
    assert ("**" + p)[2..] == p;
    FitsFirst("**" + p, AnyText, p, s);
    forall k | 0 <= k <= |s| ensures Means(AnyText, s[..k]) {}
  }

  /** One star stands for any text without a slash. */
  lemma OneStar(p: string, s: string)
    requires p == "" || p[0] != '*'
    ensures Fits("*" + p, s) <==> exists k :: 0 <= k <= |s| && '/' !in s[..k] && Fits(p, s[k..])
  {
    hide Fits;
    assert ("*" + p)[1..] == p;
    FitsFirst("*" + p, NoSlash, p, s);
    forall k | 0 <= k <= |s| ensures Means(NoSlash, s[..k]) <==> '/' !in s[..k] {}
  }

  lemma FitsOne(p: string, i: Item, q: string, s: string)
    requires Parse(p) == [i] + Parse(q) && !i.AnyText? && !i.NoSlash?
    ensures Fits(p, s) <==> s != "" && Means(i, [s[0]]) && Fits(q, s[1..])
  {
    hide Matches, Parse, Means;
    FitsIs(p, s);
    OneStep(i, Parse(q), s);
    if s != "" {
      assert s[..1] == [s[0]];
      FitsIs(q, s[1..]);
    }
  }

  /** A question mark stands for one character other than a slash. */
  lemma QuestionMark(p: string, s: string)
    ensures Fits("?" + p, s) <==> s != "" && s[0] != '/' && Fits(p, s[1..])
  {
    hide Fits;
    assert ("?" + p)[1..] == p;
    FitsOne("?" + p, OneChar, p, s);
  }

  /** Other characters stand for themselves. */
  lemma PlainCharacter(c: char, p: string, s: string)
    requires c !in "*?["
    ensures Fits([c] + p, s) <==> s != "" && s[0] == c && Fits(p, s[1..])
  {
    hide Fits;
    assert ([c] + p)[1..] == p;
    FitsOne([c] + p, Literal(c), p, s);
  }

  lemma CloseIs(p: string, k: nat, e: nat)
    requires k <= e <= |p| && (e < |p| ==> p[e] == ']') && forall j :: k <= j < e ==> p[j] != ']'
    ensures FindClose(p, k) == e
  {}

  /** A bracket that is closed stands for one character of its class; right behind it a bracket does not close it. */
  lemma ClosedBracket(body: string, p: string, s: string)
    requires body != "" && ']' !in body[1..]
    ensures Fits("[" + body + "]" + p, s) <==> s != "" && InClass(s[0], body) && Fits(p, s[1..])
  {
    hide Fits, InClass, FindClose;
    var q, e := "[" + body + "]" + p, |body| + 1;
    assert q[1] == body[0] && q[e] == ']' && q[1..e] == body && q[e + 1..] == p;
    forall j | 2 <= j < e ensures q[j] != ']' { assert q[j] == body[1..][j - 2]; }
    CloseIs(q, if body[0] == ']' || body[0] == '-' then 2 else 1, e);
    FitsOne(q, Class(body), p, s);
  }

  /** A bracket that is never closed stands for itself. */
  lemma OpenBracket(p: string, s: string)
    requires p == "" || ']' !in p[1..]
    ensures Fits("[" + p, s) <==> s != "" && s[0] == '[' && Fits(p, s[1..])
  {
    hide Fits, FindClose;
    var q := "[" + p;
    assert q[1..] == p;
    if p != "" {
      assert q[1] == p[0];
      forall j | 2 <= j < |q| ensures q[j] != ']' { assert q[j] == p[1..][j - 2]; }
      CloseIs(q, if p[0] == ']' || p[0] == '-' then 2 else 1, |q|);
    } else {
      CloseIs(q, 1, 1);
    }
    FitsOne(q, Literal('['), p, s);
  }

  // ---------- classes ----------

  /** What a class lists: single characters and ranges. */
  datatype Unit = One(c: char) | Span(low: char, high: char)

  function UnitText(u: Unit): string {
    match u case One(c) => [c] case Span(l, h) => [l, '-', h]
  }

  function UnitsText(us: seq<Unit>): string {
    if us == [] then "" else UnitText(us[0]) + UnitsText(us[1..])
  }

  predicate Contains(u: Unit, c: char) {
    match u case One(x) => c == x case Span(l, h) => Rank(l) <= Rank(c) <= Rank(h)
  }

  /** The list reads as it is meant: a range does not end in a bracket, and no dash follows a single character. */
  predicate Readable(us: seq<Unit>) {
    && (forall k :: 0 <= k < |us| && us[k].Span? ==> us[k].high != ']')
    && (forall k :: 1 <= k < |us| && us[k - 1].One? ==> UnitText(us[k])[0] != '-')
  }

  lemma {:induction false} RangesAre(us: seq<Unit>, c: char)
    requires Readable(us)
    ensures Covered(c, Ranges(UnitsText(us))) <==> exists k :: 0 <= k < |us| && Contains(us[k], c)
    decreases |us|
  {
    hide Covered, Within;
    if us == [] {
      CoveredNone(c);
    } else {
      var s, more := UnitsText(us), UnitsText(us[1..]);
      UnitsTail(us);
      RangesAre(us[1..], c);
      if us[0].Span? {
        assert s[0] == us[0].low && s[1] == '-' && s[2] == us[0].high && s[3..] == more;
        CoveredCons(c, (s[0], s[2]), Ranges(more));
        WithinIs(c, s[0], s[2]);
      } else {
        assert s[0] == us[0].c && s[1..] == more;
        CoveredCons(c, (s[0], s[0]), Ranges(more));
        WithinIs(c, s[0], s[0]);
      }
      ContainedTail(us, c);
    }
  }

  lemma WithinIs(c: char, l: char, h: char)
    ensures Within(c, l, h) <==> Rank(l) <= Rank(c) <= Rank(h)
    ensures l == h ==> (Within(c, l, h) <==> c == l)
  {}

  lemma UnitsTail(us: seq<Unit>)
    requires Readable(us) && us != []
    ensures Readable(us[1..])
    ensures us[0].One? && |us| > 1 ==> UnitsText(us[1..]) != "" && UnitsText(us[1..])[0] != '-'
  {
    forall k | 1 <= k < |us| - 1 && us[1..][k - 1].One? ensures UnitText(us[1..][k])[0] != '-' {
      assert us[k].One? && us[1..][k] == us[k + 1];
    }
    if us[0].One? && |us| > 1 { assert UnitText(us[1])[0] != '-'; }
  }

  lemma ContainedTail(us: seq<Unit>, c: char)
    requires us != []
    ensures (exists k :: 0 <= k < |us| && Contains(us[k], c)) <==>
      Contains(us[0], c) || exists k :: 0 <= k < |us[1..]| && Contains(us[1..][k], c)
  {
    if exists k :: 0 <= k < |us| && Contains(us[k], c) {
      var k :| 0 <= k < |us| && Contains(us[k], c);
      if k > 0 { assert Contains(us[1..][k - 1], c); }
    }
    if exists k :: 0 <= k < |us[1..]| && Contains(us[1..][k], c) {
      var k :| 0 <= k < |us[1..]| && Contains(us[1..][k], c);
      assert Contains(us[k + 1], c);
    }
  }

  /** A class that is not negated has the characters it lists. A bracket or a dash in front stands for itself. */
  lemma ListedClass(us: seq<Unit>, c: char)
    requires Readable(us) && us != [] && UnitText(us[0])[0] != '!'
    requires UnitText(us[0])[0] in "]-" ==> us[0].One?
    ensures InClass(c, UnitsText(us)) <==> exists k :: 0 <= k < |us| && Contains(us[k], c)
    ensures InClass(c, "!" + UnitsText(us)) <==> !exists k :: 0 <= k < |us| && Contains(us[k], c)
  {
    hide Covered, Within;
    var s := UnitsText(us);
    assert ("!" + s)[1..] == s && s[0] == UnitText(us[0])[0];
    RangesAre(us, c);
    if s[0] == ']' || s[0] == '-' {
      var more := UnitsText(us[1..]);
      assert s[1..] == more;
      UnitsTail(us);
      RangesAre(us[1..], c);
      CoveredCons(c, (s[0], s[0]), Ranges(more));
      WithinIs(c, s[0], s[0]);
      ContainedTail(us, c);
    }
  }

  lemma NegatedIs(s: string, c: char)
    requires s != "" && s[0] != ']' && s[0] != '-'
    ensures InClass(c, "!" + s) <==> !Covered(c, Ranges(s))
  {
    hide Covered, Ranges;
    assert ("!" + s)[1..] == s;
  }

  /** An exclamation mark that is listed is listed behind something, or alone behind the negation. */
  lemma NegatedMark(us: seq<Unit>, c: char)
    requires Readable(us) && us != [] && UnitText(us[0])[0] == '!'
    ensures InClass(c, "!" + UnitsText(us)) <==> !exists k :: 0 <= k < |us| && Contains(us[k], c)
  {
    assert UnitsText(us)[0] == '!';
    hide Covered, Ranges, InClass, UnitsText, Contains;
    NegatedIs(UnitsText(us), c);
    RangesAre(us, c);
  }
}
