/** The leaf parsers of the PEG engine in its lenient mode, and how their answers change as input arrives.
    An answer is stated on the input that is still to be read. */
module PegMatch {
  import opened Wrappers
  import PegMapper

  /** `rest` is what follows the match; an unfinished match always reaches the end of the input. */
  datatype Match = Missed | Matched(rest: string) | Short

  // ---------- what each leaf matches ----------

  function Literal(l: string, s: string): (m: Match)
    ensures m.Matched? ==> |m.rest| + |l| == |s|
  {
    if l <= s then Matched(s[|l|..]) else if s <= l then Short else Missed
  }

  function Space(s: string): (r: string)
    ensures |r| <= |s| && r == s[|s| - |r|..] && (r == "" || !PegMapper.IsSpace(r[0]))
    decreases |s|
  {
    if s != "" && PegMapper.IsSpace(s[0]) then Space(s[1..]) else s
  }

  /** A character class: ranges of characters, or everything outside them. */
  datatype Class = Class(ranges: seq<(char, char)>, negated: bool) {
    predicate Has(c: char) {
      negated != exists k :: 0 <= k < |ranges| && ranges[k].0 <= c <= ranges[k].1
    }
  }

  /** How many characters of the class come first, at most `max` of them. */
  function Count(class_: Class, max: Option<nat>, s: string): (n: nat)
    ensures n <= |s| && (max.Some? ==> n <= max.value)
    decreases |s|
  {
    if s == "" || max == Some(0) || !class_.Has(s[0]) then 0
    else 1 + Count(class_, if max.Some? then Some(max.value - 1) else None, s[1..])
  }

  function Chars(class_: Class, min: nat, max: Option<nat>, s: string): (m: Match)
    ensures m.Matched? ==> |m.rest| <= |s|
  {
    var n := Count(class_, max, s);
    if n >= min then Matched(s[n..]) else if n == |s| then Short else Missed
  }

  datatype Delimiter = Absent | Begun | Complete

  /** Whether one of the words starts here, or may once more input has come. */
  function CheckAt(words: seq<string>, s: string): Delimiter {
    if exists k :: 0 <= k < |words| && words[k] != "" && words[k] <= s then Complete
    else if s != "" && exists k :: 0 <= k < |words| && s <= words[k] then Begun
    else Absent
  }

  /** Where the first word starts or may have started; the end of the input when there is none. */
  function Until(words: seq<string>, s: string): (k: nat)
    ensures k <= |s|
    ensures k < |s| ==> CheckAt(words, s[k..]) != Absent
    ensures forall j :: 0 <= j < k ==> CheckAt(words, s[j..]) == Absent
    decreases |s|
  {
    if s == "" || CheckAt(words, s) != Absent then 0
    else
      var k := Until(words, s[1..]);
      assert forall j :: 0 < j < k + 1 ==> s[j..] == s[1..][j - 1..];
      1 + k
  }

  // ---------- the loops of the engine ----------

  /** The answer that a result type and an end position stand for. */
  ghost predicate Answers(input: string, m: Match, end: nat) {
    end <= |input| && match m
      case Missed => true
      case Matched(rest) => rest == input[end..]
      case Short => end == |input|
  }

  method MatchLiteral(input: string, startPos: nat, literal: string) returns (m: Match, end: nat)
    requires startPos <= |input|
    ensures m == Literal(literal, input[startPos..]) && Answers(input, m, end)
  {
    var pos := startPos;
    for i := 0 to |literal|
      invariant pos == startPos + i <= |input| && literal[..i] == input[startPos..pos]
    {
      if pos >= |input| {
        assert input[startPos..] == literal[..i];
        return Short, pos;
      }
      if input[pos] != literal[i] {
        assert input[startPos..][i] != literal[i];
        return Missed, startPos;
      }
      pos := pos + 1;
    }
    assert literal == literal[..|literal|] && input[startPos..][|literal|..] == input[pos..];
    assert literal <= input[startPos..];
    return Matched(input[pos..]), pos;
  }

  method SkipSpace(input: string, startPos: nat) returns (pos: nat)
    requires startPos <= |input|
    ensures pos <= |input| && input[pos..] == Space(input[startPos..])
  {
    pos := startPos;
    while pos < |input| && PegMapper.IsSpace(input[pos])
      invariant pos <= |input| && Space(input[pos..]) == Space(input[startPos..])
    {
      assert input[pos..][1..] == input[pos + 1..];
      pos := pos + 1;
    }
  }

  function Left(max: Option<nat>, n: nat): Option<nat>
    requires max.Some? ==> n <= max.value
  {
    if max.Some? then Some(max.value - n) else None
  }

  lemma CountStep(class_: Class, max: Option<nat>, n: nat, input: string, pos: nat)
    requires pos <= |input| && (max.Some? ==> n < max.value)
    ensures Count(class_, Left(max, n), input[pos..]) ==
      if pos == |input| || !class_.Has(input[pos]) then 0 else 1 + Count(class_, Left(max, n + 1), input[pos + 1..])
  {
    hide Class.Has;
    if pos < |input| { assert input[pos..][1..] == input[pos + 1..]; }
  }

  method MatchChars(input: string, startPos: nat, class_: Class, minCount: nat, maxCount: Option<nat>)
    returns (m: Match, end: nat)
    requires startPos <= |input|
    ensures m == Chars(class_, minCount, maxCount, input[startPos..]) && Answers(input, m, end)
  {
    hide Count, Class.Has;
    var pos, matchCount := startPos, 0;
    while maxCount.None? || matchCount < maxCount.value
      invariant pos == startPos + matchCount <= |input|
      invariant maxCount.Some? ==> matchCount <= maxCount.value
      invariant matchCount + Count(class_, Left(maxCount, matchCount), input[pos..]) == Count(class_, maxCount, input[startPos..])
      decreases |input| - pos
    {
      CountStep(class_, maxCount, matchCount, input, pos);
      if pos >= |input| || !class_.Has(input[pos]) {
        break;
      }
      pos := pos + 1;
      matchCount := matchCount + 1;
    }
    assert matchCount == Count(class_, maxCount, input[startPos..]);
    assert input[startPos..][matchCount..] == input[pos..];
    if matchCount < minCount {
      if pos >= |input| {
        return Short, pos;
      }
      return Missed, pos;
    }
    return Matched(input[pos..]), pos;
  }

  method MatchUntil(input: string, startPos: nat, delimiters: seq<string>) returns (m: Match, end: nat)
    requires startPos <= |input|
    ensures end == startPos + Until(delimiters, input[startPos..])
    ensures m == (if end == |input| then Short else Matched(input[end..])) && Answers(input, m, end)
  {
    hide CheckAt;
    var pos := startPos;
    while pos < |input|
      invariant startPos <= pos <= |input|
      invariant pos + Until(delimiters, input[pos..]) == startPos + Until(delimiters, input[startPos..])
    {
      var found := CheckAt(delimiters, input[pos..]);
      if found == Complete {
        return Matched(input[pos..]), pos;
      }
      if found == Begun {
        return Matched(input[pos..]), pos;
      }
      assert input[pos..][1..] == input[pos + 1..];
      pos := pos + 1;
    }
    return Short, pos;
  }

  // ---------- more input ----------

  lemma Shift(s: string, u: string, k: nat)
    requires k <= |s|
    ensures (s + u)[k..] == s[k..] + u && (s + u)[..k] == s[..k]
  {}

  /** A literal that has matched or failed stays so. */
  lemma LiteralGrows(l: string, s: string, u: string)
    ensures var a, b := Literal(l, s), Literal(l, s + u);
      match a
      case Missed => b.Missed?
      case Matched(rest) => b == Matched(rest + u)
      case Short => b.Matched? ==> |b.rest| <= |u|
  {
    if l <= s {
      Shift(s, u, |l|);
      assert l <= s + u;
    } else if !(s <= l) {
      Differs(l, s, u);
    }
  }

  lemma Differs(l: string, s: string, u: string)
    requires !(l <= s) && !(s <= l)
    ensures !(l <= s + u) && !(s + u <= l)
  {
    var k :| 0 <= k < |l| && k < |s| && l[k] != s[k];
    assert (s + u)[k] == s[k];
  }

  /** Space that is followed by something ends where it did. */
  lemma {:induction false} SpaceGrows(s: string, u: string)
    ensures if Space(s) != "" then Space(s + u) == Space(s) + u else Space(s + u) == Space(u)
    decreases |s|
  {
    if s == "" {
      assert s + u == u;
    } else {
      Shift(s, u, 1);
      if PegMapper.IsSpace(s[0]) { SpaceGrows(s[1..], u); }
    }
  }

  /** A run of characters that is followed by something ends where it did. */
  lemma {:induction false} CountGrows(class_: Class, max: Option<nat>, s: string, u: string)
    ensures Count(class_, max, s + u) >= Count(class_, max, s)
    ensures Count(class_, max, s) < |s| ==> Count(class_, max, s + u) == Count(class_, max, s)
    decreases |s|
  {
    if s != "" && max != Some(0) && class_.Has(s[0]) {
      Shift(s, u, 1);
      CountGrows(class_, if max.Some? then Some(max.value - 1) else None, s[1..], u);
    }
  }

  lemma CharsGrow(class_: Class, min: nat, max: Option<nat>, s: string, u: string)
    ensures var a, b := Chars(class_, min, max, s), Chars(class_, min, max, s + u);
      match a
      case Missed => b.Missed?
      case Matched(rest) => b.Matched? && (if rest != "" then b.rest == rest + u else |b.rest| <= |u|)
      case Short => b.Matched? ==> |b.rest| <= |u|
  {
    CountGrows(class_, max, s, u);
    Shift(s, u, Count(class_, max, s));
  }

  /** A complete delimiter stays complete, and where none can begin none will. */
  lemma CheckGrows(words: seq<string>, s: string, u: string)
    requires s != ""
    ensures CheckAt(words, s) == Absent ==> CheckAt(words, s + u) == Absent
    ensures CheckAt(words, s) == Complete ==> CheckAt(words, s + u) == Complete
  {
    if CheckAt(words, s) == Complete {
      var k :| 0 <= k < |words| && words[k] != "" && words[k] <= s;
      assert words[k] <= s + u;
    } else if CheckAt(words, s) == Absent {
      forall k | 0 <= k < |words| && words[k] != "" ensures !(words[k] <= s + u) && !(s + u <= words[k]) {
        Differs(words[k], s, u);
      }
    }
  }

  /** The text before a delimiter only gets longer, and not at all once the delimiter is complete. */
  lemma {:induction false} UntilGrows(words: seq<string>, s: string, u: string)
    ensures var k, m := Until(words, s), Until(words, s + u);
      && m >= k
      && (k < |s| && CheckAt(words, s[k..]) == Complete ==> m == k)
    decreases |s|
  {
    hide CheckAt;
    if s != "" {
      CheckGrows(words, s, u);
      Shift(s, u, 1);
      if CheckAt(words, s) == Absent { UntilGrows(words, s[1..], u); }
    }
  }
}
