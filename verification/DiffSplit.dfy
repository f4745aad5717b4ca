/** The marker-aware difference of two rendered templates: a shared prefix, the two differing
    middles and a shared suffix. */
module DiffSplit {
  import opened Segments

  datatype Split = Split(prefix: string, suffix: string, left: string, right: string)

  // ---------- character-level ends ----------

  /** First position from k on at which the strings differ or one ends. */
  function PrefixFrom(a: string, b: string, k: nat): (n: nat)
    requires k <= |a| && k <= |b|
    ensures k <= n <= |a| && n <= |b|
    ensures forall j :: k <= j < n ==> a[j] == b[j]
    ensures n < |a| && n < |b| ==> a[n] != b[n]
    decreases |a| - k
  {
    if k < |a| && k < |b| && a[k] == b[k] then PrefixFrom(a, b, k + 1) else k
  }

  /** The same, counted from the ends. */
  function SuffixFrom(a: string, b: string, k: nat): (n: nat)
    requires k <= |a| && k <= |b|
    ensures k <= n <= |a| && n <= |b|
    ensures forall j :: k <= j < n ==> FromEnd(a, j) == FromEnd(b, j)
    ensures n < |a| && n < |b| ==> FromEnd(a, n) != FromEnd(b, n)
    decreases |a| - k
  {
    if k < |a| && k < |b| && FromEnd(a, k) == FromEnd(b, k) then SuffixFrom(a, b, k + 1) else k
  }

  function FromEnd(a: string, j: nat): char
    requires j < |a|
  {
    a[|a| - 1 - j]
  }

  function PrefixLen(a: string, b: string): (n: nat)
    ensures n <= |a| && n <= |b| && a[..n] == b[..n]
    ensures n < |a| && n < |b| ==> a[n] != b[n]
  {
    PrefixFrom(a, b, 0)
  }

  function SuffixLen(a: string, b: string): (n: nat)
    ensures n <= |a| && n <= |b| && a[|a| - n..] == b[|b| - n..]
    ensures n < |a| && n < |b| ==> FromEnd(a, n) != FromEnd(b, n)
  {
    var n := SuffixFrom(a, b, 0);
    SameSuffix(a, b, n);
    n
  }

  lemma SameSuffix(a: string, b: string, n: nat)
    requires n <= |a| && n <= |b| && forall j :: 0 <= j < n ==> FromEnd(a, j) == FromEnd(b, j)
    ensures a[|a| - n..] == b[|b| - n..]
  {
    var x, y := a[|a| - n..], b[|b| - n..];
    forall t | 0 <= t < n ensures x[t] == y[t] {
      assert FromEnd(a, n - 1 - t) == FromEnd(b, n - 1 - t);
    }
  }

  method CommonPrefixLen(left: string, right: string) returns (prefixLen: nat)
    ensures prefixLen == PrefixLen(left, right)
  {
    prefixLen := 0;
    var minLen := if |left| < |right| then |left| else |right|;
    while prefixLen < minLen && left[prefixLen] == right[prefixLen]
      invariant prefixLen <= minLen
      invariant PrefixFrom(left, right, prefixLen) == PrefixLen(left, right)
    {
      prefixLen := prefixLen + 1;
    }
  }

  method CommonSuffixLen(left: string, right: string) returns (suffixLen: nat)
    ensures suffixLen == SuffixLen(left, right)
  {
    suffixLen := 0;
    var minLen := if |left| < |right| then |left| else |right|;
    while suffixLen < minLen && left[|left| - 1 - suffixLen] == right[|right| - 1 - suffixLen]
      invariant suffixLen <= minLen
      invariant SuffixFrom(left, right, suffixLen) == SuffixLen(left, right)
    {
      suffixLen := suffixLen + 1;
    }
  }

  // ---------- the two cursors ----------

  /** The cursors (inclusive ends), the text matched so far, and the flags that say that the
      single remaining segment of a side has already gone into the suffix. */
  datatype Cursors = Cursors(ls: nat, le: nat, rs: nat, re: nat, prefix: string, suffix: string,
                             leftDone: bool, rightDone: bool)

  predicate InRange(L: seq<Segment>, R: seq<Segment>, c: Cursors) {
    && c.ls <= c.le < |L| && c.rs <= c.re < |R|
    && (c.leftDone ==> c.ls == c.le) && (c.rightDone ==> c.rs == c.re)
  }

  function Start(L: seq<Segment>, R: seq<Segment>): Cursors
    requires L != [] && R != []
  {
    Cursors(0, |L| - 1, 0, |R| - 1, "", "", false, false)
  }

  function MatchFront(L: seq<Segment>, R: seq<Segment>, c: Cursors): Cursors
    requires InRange(L, R, c) && c.ls != c.le && c.rs != c.re
  {
    if L[c.ls] == R[c.rs] then c.(prefix := c.prefix + L[c.ls].value, ls := c.ls + 1, rs := c.rs + 1) else c
  }

  function MatchBack(L: seq<Segment>, R: seq<Segment>, c: Cursors): Cursors
    requires InRange(L, R, c)
  {
    if L[c.le] != R[c.re] then c
    else
      var c1 := c.(suffix := L[c.le].value + c.suffix);
      var c2 := if c.ls != c.le then c1.(le := c.le - 1) else c1.(leftDone := true);
      if c.rs != c.re then c2.(re := c.re - 1) else c2.(rightDone := true)
  }

  /** Runs the alignment loop to its exit. */
  function Align(L: seq<Segment>, R: seq<Segment>, c: Cursors): (r: Cursors)
    requires InRange(L, R, c)
    ensures InRange(L, R, r)
    decreases c.le - c.ls
  {
    if c.ls == c.le || c.rs == c.re then c
    else
      var n := MatchBack(L, R, MatchFront(L, R, c));
      if n == c then c else Align(L, R, n)
  }

  /** The last unmatched segment of one side against the other side's ends. */
  function Tail(L: seq<Segment>, R: seq<Segment>, c: Cursors): Cursors
    requires InRange(L, R, c)
  {
    if c.ls == c.le && c.rs != c.re then
      if L[c.ls] == R[c.re] then c.(suffix := R[c.re].value + c.suffix, re := c.re - 1, leftDone := true)
      else if L[c.ls] == R[c.rs] then c.(prefix := c.prefix + R[c.rs].value, rs := c.rs + 1, leftDone := true)
      else c
    else if c.rs == c.re && c.ls != c.le then
      if L[c.le] == R[c.rs] then c.(suffix := L[c.le].value + c.suffix, le := c.le - 1, rightDone := true)
      else if L[c.ls] == R[c.rs] then c.(prefix := c.prefix + L[c.ls].value, ls := c.ls + 1, rightDone := true)
      else c
    else if c.ls == c.le && c.rs == c.re && L[c.ls] == R[c.rs] && L[c.ls].kind == MARKER then
      c.(prefix := c.prefix + R[c.rs].value, leftDone := true, rightDone := true)
    else c
  }

  /** The text of the segments a side has not matched yet. */
  function Rest(S: seq<Segment>, s: nat, e: nat, done: bool): string
    requires s <= e < |S|
  {
    Spell(S[s..if done then e else e + 1])
  }

  /** Trims the common characters off both rests, suffix first; only next to text segments. */
  function Trim(L: seq<Segment>, R: seq<Segment>, c: Cursors): Split
    requires InRange(L, R, c)
  {
    var rl, rr := Rest(L, c.ls, c.le, c.leftDone), Rest(R, c.rs, c.re, c.rightDone);
    var sl := if L[c.le].kind == TEXT && R[c.re].kind == TEXT then SuffixLen(rl, rr) else 0;
    var pl := if R[c.rs].kind == TEXT && L[c.ls].kind == TEXT then PrefixLen(rl[..|rl| - sl], rr[..|rr| - sl]) else 0;
    Split(c.prefix + rl[..pl], rl[|rl| - sl..] + c.suffix, rl[pl..|rl| - sl], rr[pl..|rr| - sl])
  }

  /** No difference at all is reported as one prefix; a left that is a prefix of right is reported
      as exactly that. */
  function Finish(d: Split, left: string, right: string): Split {
    var d1 := if d.left == "" && d.right == "" then d.(prefix := left, suffix := "") else d;
    if d1.left == "" && d1.right != "" && left <= right then Split(left, "", "", right[|left|..]) else d1
  }

  function Compute(left: string, right: string): Split {
    var L, R := Segmentize(left), Segmentize(right);
    if L == [] then Split("", "", "", right)
    else if R == [] then Split("", "", left, "")
    else Finish(Trim(L, R, Tail(L, R, Align(L, R, Start(L, R)))), left, right)
  }

  /** The alignment loop: both cursors move inwards while their ends match. */
  method AlignEnds(L: seq<Segment>, R: seq<Segment>) returns (c: Cursors)
    requires L != [] && R != []
    ensures c == Align(L, R, Start(L, R))
  {
    hide Rest, Spell;
    var ls: nat, le: nat, rs: nat, re: nat := 0, |L| - 1, 0, |R| - 1;
    var leftDone, rightDone := false, false;
    var prefix, suffix := "", "";
    while ls != le && rs != re
      invariant InRange(L, R, Cursors(ls, le, rs, re, prefix, suffix, leftDone, rightDone))
      invariant Align(L, R, Cursors(ls, le, rs, re, prefix, suffix, leftDone, rightDone)) == Align(L, R, Start(L, R))
      decreases le - ls
    {
      var advanced := false;
      ghost var was := Cursors(ls, le, rs, re, prefix, suffix, leftDone, rightDone);
      if L[ls] == R[rs] {
        prefix := prefix + L[ls].value;
        ls, rs := ls + 1, rs + 1;
        advanced := true;
      }
      if L[le] == R[re] {
        suffix := L[le].value + suffix;
        if ls != le { le := le - 1; } else { leftDone := true; }
        if rs != re { re := re - 1; } else { rightDone := true; }
        advanced := true;
      }
      assert Cursors(ls, le, rs, re, prefix, suffix, leftDone, rightDone) == MatchBack(L, R, MatchFront(L, R, was));
      if !advanced {
        break;
      }
    }
    c := Cursors(ls, le, rs, re, prefix, suffix, leftDone, rightDone);
  }

  /** The last unmatched segment of a side, compared with both ends of the other side. */
  method MatchTail(L: seq<Segment>, R: seq<Segment>, c: Cursors) returns (t: Cursors)
    requires InRange(L, R, c)
    ensures t == Tail(L, R, c)
  {
    var Cursors(ls, le, rs, re, prefix, suffix, leftDone, rightDone) := c;
    if ls == le && rs != re {
      if L[ls] == R[re] {
        suffix := R[re].value + suffix;
        re := re - 1;
        leftDone := true;
      } else if L[ls] == R[rs] {
        prefix := prefix + R[rs].value;
        rs := rs + 1;
        leftDone := true;
      }
    } else if rs == re && ls != le {
      if L[le] == R[rs] {
        suffix := L[le].value + suffix;
        le := le - 1;
        rightDone := true;
      } else if L[ls] == R[rs] {
        prefix := prefix + L[ls].value;
        ls := ls + 1;
        rightDone := true;
      }
    } else if ls == le && rs == re && L[ls] == R[rs] && L[ls].kind == MARKER {
      prefix := prefix + R[rs].value;
      leftDone := true;
      rightDone := true;
    }
    t := Cursors(ls, le, rs, re, prefix, suffix, leftDone, rightDone);
  }

  method CalculateDiffSplit(left: string, right: string) returns (result: Split)
    ensures result == Compute(left, right)
  {
    hide Align, Tail, Trim, Spell, Segmentize;
    var L := SegmentizeMarkers(left);
    var R := SegmentizeMarkers(right);
    if L == [] {
      return Split("", "", "", right);
    }
    if R == [] {
      return Split("", "", left, "");
    }
    var a := AlignEnds(L, R);
    var c := MatchTail(L, R, a);
    TailInRange(L, R, a);

    result := TrimEnds(L, R, c);
    if result.left == "" && result.right == "" {
      result := result.(prefix := left, suffix := "");
    }
    if result.left == "" && result.right != "" && |left| <= |right| && right[..|left|] == left {
      result := Split(left, "", "", right[|left|..]);
    }
  }

  /** The character-level finish on what the segments left over. */
  method TrimEnds(L: seq<Segment>, R: seq<Segment>, c: Cursors) returns (result: Split)
    requires InRange(L, R, c)
    ensures result == Trim(L, R, c)
  {
    hide Spell, SuffixLen, PrefixLen, Trim;
    var canHaveTextSuffix := L[c.le].kind == TEXT && R[c.re].kind == TEXT;
    var canHaveTextPrefix := R[c.rs].kind == TEXT && L[c.ls].kind == TEXT;
    var remainderLeft := Accumulate(L, c.ls, if c.leftDone then c.le else c.le + 1);
    var remainderRight := Accumulate(R, c.rs, if c.rightDone then c.re else c.re + 1);
    assert remainderLeft == Rest(L, c.ls, c.le, c.leftDone) && remainderRight == Rest(R, c.rs, c.re, c.rightDone);
    hide Rest;
    var suffixLen := 0;
    if canHaveTextSuffix { suffixLen := CommonSuffixLen(remainderLeft, remainderRight); }
    var prefixLen := 0;
    if canHaveTextPrefix {
      prefixLen := CommonPrefixLen(remainderLeft[..|remainderLeft| - suffixLen], remainderRight[..|remainderRight| - suffixLen]);
    }
    TrimIs(L, R, c, remainderLeft, remainderRight, suffixLen, prefixLen);
    result := Split(c.prefix + remainderLeft[..prefixLen],
                    remainderLeft[|remainderLeft| - suffixLen..] + c.suffix,
                    remainderLeft[prefixLen..|remainderLeft| - suffixLen],
                    remainderRight[prefixLen..|remainderRight| - suffixLen]);
  }

  lemma TrimIs(L: seq<Segment>, R: seq<Segment>, c: Cursors, rl: string, rr: string, sl: nat, pl: nat)
    requires InRange(L, R, c)
    requires rl == Rest(L, c.ls, c.le, c.leftDone) && rr == Rest(R, c.rs, c.re, c.rightDone)
    requires sl == if L[c.le].kind == TEXT && R[c.re].kind == TEXT then SuffixLen(rl, rr) else 0
    requires pl == if R[c.rs].kind == TEXT && L[c.ls].kind == TEXT then PrefixLen(rl[..|rl| - sl], rr[..|rr| - sl]) else 0
    ensures sl <= |rl| && sl <= |rr| && pl <= |rl| - sl && pl <= |rr| - sl
    ensures Trim(L, R, c) == Split(c.prefix + rl[..pl], rl[|rl| - sl..] + c.suffix, rl[pl..|rl| - sl], rr[pl..|rr| - sl])
  {
    hide Spell, SuffixLen, PrefixLen, Rest;
  }

  lemma TailInRange(L: seq<Segment>, R: seq<Segment>, c: Cursors)
    requires InRange(L, R, c)
    ensures InRange(L, R, Tail(L, R, c))
  {}

  /** The text of S[s..e], appended segment by segment. */
  method Accumulate(S: seq<Segment>, s: nat, e: nat) returns (r: string)
    requires s <= e <= |S|
    ensures r == Spell(S[s..e])
  {
    r := "";
    for k := s to e
      invariant r == Spell(S[s..k])
    {
      SpellConcat(S[s..k], [S[k]]);
      assert S[s..k + 1] == S[s..k] + [S[k]];
      SpellOne(S[k]);
      r := r + S[k].value;
    }
  }

  lemma SpellOne(g: Segment)
    ensures Spell([g]) == g.value
  {
    assert [g][1..] == [];
  }

  // ---------- what the alignment keeps ----------

  /** Matched prefix, unmatched rest and matched suffix spell each input. */
  predicate Covers(L: seq<Segment>, R: seq<Segment>, c: Cursors) {
    && InRange(L, R, c)
    && c.prefix + Rest(L, c.ls, c.le, c.leftDone) + c.suffix == Spell(L)
    && c.prefix + Rest(R, c.rs, c.re, c.rightDone) + c.suffix == Spell(R)
  }

  lemma RestFront(S: seq<Segment>, s: nat, e: nat)
    requires s < e < |S|
    ensures Rest(S, s, e, false) == S[s].value + Rest(S, s + 1, e, false)
  {
    assert S[s..e + 1][1..] == S[s + 1..e + 1];
  }

  lemma RestBack(S: seq<Segment>, s: nat, e: nat)
    requires s <= e < |S|
    ensures Rest(S, s, e, false) == Rest(S, s, e, true) + S[e].value
    ensures s < e ==> Rest(S, s, e, true) == Rest(S, s, e - 1, false)
    ensures Rest(S, s, s, true) == ""
  {
    assert S[s..e + 1] == S[s..e] + [S[e]];
    SpellConcat(S[s..e], [S[e]]);
    SpellOne(S[e]);
  }

  /** A flag is only set by a match in the suffix, and then the other side's matched segment is
      the one just behind its cursor. */
  predicate FlagsExplained(L: seq<Segment>, R: seq<Segment>, c: Cursors)
    requires InRange(L, R, c)
  {
    && (c.leftDone && !c.rightDone ==> c.re + 1 < |R| && R[c.re + 1] == L[c.le])
    && (c.rightDone && !c.leftDone ==> c.le + 1 < |L| && L[c.le + 1] == R[c.re])
  }

  lemma MoveFront(p: string, v: string, r: string, s: string)
    ensures p + (v + r) + s == (p + v) + r + s
  {}

  lemma MoveBack(p: string, r: string, v: string, s: string)
    ensures p + (r + v) + s == p + r + (v + s)
  {}

  lemma FrontCovers(L: seq<Segment>, R: seq<Segment>, c: Cursors)
    requires Covers(L, R, c) && c.ls != c.le && c.rs != c.re
    ensures Covers(L, R, MatchFront(L, R, c))
  {
    hide Rest, Spell;
    if L[c.ls] == R[c.rs] {
      RestFront(L, c.ls, c.le);
      RestFront(R, c.rs, c.re);
      MoveFront(c.prefix, L[c.ls].value, Rest(L, c.ls + 1, c.le, false), c.suffix);
      MoveFront(c.prefix, R[c.rs].value, Rest(R, c.rs + 1, c.re, false), c.suffix);
    }
  }

  lemma BackCovers(L: seq<Segment>, R: seq<Segment>, c: Cursors)
    requires Covers(L, R, c) && !c.leftDone && !c.rightDone
    ensures Covers(L, R, MatchBack(L, R, c)) && FlagsExplained(L, R, MatchBack(L, R, c))
  {
    hide Rest, Spell;
    if L[c.le] == R[c.re] {
      RestBack(L, c.ls, c.le);
      RestBack(R, c.rs, c.re);
      MoveBack(c.prefix, Rest(L, c.ls, c.le, true), L[c.le].value, c.suffix);
      MoveBack(c.prefix, Rest(R, c.rs, c.re, true), R[c.re].value, c.suffix);
    }
  }

  lemma {:induction false} AlignCovers(L: seq<Segment>, R: seq<Segment>, c: Cursors)
    requires Covers(L, R, c) && FlagsExplained(L, R, c)
    ensures Covers(L, R, Align(L, R, c)) && FlagsExplained(L, R, Align(L, R, c))
    decreases c.le - c.ls
  {
    hide Rest, Spell;
    if c.ls != c.le && c.rs != c.re {
      FrontCovers(L, R, c);
      BackCovers(L, R, MatchFront(L, R, c));
      var n := MatchBack(L, R, MatchFront(L, R, c));
      if n != c {
        AlignCovers(L, R, n);
      }
    }
  }

  function Aligned(left: string, right: string): (c: Cursors)
    requires Segmentize(left) != [] && Segmentize(right) != []
    ensures InRange(Segmentize(left), Segmentize(right), c)
  {
    Align(Segmentize(left), Segmentize(right), Start(Segmentize(left), Segmentize(right)))
  }

  /** At the exit of the alignment loop nothing of either input is lost, for all inputs. */
  lemma AlignmentKeepsBoth(left: string, right: string)
    requires Segmentize(left) != [] && Segmentize(right) != []
    ensures var c := Aligned(left, right); var L, R := Segmentize(left), Segmentize(right);
      && c.prefix + Rest(L, c.ls, c.le, c.leftDone) + c.suffix == left
      && c.prefix + Rest(R, c.rs, c.re, c.rightDone) + c.suffix == right
      && FlagsExplained(L, R, c)
  {
    var L, R := Segmentize(left), Segmentize(right);
    SegmentizeIsTheCut(left, L);
    SegmentizeIsTheCut(right, R);
    assert L[0..|L|] == L && R[0..|R|] == R;
    AlignCovers(L, R, Start(L, R));
  }

  // ---------- when the result spells both inputs ----------

  predicate Reconstructs(d: Split, left: string, right: string) {
    d.prefix + d.left + d.suffix == left && d.prefix + d.right + d.suffix == right
  }

  /** The tail matches a segment that the loop already put into the suffix. */
  predicate CountsTwice(L: seq<Segment>, R: seq<Segment>, c: Cursors)
    requires InRange(L, R, c)
  {
    if c.ls == c.le && c.rs != c.re then c.leftDone && (L[c.ls] == R[c.re] || L[c.ls] == R[c.rs])
    else if c.rs == c.re && c.ls != c.le then c.rightDone && (L[c.le] == R[c.rs] || L[c.ls] == R[c.rs])
    else c.ls == c.le && c.leftDone != c.rightDone && L[c.ls] == R[c.rs] && L[c.ls].kind == MARKER
  }

  /** The one case in which the final prefix rule repairs the double count. */
  predicate Repaired(c: Cursors, left: string, right: string) {
    c.ls == c.le && c.rs != c.re && left <= right
  }

  lemma TailCovers(L: seq<Segment>, R: seq<Segment>, c: Cursors)
    requires Covers(L, R, c) && !CountsTwice(L, R, c) && !(c.leftDone && c.rightDone)
    ensures Covers(L, R, Tail(L, R, c))
  {
    hide Rest, Spell;
    if c.ls == c.le && c.rs != c.re {
      TailOneLeft(L, R, c);
    } else if c.rs == c.re && c.ls != c.le {
      TailOneRight(L, R, c);
    } else if c.ls == c.le && c.rs == c.re && L[c.ls] == R[c.rs] && L[c.ls].kind == MARKER {
      RestBack(L, c.ls, c.le);
      RestBack(R, c.rs, c.re);
      MoveFront(c.prefix, L[c.ls].value, "", c.suffix);
      assert L[c.ls].value + "" == "" + L[c.ls].value;
    }
  }

  lemma TailOneLeft(L: seq<Segment>, R: seq<Segment>, c: Cursors)
    requires Covers(L, R, c) && !CountsTwice(L, R, c) && c.ls == c.le && c.rs != c.re
    ensures Covers(L, R, Tail(L, R, c))
  {
    hide Rest, Spell;
    RestBack(L, c.ls, c.le);
    RestBack(R, c.rs, c.re);
    RestFront(R, c.rs, c.re);
    var v := L[c.ls].value;
    assert v + "" == "" + v;
    MoveBack(c.prefix, "", v, c.suffix);
    MoveBack(c.prefix, Rest(R, c.rs, c.re, true), v, c.suffix);
    MoveFront(c.prefix, v, "", c.suffix);
    MoveFront(c.prefix, v, Rest(R, c.rs + 1, c.re, false), c.suffix);
  }

  lemma TailOneRight(L: seq<Segment>, R: seq<Segment>, c: Cursors)
    requires Covers(L, R, c) && !CountsTwice(L, R, c) && c.rs == c.re && c.ls != c.le
    ensures Covers(L, R, Tail(L, R, c))
  {
    hide Rest, Spell;
    RestBack(L, c.ls, c.le);
    RestBack(R, c.rs, c.re);
    RestFront(L, c.ls, c.le);
    var v := R[c.rs].value;
    assert v + "" == "" + v;
    MoveBack(c.prefix, "", v, c.suffix);
    MoveBack(c.prefix, Rest(L, c.ls, c.le, true), v, c.suffix);
    MoveFront(c.prefix, v, "", c.suffix);
    MoveFront(c.prefix, v, Rest(L, c.ls + 1, c.le, false), c.suffix);
  }

  lemma TrimCovers(L: seq<Segment>, R: seq<Segment>, c: Cursors)
    requires Covers(L, R, c)
    ensures Reconstructs(Trim(L, R, c), Spell(L), Spell(R))
  {
    hide Rest, Spell, SuffixLen, PrefixLen, Reconstructs;
    var rl, rr := Rest(L, c.ls, c.le, c.leftDone), Rest(R, c.rs, c.re, c.rightDone);
    var sl := if L[c.le].kind == TEXT && R[c.re].kind == TEXT then SuffixLen(rl, rr) else 0;
    var pl := if R[c.rs].kind == TEXT && L[c.ls].kind == TEXT then PrefixLen(rl[..|rl| - sl], rr[..|rr| - sl]) else 0;
    Trimmed(c, rl, rr, pl, sl);
  }

  lemma Trimmed(c: Cursors, x: string, y: string, p: nat, s: nat)
    requires p + s <= |x| && p + s <= |y|
    requires x[|x| - s..] == y[|y| - s..] && x[..|x| - s][..p] == y[..|y| - s][..p]
    ensures var d := Split(c.prefix + x[..p], x[|x| - s..] + c.suffix, x[p..|x| - s], y[p..|y| - s]);
      Reconstructs(d, c.prefix + x + c.suffix, c.prefix + y + c.suffix)
  {
    SameEnds(x, y, p, s);
    TrimOne(c, x, p, s);
    TrimOne(c, y, p, s);
  }

  lemma SameEnds(x: string, y: string, p: nat, s: nat)
    requires p + s <= |x| && p + s <= |y|
    requires x[|x| - s..] == y[|y| - s..] && x[..|x| - s][..p] == y[..|y| - s][..p]
    ensures x[..p] == y[..p]
  {
    CutThree(x, p, s);
    CutThree(y, p, s);
  }

  lemma TrimOne(c: Cursors, r: string, p: nat, s: nat)
    requires p + s <= |r|
    ensures (c.prefix + r[..p]) + r[p..|r| - s] + (r[|r| - s..] + c.suffix) == c.prefix + r + c.suffix
  {
    CutThree(r, p, s);
    Regroup(c.prefix, r[..p], r[p..|r| - s], r[|r| - s..], c.suffix);
  }

  lemma CutThree(r: string, p: nat, s: nat)
    requires p + s <= |r|
    ensures r == r[..p] + r[p..|r| - s] + r[|r| - s..]
    ensures r[..|r| - s][..p] == r[..p]
  {}

  lemma Regroup(a: string, b: string, m: string, d: string, e: string)
    ensures a + (b + m + d) + e == (a + b) + m + (d + e)
  {}

  lemma FinishKeeps(d: Split, left: string, right: string)
    requires Reconstructs(d, left, right)
    ensures Reconstructs(Finish(d, left, right), left, right)
  {
    if d.left == "" && d.right == "" {
      assert left == right;
    }
  }

  /** Both inputs are spelled by the result exactly when the tail does not count a segment twice,
      or does so where the prefix rule repairs it. */
  lemma ReconstructsExactly(left: string, right: string)
    requires Segmentize(left) != [] && Segmentize(right) != []
    ensures var c := Aligned(left, right);
      Reconstructs(Compute(left, right), left, right) <==>
      !CountsTwice(Segmentize(left), Segmentize(right), c) || Repaired(c, left, right)
  {
    var L, R := Segmentize(left), Segmentize(right);
    var c := Aligned(left, right);
    SegmentizeIsTheCut(left, L);
    SegmentizeIsTheCut(right, R);
    AlignmentKeepsBoth(left, right);
    if CountsTwice(L, R, c) {
      TwiceCounted(left, right);
    } else if c.leftDone && c.rightDone {
      BothDone(left, right);
    } else {
      TailCovers(L, R, c);
      TrimCovers(L, R, Tail(L, R, c));
      FinishKeeps(Trim(L, R, Tail(L, R, c)), left, right);
    }
  }

  /** Both sides consumed: the inputs are equal and the result is one prefix. */
  lemma BothDone(left: string, right: string)
    requires Segmentize(left) != [] && Segmentize(right) != []
    requires Aligned(left, right).leftDone && Aligned(left, right).rightDone
    ensures left == right && Compute(left, right) == Split(left, "", "", "")
  {
    hide Rest, Spell, Align, Segmentize;
    var L, R := Segmentize(left), Segmentize(right);
    var c := Aligned(left, right);
    AlignmentKeepsBoth(left, right);
    RestBack(L, c.ls, c.le);
    RestBack(R, c.rs, c.re);
  }

  lemma {:induction false} RestNonEmpty(S: seq<Segment>, s: nat, e: nat)
    requires WellCut(S) && s <= e < |S|
    ensures Rest(S, s, e, false) != ""
  {
    WellCutNonEmpty(S, e);
    RestBack(S, s, e);
  }

  lemma TwiceCounted(left: string, right: string)
    requires Segmentize(left) != [] && Segmentize(right) != []
    requires CountsTwice(Segmentize(left), Segmentize(right), Aligned(left, right))
    ensures Reconstructs(Compute(left, right), left, right) <==> Repaired(Aligned(left, right), left, right)
  {
    hide Rest, Spell, WellCut, Align, Segmentize;
    var L, R := Segmentize(left), Segmentize(right);
    var c := Aligned(left, right);
    SegmentizeIsTheCut(left, L);
    SegmentizeIsTheCut(right, R);
    AlignmentKeepsBoth(left, right);
    var t := Tail(L, R, c);
    RestBack(L, c.ls, c.le);
    RestBack(R, c.rs, c.re);
    WellCutNonEmpty(L, c.ls);
    WellCutNonEmpty(L, c.le);
    if c.ls == c.le && c.rs != c.re {
      RestNonEmpty(R, t.rs, t.re);
      RestBack(L, t.ls, t.le);
      LeftTwice(left, right, L, R, t);
    } else if c.rs == c.re && c.ls != c.le {
      RestNonEmpty(L, t.ls, t.le);
      RestBack(R, t.rs, t.re);
      RightTwice(left, right, L, R, t);
    } else {
      RestNonEmpty(L, c.ls, c.le);
      RestNonEmpty(R, c.rs, c.re);
    }
  }

  lemma NothingCommon(x: string, y: string)
    requires x == "" || y == ""
    ensures SuffixLen(x, y) == 0 && PrefixLen(x, y) == 0
  {}

  lemma Untrimmed(x: string, y: string)
    ensures x[..0] == "" && x[|x|..] == "" && x[0..|x|] == x
    ensures y + "" == y && "" + y == y
  {}

  /** With nothing left on one side there is nothing to trim. */
  lemma TrimNothing(L: seq<Segment>, R: seq<Segment>, c: Cursors)
    requires InRange(L, R, c)
    requires var rl, rr := Rest(L, c.ls, c.le, c.leftDone), Rest(R, c.rs, c.re, c.rightDone); rl == "" || rr == ""
    ensures Trim(L, R, c) == Split(c.prefix, c.suffix, Rest(L, c.ls, c.le, c.leftDone), Rest(R, c.rs, c.re, c.rightDone))
  {
    hide Rest, SuffixLen, PrefixLen, Trim;
    var rl, rr := Rest(L, c.ls, c.le, c.leftDone), Rest(R, c.rs, c.re, c.rightDone);
    NothingCommon(rl, rr);
    Untrimmed(rl, c.prefix);
    Untrimmed(rr, c.suffix);
    assert rl[..|rl| - 0] == rl && rr[..|rr| - 0] == rr;
    TrimIs(L, R, c, rl, rr, 0, 0);
  }

  lemma LeftTwice(left: string, right: string, L: seq<Segment>, R: seq<Segment>, t: Cursors)
    requires InRange(L, R, t) && t.leftDone && !t.rightDone
    requires Rest(L, t.ls, t.le, true) == "" && Rest(R, t.rs, t.re, false) != ""
    requires |t.prefix| + |t.suffix| > |left|
    ensures Reconstructs(Finish(Trim(L, R, t), left, right), left, right) <==> left <= right
  {
    hide Rest, Trim, Finish, Reconstructs;
    TrimNothing(L, R, t);
    TooLongLeft(Trim(L, R, t), left, right);
  }

  lemma TooLongLeft(d: Split, left: string, right: string)
    requires d.left == "" && d.right != "" && |d.prefix| + |d.suffix| > |left|
    ensures Reconstructs(Finish(d, left, right), left, right) <==> left <= right
  {
    assert |d.prefix + d.left + d.suffix| == |d.prefix| + |d.suffix|;
    if left <= right { assert left + right[|left|..] == right; }
  }

  lemma RightTwice(left: string, right: string, L: seq<Segment>, R: seq<Segment>, t: Cursors)
    requires InRange(L, R, t) && t.rightDone && !t.leftDone
    requires Rest(R, t.rs, t.re, true) == "" && Rest(L, t.ls, t.le, false) != ""
    requires |t.prefix| + |t.suffix| > |right|
    ensures !Reconstructs(Finish(Trim(L, R, t), left, right), left, right)
  {
    hide Rest, Trim, Finish, Reconstructs;
    TrimNothing(L, R, t);
    TooLong(Trim(L, R, t), left, right);
  }

  lemma TooLong(d: Split, left: string, right: string)
    requires d.right == "" && d.left != "" && |d.prefix| + |d.suffix| > |right|
    ensures !Reconstructs(Finish(d, left, right), left, right)
  {
    assert |d.prefix + d.right + d.suffix| == |d.prefix| + |d.suffix|;
  }

  predicate NoRepeats(S: seq<Segment>) {
    forall j, k :: 0 <= j < k < |S| ==> S[j] != S[k]
  }

  /** When no segment occurs twice within either input the result always spells both. */
  lemma ReconstructsWithoutRepeats(left: string, right: string)
    requires NoRepeats(Segmentize(left)) && NoRepeats(Segmentize(right))
    ensures Reconstructs(Compute(left, right), left, right)
  {
    var L, R := Segmentize(left), Segmentize(right);
    SegmentizeIsTheCut(left, L);
    SegmentizeIsTheCut(right, R);
    if L != [] && R != [] {
      ReconstructsExactly(left, right);
      AlignmentKeepsBoth(left, right);
    }
  }

  /** Two repeated markers make the tail count one of them twice. */
  lemma RepeatedMarkerIsCountedTwice()
    ensures !Reconstructs(Compute("<a><b>", "<a><x><b><b>"), "<a><b>", "<a><x><b><b>")
  {
    var a, b, x := Segment(MARKER, "<a>"), Segment(MARKER, "<b>"), Segment(MARKER, "<x>");
    var left, right := "<a><b>", "<a><x><b><b>";
    var L, R := [a, b], [a, x, b, b];
    SpellOne(b);
    assert WellCut([]) && WellCut([b]) by { assert [b][1..] == []; }
    assert WellCut(L) && Spell(L) == left by {
      assert L[1..] == [b] && [b][1..] == [] && WellCut([b]) && Spell([b]) == "<b>";
    }
    assert WellCut(R) && Spell(R) == right by {
      assert R[1..] == [x, b, b] && [x, b, b][1..] == [b, b] && [b, b][1..] == [b] && [b][1..] == [];
      assert WellCut([b, b]) && Spell([b, b]) == "<b><b>";
      assert WellCut([x, b, b]) && Spell([x, b, b]) == "<x><b><b>";
    }
    SegmentizeIsTheCut(left, L);
    SegmentizeIsTheCut(right, R);
    var n := Cursors(1, 1, 1, 2, "" + "<a>", "<b>" + "", true, false);
    assert MatchBack(L, R, MatchFront(L, R, Start(L, R))) == n;
    assert Align(L, R, n) == n;
    assert Aligned(left, right) == n && CountsTwice(L, R, n);
    assert !(left <= right) by { assert left[4] != right[4]; }
    ReconstructsExactly(left, right);
  }

  lemma TrimDiffers(L: seq<Segment>, R: seq<Segment>, t: Cursors)
    requires InRange(L, R, t) && Trim(L, R, t).left != "" && Trim(L, R, t).right != ""
    ensures var d := Trim(L, R, t);
      && (L[t.ls].kind == TEXT && R[t.rs].kind == TEXT ==> d.left[0] != d.right[0])
      && (L[t.le].kind == TEXT && R[t.re].kind == TEXT ==> FromEnd(d.left, 0) != FromEnd(d.right, 0))
  {
    hide Spell, Rest, SuffixLen, PrefixLen;
    var rl, rr := Rest(L, t.ls, t.le, t.leftDone), Rest(R, t.rs, t.re, t.rightDone);
    var sl := if L[t.le].kind == TEXT && R[t.re].kind == TEXT then SuffixLen(rl, rr) else 0;
    var pl := if R[t.rs].kind == TEXT && L[t.ls].kind == TEXT then PrefixLen(rl[..|rl| - sl], rr[..|rr| - sl]) else 0;
    SliceEnds(rl, pl, sl);
    SliceEnds(rr, pl, sl);
  }

  lemma SliceEnds(r: string, p: nat, s: nat)
    requires p + s < |r|
    ensures r[p..|r| - s][0] == r[p] == r[..|r| - s][p]
    ensures FromEnd(r[p..|r| - s], 0) == FromEnd(r, s)
  {}

  /** What remains on both sides shares no further character at an end that lies in text. */
  lemma RemaindersDiffer(left: string, right: string)
    requires Segmentize(left) != [] && Segmentize(right) != []
    requires Compute(left, right).left != "" && Compute(left, right).right != ""
    ensures var L, R := Segmentize(left), Segmentize(right); var t := Tail(L, R, Aligned(left, right));
      var d := Compute(left, right);
      && InRange(L, R, t)
      && (L[t.ls].kind == TEXT && R[t.rs].kind == TEXT ==> d.left[0] != d.right[0])
      && (L[t.le].kind == TEXT && R[t.re].kind == TEXT ==> FromEnd(d.left, 0) != FromEnd(d.right, 0))
  {
    hide Spell, Align, Segmentize, Tail, Trim;
    var L, R := Segmentize(left), Segmentize(right);
    TailInRange(L, R, Aligned(left, right));
    TrimDiffers(L, R, Tail(L, R, Aligned(left, right)));
  }
}
