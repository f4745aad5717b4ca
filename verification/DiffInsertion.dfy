/** The marker-aware diff of texts of which one is the other with something inserted, and of equal texts. */
module DiffInsertion {
  import opened Segments
  import opened DiffSplit
  import opened DiffMaximal

  // ---------- both directions ----------

  function Swapped(c: Cursors): Cursors {
    Cursors(c.rs, c.re, c.ls, c.le, c.prefix, c.suffix, c.rightDone, c.leftDone)
  }

  lemma TurnMirrors(L: seq<Segment>, R: seq<Segment>, c: Cursors)
    requires InRange(L, R, c) && c.ls != c.le && c.rs != c.re
    ensures MatchBack(R, L, MatchFront(R, L, Swapped(c))) == Swapped(MatchBack(L, R, MatchFront(L, R, c)))
  {}

  /** The alignment treats both sides alike. */
  lemma {:induction false} AlignMirrors(L: seq<Segment>, R: seq<Segment>, c: Cursors)
    requires InRange(L, R, c)
    ensures Align(R, L, Swapped(c)) == Swapped(Align(L, R, c))
    decreases c.le - c.ls
  {
    if c.ls != c.le && c.rs != c.re {
      TurnMirrors(L, R, c);
      var n := MatchBack(L, R, MatchFront(L, R, c));
      hide MatchBack, MatchFront;
      assert Swapped(n) == Swapped(c) <==> n == c;
      if n != c {
        Advances(L, R, c);
        AlignMirrors(L, R, n);
      }
    }
  }

  lemma Advances(L: seq<Segment>, R: seq<Segment>, c: Cursors)
    requires InRange(L, R, c) && c.ls != c.le && c.rs != c.re
    ensures var n := MatchBack(L, R, MatchFront(L, R, c)); InRange(L, R, n) && (n != c ==> n.le - n.ls < c.le - c.ls)
  {}

  lemma TailMirrors(L: seq<Segment>, R: seq<Segment>, c: Cursors)
    requires InRange(L, R, c)
    ensures Tail(R, L, Swapped(c)) == Swapped(Tail(L, R, c))
  {}

  // ---------- an insertion ----------

  /** The right side has y between p and s, and the left side nothing; no segment occurs twice. */
  predicate Inserted(p: seq<Segment>, y: seq<Segment>, s: seq<Segment>) {
    |p| + |s| > 0 && |y| > 0 && NoRepeats(p + y + s)
  }

  /** i segments of p and k of s have matched; `leftDone` when these are all. */
  function Reached(p: seq<Segment>, y: seq<Segment>, s: seq<Segment>, i: nat, k: nat): (c: Cursors)
    requires i <= |p| && k <= |s| && i + k <= |p| + |s| && |p| + |s| > 0 && |y| > 0
  {
    var l, r, all := |p| + |s|, |p| + |y| + |s|, i + k == |p| + |s|;
    Cursors(i, if all then i else l - 1 - k, i, r - 1 - k, Spell(p[..i]), Spell(s[|s| - k..]), all, false)
  }

  lemma Positions(p: seq<Segment>, y: seq<Segment>, s: seq<Segment>, i: nat)
    ensures i < |p| ==> (p + s)[i] == p[i] == (p + y + s)[i]
    ensures i < |s| ==> (p + s)[|p| + |s| - 1 - i] == s[|s| - 1 - i] == (p + y + s)[|p| + |y| + |s| - 1 - i]
    ensures |y| > 0 ==> (p + y + s)[|p|] == y[0] && (p + y + s)[|p| + |y| - 1] == y[|y| - 1]
    ensures |s| > 0 ==> (p + s)[|p|] == s[0] == (p + y + s)[|p| + |y|]
  {}

  /** The ends of y occur neither in p nor in s. */
  lemma Distinct(p: seq<Segment>, y: seq<Segment>, s: seq<Segment>)
    requires Inserted(p, y, s)
    ensures |p| > 0 ==> p[|p| - 1] != y[|y| - 1]
    ensures |s| > 0 ==> s[0] != y[0] && s[0] != y[|y| - 1]
  {
    var R := p + y + s;
    var n := |p|;
    assert R[n] == y[0] && R[n + |y| - 1] == y[|y| - 1];
    if |p| > 0 { assert R[n - 1] == p[n - 1]; }
    if |s| > 0 { assert R[n + |y|] == s[0]; }
  }

  /** Which ends agree before everything has matched. */
  lemma EndsAgree(p: seq<Segment>, y: seq<Segment>, s: seq<Segment>, i: nat, k: nat)
    requires Inserted(p, y, s) && i <= |p| && k <= |s| && i + k < |p| + |s|
    ensures var L, R := p + s, p + y + s;
      && (i < |p| ==> L[i] == R[i] == p[i])
      && (i == |p| ==> L[i] != R[i])
      && (k < |s| ==> L[|L| - 1 - k] == R[|R| - 1 - k] == s[|s| - 1 - k])
      && (k == |s| ==> L[|L| - 1 - k] != R[|R| - 1 - k])
  {
    Distinct(p, y, s);
    Positions(p, y, s, i);
    Positions(p, y, s, k);
    if |p| > 0 { Positions(p, y, s, |p| - 1); }
  }

  lemma TurnReached(p: seq<Segment>, y: seq<Segment>, s: seq<Segment>, i: nat, k: nat)
    requires Inserted(p, y, s) && i <= |p| && k <= |s| && i + k < |p| + |s| - 1
    ensures var L, R, c := p + s, p + y + s, Reached(p, y, s, i, k);
      && InRange(L, R, c) && c.ls != c.le && c.rs != c.re && InRange(L, R, MatchFront(L, R, c))
      && MatchBack(L, R, MatchFront(L, R, c)) ==
           Reached(p, y, s, if i < |p| then i + 1 else i, if k < |s| then k + 1 else k)
  {
    hide Spell, Inserted, NoRepeats;
    NotNothing(p, y, s);
    EndsAgree(p, y, s, i, k);
    if i < |p| { SpellFront(p, i); }
    if k < |s| { SpellBack(s, k); }
  }

  lemma NotNothing(p: seq<Segment>, y: seq<Segment>, s: seq<Segment>)
    requires Inserted(p, y, s)
    ensures |p| + |s| > 0 && |y| > 0
  {}

  /** Where the loop ends: everything has matched, or the last segment of p or the first of s is left. */
  lemma {:induction false} Reaches(p: seq<Segment>, y: seq<Segment>, s: seq<Segment>, i: nat, k: nat) returns (j: nat, m: nat)
    requires Inserted(p, y, s) && i <= |p| && k <= |s| && (i + k == |p| + |s| ==> |s| > 0)
    ensures InRange(p + s, p + y + s, Reached(p, y, s, i, k))
    ensures j <= |p| && m <= |s| && |p| + |s| - 1 <= j + m && (j + m == |p| + |s| ==> |s| > 0)
    ensures Align(p + s, p + y + s, Reached(p, y, s, i, k)) == Reached(p, y, s, j, m)
    decreases |p| + |s| - i - k
  {
    hide Inserted, Reached, Align, InRange;
    NotNothing(p, y, s);
    if i + k >= |p| + |s| - 1 {
      j, m := i, k;
      LoopIsOver(p, y, s, i, k);
    } else {
      OneTurn(p, y, s, i, k);
      j, m := Reaches(p, y, s, if i < |p| then i + 1 else i, if k < |s| then k + 1 else k);
    }
  }

  lemma OneTurn(p: seq<Segment>, y: seq<Segment>, s: seq<Segment>, i: nat, k: nat)
    requires Inserted(p, y, s) && i <= |p| && k <= |s| && i + k < |p| + |s| - 1
    ensures var L, R, c, j, m := p + s, p + y + s, Reached(p, y, s, i, k), if i < |p| then i + 1 else i, if k < |s| then k + 1 else k;
      && i + k < j + m && (j + m == |p| + |s| ==> |s| > 0)
      && InRange(L, R, c) && InRange(L, R, Reached(p, y, s, j, m)) && Align(L, R, c) == Align(L, R, Reached(p, y, s, j, m))
  {
    hide Spell, MatchFront, MatchBack, Inserted, Reached, Align;
    var j, m := if i < |p| then i + 1 else i, if k < |s| then k + 1 else k;
    NotNothing(p, y, s);
    TurnReached(p, y, s, i, k);
    TurnsOn(p, y, s, i, k, j, m);
    NextTurn(p + s, p + y + s, Reached(p, y, s, i, k));
  }

  lemma LoopIsOver(p: seq<Segment>, y: seq<Segment>, s: seq<Segment>, i: nat, k: nat)
    requires |p| + |s| > 0 && |y| > 0 && i <= |p| && k <= |s| && |p| + |s| - 1 <= i + k && (i + k == |p| + |s| ==> |s| > 0)
    ensures var L, R, c := p + s, p + y + s, Reached(p, y, s, i, k); InRange(L, R, c) && Align(L, R, c) == c
  {
    hide Spell, Align, Reached;
    ReachedEnd(p, y, s, i, k);
    LoopExit(p + s, p + y + s, Reached(p, y, s, i, k));
  }

  lemma ReachedEnd(p: seq<Segment>, y: seq<Segment>, s: seq<Segment>, i: nat, k: nat)
    requires |p| + |s| > 0 && |y| > 0 && i <= |p| && k <= |s| && |p| + |s| - 1 <= i + k && (i + k == |p| + |s| ==> |s| > 0)
    ensures var c := Reached(p, y, s, i, k);
      && c.ls == c.le == i == c.rs && c.re == |p| + |y| + |s| - 1 - k && !c.rightDone && (c.leftDone <==> i + k == |p| + |s|)
      && i < |p| + |s| && i <= c.re
  {
    hide Spell;
  }

  lemma LoopExit(L: seq<Segment>, R: seq<Segment>, c: Cursors)
    requires InRange(L, R, c) && c.ls == c.le
    ensures Align(L, R, c) == c
  {}

  lemma NextTurn(L: seq<Segment>, R: seq<Segment>, c: Cursors)
    requires InRange(L, R, c) && c.ls != c.le && c.rs != c.re
    ensures var n := MatchBack(L, R, MatchFront(L, R, c)); InRange(L, R, n) && (n != c ==> Align(L, R, c) == Align(L, R, n))
  {
    Advances(L, R, c);
  }

  lemma TurnsOn(p: seq<Segment>, y: seq<Segment>, s: seq<Segment>, i: nat, k: nat, j: nat, m: nat)
    requires |p| + |s| > 0 && |y| > 0 && i <= j <= |p| && k <= m <= |s| && i + k < j + m
    ensures Reached(p, y, s, i, k) != Reached(p, y, s, j, m)
  {
    hide Spell;
  }

  lemma TailReaches(p: seq<Segment>, y: seq<Segment>, s: seq<Segment>, j: nat, m: nat)
    requires Inserted(p, y, s) && j <= |p| && m <= |s| && |p| + |s| - 1 <= j + m && (j + m == |p| + |s| ==> |s| > 0)
    ensures var L, R, c := p + s, p + y + s, Reached(p, y, s, j, m);
      && InRange(L, R, c)
      && var t := Tail(L, R, c);
      && InRange(L, R, t) && t.leftDone && t.ls == t.le && !t.rightDone && t.rs == |p| && t.re == |p| + |y| - 1
      && t.prefix == Spell(p) && t.suffix == Spell(s)
  {
    hide Spell, Inserted, Tail, Reached;
    NotNothing(p, y, s);
    if j < |p| { LastOfFront(p, y, s); } else if m < |s| { FirstOfBack(p, y, s); } else { NothingLeft(p, y, s); }
  }

  lemma LastOfFront(p: seq<Segment>, y: seq<Segment>, s: seq<Segment>)
    requires Inserted(p, y, s) && |p| > 0
    ensures var L, R, c, last := p + s, p + y + s, Reached(p, y, s, |p| - 1, |s|), |p| + |y| - 1;
      && InRange(L, R, c)
      && Tail(L, R, c) == Cursors(c.ls, c.ls, |p|, last, Spell(p), Spell(s), true, false)
  {
    hide Spell, Inserted;
    NotNothing(p, y, s);
    EndsAgree(p, y, s, |p| - 1, |s|);
    SpellFront(p, |p| - 1);
    SpellWhole(p, s);
  }

  lemma FirstOfBack(p: seq<Segment>, y: seq<Segment>, s: seq<Segment>)
    requires Inserted(p, y, s) && |s| > 0
    ensures var L, R, c, last := p + s, p + y + s, Reached(p, y, s, |p|, |s| - 1), |p| + |y| - 1;
      && InRange(L, R, c)
      && Tail(L, R, c) == Cursors(c.ls, c.ls, |p|, last, Spell(p), Spell(s), true, false)
  {
    hide Spell, Inserted;
    NotNothing(p, y, s);
    EndsAgree(p, y, s, |p|, |s| - 1);
    SpellBack(s, |s| - 1);
    SpellWhole(p, s);
  }

  lemma NothingLeft(p: seq<Segment>, y: seq<Segment>, s: seq<Segment>)
    requires Inserted(p, y, s) && |s| > 0
    ensures var L, R, c, last := p + s, p + y + s, Reached(p, y, s, |p|, |s|), |p| + |y| - 1;
      && InRange(L, R, c)
      && Tail(L, R, c) == Cursors(c.ls, c.ls, |p|, last, Spell(p), Spell(s), true, false)
  {
    hide Spell, Inserted, Tail, Reached;
    NotNothing(p, y, s);
    Distinct(p, y, s);
    Positions(p, y, s, 0);
    SpellWhole(p, s);
    ReachedEnd(p, y, s, |p|, |s|);
    ReachedTexts(p, y, s);
    NoTail(p + s, p + y + s, Reached(p, y, s, |p|, |s|));
  }

  lemma ReachedTexts(p: seq<Segment>, y: seq<Segment>, s: seq<Segment>)
    requires |p| + |s| > 0 && |y| > 0
    ensures var c := Reached(p, y, s, |p|, |s|); c.prefix == Spell(p[..|p|]) && c.suffix == Spell(s[|s| - |s|..])
  {
    hide Spell;
  }

  lemma NoTail(L: seq<Segment>, R: seq<Segment>, c: Cursors)
    requires InRange(L, R, c) && c.ls == c.le && L[c.ls] != R[c.rs] && L[c.ls] != R[c.re]
    ensures Tail(L, R, c) == c
  {}

  lemma StartReached(p: seq<Segment>, y: seq<Segment>, s: seq<Segment>)
    requires |p| + |s| > 0 && |y| > 0
    ensures Start(p + s, p + y + s) == Reached(p, y, s, 0, 0)
  {
    assert p[..0] == [] && s[|s|..] == [];
  }

  lemma InsertionAligned(p: seq<Segment>, y: seq<Segment>, s: seq<Segment>)
    requires Inserted(p, y, s)
    ensures var L, R := p + s, p + y + s; var t := Tail(L, R, Align(L, R, Start(L, R)));
      && InRange(L, R, t) && t.leftDone && t.ls == t.le && !t.rightDone && R[t.rs..t.re + 1] == y
      && t.prefix == Spell(p) && t.suffix == Spell(s)
  {
    hide Spell, Align, Tail, Start, Reached, Inserted;
    NotNothing(p, y, s);
    StartReached(p, y, s);
    var j, m := Reaches(p, y, s, 0, 0);
    TailReaches(p, y, s, j, m);
    assert (p + y + s)[|p|..|p| + |y|] == y;
  }

  /** Nothing is trimmed next to a side that is used up. */
  lemma NothingTrimmed(L: seq<Segment>, R: seq<Segment>, t: Cursors)
    requires InRange(L, R, t)
    ensures t.leftDone && !t.rightDone ==> Trim(L, R, t) == Split(t.prefix, t.suffix, "", Spell(R[t.rs..t.re + 1]))
    ensures t.rightDone && !t.leftDone ==> Trim(L, R, t) == Split(t.prefix, t.suffix, Spell(L[t.ls..t.le + 1]), "")
  {
    hide Spell, Rest, Trim, SuffixLen, PrefixLen;
    var rl, rr := Rest(L, t.ls, t.le, t.leftDone), Rest(R, t.rs, t.re, t.rightDone);
    RestIs(L, t.ls, t.le, t.leftDone);
    RestIs(R, t.rs, t.re, t.rightDone);
    if t.leftDone != t.rightDone {
      TrimIs(L, R, t, rl, rr, 0, 0);
      NoneTrimmed(t.prefix, t.suffix, rl);
      NoneTrimmed(t.prefix, t.suffix, rr);
    }
  }

  lemma RestIs(S: seq<Segment>, s: nat, e: nat, done: bool)
    requires s <= e < |S| && (done ==> s == e)
    ensures Rest(S, s, e, done) == if done then "" else Spell(S[s..e + 1])
  {
    hide Spell;
    SpellNone(S[s..s]);
  }

  lemma NoneTrimmed(p: string, s: string, r: string)
    ensures r[..0] == "" && p + "" == p && r[|r| - 0..] == "" && "" + s == s && r[0..|r| - 0] == r
  {}

  lemma SpellNone(g: seq<Segment>)
    ensures g == [] ==> Spell(g) == ""
  {}

  lemma SpellsSomething(text: string, p: seq<Segment>, y: seq<Segment>, s: seq<Segment>)
    requires Segmentize(text) == p + y + s && |y| > 0
    ensures Spell(y) != ""
  {
    hide Spell, Segmentize;
    SegmentizeIsTheCut(text, p + y + s);
    WellCutNonEmpty(p + y + s, |p|);
    assert y == [y[0]] + y[1..] && (p + y + s)[|p|] == y[0];
    SpellCons(y[0], y[1..]);
  }

  /** Segments inserted into a text are exactly what is reported as added, between the segments before and behind
      them; a text that begins the other one is reported as a whole. */
  lemma InsertionFound(left: string, right: string, p: seq<Segment>, y: seq<Segment>, s: seq<Segment>)
    requires Segmentize(left) == p + s && Segmentize(right) == p + y + s && Inserted(p, y, s)
    ensures Compute(left, right) ==
      if left <= right then Split(left, "", "", right[|left|..]) else Split(Spell(p), Spell(s), "", Spell(y))
  {
    hide Spell, Segmentize, Align, Tail, Start, Trim, Inserted;
    var L, R := p + s, p + y + s;
    NotNothing(p, y, s);
    InsertionAligned(p, y, s);
    StartInRange(L, R);
    var t := Tail(L, R, Align(L, R, Start(L, R)));
    NothingTrimmed(L, R, t);
    SpellsSomething(right, p, y, s);
  }

  lemma StartMirrors(L: seq<Segment>, R: seq<Segment>)
    requires |L| > 0 && |R| > 0
    ensures Start(R, L) == Swapped(Start(L, R))
  {}

  /** Segments removed from a text are exactly what is reported as removed. */
  lemma DeletionFound(left: string, right: string, p: seq<Segment>, x: seq<Segment>, s: seq<Segment>)
    requires Segmentize(left) == p + x + s && Segmentize(right) == p + s && Inserted(p, x, s)
    ensures Compute(left, right) == Split(Spell(p), Spell(s), Spell(x), "")
  {
    hide Spell, Segmentize, Align, Tail, Start, Trim, Inserted, InRange;
    var L, R := p + x + s, p + s;
    NotNothing(p, x, s);
    InsertionAligned(p, x, s);
    StartInRange(L, R);
    StartMirrors(R, L);
    AlignMirrors(R, L, Start(R, L));
    TailMirrors(R, L, Align(R, L, Start(R, L)));
    var t := Tail(L, R, Align(L, R, Start(L, R)));
    SwappedInRange(R, L, Tail(R, L, Align(R, L, Start(R, L))));
    NothingTrimmed(L, R, t);
    SpellsSomething(left, p, x, s);
  }

  lemma StartInRange(L: seq<Segment>, R: seq<Segment>)
    requires |L| > 0 && |R| > 0
    ensures InRange(L, R, Start(L, R)) && InRange(R, L, Start(R, L))
  {}

  lemma SwappedInRange(L: seq<Segment>, R: seq<Segment>, c: Cursors)
    requires InRange(L, R, c)
    ensures InRange(R, L, Swapped(c))
  {}

  // ---------- equal texts ----------

  /** The cursors are alike on both sides. */
  predicate Alike(c: Cursors) {
    c.ls == c.rs && c.le == c.re && c.leftDone == c.rightDone
  }

  lemma {:induction false} AlignAlike(L: seq<Segment>, c: Cursors)
    requires InRange(L, L, c) && Alike(c)
    ensures var e := Align(L, L, c); Alike(e) && e.ls == e.le
    decreases c.le - c.ls
  {
    if c.ls != c.le {
      TurnAlike(L, c);
      NextTurn(L, L, c);
      AlignAlike(L, MatchBack(L, L, MatchFront(L, L, c)));
    }
  }

  lemma TurnAlike(L: seq<Segment>, c: Cursors)
    requires InRange(L, L, c) && Alike(c) && c.ls != c.le
    ensures var n := MatchBack(L, L, MatchFront(L, L, c)); InRange(L, L, n) && Alike(n) && n != c && n.le - n.ls < c.le - c.ls
  {}

  lemma TrimAlike(L: seq<Segment>, c: Cursors)
    requires InRange(L, L, c) && Alike(c) && c.ls == c.le && (c.leftDone || L[c.ls].kind == TEXT)
    ensures Trim(L, L, c).left == "" && Trim(L, L, c).right == ""
  {
    hide Spell, SuffixLen;
    var r := Rest(L, c.ls, c.le, c.leftDone);
    SpellNone(L[c.ls..c.ls]);
    SuffixOfSame(r);
    if c.leftDone { assert r == ""; }
  }

  lemma SuffixOfSame(r: string)
    ensures SuffixLen(r, r) == |r|
  {
    hide SuffixLen;
  }

  /** Equal texts are one common prefix. */
  lemma EqualTexts(text: string)
    ensures Compute(text, text) == Split(text, "", "", "")
  {
    hide Spell, Segmentize, Align, Trim, Tail;
    var L := Segmentize(text);
    if L == [] {
      SegmentizeIsTheCut(text, L);
      SpellNone(L);
    } else {
      AlignAlike(L, Start(L, L));
      var e := Align(L, L, Start(L, L));
      TailAlike(L, e);
      TrimAlike(L, Tail(L, L, e));
    }
  }

  lemma TailAlike(L: seq<Segment>, c: Cursors)
    requires InRange(L, L, c) && Alike(c) && c.ls == c.le
    ensures var t := Tail(L, L, c); InRange(L, L, t) && Alike(t) && t.ls == t.le && (t.leftDone || L[t.ls].kind == TEXT)
  {}
}
