/** The marker-aware diff takes away everything that both texts have in common at their ends, segment by segment. */
module DiffMaximal {
  import opened Segments
  import opened DiffSplit

  /** The loop goes on as long as it can: at its exit one side is down to a single segment, or neither the front
      segments nor the back segments agree. */
  lemma {:induction false} AlignStops(L: seq<Segment>, R: seq<Segment>, c: Cursors)
    requires InRange(L, R, c)
    ensures var e := Align(L, R, c);
      e.ls == e.le || e.rs == e.re || (L[e.ls] != R[e.rs] && L[e.le] != R[e.re])
    decreases c.le - c.ls
  {
    if c.ls != c.le && c.rs != c.re {
      var f := MatchFront(L, R, c);
      var n := MatchBack(L, R, f);
      assert n.ls == if L[c.ls] == R[c.rs] then c.ls + 1 else c.ls;
      if n != c { AlignStops(L, R, n); }
    }
  }

  lemma AlignmentIsMaximal(left: string, right: string)
    requires Segmentize(left) != [] && Segmentize(right) != []
    ensures var L, R, e := Segmentize(left), Segmentize(right), Aligned(left, right);
      e.ls == e.le || e.rs == e.re || (L[e.ls] != R[e.rs] && L[e.le] != R[e.re])
  {
    AlignStops(Segmentize(left), Segmentize(right), Start(Segmentize(left), Segmentize(right)));
  }

  // ---------- inputs that share their ends ----------

  /** Two lists that share p in front and s behind, and no segment more at either end of what is between. */
  predicate Apart(x: seq<Segment>, y: seq<Segment>) {
    x != [] && y != [] && x[0] != y[0] && x[|x| - 1] != y[|y| - 1]
  }

  /** The cursors after i segments in front and k behind have matched. */
  function Matched(p: seq<Segment>, x: seq<Segment>, y: seq<Segment>, s: seq<Segment>, i: nat, k: nat): Cursors
    requires Apart(x, y) && i <= |p| && k <= |s|
  {
    var l, r := |p| + |x| + |s|, |p| + |y| + |s|;
    Cursors(i, l - 1 - k, i, r - 1 - k, Spell(p[..i]), Spell(s[|s| - k..]), false, false)
  }

  lemma InPlace(p: seq<Segment>, x: seq<Segment>, s: seq<Segment>, i: nat, k: nat)
    requires x != [] && i <= |p| && k <= |s|
    ensures var L := p + x + s;
      && L[i] == (if i < |p| then p[i] else x[0])
      && L[|L| - 1 - k] == (if k < |s| then s[|s| - 1 - k] else x[|x| - 1])
  {}

  lemma SpellFront(p: seq<Segment>, i: nat)
    requires i < |p|
    ensures Spell(p[..i + 1]) == Spell(p[..i]) + p[i].value
  {
    hide Spell;
    assert p[..i + 1] == p[..i] + [p[i]];
    SpellConcat(p[..i], [p[i]]);
    SpellOne(p[i]);
  }

  lemma SpellBack(s: seq<Segment>, k: nat)
    requires k < |s|
    ensures Spell(s[|s| - k - 1..]) == s[|s| - 1 - k].value + Spell(s[|s| - k..])
  {
    hide Spell;
    assert s[|s| - k - 1..] == [s[|s| - 1 - k]] + s[|s| - k..];
    SpellCons(s[|s| - 1 - k], s[|s| - k..]);
  }

  lemma TurnOfLoop(p: seq<Segment>, x: seq<Segment>, y: seq<Segment>, s: seq<Segment>, i: nat, k: nat)
    requires Apart(x, y) && i <= |p| && k <= |s|
    requires var c := Matched(p, x, y, s, i, k); c.ls != c.le && c.rs != c.re
    ensures var L, R, c := p + x + s, p + y + s, Matched(p, x, y, s, i, k);
      && InRange(L, R, c) && InRange(L, R, MatchFront(L, R, c))
      && MatchBack(L, R, MatchFront(L, R, c)) ==
           Matched(p, x, y, s, if i < |p| then i + 1 else i, if k < |s| then k + 1 else k)
  {
    hide Spell;
    InPlace(p, x, s, i, k);
    InPlace(p, y, s, i, k);
    if i < |p| { SpellFront(p, i); }
    if k < |s| { SpellBack(s, k); }
  }

  lemma {:induction false} SharedEnds(p: seq<Segment>, x: seq<Segment>, y: seq<Segment>, s: seq<Segment>, i: nat, k: nat)
    requires Apart(x, y) && i <= |p| && k <= |s|
    ensures InRange(p + x + s, p + y + s, Matched(p, x, y, s, i, k))
    ensures Align(p + x + s, p + y + s, Matched(p, x, y, s, i, k)) == Matched(p, x, y, s, |p|, |s|)
    decreases |p| - i + |s| - k
  {
    hide Spell, MatchFront, MatchBack;
    var c := Matched(p, x, y, s, i, k);
    if c.ls != c.le && c.rs != c.re {
      TurnOfLoop(p, x, y, s, i, k);
      if i < |p| || k < |s| {
        var j, m := if i < |p| then i + 1 else i, if k < |s| then k + 1 else k;
        assert Matched(p, x, y, s, j, m) != c;
        SharedEnds(p, x, y, s, j, m);
      }
    } else {
      assert i == |p| && k == |s|;
    }
  }

  lemma StartMatched(p: seq<Segment>, x: seq<Segment>, y: seq<Segment>, s: seq<Segment>)
    requires Apart(x, y)
    ensures Start(p + x + s, p + y + s) == Matched(p, x, y, s, 0, 0)
  {
    assert p[..0] == [] && s[|s|..] == [];
  }

  lemma TailStays(L: seq<Segment>, R: seq<Segment>, c: Cursors)
    requires InRange(L, R, c) && !c.leftDone && !c.rightDone && L[c.ls] != R[c.rs] && L[c.le] != R[c.re]
    ensures Tail(L, R, c) == c
  {}

  lemma Between(p: seq<Segment>, x: seq<Segment>, s: seq<Segment>)
    requires x != []
    ensures var L := p + x + s; L[|p|..|L| - 1 - |s| + 1] == x
  {}

  lemma SpellWhole(p: seq<Segment>, s: seq<Segment>)
    ensures Spell(p[..|p|]) == Spell(p) && Spell(s[|s| - |s|..]) == Spell(s)
  {
    hide Spell;
    assert p[..|p|] == p && s[0..] == s;
  }

  lemma MatchedFields(p: seq<Segment>, x: seq<Segment>, y: seq<Segment>, s: seq<Segment>)
    requires Apart(x, y)
    ensures var c := Matched(p, x, y, s, |p|, |s|);
      && c.ls == |p| == c.rs && c.le == |p| + |x| - 1 && c.re == |p| + |y| - 1 && !c.leftDone && !c.rightDone
      && c.prefix == Spell(p) && c.suffix == Spell(s)
  {
    hide Spell;
    SpellWhole(p, s);
  }

  lemma MatchedAll(p: seq<Segment>, x: seq<Segment>, y: seq<Segment>, s: seq<Segment>)
    requires Apart(x, y)
    ensures var L, R, c := p + x + s, p + y + s, Matched(p, x, y, s, |p|, |s|);
      && InRange(L, R, c) && !c.leftDone && !c.rightDone && L[c.ls] != R[c.rs] && L[c.le] != R[c.re]
      && c.prefix == Spell(p) && c.suffix == Spell(s)
      && L[c.ls..c.le + 1] == x && R[c.rs..c.re + 1] == y
  {
    hide Spell, Matched;
    MatchedFields(p, x, y, s);
    InPlace(p, x, s, |p|, |s|);
    InPlace(p, y, s, |p|, |s|);
    Between(p, x, s);
    Between(p, y, s);
  }

  /** The alignment leaves exactly what lies between the shared ends. */
  lemma AlignedBetween(p: seq<Segment>, x: seq<Segment>, y: seq<Segment>, s: seq<Segment>)
    requires Apart(x, y)
    ensures var L, R := p + x + s, p + y + s; var t := Tail(L, R, Align(L, R, Start(L, R)));
      && InRange(L, R, t) && t == Matched(p, x, y, s, |p|, |s|)
      && t.prefix == Spell(p) && t.suffix == Spell(s)
      && L[t.ls..t.le + 1] == x && R[t.rs..t.re + 1] == y
  {
    hide Spell, Align, Tail, Start, Matched, Apart;
    StartMatched(p, x, y, s);
    SharedEnds(p, x, y, s, 0, 0);
    MatchedAll(p, x, y, s);
    TailStays(p + x + s, p + y + s, Matched(p, x, y, s, |p|, |s|));
  }

  /** Two texts that share p in front and s behind, segment by segment, around middles that share neither end: the
      prefix is p, the suffix is s, and only the text next to the middle's own text segments goes with them. */
  lemma SharedSegmentsSplitOff(left: string, right: string, p: seq<Segment>, x: seq<Segment>, y: seq<Segment>, s: seq<Segment>)
    returns (a: string, b: string)
    requires Segmentize(left) == p + x + s && Segmentize(right) == p + y + s && Apart(x, y)
    requires Compute(left, right).left != ""
    ensures var d := Compute(left, right);
      && d.prefix == Spell(p) + a && d.suffix == b + Spell(s)
      && a + d.left + b == Spell(x) && a + d.right + b == Spell(y)
    ensures a != "" ==> x[0].kind == TEXT && y[0].kind == TEXT
    ensures b != "" ==> x[|x| - 1].kind == TEXT && y[|y| - 1].kind == TEXT
  {
    hide Spell, Align, Tail, Segmentize, Trim;
    var L, R := p + x + s, p + y + s;
    AlignedBetween(p, x, y, s);
    var t := Tail(L, R, Align(L, R, Start(L, R)));
    InPlace(p, x, s, |p|, |s|);
    InPlace(p, y, s, |p|, |s|);
    a, b := Trimmings(L, R, t);
  }

  lemma Trimmings(L: seq<Segment>, R: seq<Segment>, t: Cursors) returns (a: string, b: string)
    requires InRange(L, R, t) && !t.leftDone && !t.rightDone
    ensures var d, x, y := Trim(L, R, t), Spell(L[t.ls..t.le + 1]), Spell(R[t.rs..t.re + 1]);
      && d.prefix == t.prefix + a && d.suffix == b + t.suffix && a + d.left + b == x && a + d.right + b == y
    ensures a != "" ==> L[t.ls].kind == TEXT && R[t.rs].kind == TEXT
    ensures b != "" ==> L[t.le].kind == TEXT && R[t.re].kind == TEXT
  {
    hide Spell, SuffixLen, PrefixLen, Trim;
    var x, y := Spell(L[t.ls..t.le + 1]), Spell(R[t.rs..t.re + 1]);
    var sl := if L[t.le].kind == TEXT && R[t.re].kind == TEXT then SuffixLen(x, y) else 0;
    var pl := if R[t.rs].kind == TEXT && L[t.ls].kind == TEXT then PrefixLen(x[..|x| - sl], y[..|y| - sl]) else 0;
    a, b := x[..pl], x[|x| - sl..];
    TrimIs(L, R, t, x, y, sl, pl);
    SameEnds(x, y, pl, sl);
    CutThree(x, pl, sl);
    CutThree(y, pl, sl);
    assert b == y[|y| - sl..];
  }
}
