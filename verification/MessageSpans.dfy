/** Splitting a token stream into message spans at delimiter sequences, jumping over regions that
    must not be searched. */
module MessageSpans {
  import opened Wrappers

  datatype Role = UNKNOWN | SYSTEM | ASSISTANT | USER | TOOL

  datatype Delimiter = Delimiter(role: Role, tokens: seq<int>)

  datatype Match = Match(role: Role, pos: nat)

  datatype Span = Span(role: Role, pos: nat, len: nat)

  /** A region to jump over. */
  datatype Region = Region(start: nat, len: nat)

  // ---------- delimiters ----------

  predicate MatchesAt(d: Delimiter, tokens: seq<int>, i: nat) {
    i + |d.tokens| <= |tokens| && tokens[i..i + |d.tokens|] == d.tokens
  }

  /** The role of the first delimiter in list order that matches at i. */
  function FirstMatch(ds: seq<Delimiter>, tokens: seq<int>, i: nat): Option<Role>
    decreases |ds|
  {
    if ds == [] then None
    else if MatchesAt(ds[0], tokens, i) then Some(ds[0].role)
    else FirstMatch(ds[1..], tokens, i)
  }

  predicate IsFirst(ds: seq<Delimiter>, tokens: seq<int>, i: nat, k: nat)
    requires k < |ds|
  {
    MatchesAt(ds[k], tokens, i) && forall j :: 0 <= j < k ==> !MatchesAt(ds[j], tokens, i)
  }

  lemma {:induction false} FirstMatchMeaning(ds: seq<Delimiter>, tokens: seq<int>, i: nat)
    ensures match FirstMatch(ds, tokens, i)
      case None => forall k :: 0 <= k < |ds| ==> !MatchesAt(ds[k], tokens, i)
      case Some(role) => exists k :: 0 <= k < |ds| && IsFirst(ds, tokens, i, k) && ds[k].role == role
    decreases |ds|
  {
    hide MatchesAt;
    if ds == [] {
    } else if MatchesAt(ds[0], tokens, i) {
      assert IsFirst(ds, tokens, i, 0);
    } else {
      FirstMatchMeaning(ds[1..], tokens, i);
      var m := FirstMatch(ds, tokens, i);
      if m.Some? {
        var k :| 0 <= k < |ds| - 1 && IsFirst(ds[1..], tokens, i, k) && ds[1..][k].role == m.value;
        forall j | 0 <= j < k + 1 ensures !MatchesAt(ds[j], tokens, i) { if j > 0 { assert ds[1..][j - 1] == ds[j]; } }
        assert IsFirst(ds, tokens, i, k + 1);
      } else {
        forall k | 0 <= k < |ds| ensures !MatchesAt(ds[k], tokens, i) { if k > 0 { assert ds[1..][k - 1] == ds[k]; } }
      }
    }
  }

  // ---------- regions ----------

  /** The regions of a map: in increasing order of their starts. */
  predicate InOrder(rs: seq<Region>) {
    forall j, k :: 0 <= j < k < |rs| ==> rs[j].start < rs[k].start
  }

  predicate Disjoint(rs: seq<Region>) {
    forall k :: 0 < k < |rs| ==> rs[k - 1].start + rs[k - 1].len <= rs[k].start
  }

  predicate Skipped(rs: seq<Region>, p: nat) {
    exists k :: 0 <= k < |rs| && rs[k].start <= p < rs[k].start + rs[k].len
  }

  /** The regions that are honoured: once a jump passes the start of the next region, the scan waits
      for that start forever. */
  function Honoured(rs: seq<Region>): (r: seq<Region>)
    ensures |r| <= |rs| && r == rs[..|r|] && (rs != [] ==> r != [])
    ensures |r| < |rs| ==> rs[|r|].start < rs[|r| - 1].start + rs[|r| - 1].len
    decreases |rs|
  {
    if |rs| < 2 then rs
    else if rs[0].start + rs[0].len <= rs[1].start then
      assert rs == [rs[0]] + rs[1..];
      [rs[0]] + Honoured(rs[1..])
    else [rs[0]]
  }

  lemma {:induction false} HonouredDisjoint(rs: seq<Region>)
    ensures Disjoint(Honoured(rs)) && (Honoured(rs) == rs <==> Disjoint(rs))
    decreases |rs|
  {
    if |rs| >= 2 {
      if rs[0].start + rs[0].len <= rs[1].start {
        HonouredDisjoint(rs[1..]);
        var h := Honoured(rs[1..]);
        forall k | 0 < k < |h| + 1 ensures ([rs[0]] + h)[k - 1].start + ([rs[0]] + h)[k - 1].len <= ([rs[0]] + h)[k].start {
          if k > 1 { assert h[k - 2].start + h[k - 2].len <= h[k - 1].start; }
        }
        assert rs == [rs[0]] + rs[1..];
        assert Disjoint(rs) <==> Disjoint(rs[1..]) by { DisjointRest(rs); }
      } else {
        assert !Disjoint(rs);
      }
    }
  }

  lemma DisjointRest(rs: seq<Region>)
    requires |rs| >= 2 && rs[0].start + rs[0].len <= rs[1].start
    ensures Disjoint(rs) <==> Disjoint(rs[1..])
  {
    if Disjoint(rs) {
      forall k | 0 < k < |rs| - 1 ensures rs[1..][k - 1].start + rs[1..][k - 1].len <= rs[1..][k].start {
        assert rs[k].start + rs[k].len <= rs[k + 1].start;
      }
    }
    if Disjoint(rs[1..]) {
      forall k | 0 < k < |rs| ensures rs[k - 1].start + rs[k - 1].len <= rs[k].start {
        if k > 1 { assert rs[1..][k - 2].start + rs[1..][k - 2].len <= rs[1..][k - 1].start; }
      }
    }
  }

  // ---------- where spans start ----------

  predicate IsStart(ds: seq<Delimiter>, tokens: seq<int>, rs: seq<Region>, p: nat) {
    !Skipped(rs, p) && FirstMatch(ds, tokens, p).Some?
  }

  /** The starts from position p on. */
  function Starts(ds: seq<Delimiter>, tokens: seq<int>, rs: seq<Region>, p: nat): (r: seq<Match>)
    decreases |tokens| - p
  {
    if p >= |tokens| then []
    else
      (if IsStart(ds, tokens, rs, p) then [Match(FirstMatch(ds, tokens, p).value, p)] else [])
        + Starts(ds, tokens, rs, p + 1)
  }

  /** Positions in [lo, hi), increasing. */
  predicate Increasing(s: seq<Match>, lo: nat, hi: nat) {
    && (forall k :: 0 <= k < |s| ==> lo <= s[k].pos < hi)
    && (forall j, k :: 0 <= j < k < |s| ==> s[j].pos < s[k].pos)
  }

  predicate AreStarts(ds: seq<Delimiter>, tokens: seq<int>, rs: seq<Region>, s: seq<Match>) {
    forall k :: 0 <= k < |s| ==>
      IsStart(ds, tokens, rs, s[k].pos) && FirstMatch(ds, tokens, s[k].pos) == Some(s[k].role)
  }

  lemma IncreasingCons(m: Match, s: seq<Match>, lo: nat, hi: nat)
    requires Increasing(s, lo + 1, hi)
    ensures Increasing(s, lo, hi) && (m.pos == lo < hi ==> Increasing([m] + s, lo, hi))
  {}

  lemma StartsStep(ds: seq<Delimiter>, tokens: seq<int>, rs: seq<Region>, p: nat)
    requires p < |tokens|
    ensures var rest := Starts(ds, tokens, rs, p + 1);
      Starts(ds, tokens, rs, p) ==
        if IsStart(ds, tokens, rs, p) then [Match(FirstMatch(ds, tokens, p).value, p)] + rest else rest
  {
    hide Skipped, FirstMatch;
    var rest := Starts(ds, tokens, rs, p + 1);
    assert [] + rest == rest;
  }

  lemma AreStartsCons(ds: seq<Delimiter>, tokens: seq<int>, rs: seq<Region>, p: nat, s: seq<Match>)
    requires IsStart(ds, tokens, rs, p) && AreStarts(ds, tokens, rs, s)
    ensures AreStarts(ds, tokens, rs, [Match(FirstMatch(ds, tokens, p).value, p)] + s)
  {
    hide Skipped, FirstMatch;
  }

  lemma {:induction false} StartsMeaning(ds: seq<Delimiter>, tokens: seq<int>, rs: seq<Region>, p: nat)
    ensures var s := Starts(ds, tokens, rs, p); Increasing(s, p, |tokens|) && AreStarts(ds, tokens, rs, s)
    decreases |tokens| - p
  {
    if p < |tokens| {
      hide Starts, Increasing, AreStarts, FirstMatch, Skipped;
      StartsMeaning(ds, tokens, rs, p + 1);
      StartsStep(ds, tokens, rs, p);
      var rest := Starts(ds, tokens, rs, p + 1);
      IncreasingCons(Match(UNKNOWN, p), rest, p, |tokens|);
      if IsStart(ds, tokens, rs, p) {
        IncreasingCons(Match(FirstMatch(ds, tokens, p).value, p), rest, p, |tokens|);
        AreStartsCons(ds, tokens, rs, p, rest);
      }
    }
  }

  lemma {:induction false} EveryStart(ds: seq<Delimiter>, tokens: seq<int>, rs: seq<Region>, p: nat, q: nat)
    requires p <= q < |tokens| && IsStart(ds, tokens, rs, q)
    ensures exists k :: 0 <= k < |Starts(ds, tokens, rs, p)| && Starts(ds, tokens, rs, p)[k].pos == q
    decreases q - p
  {
    hide IsStart, FirstMatch;
    var s := Starts(ds, tokens, rs, p);
    if p == q {
      IsStartHasRole(ds, tokens, rs, q);
      assert s[0].pos == q;
    } else {
      EveryStart(ds, tokens, rs, p + 1, q);
      var rest := Starts(ds, tokens, rs, p + 1);
      var k :| 0 <= k < |rest| && rest[k].pos == q;
      assert s[|s| - |rest| + k] == rest[k];
    }
  }

  lemma IsStartHasRole(ds: seq<Delimiter>, tokens: seq<int>, rs: seq<Region>, p: nat)
    requires IsStart(ds, tokens, rs, p)
    ensures FirstMatch(ds, tokens, p).Some?
  {}

  lemma {:induction false} NoStartsSkipped(ds: seq<Delimiter>, tokens: seq<int>, rs: seq<Region>, p: nat, q: nat)
    requires p <= q && forall x :: p <= x < q ==> Skipped(rs, x)
    ensures Starts(ds, tokens, rs, p) == Starts(ds, tokens, rs, q)
    decreases q - p
  {
    hide Skipped, FirstMatch;
    if p < q { NoStartsSkipped(ds, tokens, rs, p + 1, q); }
  }

  /** Two sets of regions give the same starts exactly when they agree at every matching position. */
  lemma {:induction false} SameStarts(ds: seq<Delimiter>, tokens: seq<int>, a: seq<Region>, b: seq<Region>, p: nat)
    ensures Starts(ds, tokens, a, p) == Starts(ds, tokens, b, p) <==> Agree(ds, tokens, a, b, p)
    decreases |tokens| - p
  {
    if p < |tokens| {
      hide Starts, Skipped, FirstMatch, Increasing, Agree;
      SameStarts(ds, tokens, a, b, p + 1);
      StartsStep(ds, tokens, a, p);
      StartsStep(ds, tokens, b, p);
      AgreeStep(ds, tokens, a, b, p);
      var s1, t1 := Starts(ds, tokens, a, p + 1), Starts(ds, tokens, b, p + 1);
      StartsMeaning(ds, tokens, a, p + 1);
      StartsMeaning(ds, tokens, b, p + 1);
      if FirstMatch(ds, tokens, p).Some? {
        ConsDiffers(Match(FirstMatch(ds, tokens, p).value, p), s1, t1, |tokens|);
      }
    }
  }

  predicate Agree(ds: seq<Delimiter>, tokens: seq<int>, a: seq<Region>, b: seq<Region>, p: nat) {
    forall q :: p <= q < |tokens| && FirstMatch(ds, tokens, q).Some? ==> (Skipped(a, q) <==> Skipped(b, q))
  }

  lemma AgreeStep(ds: seq<Delimiter>, tokens: seq<int>, a: seq<Region>, b: seq<Region>, p: nat)
    requires p < |tokens|
    ensures Agree(ds, tokens, a, b, p) <==>
      Agree(ds, tokens, a, b, p + 1) && (FirstMatch(ds, tokens, p).Some? ==> (Skipped(a, p) <==> Skipped(b, p)))
  {
    hide FirstMatch, Skipped;
  }

  lemma ConsDiffers(m: Match, s: seq<Match>, t: seq<Match>, hi: nat)
    requires Increasing(s, m.pos + 1, hi) && Increasing(t, m.pos + 1, hi)
    ensures [m] + s != t && s != [m] + t && ([m] + s == [m] + t <==> s == t)
  {
    assert ([m] + s)[0] == m && ([m] + t)[0] == m && ([m] + s)[1..] == s && ([m] + t)[1..] == t;
  }

  // ---------- spans ----------

  /** Each span reaches to the next start, the last to the end. */
  function SpansOf(s: seq<Match>, end: nat): (r: seq<Span>)
    requires Increasing(s, 0, end)
    ensures |r| == |s|
    ensures forall k :: 0 <= k < |s| ==> r[k] == Span(s[k].role, s[k].pos, EndOf(s, k, end) - s[k].pos)
  {
    seq(|s|, k requires 0 <= k < |s| => Span(s[k].role, s[k].pos, EndOf(s, k, end) - s[k].pos))
  }

  function EndOf(s: seq<Match>, k: nat, end: nat): (e: nat)
    requires Increasing(s, 0, end) && k < |s|
    ensures e > s[k].pos
  {
    if k + 1 < |s| then s[k + 1].pos else end
  }

  function Spans(ds: seq<Delimiter>, tokens: seq<int>, rs: seq<Region>): seq<Span> {
    StartsMeaning(ds, tokens, rs, 0);
    SpansOf(Starts(ds, tokens, rs, 0), |tokens|)
  }

  method Split(ds: seq<Delimiter>, tokens: seq<int>, skips: seq<Region>) returns (spans: seq<Span>)
    requires InOrder(skips)
    ensures spans == Spans(ds, tokens, Honoured(skips))
  {
    hide Starts, Honoured, Increasing;
    var matches := FindMatches(ds, tokens, skips);
    ghost var starts := matches;
    StartsMeaning(ds, tokens, Honoured(skips), 0);
    ghost var all := SpansOf(starts, |tokens|);
    matches := matches + [Match(UNKNOWN, |tokens|)];
    spans := [];
    hide Spans, SpansOf;
    var i := 0;
    while i + 1 < |matches|
      invariant i == |spans| <= |all|
      invariant forall k :: 0 <= k < i ==> spans[k] == all[k]
    {
      var curr, next := matches[i], matches[i + 1];
      SpanAt(starts, i, |tokens|, next);
      spans := spans + [Span(curr.role, curr.pos, next.pos - curr.pos)];
      i := i + 1;
    }
    assert spans == all;
  }

  lemma SpanAt(s: seq<Match>, k: nat, end: nat, next: Match)
    requires Increasing(s, 0, end) && k < |s| && next == (s + [Match(UNKNOWN, end)])[k + 1]
    ensures next.pos > s[k].pos && SpansOf(s, end)[k] == Span(s[k].role, s[k].pos, next.pos - s[k].pos)
  {
    hide Increasing;
    assert next.pos == EndOf(s, k, end);
  }

  /** Where the scan stands: the regions before `skip` are behind it, the next one is not, and a region
      that is not honoured has been passed for good. */
  predicate Standing(skips: seq<Region>, skip: nat, i: nat) {
    var rs := Honoured(skips);
    && skip <= |rs| && (forall k :: 0 <= k < skip ==> rs[k].start + rs[k].len <= i)
    && (skip < |rs| ==> i <= rs[skip].start)
    && (skip == |rs| < |skips| ==> skips[skip].start < i)
  }

  lemma JumpOver(skips: seq<Region>, skip: nat, i: nat)
    requires Standing(skips, skip, i) && skip < |skips| && i == skips[skip].start
    ensures Standing(skips, skip + 1, i + skips[skip].len)
    ensures forall x :: i <= x < i + skips[skip].len ==> Skipped(Honoured(skips), x)
  {
    var rs := Honoured(skips);
    HonouredDisjoint(skips);
    hide Honoured;
    assert skips[skip] == rs[skip];
    forall x | i <= x < i + skips[skip].len ensures Skipped(rs, x) { assert rs[skip].start <= x; }
  }

  lemma StepOn(skips: seq<Region>, skip: nat, i: nat)
    requires Standing(skips, skip, i) && (skip < |skips| ==> i != skips[skip].start)
    ensures Standing(skips, skip, i + 1) && !Skipped(Honoured(skips), i)
  {
    var rs := Honoured(skips);
    HonouredDisjoint(skips);
    hide Honoured;
    assert skip < |rs| ==> skips[skip] == rs[skip];
    NotSkippedHere(rs, skip, i);
  }

  /** The scan: a region is jumped over when the scan stands at its start, which also ends its turn;
      so a region of length zero does not stop the scan. */
  method FindMatches(ds: seq<Delimiter>, tokens: seq<int>, skips: seq<Region>) returns (matches: seq<Match>)
    requires InOrder(skips)
    ensures matches == Starts(ds, tokens, Honoured(skips), 0)
  {
    hide Skipped, FirstMatch, Standing, Honoured;
    ghost var rs := Honoured(skips);
    matches := [];
    var i, skip := 0, 0;
    assert Standing(skips, 0, 0) by { StandingFirst(skips); }
    while i < |tokens|
      invariant Standing(skips, skip, i) && skip <= |skips|
      invariant matches + Starts(ds, tokens, rs, i) == Starts(ds, tokens, rs, 0)
      decreases |tokens| - i, |skips| - skip
    {
      if skip < |skips| && i == skips[skip].start {
        var len := skips[skip].len;
        JumpOver(skips, skip, i);
        NoStartsSkipped(ds, tokens, rs, i, i + len);
        i := i + len;
        skip := skip + 1;
        continue;
      }
      StepOn(skips, skip, i);
      ghost var rest := Starts(ds, tokens, rs, i + 1);
      var role := MatchHere(ds, tokens, i);
      if role.Some? {
        assert Starts(ds, tokens, rs, i) == [Match(role.value, i)] + rest;
        assert matches + ([Match(role.value, i)] + rest) == matches + [Match(role.value, i)] + rest;
        matches := matches + [Match(role.value, i)];
      } else {
        assert Starts(ds, tokens, rs, i) == [] + rest == rest;
      }
      i := i + 1;
    }
    assert matches + [] == matches;
  }

  lemma StandingFirst(skips: seq<Region>)
    ensures Standing(skips, 0, 0)
  {}

  lemma NotSkippedHere(rs: seq<Region>, skip: nat, i: nat)
    requires Disjoint(rs) && skip <= |rs| && (forall k :: 0 <= k < skip ==> rs[k].start + rs[k].len <= i)
    requires skip < |rs| ==> i < rs[skip].start
    ensures !Skipped(rs, i)
  {
    forall k | skip <= k < |rs| ensures i < rs[k].start { LaterRegions(rs, skip, k); }
  }

  lemma {:induction false} LaterRegions(rs: seq<Region>, j: nat, k: nat)
    requires Disjoint(rs) && j <= k < |rs|
    ensures rs[j].start <= rs[k].start
    decreases k - j
  {
    if j < k { LaterRegions(rs, j, k - 1); }
  }

  method MatchHere(ds: seq<Delimiter>, tokens: seq<int>, i: nat) returns (role: Option<Role>)
    ensures role == FirstMatch(ds, tokens, i)
  {
    for k := 0 to |ds|
      invariant FirstMatch(ds, tokens, i) == FirstMatch(ds[k..], tokens, i)
    {
      var d := ds[k];
      assert ds[k..][0] == d && ds[k..][1..] == ds[k + 1..];
      if i + |d.tokens| > |tokens| {
        continue;
      }
      if tokens[i..i + |d.tokens|] == d.tokens {
        return Some(d.role);
      }
    }
    return None;
  }

  /** Spans partition the tokens from the first start to the end, and start exactly at the matching
      positions outside the regions, with the role of the first matching delimiter. */
  lemma SpansMeaning(ds: seq<Delimiter>, tokens: seq<int>, rs: seq<Region>, p: nat)
    requires p < |tokens|
    ensures var s := Spans(ds, tokens, rs);
      && (Starting(s, p) <==> !Skipped(rs, p) && FirstMatch(ds, tokens, p).Some?)
      && Contiguous(s, |tokens|)
      && forall k :: 0 <= k < |s| ==> FirstMatch(ds, tokens, s[k].pos) == Some(s[k].role)
  {
    hide Starts, Skipped, FirstMatch, Contiguous, Increasing, Starting;
    var t := Starts(ds, tokens, rs, 0);
    StartsMeaning(ds, tokens, rs, 0);
    SpansStart(t, |tokens|, p);
    if IsStart(ds, tokens, rs, p) { EveryStart(ds, tokens, rs, 0, p); }
    SpansReach(t, |tokens|);
  }

  /** No gap, no overlap, and the last span ends at the end. */
  predicate Contiguous(s: seq<Span>, end: nat) {
    forall k :: 0 <= k < |s| ==> s[k].len > 0 && s[k].pos + s[k].len == if k + 1 < |s| then s[k + 1].pos else end
  }

  lemma SpansReach(t: seq<Match>, end: nat)
    requires Increasing(t, 0, end)
    ensures Contiguous(SpansOf(t, end), end)
  {
    hide Increasing;
    var s := SpansOf(t, end);
    forall k | 0 <= k < |s| ensures s[k].len > 0 && s[k].pos + s[k].len == if k + 1 < |s| then s[k + 1].pos else end {
      assert s[k] == Span(t[k].role, t[k].pos, EndOf(t, k, end) - t[k].pos);
      if k + 1 < |s| { assert s[k + 1].pos == t[k + 1].pos; }
    }
  }

  predicate Starting(s: seq<Span>, p: nat) {
    exists k :: 0 <= k < |s| && s[k].pos == p
  }

  lemma SpansStart(t: seq<Match>, end: nat, p: nat)
    requires Increasing(t, 0, end)
    ensures Starting(SpansOf(t, end), p) <==> exists k :: 0 <= k < |t| && t[k].pos == p
  {
    hide Increasing;
    var s := SpansOf(t, end);
    if k :| 0 <= k < |t| && t[k].pos == p { assert s[k].pos == p; }
    if Starting(s, p) {
      var k :| 0 <= k < |s| && s[k].pos == p;
      assert t[k].pos == p;
    }
  }

  /** Regions that do not overlap are all honoured. In general the spans are as if all regions were
      honoured exactly when no dropped region covers a matching position of its own. */
  lemma AllHonoured(ds: seq<Delimiter>, tokens: seq<int>, skips: seq<Region>)
    ensures Disjoint(skips) ==> Spans(ds, tokens, Honoured(skips)) == Spans(ds, tokens, skips)
    ensures Spans(ds, tokens, Honoured(skips)) == Spans(ds, tokens, skips) <==>
      forall q :: 0 <= q < |tokens| && FirstMatch(ds, tokens, q).Some? && Skipped(skips, q) ==> Skipped(Honoured(skips), q)
  {
    hide Starts, FirstMatch, Skipped, Honoured, Increasing;
    var h := Honoured(skips);
    HonouredDisjoint(skips);
    SameStarts(ds, tokens, h, skips, 0);
    forall q | 0 <= q < |tokens| && Skipped(h, q) ensures Skipped(skips, q) { HonouredSkips(skips, q); }
    StartsMeaning(ds, tokens, h, 0);
    StartsMeaning(ds, tokens, skips, 0);
    SpansDetermine(Starts(ds, tokens, h, 0), Starts(ds, tokens, skips, 0), |tokens|);
  }

  lemma HonouredSkips(skips: seq<Region>, q: nat)
    requires Skipped(Honoured(skips), q)
    ensures Skipped(skips, q)
  {
    var h := Honoured(skips);
    var k :| 0 <= k < |h| && h[k].start <= q < h[k].start + h[k].len;
    assert skips[k] == h[k];
  }

  lemma SpansDetermine(s: seq<Match>, t: seq<Match>, end: nat)
    requires Increasing(s, 0, end) && Increasing(t, 0, end)
    ensures SpansOf(s, end) == SpansOf(t, end) <==> s == t
  {
    hide Increasing;
    var x, y := SpansOf(s, end), SpansOf(t, end);
    if x == y {
      forall k | 0 <= k < |s| ensures s[k] == t[k] { assert x[k] == y[k]; }
    }
  }

  /** With overlapping regions a delimiter inside a region can start a span. */
  lemma OverlapIsForgotten()
    ensures var skips := [Region(0, 2), Region(1, 2)];
      InOrder(skips) && Skipped(skips, 2) && Spans([Delimiter(USER, [7])], [0, 0, 7], Honoured(skips)) == [Span(USER, 2, 1)]
  {
    var skips, ds, tokens := [Region(0, 2), Region(1, 2)], [Delimiter(USER, [7])], [0, 0, 7];
    var h := [Region(0, 2)];
    assert Honoured(skips) == h;
    assert Skipped(skips, 2) by { assert skips[1].start <= 2 < skips[1].start + skips[1].len; }
    assert !Skipped(h, 2) by { assert h[0] == Region(0, 2); }
    assert Skipped(h, 0) && Skipped(h, 1) by { assert h[0].start <= 0 < 2; }
    assert FirstMatch(ds, tokens, 2) == Some(USER) by { assert tokens[2..3] == [7]; }
    hide Skipped, FirstMatch, Honoured;
    assert Starts(ds, tokens, h, 3) == [];
    assert Starts(ds, tokens, h, 2) == [Match(USER, 2)];
    NoStartsSkipped(ds, tokens, h, 0, 2);
    StartsMeaning(ds, tokens, h, 0);
  }
}
