/** Cutting a rendered template into markers ("<...>" or "[...]") and the text between them. */
module Segments {
  import opened Wrappers

  datatype SegmentType = TEXT | MARKER

  datatype Segment = Segment(kind: SegmentType, value: string)

  predicate IsOpener(c: char) { c == '<' || c == '[' }

  predicate IsCloser(opener: char, c: char) {
    (opener == '<' && c == '>') || (opener == '[' && c == ']')
  }

  /** The text that a list of segments spells. */
  function Spell(segs: seq<Segment>): string {
    if segs == [] then "" else segs[0].value + Spell(segs[1..])
  }

  function TextPiece(s: string): seq<Segment> {
    if s == "" then [] else [Segment(TEXT, s)]
  }

  /** The segments of text[border..] once the scan has reached `pos`; `opener` is set inside a marker. */
  function SegmentsFrom(text: string, border: nat, pos: nat, opener: Option<char>): seq<Segment>
    requires border <= pos <= |text|
    decreases |text| - pos
  {
    if pos == |text| then TextPiece(text[border..])
    else if opener.None? && IsOpener(text[pos]) then
      TextPiece(text[border..pos]) + SegmentsFrom(text, pos, pos + 1, Some(text[pos]))
    else if opener.Some? && IsCloser(opener.value, text[pos]) then
      [Segment(MARKER, text[border..pos + 1])] + SegmentsFrom(text, pos + 1, pos + 1, None)
    else SegmentsFrom(text, border, pos + 1, opener)
  }

  function Segmentize(text: string): seq<Segment> {
    SegmentsFrom(text, 0, 0, None)
  }

  lemma Regrouped(a: seq<Segment>, b: seq<Segment>, c: seq<Segment>)
    ensures a + (b + c) == a + b + c
  {}

  lemma LastPiece(a: seq<Segment>, text: string, border: nat, opener: Option<char>)
    requires border <= |text|
    ensures a + SegmentsFrom(text, border, |text|, opener)
         == if border < |text| then a + [Segment(TEXT, text[border..])] else a
  {}

  lemma AppendPiece(a: seq<Segment>, s: string, c: seq<Segment>)
    ensures a + (TextPiece(s) + c) == if s == "" then a + c else a + [Segment(TEXT, s)] + c
  {
    Regrouped(a, TextPiece(s), c);
    assert a + [] == a;
  }

  method SegmentizeMarkers(text: string) returns (retval: seq<Segment>)
    ensures retval == Segmentize(text)
  {
    retval := [];
    assert retval + SegmentsFrom(text, 0, 0, None) == Segmentize(text);
    hide SegmentsFrom, Segmentize, IsOpener, IsCloser, TextPiece;
    var inMarker := false;
    var markerOpener := '\0';
    var lastBorder := 0;
    for curPos := 0 to |text|
      invariant lastBorder <= curPos
      invariant inMarker ==> lastBorder < curPos
      invariant retval + SegmentsFrom(text, lastBorder, curPos, if inMarker then Some(markerOpener) else None)
             == Segmentize(text)
    {
      SegmentsStep(text, lastBorder, curPos, if inMarker then Some(markerOpener) else None);
      if !inMarker && IsOpener(text[curPos]) {
        ghost var was := retval;
        AppendPiece(was, text[lastBorder..curPos], SegmentsFrom(text, curPos, curPos + 1, Some(text[curPos])));
        if lastBorder < curPos {
          retval := retval + [Segment(TEXT, text[lastBorder..curPos])];
        }
        lastBorder := curPos;
        inMarker := true;
        markerOpener := text[curPos];
      } else if inMarker && IsCloser(markerOpener, text[curPos]) {
        Regrouped(retval, [Segment(MARKER, text[lastBorder..curPos + 1])], SegmentsFrom(text, curPos + 1, curPos + 1, None));
        retval := retval + [Segment(MARKER, text[lastBorder..curPos + 1])];
        lastBorder := curPos + 1;
        inMarker := false;
        markerOpener := '\0';
      }
    }
    LastPiece(retval, text, lastBorder, if inMarker then Some(markerOpener) else None);
    if lastBorder < |text| {
      retval := retval + [Segment(TEXT, text[lastBorder..])];
    }
  }

  lemma {:induction false} SpellConcat(a: seq<Segment>, b: seq<Segment>)
    ensures Spell(a + b) == Spell(a) + Spell(b)
  {
    if a == [] {
      assert a + b == b;
    } else {
      assert (a + b)[1..] == a[1..] + b;
      SpellConcat(a[1..], b);
    }
  }

  // ---------- what a segmentation is ----------

  predicate NoOpener(s: string) {
    forall k :: 0 <= k < |s| ==> !IsOpener(s[k])
  }

  predicate NoCloser(opener: char, s: string) {
    forall k :: 0 <= k < |s| ==> !IsCloser(opener, s[k])
  }

  predicate IsMarker(s: string) {
    |s| >= 2 && IsOpener(s[0]) && IsCloser(s[0], s[|s| - 1]) && NoCloser(s[0], s[..|s| - 1])
  }

  /** A marker that the text ends in the middle of. */
  predicate IsOpenMarker(s: string) {
    |s| >= 1 && IsOpener(s[0]) && NoCloser(s[0], s)
  }

  /** Markers run from an opener to its first closer, text between them has no opener, and only
      the last segment may be an unfinished marker (kept as text). */
  predicate WellCut(segs: seq<Segment>) {
    segs == [] ||
    (segs[0].kind == MARKER && IsMarker(segs[0].value) && WellCut(segs[1..])) ||
    (segs[0].kind == TEXT && |segs| == 1 && IsOpenMarker(segs[0].value)) ||
    (segs[0].kind == TEXT && segs[0].value != "" && NoOpener(segs[0].value) && StartsAtOpener(segs[1..]) && WellCut(segs[1..]))
  }

  predicate StartsAtOpener(segs: seq<Segment>) {
    segs == [] || (segs[0].value != "" && IsOpener(segs[0].value[0]))
  }

  /** What the scan knows at `pos`: no opener since the border, or an unclosed marker since it. */
  predicate Scanned(text: string, border: nat, pos: nat, opener: Option<char>) {
    border <= pos <= |text| &&
    match opener
    case None => NoOpener(text[border..pos])
    case Some(op) => border < pos && IsOpener(op) && text[border] == op && NoCloser(op, text[border..pos])
  }

  lemma ScanStep(text: string, border: nat, pos: nat, opener: Option<char>)
    requires Scanned(text, border, pos, opener) && pos < |text|
    ensures text[border..pos + 1] == text[border..pos] + [text[pos]]
    ensures text[border..] == text[border..pos] + text[pos..]
    ensures text[border..] == text[border..pos + 1] + text[pos + 1..]
    ensures opener.None? && IsOpener(text[pos]) ==> Scanned(text, pos, pos + 1, Some(text[pos]))
    ensures opener.None? && !IsOpener(text[pos]) ==> Scanned(text, border, pos + 1, None)
    ensures opener.Some? && !IsCloser(opener.value, text[pos]) ==> Scanned(text, border, pos + 1, opener)
    ensures opener.Some? && IsCloser(opener.value, text[pos]) ==>
      IsMarker(text[border..pos + 1]) && Scanned(text, pos + 1, pos + 1, None)
  {
    if opener.Some? && IsCloser(opener.value, text[pos]) {
      var v := text[border..pos + 1];
      assert v[..|v| - 1] == text[border..pos];
    }
  }

  lemma SpellCons(g: Segment, rest: seq<Segment>)
    ensures Spell([g] + rest) == g.value + Spell(rest)
    ensures ([g] + rest)[1..] == rest
  {}

  /** Properties of the segments of text[border..]. */
  predicate IsCutOf(segs: seq<Segment>, s: string, opener: Option<char>) {
    Spell(segs) == s && WellCut(segs) && (opener.Some? ==> StartsAtOpener(segs))
  }

  lemma CutEnd(text: string, border: nat, opener: Option<char>)
    requires Scanned(text, border, |text|, opener)
    ensures IsCutOf(TextPiece(text[border..]), text[border..], opener)
  {
    assert text[border..|text|] == text[border..];
    if text[border..] != "" {
      SpellCons(Segment(TEXT, text[border..]), []);
    }
  }

  lemma CutAtOpener(text: string, border: nat, pos: nat, rest: seq<Segment>)
    requires Scanned(text, border, pos, None) && pos < |text| && IsCutOf(rest, text[pos..], Some(text[pos]))
    ensures IsCutOf(TextPiece(text[border..pos]) + rest, text[border..], None)
  {
    hide IsMarker, IsOpenMarker, Spell, WellCut, IsOpener, NoOpener;
    assert text[border..] == text[border..pos] + text[pos..];
    CutText(text[border..pos], rest);
  }

  lemma CutAtCloser(text: string, border: nat, pos: nat, opener: char, rest: seq<Segment>)
    requires Scanned(text, border, pos, Some(opener)) && pos < |text| && IsMarker(text[border..pos + 1])
    requires IsCutOf(rest, text[pos + 1..], None)
    ensures IsCutOf([Segment(MARKER, text[border..pos + 1])] + rest, text[border..], Some(opener))
  {
    hide IsMarker, IsOpenMarker, Spell, WellCut, NoCloser;
    assert text[border..] == text[border..pos + 1] + text[pos + 1..];
    MarkerThen(text[border..pos + 1], rest);
  }

  lemma NextScanned(text: string, border: nat, pos: nat, opener: Option<char>)
    requires Scanned(text, border, pos, opener) && pos < |text|
    ensures opener.None? && IsOpener(text[pos]) ==> Scanned(text, pos, pos + 1, Some(text[pos]))
    ensures opener.None? && !IsOpener(text[pos]) ==> Scanned(text, border, pos + 1, None)
    ensures opener.Some? && !IsCloser(opener.value, text[pos]) ==> Scanned(text, border, pos + 1, opener)
    ensures opener.Some? && IsCloser(opener.value, text[pos]) ==>
      IsMarker(text[border..pos + 1]) && Scanned(text, pos + 1, pos + 1, None)
  {
    hide IsMarker, IsOpener, IsCloser, Scanned;
    ScanStep(text, border, pos, opener);
  }

  lemma {:induction false} CutFrom(text: string, border: nat, pos: nat, opener: Option<char>)
    requires Scanned(text, border, pos, opener)
    ensures IsCutOf(SegmentsFrom(text, border, pos, opener), text[border..], opener)
    decreases |text| - pos
  {
    if pos == |text| {
      CutEnd(text, border, opener);
    } else {
      hide IsMarker, IsCutOf, Scanned, IsOpener, IsCloser, SegmentsFrom;
      NextScanned(text, border, pos, opener);
      SegmentsStep(text, border, pos, opener);
      if opener.None? && IsOpener(text[pos]) {
        CutFrom(text, pos, pos + 1, Some(text[pos]));
        CutAtOpener(text, border, pos, SegmentsFrom(text, pos, pos + 1, Some(text[pos])));
      } else if opener.Some? && IsCloser(opener.value, text[pos]) {
        CutFrom(text, pos + 1, pos + 1, None);
        CutAtCloser(text, border, pos, opener.value, SegmentsFrom(text, pos + 1, pos + 1, None));
      } else {
        CutFrom(text, border, pos + 1, opener);
      }
    }
  }

  lemma SegmentsStep(text: string, border: nat, pos: nat, opener: Option<char>)
    requires border <= pos < |text|
    ensures SegmentsFrom(text, border, pos, opener) ==
      if opener.None? && IsOpener(text[pos]) then
        TextPiece(text[border..pos]) + SegmentsFrom(text, pos, pos + 1, Some(text[pos]))
      else if opener.Some? && IsCloser(opener.value, text[pos]) then
        [Segment(MARKER, text[border..pos + 1])] + SegmentsFrom(text, pos + 1, pos + 1, None)
      else SegmentsFrom(text, border, pos + 1, opener)
  {
    hide IsOpener, IsCloser;
  }

  lemma MarkerThen(v: string, rest: seq<Segment>)
    requires IsMarker(v) && WellCut(rest)
    ensures var segs := [Segment(MARKER, v)] + rest;
      Spell(segs) == v + Spell(rest) && WellCut(segs) && StartsAtOpener(segs)
  {
    SpellCons(Segment(MARKER, v), rest);
  }

  /** Text up to an opener, then a cut that starts there. */
  lemma CutText(t: string, rest: seq<Segment>)
    requires NoOpener(t) && WellCut(rest) && StartsAtOpener(rest)
    ensures Spell(TextPiece(t) + rest) == t + Spell(rest) && WellCut(TextPiece(t) + rest)
  {
    if t == "" {
      assert TextPiece(t) + rest == rest;
    } else {
      SpellCons(Segment(TEXT, t), rest);
    }
  }

  lemma {:induction false} SkipText(text: string, border: nat, pos: nat, end: nat, opener: Option<char>)
    requires border <= pos <= end <= |text|
    requires match opener
      case None => NoOpener(text[pos..end])
      case Some(op) => NoCloser(op, text[pos..end])
    ensures SegmentsFrom(text, border, pos, opener) == SegmentsFrom(text, border, end, opener)
    decreases end - pos
  {
    if pos < end {
      assert text[pos..end][0] == text[pos];
      assert text[pos + 1..end] == text[pos..end][1..];
      SkipText(text, border, pos + 1, end, opener);
    }
  }

  lemma SpellHead(text: string, pos: nat, segs: seq<Segment>)
    requires pos <= |text| && segs != [] && Spell(segs) == text[pos..]
    ensures var end := pos + |segs[0].value|;
      end <= |text| && text[pos..end] == segs[0].value && Spell(segs[1..]) == text[end..]
      && forall k :: 0 <= k < |segs[0].value| ==> text[pos + k] == segs[0].value[k]
  {
    var v := segs[0].value;
    assert Spell(segs)[..|v|] == v && Spell(segs)[|v|..] == Spell(segs[1..]);
    assert text[pos..][..|v|] == text[pos..pos + |v|] && text[pos..][|v|..] == text[pos + |v|..];
    assert forall k :: 0 <= k < |v| ==> text[pos..][k] == v[k];
  }

  lemma MarkerInside(text: string, pos: nat, end: nat)
    requires pos + 2 <= end <= |text| && IsMarker(text[pos..end])
    ensures NoCloser(text[pos], text[pos + 1..end - 1])
  {
    var v, inner := text[pos..end], text[pos + 1..end - 1];
    forall k | 0 <= k < |inner| ensures !IsCloser(v[0], inner[k]) { assert inner[k] == v[..|v| - 1][k + 1]; }
  }

  lemma SkipMarker(text: string, pos: nat, end: nat)
    requires pos + 2 <= end <= |text| && IsMarker(text[pos..end])
    ensures SegmentsFrom(text, pos, pos, None)
         == [Segment(MARKER, text[pos..end])] + SegmentsFrom(text, end, end, None)
  {
    var v := text[pos..end];
    MarkerInside(text, pos, end);
    SkipText(text, pos, pos + 1, end - 1, Some(v[0]));
    assert text[pos..pos] == "" && text[end - 1] == v[|v| - 1];
  }

  lemma SkipOpenMarker(text: string, pos: nat)
    requires pos < |text| && IsOpenMarker(text[pos..])
    ensures SegmentsFrom(text, pos, pos, None) == [Segment(TEXT, text[pos..])]
  {
    var v := text[pos..];
    assert text[pos + 1..] == v[1..] && text[pos + 1..|text|] == text[pos + 1..];
    SkipText(text, pos, pos + 1, |text|, Some(v[0]));
    assert text[pos..pos] == "";
  }

  lemma SkipPlain(text: string, pos: nat, end: nat)
    requires pos < end <= |text| && NoOpener(text[pos..end])
    requires end < |text| ==> IsOpener(text[end])
    ensures SegmentsFrom(text, pos, pos, None)
         == [Segment(TEXT, text[pos..end])] + SegmentsFrom(text, end, end, None)
  {
    SkipText(text, pos, pos, end, None);
    assert text[end..end] == "" && (end == |text| ==> text[end..] == "" && text[pos..] == text[pos..end]);
  }

  /** There is only one way to cut the rest of a text. */
  lemma {:induction false} CutIsUnique(text: string, pos: nat, segs: seq<Segment>)
    requires pos <= |text| && WellCut(segs) && Spell(segs) == text[pos..]
    ensures SegmentsFrom(text, pos, pos, None) == segs
    decreases |segs|
  {
    if segs != [] {
      hide SegmentsFrom;
      var end := pos + |segs[0].value|;
      SpellHead(text, pos, segs);
      assert segs == [segs[0]] + segs[1..];
      if segs[0].kind == MARKER {
        SkipMarker(text, pos, end);
        CutIsUnique(text, end, segs[1..]);
      } else if |segs| == 1 && IsOpenMarker(segs[0].value) {
        assert segs[1..] == [] && text[end..] == "" && text[pos..] == text[pos..end];
        SkipOpenMarker(text, pos);
      } else {
        if segs[1..] != [] {
          SpellHead(text, end, segs[1..]);
        } else {
          assert text[end..] == "";
        }
        SkipPlain(text, pos, end);
        CutIsUnique(text, end, segs[1..]);
      }
    } else {
      assert text[pos..] == "";
    }
  }

  /** Segmenting loses nothing, and the result is the one and only cut of the text. */
  lemma SegmentizeIsTheCut(text: string, segs: seq<Segment>)
    ensures Segmentize(text) == segs <==> WellCut(segs) && Spell(segs) == text
  {
    CutFrom(text, 0, 0, None);
    assert text[0..] == text;
    if WellCut(segs) && Spell(segs) == text {
      CutIsUnique(text, 0, segs);
    }
  }

  /** Both kinds of brackets make markers, each up to its own closing bracket. */
  lemma MarkersOfBothKinds(t: string, inside: string, square: bool)
    requires t != "" && '<' !in t && '[' !in t && (if square then ']' else '>') !in inside
    ensures var m := if square then "[" + inside + "]" else "<" + inside + ">";
      Segmentize(t + m) == [Segment(TEXT, t), Segment(MARKER, m)]
  {
    var m := if square then "[" + inside + "]" else "<" + inside + ">";
    var segs := [Segment(TEXT, t), Segment(MARKER, m)];
    assert segs[1..] == [Segment(MARKER, m)] && segs[1..][1..] == [];
    MarkerStands(inside, square);
    assert forall k :: 0 <= k < |t| ==> t[k] in t;
    assert WellCut(segs[1..]) && WellCut(segs);
    assert Spell(segs[1..]) == m + "" == m;
    SegmentizeIsTheCut(t + m, segs);
  }

  lemma MarkerStands(inside: string, square: bool)
    requires (if square then ']' else '>') !in inside
    ensures var m := if square then "[" + inside + "]" else "<" + inside + ">"; IsMarker(m) && m != "" && IsOpener(m[0])
  {
    var m := if square then "[" + inside + "]" else "<" + inside + ">";
    var front := m[..|m| - 1];
    forall k | 0 <= k < |front| ensures !IsCloser(m[0], front[k]) {
      if k > 0 { assert front[k] == inside[k - 1]; }
    }
  }

  lemma {:induction false} WellCutNonEmpty(segs: seq<Segment>, k: nat)
    requires WellCut(segs) && k < |segs|
    ensures segs[k].value != ""
  {
    if k > 0 {
      WellCutNonEmpty(segs[1..], k - 1);
    }
  }
}
