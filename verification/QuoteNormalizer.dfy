/** Rewriting Python-style values as JSON while they are still being generated: single-quoted
    strings become double-quoted, True/False/None become true/false/null. */
module QuoteNormalizer {
  import opened Wrappers

  /** Where the scan is: outside every string or inside one of the two kinds. */
  datatype Quote = Outside | Single | Double

  predicate IsWordChar(c: char) {
    'a' <= c <= 'z' || 'A' <= c <= 'Z' || '0' <= c <= '9' || c == '_'
  }

  /** First position from i on that is not a word character. */
  function WordEnd(s: string, i: nat): (e: nat)
    requires i <= |s|
    ensures i <= e <= |s|
    ensures forall k :: i <= k < e ==> IsWordChar(s[k])
    ensures e < |s| ==> !IsWordChar(s[e])
    decreases |s| - i
  {
    if i < |s| && IsWordChar(s[i]) then WordEnd(s, i + 1) else i
  }

  /** The JSON spelling of a word that begins a Python literal. */
  function Literal(word: string): (r: Option<string>)
    ensures r.Some? ==> |r.value| == |word|
  {
    if word <= "True" then Some("true"[..|word|])
    else if word <= "False" then Some("false"[..|word|])
    else if word <= "None" then Some("null"[..|word|])
    else None
  }

  predicate StartsLiteral(c: char) {
    c == 'T' || c == 'F' || c == 'N'
  }

  /** Position i starts a word with a capital that may start a literal. */
  predicate AtLiteral(s: string, i: nat)
    requires i < |s|
  {
    StartsLiteral(s[i]) && (i == 0 || !IsWordChar(s[i - 1]))
  }

  /** One turn of the loop: what it appends, how far it moves, and the string it is then in. */
  datatype Turn = Turn(out: string, width: nat, next: Quote)

  function Step(s: string, i: nat, q: Quote): (t: Turn)
    requires i < |s|
    ensures t.out != "" && 0 < t.width && i + t.width <= |s|
  {
    var c := s[i];
    if c == '\\' && i + 1 < |s| then
      match q
      case Single =>
        if s[i + 1] == '\'' then Turn("'", 2, Single)
        else if s[i + 1] == '"' then Turn("\\\"", 2, Single)
        else Turn([c, s[i + 1]], 2, Single)
      case Double => Turn([c, s[i + 1]], 2, Double)
      case Outside => Turn([c], 1, Outside)
    else if c == '"' then
      if q == Single then Turn("\\\"", 1, Single) else Turn([c], 1, if q == Double then Outside else Double)
    else if c == '\'' then
      if q == Double then Turn([c], 1, Double) else Turn("\"", 1, if q == Single then Outside else Single)
    else if q == Outside && AtLiteral(s, i) then
      var e := WordEnd(s, i);
      assert e > i;
      match Literal(s[i..e])
      case Some(js) => Turn(js, e - i, Outside)
      case None => Turn([c], 1, Outside)
    else Turn([c], 1, q)
  }

  function NormalizeFrom(s: string, i: nat, q: Quote): string
    requires i <= |s|
    decreases |s| - i
  {
    if i == |s| then ""
    else
      var t := Step(s, i, q);
      t.out + NormalizeFrom(s, i + t.width, t.next)
  }

  function Normalize(s: string): string {
    NormalizeFrom(s, 0, Outside)
  }

  method NormalizeQuotesToJson(input: string) returns (result: string)
    ensures result == Normalize(input)
  {
    hide Step;
    result := "";
    var inSingleQuoted, inDoubleQuoted := false, false;
    var i := 0;
    while i < |input|
      invariant i <= |input| && !(inSingleQuoted && inDoubleQuoted)
      invariant Normalize(input) == result + NormalizeFrom(input, i, QuoteOf(inSingleQuoted, inDoubleQuoted))
    {
      ghost var t := Step(input, i, QuoteOf(inSingleQuoted, inDoubleQuoted));
      var out, width, s, d := NormalizeTurn(input, i, inSingleQuoted, inDoubleQuoted);
      result := result + out;
      i := i + width;
      inSingleQuoted, inDoubleQuoted := s, d;
    }
  }

  function QuoteOf(single: bool, double: bool): Quote {
    if single then Single else if double then Double else Outside
  }

  /** The body of the loop. */
  method NormalizeTurn(input: string, i: nat, single: bool, double: bool)
    returns (out: string, width: nat, inSingleQuoted: bool, inDoubleQuoted: bool)
    requires i < |input| && !(single && double)
    ensures !(inSingleQuoted && inDoubleQuoted)
    ensures Turn(out, width, QuoteOf(inSingleQuoted, inDoubleQuoted)) == Step(input, i, QuoteOf(single, double))
  {
    inSingleQuoted, inDoubleQuoted := single, double;
    var c := input[i];
    width := 1;
    if c == '\\' && i + 1 < |input| {
      var next := input[i + 1];
      if inSingleQuoted {
        width := 2;
        if next == '\'' {
          out := "'";
        } else if next == '"' {
          out := "\\\"";
        } else {
          out := [c, next];
        }
      } else if inDoubleQuoted {
        out := [c, next];
        width := 2;
      } else {
        out := [c];
      }
      return;
    }
    if c == '"' {
      if inSingleQuoted {
        out := "\\\"";
      } else {
        inDoubleQuoted := !inDoubleQuoted;
        out := [c];
      }
    } else if c == '\'' {
      if inDoubleQuoted {
        out := [c];
      } else if inSingleQuoted {
        inSingleQuoted := false;
        out := "\"";
      } else {
        inSingleQuoted := true;
        out := "\"";
      }
    } else if !inSingleQuoted && !inDoubleQuoted && (c == 'T' || c == 'F' || c == 'N')
           && (i == 0 || !IsWordChar(input[i - 1])) {
      var n := 0;
      while i + n < |input| && IsWordChar(input[i + n])
        invariant i + n <= |input| && WordEnd(input, i) == WordEnd(input, i + n)
      {
        n := n + 1;
      }
      var token := input[i..i + n];
      var js := Literal(token);
      if js.Some? {
        out := js.value;
        width := n;
      } else {
        out := [c];
      }
    } else {
      out := [c];
    }
  }

  // ---------- a second pass changes nothing ----------

  /** The string the scan of the output is in. */
  function Converted(q: Quote): Quote {
    if q == Single then Double else q
  }

  /** Whether the character before position i is a word character. */
  predicate AfterWord(s: string, i: nat)
    requires i <= |s|
  {
    i > 0 && IsWordChar(s[i - 1])
  }

  predicate Inert(c: char) {
    c != '\\' && c != '"' && c != '\'' && c != 'T' && c != 'F' && c != 'N'
  }

  lemma Unfold(s: string, i: nat, q: Quote)
    requires i < |s|
    ensures var t := Step(s, i, q); NormalizeFrom(s, i, q) == t.out + NormalizeFrom(s, i + t.width, t.next)
  {
    hide Step;
  }

  lemma InertStep(s: string, j: nat, q: Quote)
    requires j < |s| && Inert(s[j])
    ensures Step(s, j, q) == Turn([s[j]], 1, q)
  {}

  lemma {:induction false} InertRun(s: string, j: nat, e: nat, q: Quote)
    requires j <= e <= |s| && forall k :: j <= k < e ==> Inert(s[k])
    ensures NormalizeFrom(s, j, q) == s[j..e] + NormalizeFrom(s, e, q)
    decreases e - j
  {
    hide Step, NormalizeFrom;
    if j < e {
      InertStep(s, j, q);
      Unfold(s, j, q);
      InertRun(s, j + 1, e, q);
      assert s[j..e] == [s[j]] + s[j + 1..e];
    } else {
      assert s[j..e] == "";
    }
  }

  /** Inside a word, outside strings, the output repeats the input to the end of the word. */
  lemma {:induction false} WordEcho(s: string, i: nat)
    requires 0 < i <= |s| && IsWordChar(s[i - 1])
    ensures NormalizeFrom(s, i, Outside) == s[i..WordEnd(s, i)] + NormalizeFrom(s, WordEnd(s, i), Outside)
    decreases |s| - i
  {
    hide Step;
    if i < |s| && IsWordChar(s[i]) {
      WordEcho(s, i + 1);
      InnerWordStep(s, i);
      assert s[i..WordEnd(s, i)] == [s[i]] + s[i + 1..WordEnd(s, i)];
    } else {
      assert s[i..i] == "";
    }
  }

  lemma InnerWordStep(s: string, i: nat)
    requires 0 < i < |s| && IsWordChar(s[i - 1]) && IsWordChar(s[i])
    ensures Step(s, i, Outside) == Turn([s[i]], 1, Outside)
  {}

  /** Outside strings a non-word character is answered by a non-word character. */
  lemma NonWordAnswer(s: string, i: nat)
    requires i < |s| && !IsWordChar(s[i])
    ensures !IsWordChar(NormalizeFrom(s, i, Outside)[0])
  {}

  lemma {:induction false} WordEndIs(s: string, i: nat, e: nat)
    requires i <= e <= |s| && (forall k :: i <= k < e ==> IsWordChar(s[k]))
    requires e < |s| ==> !IsWordChar(s[e])
    ensures WordEnd(s, i) == e
    decreases e - i
  {
    if i < e { WordEndIs(s, i + 1, e); }
  }

  lemma LiteralIsInert(word: string)
    requires Literal(word).Some?
    ensures forall k :: 0 <= k < |word| ==> Inert(Literal(word).value[k]) && IsWordChar(Literal(word).value[k])
  {}

  /** What the second pass sees: the output so far, the answer to position i, and the rest. */
  function Output(s: string, i: nat, q: Quote, o: string): string
    requires i < |s|
  {
    o + Step(s, i, q).out + NormalizeFrom(s, i + Step(s, i, q).width, Step(s, i, q).next)
  }

  predicate SameBoundary(s: string, i: nat, q: Quote, o: string)
    requires i <= |s|
  {
    q == Outside ==> AfterWord(o, |o|) == AfterWord(s, i)
  }

  lemma BoundaryKept(s: string, i: nat, q: Quote, o: string)
    requires i < |s| && SameBoundary(s, i, q, o)
    ensures var t := Step(s, i, q); SameBoundary(s, i + t.width, t.next, o + t.out)
  {
    if q == Outside && AtLiteral(s, i) {
      var w := s[i..WordEnd(s, i)];
      if Literal(w).Some? {
        LiteralIsInert(w);
      }
    }
  }

  predicate WordOnly(w: string) {
    forall k :: 0 <= k < |w| ==> IsWordChar(w[k])
  }

  lemma EmbeddedWord(o: string, w: string, tail: string)
    requires WordOnly(w) && (tail != "" ==> !IsWordChar(tail[0]))
    ensures WordEnd(o + w + tail, |o|) == |o| + |w|
    ensures (o + w + tail)[|o|..|o| + |w|] == w
  {
    var full, f := o + w + tail, |o| + |w|;
    assert full[|o|..f] == w;
    forall k | |o| <= k < f ensures IsWordChar(full[k]) { assert full[k] == w[k - |o|]; }
    WordEndIs(full, |o|, f);
  }

  /** A capital that does not begin a literal does not begin one in the output either. */
  lemma EmbeddedPlain(o: string, w: string, tail: string)
    requires WordOnly(w) && w != "" && Literal(w).None? && (tail != "" ==> !IsWordChar(tail[0]))
    requires StartsLiteral(w[0]) && !AfterWord(o, |o|)
    ensures Step(o + w + tail, |o|, Outside) == Turn([w[0]], 1, Outside)
  {
    hide WordEnd, Literal;
    EmbeddedWord(o, w, tail);
    var full := o + w + tail;
    assert full[|o|] == w[0] && (|o| > 0 ==> full[|o| - 1] == o[|o| - 1]);
  }

  lemma PlainWordAgain(s: string, i: nat, o: string)
    requires i < |s| && AtLiteral(s, i) && Literal(s[i..WordEnd(s, i)]).None?
    requires AfterWord(o, |o|) == AfterWord(s, i)
    ensures var full := Output(s, i, Outside, o);
      |o| < |full| && Step(full, |o|, Outside) == Turn([s[i]], 1, Outside)
  {
    hide Literal, NormalizeFrom, WordEnd, Step;
    StepAtLiteral(s, i);
    var e := WordEnd(s, i);
    var w, tail := s[i..e], NormalizeFrom(s, e, Outside);
    WordEndIs(s, i + 1, e);
    WordEcho(s, i + 1);
    assert w == [s[i]] + s[i + 1..e];
    assert Output(s, i, Outside, o) == o + w + tail;
    WordTailAnswer(s, e);
    EmbeddedPlain(o, w, tail);
  }

  lemma WordTailAnswer(s: string, e: nat)
    requires e <= |s| && (e < |s| ==> !IsWordChar(s[e]))
    ensures var tail := NormalizeFrom(s, e, Outside); tail != "" ==> !IsWordChar(tail[0])
  {
    if e < |s| { NonWordAnswer(s, e); }
  }

  /** Every answer other than a converted literal is answered by itself. */
  lemma AnswerAgain(s: string, i: nat, q: Quote, o: string)
    requires i < |s| && SameBoundary(s, i, q, o)
    requires !(q == Outside && AtLiteral(s, i))
    ensures var t := Step(s, i, q); var full := Output(s, i, q, o);
      |o| < |full| && Step(full, |o|, Converted(q)) == Turn(t.out, |t.out|, Converted(t.next))
  {
    var t, full := Step(s, i, q), Output(s, i, q, o);
    assert full[|o|] == t.out[0];
    if |t.out| == 2 {
      assert full[|o| + 1] == t.out[1];
    }
  }

  lemma EmbeddedInert(o: string, out: string, rest: string, q: Quote)
    requires forall k :: 0 <= k < |out| ==> Inert(out[k])
    ensures NormalizeFrom(o + out + rest, |o|, q) == out + NormalizeFrom(o + out + rest, |o| + |out|, q)
  {
    hide NormalizeFrom, Inert;
    var full, f := o + out + rest, |o| + |out|;
    forall k | |o| <= k < f ensures Inert(full[k]) { assert full[k] == out[k - |o|]; }
    assert full[|o|..f] == out;
    InertRun(full, |o|, f, q);
  }

  lemma StepAtLiteral(s: string, i: nat)
    requires i < |s| && AtLiteral(s, i)
    ensures WordEnd(s, i) > i
    ensures var w := s[i..WordEnd(s, i)];
      Step(s, i, Outside) == if Literal(w).Some? then Turn(Literal(w).value, |w|, Outside) else Turn([s[i]], 1, Outside)
  {
    hide Literal;
  }

  /** A converted literal passes through the second scan letter by letter. */
  lemma LiteralAgain(s: string, i: nat, o: string)
    requires i < |s| && AtLiteral(s, i) && Literal(s[i..WordEnd(s, i)]).Some?
    ensures var t := Step(s, i, Outside); var full := Output(s, i, Outside, o);
      t.next == Outside &&
      NormalizeFrom(full, |o|, Outside) == t.out + NormalizeFrom(full, |o| + |t.out|, Outside)
  {
    hide Step, Literal, NormalizeFrom;
    StepAtLiteral(s, i);
    LiteralIsInert(s[i..WordEnd(s, i)]);
    var t := Step(s, i, Outside);
    EmbeddedInert(o, t.out, NormalizeFrom(s, i + t.width, t.next), Outside);
  }

  lemma StepAgain(s: string, i: nat, q: Quote, o: string)
    requires i < |s| && SameBoundary(s, i, q, o)
    ensures var t := Step(s, i, q); var full := Output(s, i, q, o);
      |o| + |t.out| <= |full| &&
      NormalizeFrom(full, |o|, Converted(q)) == t.out + NormalizeFrom(full, |o| + |t.out|, Converted(t.next))
  {
    hide Step, Literal, NormalizeFrom, WordEnd;
    var full := Output(s, i, q, o);
    if q == Outside && AtLiteral(s, i) {
      StepAtLiteral(s, i);
      if Literal(s[i..WordEnd(s, i)]).Some? {
        LiteralAgain(s, i, o);
      } else {
        PlainWordAgain(s, i, o);
        hide Output;
        Unfold(full, |o|, Outside);
      }
    } else {
      AnswerAgain(s, i, q, o);
      hide Output;
      Unfold(full, |o|, Converted(q));
    }
  }

  lemma {:induction false} Again(s: string, i: nat, q: Quote, o: string)
    requires i <= |s| && SameBoundary(s, i, q, o)
    ensures NormalizeFrom(o + NormalizeFrom(s, i, q), |o|, Converted(q)) == NormalizeFrom(s, i, q)
    decreases |s| - i
  {
    hide Step;
    if i < |s| {
      var t := Step(s, i, q);
      StepAgain(s, i, q, o);
      BoundaryKept(s, i, q, o);
      Again(s, i + t.width, t.next, o + t.out);
      assert o + NormalizeFrom(s, i, q) == (o + t.out) + NormalizeFrom(s, i + t.width, t.next);
    }
  }

  /** Normalising an already normalised text changes nothing, whatever the input was. */
  lemma NormalizeIdempotent(s: string)
    ensures Normalize(Normalize(s)) == Normalize(s)
  {
    Again(s, 0, Outside, "");
    assert "" + NormalizeFrom(s, 0, Outside) == Normalize(s);
  }

  // ---------- growing input ----------

  lemma LiteralPrefixes(w: string, x: string)
    requires w <= x && w != "" && StartsLiteral(w[0]) && Literal(x).Some?
    ensures Literal(w).Some? && Literal(w).value <= Literal(x).value
  {
    assert w[0] == x[0];
  }

  lemma LiteralIsLower(w: string)
    requires Literal(w).Some? && w != ""
    ensures !StartsLiteral(Literal(w).value[0])
  {
    LiteralIsInert(w);
    assert Inert(Literal(w).value[0]);
  }

  /** How the scan of a partial input ends: cleanly, on a lone backslash inside a single-quoted
      string, or on a word that so far begins a Python literal. */
  datatype Ending = Clean | LoneEscape | PartialLiteral(start: nat)

  function EndingFrom(p: string, i: nat, q: Quote): (e: Ending)
    requires i <= |p|
    ensures e.PartialLiteral? ==> e.start < |p|
    decreases |p| - i
  {
    if i == |p| then Clean
    else if p[i] == '\\' && i + 1 == |p| && q == Single then LoneEscape
    else if q == Outside && AtLiteral(p, i) && WordEnd(p, i) == |p| && Literal(p[i..]).Some? then PartialLiteral(i)
    else EndingFrom(p, i + Step(p, i, q).width, Step(p, i, q).next)
  }

  function EndingOf(p: string): (e: Ending)
    ensures e.PartialLiteral? ==> e.start < |p|
  {
    EndingFrom(p, 0, Outside)
  }

  /** The continuation of p in q takes back something already emitted: the lone backslash turns
      out to escape a single quote, or the word turns out not to be the literal it began. */
  predicate Retracts(p: string, q: string, e: Ending)
    requires p <= q && (e.PartialLiteral? ==> e.start < |p|)
  {
    match e
    case Clean => false
    case LoneEscape => |p| < |q| && q[|p|] == '\''
    case PartialLiteral(i) => Literal(q[i..WordEnd(q, i)]).None?
  }

  lemma SamePlainStep(p: string, q: string, i: nat, st: Quote)
    requires p <= q && i < |p| && !(st == Outside && AtLiteral(p, i))
    requires !(p[i] == '\\' && i + 1 == |p| && st != Outside)
    ensures Step(p, i, st) == Step(q, i, st)
  {
    hide WordEnd, Literal;
    assert p[i] == q[i] && (i > 0 ==> p[i - 1] == q[i - 1]) && (i + 1 < |p| ==> p[i + 1] == q[i + 1]);
  }

  /** A turn that does not look past the end of p is the same turn on every continuation of p. */
  lemma SameStep(p: string, q: string, i: nat, st: Quote)
    requires p <= q && i < |p|
    requires !(p[i] == '\\' && i + 1 == |p| && st != Outside)
    requires !(st == Outside && AtLiteral(p, i) && WordEnd(p, i) == |p| && Literal(p[i..]).Some?)
    ensures Step(p, i, st) == Step(q, i, st)
  {
    hide Step, WordEnd, Literal;
    if st == Outside && AtLiteral(p, i) {
      assert p[i] == q[i] && (i > 0 ==> p[i - 1] == q[i - 1]);
      SameWord(p, q, i);
      StepAtLiteral(p, i);
      StepAtLiteral(q, i);
      if WordEnd(p, i) == |p| {
        assert p[i..|p|] == p[i..];
        if Literal(q[i..WordEnd(q, i)]).Some? { LiteralPrefixes(p[i..], q[i..WordEnd(q, i)]); }
      } else {
        assert p[i..WordEnd(p, i)] == q[i..WordEnd(q, i)];
      }
    } else {
      SamePlainStep(p, q, i, st);
    }
  }

  lemma SameWord(p: string, q: string, i: nat)
    requires p <= q && i < |p|
    ensures WordEnd(p, i) <= WordEnd(q, i) && p[i..WordEnd(p, i)] <= q[i..WordEnd(q, i)]
    ensures WordEnd(p, i) < |p| ==> WordEnd(q, i) == WordEnd(p, i)
  {
    var e := WordEnd(p, i);
    forall k | i <= k < e ensures IsWordChar(q[k]) { assert p[k] == q[k]; }
    if e < |p| {
      assert p[e] == q[e];
      WordEndIs(q, i, e);
    } else {
      WordEndAtLeast(q, i, e);
    }
  }

  lemma {:induction false} WordEndAtLeast(s: string, i: nat, e: nat)
    requires i <= e <= |s| && forall k :: i <= k < e ==> IsWordChar(s[k])
    ensures WordEnd(s, i) >= e
    decreases e - i
  {
    if i < e { WordEndAtLeast(s, i + 1, e); }
  }

  lemma PrefixCancel(o: string, x: string, y: string)
    ensures o + x <= o + y <==> x <= y
  {
    assert (o + x)[|o|..] == x && (o + y)[|o|..] == y;
    if o + x <= o + y {
      assert x == (o + y)[..|o + x|][|o|..];
      assert x <= y;
    }
  }

  lemma EscapeAnswer(s: string, i: nat, st: Quote)
    requires i < |s| && s[i] == '\\' && st != Outside
    ensures i + 1 == |s| ==> Step(s, i, st) == Turn("\\", 1, st)
    ensures Step(s, i, st).out[0] == if st == Single && i + 1 < |s| && s[i + 1] == '\'' then '\'' else '\\'
  {
    hide WordEnd, Literal;
  }

  lemma FirstAnswer(s: string, i: nat, st: Quote)
    requires i < |s|
    ensures var n := NormalizeFrom(s, i, st); n != "" && n[0] == Step(s, i, st).out[0]
  {
    hide Step;
  }

  lemma OnePrefix(c: char, y: string)
    requires y != ""
    ensures [c] <= y <==> y[0] == c
  {}

  /** A lone backslash at the end of p, inside a string. */
  lemma CutEscape(p: string, q: string, i: nat, st: Quote)
    requires p <= q && i + 1 == |p| && p[i] == '\\' && st != Outside
    ensures NormalizeFrom(p, i, st) <= NormalizeFrom(q, i, st) <==>
      !(st == Single && |p| < |q| && q[|p|] == '\'')
  {
    hide Step, NormalizeFrom;
    assert q[i] == p[i];
    EscapeAnswer(p, i, st);
    EscapeAnswer(q, i, st);
    Unfold(p, i, st);
    AtEnd(p, st);
    FirstAnswer(q, i, st);
    OnePrefix('\\', NormalizeFrom(q, i, st));
  }

  /** A word at the end of p that so far begins a literal. */
  lemma CutLiteral(p: string, q: string, i: nat)
    requires p <= q && i < |p| && AtLiteral(p, i) && WordEnd(p, i) == |p| && Literal(p[i..]).Some?
    ensures NormalizeFrom(p, i, Outside) <= NormalizeFrom(q, i, Outside) <==> Literal(q[i..WordEnd(q, i)]).Some?
  {
    hide Step, Literal, NormalizeFrom, WordEnd;
    assert p[i] == q[i] && (i > 0 ==> p[i - 1] == q[i - 1]);
    assert p[i..|p|] == p[i..];
    SameWord(p, q, i);
    StepAtLiteral(p, i);
    StepAtLiteral(q, i);
    Unfold(p, i, Outside);
    AtEnd(p, Outside);
    LiteralIsLower(p[i..]);
    var js, w := Literal(p[i..]).value, q[i..WordEnd(q, i)];
    assert NormalizeFrom(p, i, Outside) == js;
    if Literal(w).Some? {
      LiteralPrefixes(p[i..], w);
      Unfold(q, i, Outside);
      PrefixExtends(js, Literal(w).value, NormalizeFrom(q, i + Step(q, i, Outside).width, Outside));
    } else {
      FirstAnswer(q, i, Outside);
      assert js[0] != NormalizeFrom(q, i, Outside)[0];
    }
  }

  lemma PrefixExtends(x: string, y: string, z: string)
    requires x <= y
    ensures x <= y + z
  {}

  lemma AtEnd(p: string, st: Quote)
    ensures NormalizeFrom(p, |p|, st) == ""
  {}

  lemma {:induction false} StreamFrom(p: string, q: string, i: nat, st: Quote)
    requires p <= q && i <= |p|
    ensures NormalizeFrom(p, i, st) <= NormalizeFrom(q, i, st) <==> !Retracts(p, q, EndingFrom(p, i, st))
    decreases |p| - i
  {
    hide Step, Literal, NormalizeFrom, WordEnd;
    if i == |p| {
      AtEnd(p, st);
    } else if p[i] == '\\' && i + 1 == |p| && st != Outside {
      CutEscape(p, q, i, st);
      if st == Double { LoneInDouble(p, i); }
    } else if st == Outside && AtLiteral(p, i) && WordEnd(p, i) == |p| && Literal(p[i..]).Some? {
      CutLiteral(p, q, i);
    } else {
      SameStep(p, q, i, st);
      var t := Step(p, i, st);
      StreamFrom(p, q, i + t.width, t.next);
      Unfold(p, i, st);
      Unfold(q, i, st);
      PrefixCancel(t.out, NormalizeFrom(p, i + t.width, t.next), NormalizeFrom(q, i + t.width, t.next));
    }
  }

  lemma LoneInDouble(p: string, i: nat)
    requires i + 1 == |p| && p[i] == '\\'
    ensures EndingFrom(p, i, Double) == Clean
  {
    assert Step(p, i, Double) == Turn("\\", 1, Double);
  }

  /** The normalised text of a partial input is a prefix of the normalised text of its continuation
      exactly when the continuation takes nothing back. */
  lemma NormalizeMonotone(p: string, q: string)
    requires p <= q
    ensures Normalize(p) <= Normalize(q) <==> !Retracts(p, q, EndingOf(p))
  {
    StreamFrom(p, q, 0, Outside);
  }

  // ---------- inputs whose capitals are all literals ----------

  /** Every out-of-string word that starts with T, F or N begins a Python literal. */
  predicate LiteralsFrom(s: string, i: nat, q: Quote)
    requires i <= |s|
    decreases |s| - i
  {
    i == |s| ||
    ((q == Outside && AtLiteral(s, i) ==> Literal(s[i..WordEnd(s, i)]).Some?) &&
     LiteralsFrom(s, i + Step(s, i, q).width, Step(s, i, q).next))
  }

  lemma {:induction false} PartialStaysLiteral(p: string, q: string, i: nat, st: Quote)
    requires p <= q && i <= |p| && LiteralsFrom(q, i, st)
    ensures var e := EndingFrom(p, i, st); e.PartialLiteral? ==> Literal(q[e.start..WordEnd(q, e.start)]).Some?
    decreases |p| - i
  {
    hide Step, Literal, WordEnd;
    if i < |p| && EndingFrom(p, i, st).PartialLiteral? {
      if st == Outside && AtLiteral(p, i) && WordEnd(p, i) == |p| && Literal(p[i..]).Some? {
        assert p[i] == q[i] && (i > 0 ==> p[i - 1] == q[i - 1]);
      } else {
        if p[i] == '\\' && i + 1 == |p| && st == Double { LoneInDouble(p, i); }
        SameStep(p, q, i, st);
        PartialStaysLiteral(p, q, i + Step(p, i, st).width, Step(p, i, st).next);
      }
    }
  }

  /** Streaming is monotone on inputs whose capitals are literals, unless the cut falls inside an
      escape of a single-quoted string. */
  lemma StreamingIsMonotone(p: string, q: string)
    requires p <= q && LiteralsFrom(q, 0, Outside) && !EndingOf(p).LoneEscape?
    ensures Normalize(p) <= Normalize(q)
  {
    NormalizeMonotone(p, q);
    PartialStaysLiteral(p, q, 0, Outside);
  }

  /** A capital T alone is on the way to True; the next letter may tell otherwise. */
  lemma PartialWordRetracts()
    ensures "T" <= "Tx" && Normalize("T") == "t" && Normalize("Tx") == "Tx" && !(Normalize("T") <= Normalize("Tx"))
  {
    assert WordEnd("T", 0) == 1 && WordEnd("Tx", 0) == 2;
    assert "T"[0..1] == "T" && "Tx"[0..2] == "Tx";
    assert "true"[..1] == "t";
    assert !("Tx" <= "True") by { assert "Tx"[1] != "True"[1]; }
    assert Literal("T") == Some("t") && Literal("Tx") == None;
    assert NormalizeFrom("T", 1, Outside) == "" && NormalizeFrom("Tx", 2, Outside) == "";
    assert NormalizeFrom("Tx", 1, Outside) == "x";
    assert Normalize("T")[0] == 't' && Normalize("Tx")[0] == 'T';
  }
}
