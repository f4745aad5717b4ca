/** Backslash escapes are replaced in place. */
module ProcessEscapes {
  import opened Wrappers
  import JsonText

  // ---------- the escapes ----------

  /** White space that strtol skips. */
  predicate IsBlank(c: char) {
    c == ' ' || ('\t' <= c <= '\r')
  }

  /** Two characters that strtol reads completely in base 16, as a byte: two digits, or a digit after a
      blank or a sign. */
  function HexPair(a: char, b: char): Option<char> {
    if JsonText.HexValue(b) < 0 then None
    else if JsonText.HexValue(a) >= 0 then Some((JsonText.HexValue(a) * 16 + JsonText.HexValue(b)) as char)
    else if a == '-' then Some(((256 - JsonText.HexValue(b)) % 256) as char)
    else if a == '+' || IsBlank(a) then Some(JsonText.HexValue(b) as char)
    else None
  }

  /** What one input step reads and writes. */
  datatype Step = Step(read: nat, written: string)

  function SimpleEscape(c: char): Option<char> {
    if c == 'n' then Some('\n')
    else if c == 'r' then Some('\r')
    else if c == 't' then Some('\t')
    else if c == '\'' || c == '"' || c == '\\' then Some(c)
    else None
  }

  function NextStep(s: string): (t: Step)
    requires s != ""
    ensures 1 <= t.read <= |s| && |t.written| <= t.read
  {
    if s[0] != '\\' || |s| == 1 then Step(1, [s[0]])
    else if SimpleEscape(s[1]).Some? then Step(2, [SimpleEscape(s[1]).value])
    else if s[1] == 'x' && |s| > 3 && HexPair(s[2], s[3]).Some? then Step(4, [HexPair(s[2], s[3]).value])
    else Step(2, ['\\', s[1]])
  }

  function Unescape(s: string): (r: string)
    ensures |r| <= |s|
    decreases |s|
  {
    if s == "" then "" else NextStep(s).written + Unescape(s[NextStep(s).read..])
  }

  const HEX := "0123456789abcdef"
  const UPPER_HEX := "0123456789ABCDEF"

  predicate IsHex(c: char, v: nat)
    requires v < 16
  {
    c == HEX[v] || c == UPPER_HEX[v]
  }

  lemma HexValueIs(c: char, v: nat)
    requires v < 16
    ensures IsHex(c, v) <==> JsonText.HexValue(c) == v
  {}

  /** Two hexadecimal digits after `x` are the byte they write. */
  lemma HexEscape(a: char, b: char, hi: nat, lo: nat, rest: string)
    requires hi < 16 && lo < 16 && IsHex(a, hi) && IsHex(b, lo)
    ensures Unescape(['\\', 'x', a, b] + rest) == [(16 * hi + lo) as char] + Unescape(rest)
  {
    HexValueIs(a, hi);
    HexValueIs(b, lo);
    FourStep(a, b, rest);
    hide Unescape;
  }

  lemma OneStep(e: string, rest: string)
    requires 0 < |e| <= 2
    ensures (e + rest)[|e|..] == rest && (e + rest)[0] == e[0] && (|e| == 2 ==> (e + rest)[1] == e[1])
  {}

  /** What one escape begins with, the rest follows. */
  lemma Unescaped(e: string, w: string, rest: string)
    requires 0 < |e| <= 2 && NextStep(e + rest) == Step(|e|, w)
    ensures Unescape(e + rest) == w + Unescape(rest)
  {
    hide NextStep;
    OneStep(e, rest);
  }

  lemma ControlEscapes(rest: string)
    ensures Unescape("\\n" + rest) == "\n" + Unescape(rest)
    ensures Unescape("\\r" + rest) == "\r" + Unescape(rest)
    ensures Unescape("\\t" + rest) == "\t" + Unescape(rest)
  {
    hide Unescape;
    Unescaped("\\n", "\n", rest);
    Unescaped("\\r", "\r", rest);
    Unescaped("\\t", "\t", rest);
  }

  /** A backslash before a quote or a backslash goes. */
  lemma QuoteEscapes(c: char, rest: string)
    requires c == '\'' || c == '"' || c == '\\'
    ensures Unescape(['\\', c] + rest) == [c] + Unescape(rest)
  {
    hide Unescape;
    OneStep(['\\', c], rest);
    Unescaped(['\\', c], [c], rest);
  }

  /** A backslash that begins no escape stays. */
  lemma OtherBackslashes(c: char, rest: string)
    requires c != 'n' && c != 'r' && c != 't' && c != '\'' && c != '"' && c != '\\' && (c != 'x' || |rest| < 2)
    ensures Unescape(['\\', c] + rest) == ['\\', c] + Unescape(rest)
  {
    assert SimpleEscape(c).None?;
    hide Unescape, HexPair, SimpleEscape;
    OneStep(['\\', c], rest);
    Unescaped(['\\', c], ['\\', c], rest);
  }

  lemma PlainCharacter(c: char, rest: string)
    requires c != '\\'
    ensures Unescape([c] + rest) == [c] + Unescape(rest)
  {
    hide Unescape;
    OneStep([c], rest);
    Unescaped([c], [c], rest);
  }

  lemma LoneBackslash()
    ensures Unescape("\\") == "\\"
  {
    Unescaped("\\", "\\", "");
  }

  lemma FourStep(a: char, b: char, rest: string)
    ensures var s := ['\\', 'x', a, b] + rest;
      Unescape(s) == if HexPair(a, b).Some? then [HexPair(a, b).value] + Unescape(rest) else "\\x" + Unescape([a, b] + rest)
  {
    hide HexPair;
    var s := ['\\', 'x', a, b] + rest;
    assert s[0] == '\\' && s[1] == 'x' && s[2] == a && s[3] == b && s[4..] == rest && s[2..] == [a, b] + rest;
  }

  /** strtol also reads one digit behind a blank or a sign; with any other two characters `\x` stays. */
  lemma OtherHexEscapes(a: char, b: char, lo: nat, rest: string)
    ensures lo < 16 && IsHex(b, lo) && (a in "+ \t\n\r" || a as int == 11 || a as int == 12) ==>
      Unescape(['\\', 'x', a, b] + rest) == [lo as char] + Unescape(rest)
    ensures lo < 16 && IsHex(b, lo) && a == '-' ==>
      Unescape(['\\', 'x', a, b] + rest) == [((256 - lo) % 256) as char] + Unescape(rest)
    ensures b !in HEX + UPPER_HEX || (a !in HEX + UPPER_HEX + "+- \t\n\r" && a as int != 11 && a as int != 12) ==>
      Unescape(['\\', 'x', a, b] + rest) == "\\x" + Unescape([a, b] + rest)
  {
    FourStep(a, b, rest);
    hide Unescape;
    if lo < 16 { HexValueIs(b, lo); }
    InHex(a);
    InHex(b);
  }

  lemma InHex(c: char)
    ensures JsonText.HexValue(c) >= 0 ==> c in HEX + UPPER_HEX
  {
    if JsonText.HexValue(c) >= 0 {
      HexValueIs(c, JsonText.HexValue(c));
      assert c == HEX[JsonText.HexValue(c)] || c == UPPER_HEX[JsonText.HexValue(c)];
    }
  }

  // ---------- escaping and back ----------

  function EscapeChar(c: char): string {
    if c == '\n' then "\\n"
    else if c == '\r' then "\\r"
    else if c == '\t' then "\\t"
    else if c == '\'' || c == '"' || c == '\\' then ['\\', c]
    else [c]
  }

  function Escape(s: string): string
    decreases |s|
  {
    if s == "" then "" else EscapeChar(s[0]) + Escape(s[1..])
  }

  lemma EscapedStep(c: char, rest: string)
    ensures NextStep(EscapeChar(c) + rest) == Step(|EscapeChar(c)|, [c])
  {
    var e, s := EscapeChar(c), EscapeChar(c) + rest;
    assert s[0] == e[0] && (|e| == 2 ==> s[1] == e[1]);
  }

  lemma {:induction false} UnescapeEscape(s: string)
    ensures Unescape(Escape(s)) == s
    decreases |s|
  {
    if s != "" {
      hide EscapeChar, NextStep;
      EscapedStep(s[0], Escape(s[1..]));
      assert Escape(s)[|EscapeChar(s[0])|..] == Escape(s[1..]);
      UnescapeEscape(s[1..]);
    }
  }

  /** A step that changes something also shortens the text. */
  lemma StepShortens(s: string)
    requires s != ""
    ensures |NextStep(s).written| == NextStep(s).read <==> NextStep(s).written == s[..NextStep(s).read]
  {}

  /** A text is left alone exactly when nothing in it is shorter afterwards. */
  lemma {:induction false} UnchangedExactly(s: string)
    ensures Unescape(s) == s <==> |Unescape(s)| == |s|
    decreases |s|
  {
    if s != "" {
      hide NextStep;
      StepShortens(s);
      var t := NextStep(s);
      UnchangedExactly(s[t.read..]);
      assert s == s[..t.read] + s[t.read..];
      if |Unescape(s)| == |s| {
        assert |Unescape(s[t.read..])| == |s[t.read..]|;
      }
    }
  }

  // ---------- in place ----------

  /** The buffer: the finished output, and from `i` on the input still to be read. */
  ghost predicate Rewriting(buf: string, s: string, o: nat, i: nat) {
    && |buf| == |s| && o <= i <= |s| && buf[i..] == s[i..]
    && buf[..o] + Unescape(s[i..]) == Unescape(s)
  }

  function Put(buf: string, o: nat, w: string): (r: string)
    requires o + |w| <= |buf|
    ensures |r| == |buf|
  {
    buf[..o] + w + buf[o + |w|..]
  }

  lemma PutOne(buf: string, o: nat, c: char)
    requires o < |buf|
    ensures buf[o := c] == Put(buf, o, [c])
  {}

  lemma PutTwo(buf: string, o: nat, c: char, d: char)
    requires o + 1 < |buf|
    ensures buf[o := c][o + 1 := d] == Put(buf, o, [c, d])
  {}

  lemma PutParts(buf: string, o: nat, w: string, n: nat)
    requires o + |w| <= n <= |buf|
    ensures Put(buf, o, w)[..o + |w|] == buf[..o] + w && Put(buf, o, w)[n..] == buf[n..]
  {}

  /** Writing a step's output behind its input. */
  lemma StepInPlace(buf: string, s: string, o: nat, i: nat)
    requires Rewriting(buf, s, o, i) && i < |s|
    ensures var t := NextStep(buf[i..]);
      o + |t.written| <= i + t.read <= |s| && Rewriting(Put(buf, o, t.written), s, o + |t.written|, i + t.read)
  {
    hide NextStep, Put;
    var t := NextStep(buf[i..]);
    PutParts(buf, o, t.written, i + t.read);
    assert buf[i..][t.read..] == buf[i + t.read..] && s[i..][t.read..] == s[i + t.read..];
    assert buf[..o] + t.written + Unescape(s[i + t.read..]) == buf[..o] + (t.written + Unescape(s[i + t.read..]));
  }

  /** The step that starts at i. */
  lemma NextStepAt(buf: string, i: nat)
    requires i < |buf|
    ensures var simple := if i + 1 < |buf| then SimpleEscape(buf[i + 1]) else None;
      var hex := if i + 3 < |buf| && buf[i + 1] == 'x' then HexPair(buf[i + 2], buf[i + 3]) else None;
      NextStep(buf[i..]) ==
        if buf[i] != '\\' || i + 1 == |buf| then Step(1, [buf[i]])
        else if simple.Some? then Step(2, [simple.value])
        else if hex.Some? then Step(4, [hex.value])
        else Step(2, ['\\', buf[i + 1]])
  {
    hide SimpleEscape, HexPair;
  }

  method ProcessInPlace(input: array<char>) returns (outputIdx: nat)
    modifies input
    ensures outputIdx <= input.Length && input[..outputIdx] == Unescape(old(input[..]))
  {
    hide Rewriting, Unescape, HexPair, SimpleEscape, NextStep, Put;
    ghost var s := input[..];
    var inputLen := input.Length;
    outputIdx := 0;
    var inputIdx := 0;
    RewritingStart(s);
    while inputIdx < inputLen
      invariant inputIdx <= inputLen && outputIdx <= inputIdx
      invariant Rewriting(input[..], s, outputIdx, inputIdx)
      decreases inputLen - inputIdx
    {
      ghost var buf, o, i := input[..], outputIdx, inputIdx;
      NextStepAt(buf, i);
      StepInPlace(buf, s, o, i);
      var c := input[inputIdx];
      if c == '\\' && inputIdx + 1 < inputLen {
        inputIdx := inputIdx + 1;
        var e := input[inputIdx];
        var simple := SimpleEscape(e);
        var hex := None;
        if e == 'x' && inputIdx + 2 < inputLen {
          hex := HexPair(input[inputIdx + 1], input[inputIdx + 2]);
        }
        if simple.Some? {
          PutOne(buf, o, simple.value);
          input[outputIdx] := simple.value;
          outputIdx := outputIdx + 1;
        } else if hex.Some? {
          PutOne(buf, o, hex.value);
          inputIdx := inputIdx + 2;
          input[outputIdx] := hex.value;
          outputIdx := outputIdx + 1;
        } else {
          PutTwo(buf, o, '\\', e);
          input[outputIdx] := '\\';
          outputIdx := outputIdx + 1;
          input[outputIdx] := input[inputIdx];
          outputIdx := outputIdx + 1;
        }
      } else {
        PutOne(buf, o, c);
        input[outputIdx] := input[inputIdx];
        outputIdx := outputIdx + 1;
      }
      inputIdx := inputIdx + 1;
      assert input[..] == Put(buf, o, NextStep(buf[i..]).written);
    }
    RewritingEnd(input[..], s, outputIdx, inputIdx);
  }

  lemma RewritingStart(s: string)
    ensures Rewriting(s, s, 0, 0)
  {
    assert s[0..] == s && s[..0] + Unescape(s) == Unescape(s);
  }

  lemma RewritingEnd(buf: string, s: string, o: nat, i: nat)
    requires Rewriting(buf, s, o, i) && i == |s|
    ensures o <= |buf| && buf[..o] == Unescape(s)
  {
    assert s[i..] == "" && buf[..o] + "" == buf[..o];
  }
}
