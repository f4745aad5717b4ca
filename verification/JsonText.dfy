/** JSON string escaping and the scanner that counts unclosed braces. */
module JsonText {

  // ---------- the brace scanner ----------

  datatype Scan = Scan(depth: int, inString: bool, escaped: bool)

  const OUTSIDE := Scan(0, false, false)

  function ScanChar(s: Scan, c: char): Scan {
    if s.escaped then s.(escaped := false)
    else if c == '\\' && s.inString then s.(escaped := true)
    else if c == '"' then s.(inString := !s.inString)
    else if s.inString then s
    else if c == '{' then s.(depth := s.depth + 1)
    else if c == '}' then s.(depth := s.depth - 1)
    else s
  }

  function ScanText(s: Scan, text: string): Scan
    decreases |text|
  {
    if text == "" then s else ScanText(ScanChar(s, text[0]), text[1..])
  }

  method JsonBraceDepth(s: string) returns (depth: int)
    ensures depth == ScanText(OUTSIDE, s).depth
  {
    depth := 0;
    var inString, escaped := false, false;
    for i := 0 to |s|
      invariant ScanText(Scan(depth, inString, escaped), s[i..]) == ScanText(OUTSIDE, s)
    {
      assert s[i..][1..] == s[i + 1..];
      var c := s[i];
      if escaped {
        escaped := false;
      } else if c == '\\' && inString {
        escaped := true;
      } else if c == '"' {
        inString := !inString;
      } else if !inString {
        if c == '{' {
          depth := depth + 1;
        } else if c == '}' {
          depth := depth - 1;
        }
      }
    }
  }

  lemma {:induction false} ScanConcat(s: Scan, a: string, b: string)
    ensures ScanText(s, a + b) == ScanText(ScanText(s, a), b)
    decreases |a|
  {
    if a == "" {
      assert a + b == b;
    } else {
      assert (a + b)[1..] == a[1..] + b;
      ScanConcat(ScanChar(s, a[0]), a[1..], b);
    }
  }

  /** The scan does not depend on the depth it starts from. */
  lemma {:induction false} ScanShift(s: Scan, d: int, text: string)
    ensures ScanText(s.(depth := s.depth + d), text) == var r := ScanText(s, text); r.(depth := r.depth + d)
    decreases |text|
  {
    if text != "" {
      ScanShift(ScanChar(s, text[0]), d, text[1..]);
    }
  }

  // ---------- escaping ----------

  function HexDigit(n: nat): char
    requires n < 16
  {
    "0123456789abcdef"[n]
  }

  /** The dump of one code point inside a JSON string: short escapes, \u00xx for the other control
      characters, everything else as it is. */
  function EscapeChar(c: char): (r: string)
    ensures r != ""
  {
    if c == '"' then "\\\""
    else if c == '\\' then "\\\\"
    else if c == '\U{8}' then "\\b"
    else if c == '\U{C}' then "\\f"
    else if c == '\n' then "\\n"
    else if c == '\r' then "\\r"
    else if c == '\t' then "\\t"
    else if c < ' ' then "\\u00" + [HexDigit(c as int / 16), HexDigit(c as int % 16)]
    else [c]
  }

  function Escape(s: string): string
    decreases |s|
  {
    if s == "" then "" else EscapeChar(s[0]) + Escape(s[1..])
  }

  /** The dump of a whole string, with its quotes. */
  function Dump(s: string): string {
    "\"" + Escape(s) + "\""
  }

  /** The dump without the surrounding quotes. */
  method EscapeJsonStringInner(s: string) returns (r: string)
    ensures r == Escape(s)
  {
    var escaped := Dump(s);
    if |escaped| >= 2 && escaped[0] == '"' && escaped[|escaped| - 1] == '"' {
      return escaped[1..|escaped| - 1];
    }
    return escaped;
  }

  lemma {:induction false} EscapeConcat(a: string, b: string)
    ensures Escape(a + b) == Escape(a) + Escape(b)
    decreases |a|
  {
    if a == "" {
      assert a + b == b;
    } else {
      assert (a + b)[1..] == a[1..] + b;
      EscapeConcat(a[1..], b);
    }
  }

  /** The escape of a truncated text is a prefix of the escape of the text. */
  lemma EscapeMonotone(a: string, b: string)
    requires a <= b
    ensures Escape(a) <= Escape(b)
  {
    assert b == a + b[|a|..];
    EscapeConcat(a, b[|a|..]);
  }

  function HexValue(c: char): (n: int)
    ensures -1 <= n < 16
  {
    if '0' <= c <= '9' then c as int - '0' as int
    else if 'a' <= c <= 'f' then c as int - 'a' as int + 10
    else if 'A' <= c <= 'F' then c as int - 'A' as int + 10
    else -1
  }

  /** The code point of four hexadecimal digits; -1 for other texts and for half a surrogate pair. */
  function HexCode(s: string): (n: int)
    ensures n == -1 || 0 <= n < 0xD800 || 0xE000 <= n < 0x1_0000
  {
    if |s| < 4 || (exists k :: 0 <= k < 4 && HexValue(s[k]) < 0) then -1
    else
      var n := HexValue(s[0]) * 4096 + HexValue(s[1]) * 256 + HexValue(s[2]) * 16 + HexValue(s[3]);
      if 0xD800 <= n < 0xE000 then -1 else n
  }

  /** The escape that `s` begins with is one of JSON's (section 7 of RFC 8259). */
  predicate IsEscape(s: string) {
    |s| >= 2 && s[0] == '\\' && (s[1] in "\"\\/bfnrt" || (s[1] == 'u' && HexCode(s[2..]) >= 0))
  }

  /** Reads the escapes back: the first character meant by `s` and how many characters spell it. What is no
      escape stands for itself. */
  function ReadChar(s: string): (r: (char, nat))
    requires s != ""
    ensures 1 <= r.1 <= |s|
  {
    if !IsEscape(s) then (s[0], 1)
    else if s[1] == 'b' then ('\U{8}', 2)
    else if s[1] == 'f' then ('\U{C}', 2)
    else if s[1] == 'n' then ('\n', 2)
    else if s[1] == 'r' then ('\r', 2)
    else if s[1] == 't' then ('\t', 2)
    else if s[1] == 'u' then (HexCode(s[2..]) as char, 6)
    else (s[1], 2)
  }

  lemma HexReads(n: nat)
    requires n < 16
    ensures HexValue(HexDigit(n)) == n
  {}

  lemma ControlCode(n: nat, rest: string)
    requires n < 32
    ensures HexCode("00" + [HexDigit(n / 16), HexDigit(n % 16)] + rest) == n
  {
    var s := "00" + [HexDigit(n / 16), HexDigit(n % 16)] + rest;
    HexReads(n / 16);
    HexReads(n % 16);
    assert s[0] == '0' && s[1] == '0' && s[2] == HexDigit(n / 16) && s[3] == HexDigit(n % 16);
  }

  /** Every escape is read back as the character it stands for, whatever follows it. */
  lemma EscapeReads(c: char, rest: string)
    ensures ReadChar(EscapeChar(c) + rest) == (c, |EscapeChar(c)|)
    ensures EscapeChar(c)[0] == '\\' ==> IsEscape(EscapeChar(c) + rest)
    ensures EscapeChar(c)[0] >= ' '
  {
    hide HexCode;
    var e := EscapeChar(c);
    var t := e + rest;
    assert t[0] == e[0] && (|e| >= 2 ==> t[1] == e[1]);
    if |e| == 6 {
      ControlCode(c as int, rest);
      assert t[2..] == "00" + [HexDigit(c as int / 16), HexDigit(c as int % 16)] + rest;
    }
  }

  /** Only what has to be escaped is escaped, by the two-character escapes where there are any and else by its code in
      lower case. */
  lemma EscapeForms(c: char)
    ensures c >= ' ' && c != '"' && c != '\\' ==> Escape([c]) == [c]
    ensures c == '"' || c == '\\' ==> Escape([c]) == ['\\', c]
    ensures c as int in {8, 9, 10, 12, 13} ==> |Escape([c])| == 2
    ensures c < ' ' && c as int !in {8, 9, 10, 12, 13} ==> |Escape([c])| == 6 && forall k :: 0 <= k < 6 ==> !('A' <= Escape([c])[k] <= 'F')
  {
    assert [c][1..] == [] && Escape([c]) == EscapeChar(c) + "" == EscapeChar(c);
    if |EscapeChar(c)| == 6 {
      LowerCase(c as int / 16);
      LowerCase(c as int % 16);
    }
  }

  lemma LowerCase(n: nat)
    requires n < 16
    ensures !('A' <= HexDigit(n) <= 'F')
  {}

  function Unescape(s: string): string
    decreases |s|
  {
    if s == "" then "" else [ReadChar(s).0] + Unescape(s[ReadChar(s).1..])
  }

  /** Dumping a string and reading it back is the identity. */
  lemma {:induction false} UnescapeEscape(s: string)
    ensures Unescape(Escape(s)) == s
    decreases |s|
  {
    if s != "" {
      EscapeReads(s[0], Escape(s[1..]));
      assert Escape(s)[|EscapeChar(s[0])|..] == Escape(s[1..]);
      UnescapeEscape(s[1..]);
    }
  }

  predicate InString(s: Scan) { s.inString && !s.escaped }

  lemma EscapeCharInString(s: Scan, c: char)
    requires InString(s)
    ensures ScanText(s, EscapeChar(c)) == s
  {
    var e := EscapeChar(c);
    if |e| <= 4 {
      ScanSmall(s, e);
    } else {
      var x, y := HexDigit(c as int / 16), HexDigit(c as int % 16);
      HexIsPlain(c as int / 16);
      HexIsPlain(c as int % 16);
      ScanConcat(s, "\\u00", [x, y]);
      ScanSmall(s, "\\u00");
      ScanSmall(s, [x, y]);
    }
  }

  lemma HexIsPlain(n: nat)
    requires n < 16
    ensures HexDigit(n) != '"' && HexDigit(n) != '\\'
  {}

  /** Scans of up to four characters, unfolded. */
  lemma ScanSmall(s: Scan, t: string)
    requires |t| <= 4
    ensures |t| == 1 ==> ScanText(s, t) == ScanChar(s, t[0])
    ensures |t| == 2 ==> ScanText(s, t) == ScanChar(ScanChar(s, t[0]), t[1])
    ensures |t| == 4 ==> ScanText(s, t) == ScanChar(ScanChar(ScanChar(ScanChar(s, t[0]), t[1]), t[2]), t[3])
  {
    if |t| > 0 {
      assert t == [t[0]] + t[1..];
      ScanOne(s, t);
      if |t| > 1 {
        ScanOne(ScanChar(s, t[0]), t[1..]);
        if |t| > 2 {
          ScanOne(ScanChar(ScanChar(s, t[0]), t[1]), t[2..]);
          assert t[1..][1..] == t[2..];
          if |t| > 3 {
            assert t[2..][1..] == t[3..];
            ScanOne(ScanChar(ScanChar(ScanChar(s, t[0]), t[1]), t[2]), t[3..]);
          }
        }
      }
    }
  }

  lemma ScanOne(s: Scan, t: string)
    requires t != ""
    ensures ScanText(s, t) == ScanText(ScanChar(s, t[0]), t[1..])
    ensures |t| == 1 ==> ScanText(s, t) == ScanChar(s, t[0])
  {}

  /** Escaped text never leaves the string it is in. */
  lemma {:induction false} EscapeStaysInString(s: Scan, text: string)
    requires InString(s)
    ensures ScanText(s, Escape(text)) == s
    decreases |text|
  {
    if text != "" {
      EscapeCharInString(s, text[0]);
      EscapeStaysInString(s, text[1..]);
      ScanConcat(s, EscapeChar(text[0]), Escape(text[1..]));
    }
  }

  /** A dumped string is neutral for the scanner outside strings. */
  lemma DumpIsNeutral(s: Scan, text: string)
    requires !s.inString && !s.escaped
    ensures ScanText(s, Dump(text)) == s
  {
    var i := s.(inString := true);
    assert "\"" + Escape(text) + "\"" == "\"" + (Escape(text) + "\"");
    ScanConcat(s, "\"", Escape(text) + "\"");
    ScanConcat(i, Escape(text), "\"");
    ScanOne(s, "\"");
    ScanOne(i, "\"");
    EscapeStaysInString(i, text);
  }

  function Repeat(c: char, n: nat): (r: string)
    ensures |r| == n
  {
    if n == 0 then "" else [c] + Repeat(c, n - 1)
  }

  /** Closing braces lower the depth one by one. */
  lemma {:induction false} ScanClosers(s: Scan, n: nat)
    requires !s.inString && !s.escaped
    ensures ScanText(s, Repeat('}', n)) == s.(depth := s.depth - n)
    decreases n
  {
    if n > 0 {
      ScanClosers(s.(depth := s.depth - 1), n - 1);
      assert Repeat('}', n)[1..] == Repeat('}', n - 1);
    }
  }
}
