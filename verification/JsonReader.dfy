/** A reader for JSON texts (RFC 8259). Numbers and the three literal names are kept as uninterpreted atoms. */
module JsonReader {
  import opened Wrappers
  import opened JsonText

  datatype Value =
    | Atom(text: string)
    | Text(content: string)
    | List(items: seq<Value>)
    | Object(members: seq<(string, Value)>)

  predicate IsAtomChar(c: char) {
    c > ' ' && c !in ",:[]{}\""
  }

  predicate IsAtom(s: string) {
    s != "" && forall k :: 0 <= k < |s| ==> IsAtomChar(s[k])
  }

  function AtomEnd(s: string): (n: nat)
    ensures n <= |s|
    decreases |s|
  {
    if s == "" || !IsAtomChar(s[0]) then 0 else 1 + AtomEnd(s[1..])
  }

  /** The text behind insignificant white space (section 2 of RFC 8259). */
  function Skip(s: string): (r: string)
    ensures |r| <= |s|
    decreases |s|
  {
    if s != "" && s[0] in " \t\n\r" then Skip(s[1..]) else s
  }

  /** The string up to its closing quote, unescaped, and what follows the quote. Control characters and
      backslashes that begin no escape are refused. */
  function ReadString(s: string): (r: Option<(string, string)>)
    ensures r.Some? ==> |r.value.1| < |s|
    decreases |s|
  {
    if s == "" || s[0] < ' ' || (s[0] == '\\' && !IsEscape(s)) then None
    else if s[0] == '"' then Some(("", s[1..]))
    else
      var c := ReadChar(s);
      var r := ReadString(s[c.1..]);
      if r.None? then None else Some(([c.0] + r.value.0, r.value.1))
  }

  function ReadValue(text: string): (r: Option<(Value, string)>)
    ensures r.Some? ==> |r.value.1| < |text|
    decreases |text|, 0
  {
    var s := Skip(text);
    if s == "" then None
    else if s[0] == '"' then
      var r := ReadString(s[1..]);
      if r.None? then None else Some((Text(r.value.0), r.value.1))
    else if s[0] == '[' then
      var t := Skip(s[1..]);
      if t != "" && t[0] == ']' then Some((List([]), t[1..]))
      else
        var r := ReadElements(s[1..]);
        if r.None? then None else Some((List(r.value.0), r.value.1))
    else if s[0] == '{' then
      var t := Skip(s[1..]);
      if t != "" && t[0] == '}' then Some((Object([]), t[1..]))
      else
        var r := ReadMembers(s[1..]);
        if r.None? then None else Some((Object(r.value.0), r.value.1))
    else if AtomEnd(s) > 0 then Some((Atom(s[..AtomEnd(s)]), s[AtomEnd(s)..]))
    else None
  }

  /** One value or more, then the closing bracket. */
  function ReadElements(s: string): (r: Option<(seq<Value>, string)>)
    ensures r.Some? ==> |r.value.1| < |s|
    decreases |s|, 1
  {
    var v := ReadValue(s);
    if v.None? then None
    else
      var t := Skip(v.value.1);
      if t == "" then None
      else if t[0] == ']' then Some(([v.value.0], t[1..]))
      else if t[0] == ',' then
        var r := ReadElements(t[1..]);
        if r.None? then None else Some(([v.value.0] + r.value.0, r.value.1))
      else None
  }

  function ReadMember(text: string): (r: Option<((string, Value), string)>)
    ensures r.Some? ==> |r.value.1| < |text|
    decreases |text|, 0
  {
    var s := Skip(text);
    if s == "" || s[0] != '"' then None
    else
      var k := ReadString(s[1..]);
      if k.None? then None
      else
        var t := Skip(k.value.1);
        if t == "" || t[0] != ':' then None
        else
          var v := ReadValue(t[1..]);
          if v.None? then None else Some(((k.value.0, v.value.0), v.value.1))
  }

  /** One member or more, then the closing brace. */
  function ReadMembers(s: string): (r: Option<(seq<(string, Value)>, string)>)
    ensures r.Some? ==> |r.value.1| < |s|
    decreases |s|, 1
  {
    var m := ReadMember(s);
    if m.None? then None
    else
      var t := Skip(m.value.1);
      if t == "" then None
      else if t[0] == '}' then Some(([m.value.0], t[1..]))
      else if t[0] == ',' then
        var r := ReadMembers(t[1..]);
        if r.None? then None else Some(([m.value.0] + r.value.0, r.value.1))
      else None
  }

  lemma ReadsOne(c: char, s: string, t: string, rest: string)
    requires ReadString(s) == Some((t, rest))
    ensures ReadString(EscapeChar(c) + s) == Some(([c] + t, rest))
  {
    hide ReadChar, EscapeChar;
    var e := EscapeChar(c);
    EscapeReads(c, s);
    EscapeIsNotQuote(c);
    assert (e + s)[|e|..] == s && (e + s)[0] == e[0];
  }

  lemma {:induction false} ReadsEscaped(t: string, rest: string)
    ensures ReadString(Escape(t) + "\"" + rest) == Some((t, rest))
    decreases |t|
  {
    hide ReadString, EscapeChar;
    var s := Escape(t) + "\"" + rest;
    if t == "" {
      ReadsQuote(rest);
      assert s == "\"" + rest;
    } else {
      var s1 := Escape(t[1..]) + "\"" + rest;
      assert s == EscapeChar(t[0]) + s1;
      ReadsEscaped(t[1..], rest);
      ReadsOne(t[0], s1, t[1..], rest);
      assert t == [t[0]] + t[1..];
    }
  }

  lemma ReadsQuote(rest: string)
    ensures ReadString("\"" + rest) == Some(("", rest))
  {
    assert ("\"" + rest)[1..] == rest;
  }

  lemma EscapeIsNotQuote(c: char)
    ensures EscapeChar(c)[0] != '"'
  {}

  lemma {:induction false} AtomEnds(t: string, rest: string)
    requires (forall k :: 0 <= k < |t| ==> IsAtomChar(t[k])) && (rest == "" || !IsAtomChar(rest[0]))
    ensures AtomEnd(t + rest) == |t|
    decreases |t|
  {
    if t == "" {
      assert t + rest == rest;
    } else {
      assert (t + rest)[1..] == t[1..] + rest;
      AtomEnds(t[1..], rest);
    }
  }
}
