/** Glob patterns: `**` any text, `*` text without a slash, `?` one character but a slash, `[...]` a
    class, anything else itself. */
module Glob {
  // ---------- C strings ----------

  /** The string up to its first NUL: what c_str() shows to a scan. */
  function CString(s: string): (r: string)
    ensures r <= s && '\0' !in r && (|r| < |s| ==> s[|r|] == '\0')
  {
    if s == "" || s[0] == '\0' then "" else [s[0]] + CString(s[1..])
  }

  // ---------- character classes ----------

  /** Whether the plain character type of the platform is signed; nothing below depends on it. */
  const CHAR_IS_SIGNED: bool

  /** The value that a byte has when characters are compared. */
  function Rank(c: char): int {
    if CHAR_IS_SIGNED && 128 <= c as int < 256 then c as int - 256 else c as int
  }

  predicate Within(c: char, low: char, high: char) {
    Rank(low) <= Rank(c) <= Rank(high)
  }

  /** The ranges listed in a class; a single character is a range of one. */
  function Ranges(s: string): seq<(char, char)>
    decreases |s|
  {
    if s == "" then []
    else if |s| > 2 && s[1] == '-' && s[2] != ']' then [(s[0], s[2])] + Ranges(s[3..])
    else [(s[0], s[0])] + Ranges(s[1..])
  }

  /** A first ']' or '-' stands for itself. */
  function Listed(s: string): seq<(char, char)> {
    if s != "" && (s[0] == ']' || s[0] == '-') then [(s[0], s[0])] + Ranges(s[1..]) else Ranges(s)
  }

  predicate Covered(c: char, ranges: seq<(char, char)>) {
    exists k :: 0 <= k < |ranges| && Within(c, ranges[k].0, ranges[k].1)
  }

  /** The class between the brackets: a leading '!' complements it. */
  predicate InClass(c: char, body: string) {
    if body != "" && body[0] == '!' then !Covered(c, Listed(body[1..])) else Covered(c, Listed(body))
  }

  lemma CoveredCons(c: char, r: (char, char), rest: seq<(char, char)>)
    ensures Covered(c, [r] + rest) <==> Within(c, r.0, r.1) || Covered(c, rest)
  {
    var all := [r] + rest;
    if Within(c, r.0, r.1) { assert all[0] == r; }
    if Covered(c, rest) {
      var k :| 0 <= k < |rest| && Within(c, rest[k].0, rest[k].1);
      assert all[k + 1] == rest[k];
    }
    if Covered(c, all) && !(Within(c, r.0, r.1)) {
      var k :| 0 <= k < |all| && Within(c, all[k].0, all[k].1);
      assert rest[k - 1] == all[k];
    }
  }

  lemma CoveredNone(c: char)
    ensures !Covered(c, [])
  {}

  /** p[from..to], empty when the scan has passed the end. */
  function Slice(p: string, from: nat, to: nat): string
    requires to <= |p|
  {
    if from <= to then p[from..to] else ""
  }

  predicate CoveredFrom(c: char, p: string, from: nat, to: nat)
    requires to <= |p|
  {
    Covered(c, Ranges(Slice(p, from, to)))
  }

  /** One range, or one character, and the rest. */
  lemma CoveredStep(c: char, p: string, from: nat, to: nat)
    requires from < to <= |p|
    ensures CoveredFrom(c, p, from, to) <==>
      if from + 2 < to && p[from + 1] == '-' && p[from + 2] != ']'
      then Within(c, p[from], p[from + 2]) || CoveredFrom(c, p, from + 3, to)
      else c == p[from] || CoveredFrom(c, p, from + 1, to)
  {
    hide Covered;
    var s := p[from..to];
    if from + 2 < to && p[from + 1] == '-' && p[from + 2] != ']' {
      CoveredCons(c, (s[0], s[2]), Ranges(s[3..]));
      assert s[3..] == Slice(p, from + 3, to);
    } else {
      CoveredCons(c, (s[0], s[0]), Ranges(s[1..]));
      assert s[1..] == Slice(p, from + 1, to);
    }
  }

  /** The ranges between `from` and the closing bracket, one after the other. */
  method ScanRanges(c: char, pattern: string, from: nat, classEnd: nat) returns (matched: bool)
    requires classEnd < |pattern|
    ensures matched <==> CoveredFrom(c, pattern, from, classEnd)
  {
    var classStart := from;
    while classStart < classEnd
      invariant CoveredFrom(c, pattern, from, classEnd) <==> CoveredFrom(c, pattern, classStart, classEnd)
    {
      hide CoveredFrom;
      CoveredStep(c, pattern, classStart, classEnd);
      if classStart + 2 < classEnd && pattern[classStart + 1] == '-' && pattern[classStart + 2] != ']' {
        if Rank(c) >= Rank(pattern[classStart]) && Rank(c) <= Rank(pattern[classStart + 2]) {
          return true;
        }
        classStart := classStart + 3;
      } else {
        if pattern[classStart] == c {
          return true;
        }
        classStart := classStart + 1;
      }
    }
    CoveredNone(c);
    return false;
  }

  /** The class starts at `start` and ends at the bracket at `classEnd`. */
  method GlobClassMatch(c: char, pattern: string, start: nat, classEnd: nat) returns (r: bool)
    requires start <= classEnd < |pattern| && pattern[classEnd] == ']'
    ensures r <==> InClass(c, pattern[start..classEnd])
  {
    hide Covered;
    CoveredNone(c);
    var classStart := start;
    var negated := false;
    if pattern[classStart] == '!' {
      negated := true;
      classStart := classStart + 1;
      assert pattern[start..classEnd][1..] == pattern[classStart..classEnd];
    }
    ghost var listed := pattern[classStart..classEnd];
    if pattern[classStart] == ']' || pattern[classStart] == '-' {
      if classStart < classEnd {
        CoveredCons(c, (listed[0], listed[0]), Ranges(listed[1..]));
        assert listed[1..] == Slice(pattern, classStart + 1, classEnd);
        if pattern[classStart] == c {
          return !negated;
        }
      }
      classStart := classStart + 1;
    }
    var matched := ScanRanges(c, pattern, classStart, classEnd);
    return if negated then !matched else matched;
  }

  // ---------- patterns ----------

  datatype Item = AnyText | NoSlash | OneChar | Class(body: string) | Literal(c: char)

  /** First ']' from position k on. */
  function FindClose(p: string, k: nat): (e: nat)
    requires k <= |p|
    ensures k <= e <= |p| && (e < |p| ==> p[e] == ']') && forall j :: k <= j < e ==> p[j] != ']'
    decreases |p| - k
  {
    if k == |p| || p[k] == ']' then k else FindClose(p, k + 1)
  }

  /** Where the class opened at 0 ends; a bracket or dash right after '[' does not close it. */
  function ClassEnd(p: string): (e: nat)
    requires p != ""
    ensures 1 <= e <= |p| && (e < |p| ==> p[e] == ']')
  {
    if |p| > 1 && (p[1] == ']' || p[1] == '-') then FindClose(p, 2) else FindClose(p, 1)
  }

  function Parse(p: string): seq<Item>
    decreases |p|
  {
    if p == "" then []
    else if p[0] == '*' && |p| > 1 && p[1] == '*' then [AnyText] + Parse(p[2..])
    else if p[0] == '*' then [NoSlash] + Parse(p[1..])
    else if p[0] == '?' then [OneChar] + Parse(p[1..])
    else if p[0] == '[' && ClassEnd(p) < |p| then [Class(p[1..ClassEnd(p)])] + Parse(p[ClassEnd(p) + 1..])
    else [Literal(p[0])] + Parse(p[1..])
  }

  // ---------- the language of a pattern ----------

  predicate Means(i: Item, piece: string) {
    match i
    case AnyText => true
    case NoSlash => '/' !in piece
    case OneChar => |piece| == 1 && piece[0] != '/'
    case Class(body) => |piece| == 1 && InClass(piece[0], body)
    case Literal(c) => piece == [c]
  }

  function Glue(pieces: seq<string>): string {
    if pieces == [] then "" else pieces[0] + Glue(pieces[1..])
  }

  predicate Spells(items: seq<Item>, pieces: seq<string>) {
    |pieces| == |items| && forall k :: 0 <= k < |items| ==> Means(items[k], pieces[k])
  }

  /** The text can be cut into pieces, one for each item. */
  ghost predicate InLanguage(items: seq<Item>, s: string) {
    exists pieces: seq<string> :: Spells(items, pieces) && Glue(pieces) == s
  }

  /** The same, item by item. */
  predicate Matches(items: seq<Item>, s: string)
    decreases |items|
  {
    if items == [] then s == ""
    else exists k :: 0 <= k <= |s| && Means(items[0], s[..k]) && Matches(items[1..], s[k..])
  }

  lemma {:induction false} MatchesPieces(items: seq<Item>, pieces: seq<string>)
    requires Spells(items, pieces)
    ensures Matches(items, Glue(pieces))
    decreases |items|
  {
    hide Means;
    if items != [] {
      assert Spells(items[1..], pieces[1..]) by {
        forall k | 0 <= k < |items| - 1 ensures Means(items[1..][k], pieces[1..][k]) {
          assert Means(items[k + 1], pieces[k + 1]);
        }
      }
      MatchesPieces(items[1..], pieces[1..]);
      var s, k := Glue(pieces), |pieces[0]|;
      assert s[..k] == pieces[0] && s[k..] == Glue(pieces[1..]);
    }
  }

  lemma {:induction false} PiecesOf(items: seq<Item>, s: string) returns (pieces: seq<string>)
    requires Matches(items, s)
    ensures Spells(items, pieces) && Glue(pieces) == s
    decreases |items|
  {
    hide Means;
    if items == [] {
      pieces := [];
    } else {
      var k :| 0 <= k <= |s| && Means(items[0], s[..k]) && Matches(items[1..], s[k..]);
      var rest := PiecesOf(items[1..], s[k..]);
      pieces := [s[..k]] + rest;
      assert pieces[1..] == rest;
      forall j | 0 <= j < |items| ensures Means(items[j], pieces[j]) {
        if j > 0 { assert Means(items[1..][j - 1], rest[j - 1]); }
      }
    }
  }

  lemma MatchesIsMembership(items: seq<Item>, s: string)
    ensures Matches(items, s) <==> InLanguage(items, s)
  {
    if Matches(items, s) {
      var pieces := PiecesOf(items, s);
    }
    forall pieces: seq<string> | Spells(items, pieces) && Glue(pieces) == s ensures Matches(items, s) {
      MatchesPieces(items, pieces);
    }
  }

  // ---------- the matcher ----------

  /** An item of one character. */
  lemma OneStep(i: Item, rest: seq<Item>, s: string)
    requires !i.AnyText? && !i.NoSlash?
    ensures Matches([i] + rest, s) <==> s != "" && Means(i, s[..1]) && Matches(rest, s[1..])
  {
    hide InClass;
    var items := [i] + rest;
    assert items[1..] == rest;
    forall k | 0 <= k <= |s| && Means(i, s[..k]) ensures k == 1 { assert |s[..k]| == k; }
  }

  lemma AnyStep(rest: seq<Item>, s: string)
    ensures Matches([AnyText] + rest, s) <==>
      Matches(rest, s) || (s != "" && Matches([AnyText] + rest, s[1..]))
  {
    var items := [AnyText] + rest;
    assert items[1..] == rest && s[0..] == s;
    forall k | 1 <= k <= |s| ensures s[1..][k - 1..] == s[k..] {}
    if Matches(rest, s) { assert Means(AnyText, s[..0]) && Matches(items[1..], s[0..]); }
    if s != "" && Matches(items, s[1..]) {
      var k :| 0 <= k <= |s| - 1 && Means(items[0], s[1..][..k]) && Matches(items[1..], s[1..][k..]);
      assert s[1..][k..] == s[k + 1..] && Means(items[0], s[..k + 1]);
    }
    if Matches(items, s) && !Matches(rest, s) {
      var k :| 0 <= k <= |s| && Means(items[0], s[..k]) && Matches(items[1..], s[k..]);
      assert k > 0 && Means(items[0], s[1..][..k - 1]);
    }
  }

  /** `*` may take any number of characters up to the first slash. */
  lemma RunStep(rest: seq<Item>, s: string, n: nat)
    requires n <= |s| && '/' !in s[..n] && (n < |s| ==> s[n] == '/')
    ensures Matches([NoSlash] + rest, s) <==> exists k :: 0 <= k <= n && Matches(rest, s[k..])
  {
    var items := [NoSlash] + rest;
    assert items[1..] == rest;
    forall k | 0 <= k <= |s| ensures Means(NoSlash, s[..k]) <==> k <= n {
      if k <= n { assert s[..k] == s[..n][..k]; } else { assert s[..k][n] == '/'; }
    }
  }

  method GlobMatch(pattern: string, str: string) returns (r: bool)
    ensures r <==> Matches(Parse(pattern), str)
    decreases |pattern|, |str|
  {
    hide Matches, InClass, ClassEnd;
    if pattern == "" {
      MatchesNothing(str);
      return str == "";
    }
    if pattern[0] == '*' && |pattern| > 1 && pattern[1] == '*' {
      AnyStep(Parse(pattern[2..]), str);
      r := GlobMatch(pattern[2..], str);
      if r { return true; }
      if str != "" {
        r := GlobMatch(pattern, str[1..]);
        return r;
      }
      return false;
    }
    if pattern[0] == '*' {
      var p, i := pattern[1..], 0;
      while i < |str| && str[i] != '/'
        invariant i <= |str| && '/' !in str[..i]
        invariant forall k :: 0 <= k < i ==> !Matches(Parse(p), str[k..])
      {
        r := GlobMatch(p, str[i..]);
        if r {
          RunStepTo(Parse(p), str, i);
          return true;
        }
        assert str[..i + 1] == str[..i] + [str[i]];
        i := i + 1;
      }
      RunStep(Parse(p), str, i);
      r := GlobMatch(p, str[i..]);
      return r;
    }
    if pattern[0] == '?' {
      OneStep(OneChar, Parse(pattern[1..]), str);
      if str != "" && str[0] != '/' {
        r := GlobMatch(pattern[1..], str[1..]);
        return r;
      }
      return false;
    }
    if pattern[0] == '[' {
      var classEnd := FindClassEnd(pattern);
      if classEnd < |pattern| {
        OneStep(Class(pattern[1..classEnd]), Parse(pattern[classEnd + 1..]), str);
        if str == "" { return false; }
        var matched := GlobClassMatch(str[0], pattern, 1, classEnd);
        if matched {
          r := GlobMatch(pattern[classEnd + 1..], str[1..]);
          return r;
        }
        return false;
      } else {
        OneStep(Literal('['), Parse(pattern[1..]), str);
        if str != "" && str[0] == '[' {
          r := GlobMatch(pattern[1..], str[1..]);
          return r;
        }
        return false;
      }
    }
    OneStep(Literal(pattern[0]), Parse(pattern[1..]), str);
    if str != "" && pattern[0] == str[0] {
      r := GlobMatch(pattern[1..], str[1..]);
      return r;
    }
    return false;
  }

  lemma MatchesNothing(s: string)
    ensures Matches([], s) <==> s == ""
  {}

  lemma RunStepTo(rest: seq<Item>, s: string, k: nat)
    requires k <= |s| && '/' !in s[..k] && Matches(rest, s[k..])
    ensures Matches([NoSlash] + rest, s)
  {
    var items := [NoSlash] + rest;
    assert items[1..] == rest && Means(items[0], s[..k]);
  }

  method FindClassEnd(pattern: string) returns (classEnd: nat)
    requires pattern != ""
    ensures classEnd == ClassEnd(pattern)
  {
    classEnd := 1;
    if classEnd < |pattern| && (pattern[classEnd] == ']' || pattern[classEnd] == '-') {
      classEnd := classEnd + 1;
    }
    while classEnd < |pattern| && pattern[classEnd] != ']'
      invariant classEnd <= |pattern| && FindClose(pattern, classEnd) == ClassEnd(pattern)
    {
      classEnd := classEnd + 1;
    }
  }

  /** Matching is membership in the language of the pattern, both read as C strings. */
  method MatchStrings(pattern: string, str: string) returns (r: bool)
    ensures r <==> InLanguage(Parse(CString(pattern)), CString(str))
  {
    MatchesIsMembership(Parse(CString(pattern)), CString(str));
    r := GlobMatch(CString(pattern), CString(str));
  }

  // ---------- path components ----------

  function Slashes(s: string): nat {
    if s == "" then 0 else (if s[0] == '/' then 1 else 0) + Slashes(s[1..])
  }

  function LiteralSlashes(items: seq<Item>): nat {
    if items == [] then 0 else (if items[0] == Literal('/') then 1 else 0) + LiteralSlashes(items[1..])
  }

  lemma {:induction false} SlashesConcat(a: string, b: string)
    ensures Slashes(a + b) == Slashes(a) + Slashes(b)
    decreases |a|
  {
    if a == "" {
      assert a + b == b;
    } else {
      assert (a + b)[1..] == a[1..] + b;
      SlashesConcat(a[1..], b);
    }
  }

  lemma {:induction false} NoSlashes(s: string)
    requires '/' !in s
    ensures Slashes(s) == 0
    decreases |s|
  {
    if s != "" { NoSlashes(s[1..]); }
  }

  /** The item can take in a slash that the pattern does not show. */
  predicate Crosses(i: Item) {
    i.AnyText? || (i.Class? && InClass('/', i.body))
  }

  predicate NoneCrosses(items: seq<Item>) {
    forall k :: 0 <= k < |items| ==> !Crosses(items[k])
  }

  lemma PieceSlashes(i: Item, piece: string)
    requires Means(i, piece)
    ensures Slashes(piece) >= LiteralSlashes([i])
    ensures !Crosses(i) ==> Slashes(piece) == LiteralSlashes([i])
  {
    assert [i][1..] == [];
    if i == Literal('/') {
      assert piece[1..] == "";
    } else if !Crosses(i) {
      NoSlashes(piece);
    }
  }

  /** Every text has the slashes that the pattern shows, and no other ones unless an item crosses. */
  lemma {:induction false} SlashesShown(items: seq<Item>, s: string)
    requires Matches(items, s)
    ensures Slashes(s) >= LiteralSlashes(items)
    ensures NoneCrosses(items) ==> Slashes(s) == LiteralSlashes(items)
    decreases |items|
  {
    hide Means, Slashes, Crosses;
    if items == [] {
      NoSlashes(s);
    } else {
      var k :| 0 <= k <= |s| && Means(items[0], s[..k]) && Matches(items[1..], s[k..]);
      SlashesShown(items[1..], s[k..]);
      assert s == s[..k] + s[k..];
      SlashesConcat(s[..k], s[k..]);
      PieceSlashes(items[0], s[..k]);
      ShownCons(items);
    }
  }

  lemma ShownCons(items: seq<Item>)
    requires items != []
    ensures LiteralSlashes(items) == LiteralSlashes([items[0]]) + LiteralSlashes(items[1..])
    ensures NoneCrosses(items) ==> !Crosses(items[0]) && NoneCrosses(items[1..])
  {
    assert [items[0]][1..] == [];
  }

  /** With an item that crosses, some text has more slashes than the pattern shows. */
  lemma {:induction false} MoreSlashes(items: seq<Item>, t: string, j: nat) returns (s: string)
    requires Matches(items, t) && j < |items| && Crosses(items[j])
    ensures Matches(items, s) && Slashes(s) > LiteralSlashes(items)
    decreases |items|
  {
    hide Means, Slashes, Crosses;
    var k :| 0 <= k <= |t| && Means(items[0], t[..k]) && Matches(items[1..], t[k..]);
    ShownCons(items);
    if j == 0 {
      s := "/" + t[k..];
      CrossingPiece(items[0]);
      SlashesShown(items[1..], t[k..]);
      SlashesConcat("/", t[k..]);
      PrependPiece(items, "/", t[k..]);
    } else {
      var rest := MoreSlashes(items[1..], t[k..], j - 1);
      s := t[..k] + rest;
      PieceSlashes(items[0], t[..k]);
      SlashesConcat(t[..k], rest);
      PrependPiece(items, t[..k], rest);
    }
  }

  lemma CrossingPiece(i: Item)
    requires Crosses(i)
    ensures Means(i, "/") && Slashes("/") == 1 && LiteralSlashes([i]) == 0
  {
    assert "/"[1..] == "" && [i][1..] == [];
  }

  lemma PrependPiece(items: seq<Item>, piece: string, rest: string)
    requires items != [] && Means(items[0], piece) && Matches(items[1..], rest)
    ensures Matches(items, piece + rest)
  {
    hide Means;
    var s, k := piece + rest, |piece|;
    assert s[..k] == piece && s[k..] == rest;
  }

  /** For a pattern that some text matches: all texts have as many path components as the pattern shows
      exactly when it has no `**` and no class that contains the slash. */
  lemma ComponentsExactly(items: seq<Item>, t: string)
    requires InLanguage(items, t)
    ensures (forall s :: InLanguage(items, s) ==> Slashes(s) == LiteralSlashes(items)) <==> NoneCrosses(items)
  {
    hide Slashes, Crosses, Matches, InLanguage, LiteralSlashes;
    if NoneCrosses(items) {
      forall s | InLanguage(items, s) ensures Slashes(s) == LiteralSlashes(items) {
        MatchesIsMembership(items, s);
        SlashesShown(items, s);
      }
    } else {
      var j :| 0 <= j < |items| && Crosses(items[j]);
      MatchesIsMembership(items, t);
      var s := MoreSlashes(items, t, j);
      MatchesIsMembership(items, s);
    }
  }

  /** A class, unlike `?`, may match a slash. */
  lemma ClassMatchesSlash()
    ensures Parse("[!a]") == [Class("!a")] && InLanguage([Class("!a")], "/") && !InLanguage([OneChar], "/")
  {
    var p := "[!a]";
    assert FindClose(p, 1) == 3;
    assert p[1..3] == "!a" && p[4..] == "" && Parse("") == [];
    assert "!a"[1..] == "a" && "a"[1..] == "";
    assert Listed("a") == [('a', 'a')];
    assert InClass('/', "!a");
    OneStep(Class("!a"), [], "/");
    OneStep(OneChar, [], "/");
    assert "/"[..1] == "/" && "/"[1..] == "";
    assert [Class("!a")] + [] == [Class("!a")] && [OneChar] + [] == [OneChar];
    MatchesIsMembership([Class("!a")], "/");
    MatchesIsMembership([OneChar], "/");
  }
}
