/** Base64 (sections 4 and 5 of RFC 4648): three bytes are four digits of six bits. */
module Base64 {
  import opened Wrappers

  type Byte = n: int | 0 <= n < 256
  type Digit = n: int | 0 <= n < 64

  datatype Alphabet = AUTO | STANDARD | URL_SAFE
  datatype Behavior = MODERATE | LOOSE

  // ---------- digits and characters ----------

  const UPPER := "ABCDEFGHIJKLMNOPQRSTUVWXYZ"
  const LOWER := "abcdefghijklmnopqrstuvwxyz"
  const NUMERALS := "0123456789"

  function Alpha(a: Alphabet): (r: string)
    ensures |r| == 64
  {
    UPPER + LOWER + NUMERALS + if a == URL_SAFE then "-_" else "+/"
  }

  /** The value of a character, and the alphabet from then on: automatic detection settles at the
      first character that only one alphabet has. */
  function Value(a: Alphabet, c: char): Option<(Digit, Alphabet)> {
    if 'A' <= c <= 'Z' then Some((c as int - 'A' as int, a))
    else if 'a' <= c <= 'z' then Some((c as int - 'a' as int + 26, a))
    else if '0' <= c <= '9' then Some((c as int - '0' as int + 52, a))
    else if a != URL_SAFE && c == '+' then Some((62, STANDARD))
    else if a != URL_SAFE && c == '/' then Some((63, STANDARD))
    else if a != STANDARD && c == '-' then Some((62, URL_SAFE))
    else if a != STANDARD && c == '_' then Some((63, URL_SAFE))
    else None
  }

  /** Text written with alphabet `e` can be read with alphabet `a`. */
  predicate Reads(a: Alphabet, e: Alphabet) {
    a == AUTO || (a == URL_SAFE <==> e == URL_SAFE)
  }

  lemma UpperAt(v: int)
    requires 0 <= v < 26
    ensures UPPER[v] as int == 'A' as int + v
  {}

  lemma LowerAt(v: int)
    requires 0 <= v < 26
    ensures LOWER[v] as int == 'a' as int + v
  {}

  lemma NumeralAt(v: int)
    requires 0 <= v < 10
    ensures NUMERALS[v] as int == '0' as int + v
  {}

  lemma AlphaAt(e: Alphabet, v: Digit)
    ensures v < 26 ==> Alpha(e)[v] as int == 'A' as int + v
    ensures 26 <= v < 52 ==> Alpha(e)[v] as int == 'a' as int + v - 26
    ensures 52 <= v < 62 ==> Alpha(e)[v] as int == '0' as int + v - 52
    ensures v == 62 ==> Alpha(e)[v] == if e == URL_SAFE then '-' else '+'
    ensures v == 63 ==> Alpha(e)[v] == if e == URL_SAFE then '_' else '/'
  {
    hide UPPER, LOWER, NUMERALS;
    TableLengths();
    if v < 26 {
      UpperAt(v);
    } else if v < 52 {
      LowerAt(v - 26);
    } else if v < 62 {
      NumeralAt(v - 52);
    }
  }

  lemma TableLengths()
    ensures |UPPER| == 26 && |LOWER| == 26 && |NUMERALS| == 10
  {}

  /** Every digit is read back from its character and the alphabet stays compatible, if the alphabets
      agree or need not. */
  lemma ValueOfAlpha(a: Alphabet, e: Alphabet, v: Digit)
    ensures Alpha(e)[v] != '='
    ensures var r := Value(a, Alpha(e)[v]);
      if Reads(a, e) then r.Some? && r.value.0 == v && Reads(r.value.1, e)
      else if v < 62 then r == Some((v, a))
      else r.None?
  {
    hide Alpha;
    AlphaAt(e, v);
  }

  // ---------- bytes and digits ----------

  function Digit0(x: Byte): Digit { (x as int) / 4 }

  function Digit1(x: Byte, y: Byte): Digit { (x as int) % 4 * 16 + (y as int) / 16 }

  function Digit2(y: Byte, z: Byte): Digit { (y as int) % 16 * 4 + (z as int) / 64 }

  function Digit3(z: Byte): Digit { (z as int) % 64 }

  function Byte0(a: Digit, b: Digit): Byte { (a as int) * 4 + (b as int) / 16 }

  function Byte1(b: Digit, c: Digit): Byte { (b as int) % 16 * 16 + (c as int) / 4 }

  function Byte2(c: Digit, d: Digit): Byte { (c as int) % 4 * 64 + d as int }

  lemma GroupRoundTrip(x: Byte, y: Byte, z: Byte)
    ensures Byte0(Digit0(x), Digit1(x, y)) == x
    ensures Byte1(Digit1(x, y), Digit2(y, z)) == y
    ensures Byte2(Digit2(y, z), Digit3(z)) == z
  {}

  /** The digits of the bytes, most significant bits first, missing bits zero. */
  function Unpack(x: seq<Byte>): seq<Digit>
    decreases |x|
  {
    if x == [] then []
    else if |x| == 1 then [Digit0(x[0]), Digit1(x[0], 0)]
    else if |x| == 2 then [Digit0(x[0]), Digit1(x[0], x[1]), Digit2(x[1], 0)]
    else [Digit0(x[0]), Digit1(x[0], x[1]), Digit2(x[1], x[2]), Digit3(x[2])] + Unpack(x[3..])
  }

  /** The whole bytes in the digits; spare bits are dropped. */
  function Pack(d: seq<Digit>): seq<Byte>
    decreases |d|
  {
    if |d| < 2 then []
    else if |d| == 2 then [Byte0(d[0], d[1])]
    else if |d| == 3 then [Byte0(d[0], d[1]), Byte1(d[1], d[2])]
    else [Byte0(d[0], d[1]), Byte1(d[1], d[2]), Byte2(d[2], d[3])] + Pack(d[4..])
  }

  lemma UnpackGroup(x: seq<Byte>)
    requires |x| >= 3
    ensures Unpack(x) == [Digit0(x[0]), Digit1(x[0], x[1]), Digit2(x[1], x[2]), Digit3(x[2])] + Unpack(x[3..])
  {
    hide Digit0, Digit1, Digit2, Digit3;
  }

  lemma FirstThree(x: seq<Byte>)
    requires |x| >= 3
    ensures x == [x[0], x[1], x[2]] + x[3..]
  {}

  lemma PackGroup(a: Digit, b: Digit, c: Digit, d: Digit, rest: seq<Digit>)
    ensures Pack([a, b, c, d] + rest) == [Byte0(a, b), Byte1(b, c), Byte2(c, d)] + Pack(rest)
  {
    hide Byte0, Byte1, Byte2;
    assert ([a, b, c, d] + rest)[4..] == rest;
  }

  lemma PackUnpackShort(x: seq<Byte>)
    requires |x| < 3
    ensures Pack(Unpack(x)) == x
  {
    hide Byte0, Byte1, Byte2, Digit0, Digit1, Digit2, Digit3;
    if |x| == 1 {
      GroupRoundTrip(x[0], 0, 0);
    } else if |x| == 2 {
      GroupRoundTrip(x[0], x[1], 0);
    }
  }

  lemma {:induction false} PackUnpack(x: seq<Byte>)
    ensures Pack(Unpack(x)) == x
    decreases |x|
  {
    hide Byte0, Byte1, Byte2, Digit0, Digit1, Digit2, Digit3, Pack, Unpack;
    if |x| < 3 {
      PackUnpackShort(x);
    } else {
      GroupRoundTrip(x[0], x[1], x[2]);
      UnpackGroup(x);
      FirstThree(x);
      PackGroup(Digit0(x[0]), Digit1(x[0], x[1]), Digit2(x[1], x[2]), Digit3(x[2]), Unpack(x[3..]));
      PackUnpack(x[3..]);
    }
  }

  /** How many low bits of the last digit are not part of a whole byte. */
  function SpareBits(n: nat): nat {
    if n % 4 == 0 then 0 else if n % 4 == 1 then 6 else if n % 4 == 2 then 4 else 2
  }

  /** The byte completed by a digit when `bits` bits of the digit before it are spare. */
  function Completed(last: Digit, part: Digit, bits: nat): (r: Byte)
    requires bits == 2 || bits == 4 || bits == 6
  {
    var joined: int :=
      if bits == 6 then (last as int) * 4 + (part as int) / 16
      else if bits == 4 then (last as int) * 16 + (part as int) / 4
      else (last as int) * 64 + part as int;
    joined % 256
  }

  lemma CompletedIs(last: Digit, part: Digit)
    ensures Completed(last, part, 6) == Byte0(last, part)
    ensures Completed(last, part, 4) == Byte1(last, part)
    ensures Completed(last, part, 2) == Byte2(last, part)
  {
    var l: int := last;
    Remainder(0, Byte0(last, part));
    Remainder(l / 16, Byte1(last, part));
    Remainder(l / 4, Byte2(last, part));
  }

  lemma Remainder(q: int, r: Byte)
    ensures (q * 256 + r as int) % 256 == r as int
  {}

  function NewBytes(last: Digit, part: Digit, bits: nat): seq<Byte>
    requires bits == 0 || bits == 2 || bits == 4 || bits == 6
  {
    if bits == 0 then [] else [Completed(last, part, bits)]
  }

  /** One digit more. */
  lemma {:induction false} PackSnoc(d: seq<Digit>, last: Digit, part: Digit)
    requires d != [] ==> last == d[|d| - 1]
    ensures Pack(d + [part]) == Pack(d) + NewBytes(last, part, SpareBits(|d|))
    decreases |d|
  {
    hide Byte0, Byte1, Byte2, Completed;
    CompletedIs(last, part);
    if |d| >= 4 {
      assert (d + [part])[4..] == d[4..] + [part];
      PackSnoc(d[4..], last, part);
      assert SpareBits(|d|) == SpareBits(|d[4..]|);
    }
  }

  lemma {:induction false} PackLength(d: seq<Digit>)
    ensures 6 * |d| == 8 * |Pack(d)| + SpareBits(|d|)
    decreases |d|
  {
    hide Byte0, Byte1, Byte2;
    if |d| >= 4 { PackLength(d[4..]); }
  }

  // ---------- what the digits stand for ----------

  /** The number written with these digits, most significant first. */
  function DigitNumber(d: seq<Digit>): int
    decreases |d|
  {
    if d == [] then 0 else DigitNumber(d[..|d| - 1]) * 64 + d[|d| - 1] as int
  }

  /** The number written with these bytes, most significant first. */
  function ByteNumber(x: seq<Byte>): int
    decreases |x|
  {
    if x == [] then 0 else ByteNumber(x[..|x| - 1]) * 256 + x[|x| - 1] as int
  }

  lemma ByteNumberSnoc(x: seq<Byte>, b: Byte)
    ensures ByteNumber(x + [b]) == ByteNumber(x) * 256 + b as int
  {
    assert (x + [b])[..|x|] == x;
  }

  lemma NewBytesNumber(x: seq<Byte>, last: Digit, part: Digit, bits: nat)
    requires bits == 0 || bits == 2 || bits == 4 || bits == 6
    ensures ByteNumber(x + NewBytes(last, part, bits)) ==
      if bits == 0 then ByteNumber(x) else ByteNumber(x) * 256 + Completed(last, part, bits) as int
  {
    hide ByteNumber, Completed;
    if bits == 0 {
      assert x + [] == x;
    } else {
      ByteNumberSnoc(x, Completed(last, part, bits));
    }
  }

  /** Room for the spare bits of n digits. */
  function ShiftUp(v: int, n: nat): int {
    if n % 4 == 0 then v else if n % 4 == 1 then v * 64 else if n % 4 == 2 then v * 16 else v * 4
  }

  function ShiftDown(v: int, n: nat): int {
    if n % 4 == 0 then v else if n % 4 == 1 then v / 64 else if n % 4 == 2 then v / 16 else v / 4
  }

  /** The spare bits of the last digit v of a sequence whose length modulo 4 is k. */
  function SpareOf(k: nat, v: Digit): int {
    if k == 0 then 0 else if k == 1 then v as int else if k == 2 then v as int % 16 else v as int % 4
  }

  function SpareValue(d: seq<Digit>): int {
    if d == [] then 0 else SpareOf(|d| % 4, d[|d| - 1])
  }

  lemma SpareBound(d: seq<Digit>, v: int)
    ensures ShiftDown(ShiftUp(v, |d|) + SpareValue(d), |d|) == v
  {}

  /** The packed bytes are the number of the digits without the spare bits. */
  lemma {:induction false} PackNumber(d: seq<Digit>)
    ensures DigitNumber(d) == ShiftUp(ByteNumber(Pack(d)), |d|) + SpareValue(d)
    decreases |d|
  {
    if d != [] {
      hide ByteNumber, Pack, ShiftUp, SpareValue, Completed, NewBytes, SpareOf;
      var d0, p := d[..|d| - 1], d[|d| - 1];
      assert d == d0 + [p];
      var last: Digit := if d0 == [] then 0 else d0[|d0| - 1];
      PackNumber(d0);
      PackSnoc(d0, last, p);
      NewBytesNumber(Pack(d0), last, p, SpareBits(|d0|));
      NumberStep(ByteNumber(Pack(d0)), d0, last, p);
    } else {
      assert Pack(d) == [];
    }
  }

  lemma SpareSnoc(d: seq<Digit>, last: Digit, p: Digit)
    requires d != [] ==> last == d[|d| - 1]
    ensures SpareValue(d) == SpareOf(|d| % 4, last) && SpareValue(d + [p]) == SpareOf((|d| + 1) % 4, p)
  {}

  lemma NumberStep(n: int, d: seq<Digit>, last: Digit, p: Digit)
    requires d != [] ==> last == d[|d| - 1]
    ensures var m := if |d| % 4 == 0 then n else n * 256 + Completed(last, p, SpareBits(|d|)) as int;
      (ShiftUp(n, |d|) + SpareValue(d)) * 64 + p as int == ShiftUp(m, |d| + 1) + SpareValue(d + [p])
  {
    hide Completed, Byte0, Byte1, Byte2, SpareValue;
    CompletedIs(last, p);
    SpareSnoc(d, last, p);
    if |d| % 4 == 1 {
      AfterOne(n, last, p);
    } else if |d| % 4 == 2 {
      AfterTwo(n, last, p);
    } else if |d| % 4 == 3 {
      AfterThree(n, last, p);
    }
  }

  lemma AfterOne(n: int, l: Digit, p: Digit)
    ensures (n * 64 + l as int) * 64 + p as int == (n * 256 + Byte0(l, p) as int) * 16 + p as int % 16
  {}

  lemma AfterTwo(n: int, l: Digit, p: Digit)
    ensures (n * 16 + l as int % 16) * 64 + p as int == (n * 256 + Byte1(l, p) as int) * 4 + p as int % 4
  {}

  lemma AfterThree(n: int, l: Digit, p: Digit)
    ensures (n * 4 + l as int % 4) * 64 + p as int == n * 256 + Byte2(l, p) as int
  {}

  /** No lone digit at the end and no spare bit set: what an encoder writes. */
  predicate Canonical(d: seq<Digit>) {
    |d| % 4 != 1 && SpareValue(d) == 0
  }

  lemma GroupCanonical(a: Digit, b: Digit, c: Digit, d: Digit)
    ensures var x, y, z := Byte0(a, b), Byte1(b, c), Byte2(c, d);
      Digit0(x) == a && Digit1(x, y) == b && Digit2(y, z) == c && Digit3(z) == d
    ensures Digit1(Byte0(a, b), 0) == b <==> SpareOf(2, b) == 0
    ensures Digit2(Byte1(b, c), 0) == c <==> SpareOf(3, c) == 0
  {}

  lemma TwoCanonical(a: Digit, b: Digit)
    ensures Unpack(Pack([a, b])) == [a, b] <==> SpareOf(2, b) == 0
  {
    hide Byte0, Digit0, Digit1, SpareOf;
    GroupCanonical(a, b, 0, 0);
    assert Pack([a, b]) == [Byte0(a, b)];
  }

  lemma ThreeCanonical(a: Digit, b: Digit, c: Digit)
    ensures Unpack(Pack([a, b, c])) == [a, b, c] <==> SpareOf(3, c) == 0
  {
    hide Byte0, Byte1, Digit0, Digit1, Digit2, SpareOf;
    GroupCanonical(a, b, c, 0);
    assert Pack([a, b, c]) == [Byte0(a, b), Byte1(b, c)];
  }

  /** Decoded digits encode to themselves exactly when they are canonical. */
  lemma {:induction false} UnpackPack(d: seq<Digit>)
    ensures Unpack(Pack(d)) == d <==> Canonical(d)
    decreases |d|
  {
    if |d| < 2 {
      assert Pack(d) == [];
    } else if |d| == 2 {
      TwoCanonical(d[0], d[1]);
      assert d == [d[0], d[1]];
    } else if |d| == 3 {
      ThreeCanonical(d[0], d[1], d[2]);
      assert d == [d[0], d[1], d[2]];
    } else {
      hide Byte0, Byte1, Byte2, Digit0, Digit1, Digit2, Digit3, SpareOf;
      GroupCanonical(d[0], d[1], d[2], d[3]);
      CanonicalRest(d);
      var four := [d[0], d[1], d[2], d[3]];
      assert Pack(d)[3..] == Pack(d[4..]);
      assert Unpack(Pack(d)) == four + Unpack(Pack(d[4..])) && d == four + d[4..];
      hide Pack, Unpack, Canonical;
      UnpackPack(d[4..]);
      SameTail(four, Unpack(Pack(d[4..])), d[4..]);
    }
  }

  lemma CanonicalRest(d: seq<Digit>)
    requires |d| >= 4
    ensures Canonical(d) <==> Canonical(d[4..])
  {}

  lemma SameTail(a: seq<Digit>, x: seq<Digit>, y: seq<Digit>)
    ensures a + x == a + y <==> x == y
  {
    assert (a + x)[|a|..] == x && (a + y)[|a|..] == y;
  }

  // ---------- text ----------

  function Chars(d: seq<Digit>, e: Alphabet): (r: string)
    ensures |r| == |d|
    decreases |d|
  {
    if d == [] then "" else [Alpha(e)[d[0]]] + Chars(d[1..], e)
  }

  function Padding(n: nat): string {
    if n % 3 == 0 then "" else if n % 3 == 1 then "==" else "="
  }

  function Encode(x: seq<Byte>, e: Alphabet): string {
    Chars(Unpack(x), e) + Padding(|x|)
  }

  function RequiredEncodeSize(size: nat): nat {
    (size / 3 + if size % 3 != 0 then 1 else 0) * 4
  }

  function MaxDecodeSize(size: nat): nat {
    (size / 4 + if size % 4 != 0 then 1 else 0) * 3
  }

  /** The least multiple of three that holds the bytes of so many digits. */
  lemma MaxDecodeSizeIs(size: nat)
    ensures var m := MaxDecodeSize(size); m % 3 == 0 && 3 * size <= 4 * m < 3 * size + 12
  {}

  lemma {:induction false} UnpackLength(x: seq<Byte>)
    ensures |Unpack(x)| + |Padding(|x|)| == RequiredEncodeSize(|x|)
    decreases |x|
  {
    hide Digit0, Digit1, Digit2, Digit3;
    if |x| >= 3 { UnpackLength(x[3..]); }
  }

  lemma EncodedSize(x: seq<Byte>, e: Alphabet)
    ensures |Encode(x, e)| == RequiredEncodeSize(|x|)
  {
    UnpackLength(x);
  }

  /** The digits up to the first padding character, and the text after that character. */
  function ReadDigits(s: string, a: Alphabet): Option<(seq<Digit>, string)>
    decreases |s|
  {
    if s == "" then Some(([], ""))
    else if s[0] == '=' then Some(([], s[1..]))
    else
      var v := Value(a, s[0]);
      if v.None? then None else Prepend([v.value.0], ReadDigits(s[1..], v.value.1))
  }

  function Prepend(d: seq<Digit>, r: Option<(seq<Digit>, string)>): Option<(seq<Digit>, string)> {
    if r.None? then None else Some((d + r.value.0, r.value.1))
  }

  /** The digits up to the first character that is not one, whether it is padding or not. */
  function LeadingDigits(s: string, a: Alphabet): seq<Digit>
    decreases |s|
  {
    if s == "" || s[0] == '=' || Value(a, s[0]).None? then []
    else
      var v := Value(a, s[0]).value;
      [v.0] + LeadingDigits(s[1..], v.1)
  }

  predicate AllPadding(s: string) {
    forall k :: 0 <= k < |s| ==> s[k] == '='
  }

  function Decode(s: string, a: Alphabet, b: Behavior): Result<seq<Byte>> {
    var r := ReadDigits(s, a);
    if r.None? || (b != LOOSE && !AllPadding(r.value.1)) then Failure else Success(Pack(r.value.0))
  }

  // ---------- decoding what was encoded ----------

  /** The digits can be read: the alphabets agree, or no digit tells them apart. */
  predicate Readable(d: seq<Digit>, a: Alphabet, e: Alphabet) {
    Reads(a, e) || forall k :: 0 <= k < |d| ==> d[k] < 62
  }

  lemma {:induction false} ReadsChars(d: seq<Digit>, a: Alphabet, e: Alphabet, pad: string)
    requires pad == "" || pad[0] == '='
    ensures ReadDigits(Chars(d, e) + pad, a) ==
      if Readable(d, a, e) then Some((d, if pad == "" then "" else pad[1..])) else None
    decreases |d|
  {
    hide Alpha, Value;
    var s := Chars(d, e) + pad;
    if d == [] {
      assert s == pad;
    } else {
      ValueOfAlpha(a, e, d[0]);
      assert s[0] == Alpha(e)[d[0]] && s[1..] == Chars(d[1..], e) + pad;
      var v := Value(a, s[0]);
      if v.Some? { ReadsChars(d[1..], v.value.1, e, pad); }
      assert d == [d[0]] + d[1..];
    }
  }

  /** Decoding undoes encoding, with either behaviour, exactly when the digits can be read with the
      alphabet asked for; otherwise it is rejected. */
  lemma RoundTrip(x: seq<Byte>, a: Alphabet, e: Alphabet, b: Behavior)
    ensures Decode(Encode(x, e), a, b) == if Readable(Unpack(x), a, e) then Success(x) else Failure
  {
    hide Unpack, Chars, Pack, ReadDigits, Readable;
    ReadsChars(Unpack(x), a, e, Padding(|x|));
    PackUnpack(x);
  }

  /** Digits decode with or without padding. What follows the first padding character must be padding
      as well, unless the behaviour is loose, which ignores it. */
  lemma PaddingIsChecked(d: seq<Digit>, a: Alphabet, e: Alphabet, b: Behavior, t: string)
    ensures Decode(Chars(d, e) + "=" + t, a, b) ==
      if Readable(d, a, e) && (b == LOOSE || forall k :: 0 <= k < |t| ==> t[k] == '=') then Success(Pack(d)) else Failure
    ensures Decode(Chars(d, e), a, b) == if Readable(d, a, e) then Success(Pack(d)) else Failure
  {
    hide Chars, Pack, ReadDigits, Readable;
    ReadsChars(d, a, e, "=" + t);
    ReadsChars(d, a, e, "");
    assert Chars(d, e) + ("=" + t) == Chars(d, e) + "=" + t && Chars(d, e) + "" == Chars(d, e);
    assert ("=" + t)[1..] == t;
  }

  /** A character of neither alphabet before the padding is refused under each behaviour. */
  lemma {:induction false} ForeignIsRefused(d: seq<Digit>, a: Alphabet, e: Alphabet, b: Behavior, c: char, t: string)
    requires c != '=' && c !in Alpha(STANDARD) && c !in Alpha(URL_SAFE)
    ensures Decode(Chars(d, e) + [c] + t, a, b).Failure?
  {
    hide Alpha, Chars;
    assert Chars(d, e) + [c] + t == Chars(d, e) + ([c] + t);
    NoDigits(d, a, e, c, t);
  }

  /** The alphabet that is left for what follows: the first digit that only one alphabet has settles it. */
  function Settled(d: seq<Digit>, a: Alphabet, e: Alphabet): Alphabet {
    if forall k :: 0 <= k < |d| ==> d[k] < 62 then a else if e == URL_SAFE then URL_SAFE else STANDARD
  }

  lemma SettledCons(d: seq<Digit>, a: Alphabet, e: Alphabet)
    requires d != [] && Readable(d, a, e)
    ensures var v := Value(a, Alpha(e)[d[0]]);
      && v.Some? && v.value.0 == d[0] && Readable(d[1..], v.value.1, e)
      && Settled(d[1..], v.value.1, e) == Settled(d, a, e)
  {
    hide Alpha;
    AlphaAt(e, d[0]);
    assert d == [d[0]] + d[1..];
    assert (forall k :: 0 <= k < |d| ==> d[k] < 62) <==> d[0] < 62 && forall k :: 0 <= k < |d[1..]| ==> d[1..][k] < 62;
  }

  lemma {:induction false} ReadsOn(d: seq<Digit>, a: Alphabet, e: Alphabet, t: string)
    requires Readable(d, a, e)
    ensures ReadDigits(Chars(d, e) + t, a) == Prepend(d, ReadDigits(t, Settled(d, a, e)))
    decreases |d|
  {
    hide Alpha, Value, Readable, Settled;
    var s := Chars(d, e) + t;
    if d == [] {
      assert s == t;
      SettledNone(a, e);
      PrependNone(ReadDigits(t, a));
    } else {
      SettledCons(d, a, e);
      ValueOfAlpha(a, e, d[0]);
      assert s[0] == Alpha(e)[d[0]] && s[1..] == Chars(d[1..], e) + t;
      ReadsOn(d[1..], Value(a, s[0]).value.1, e, t);
      PrependTwice(d, ReadDigits(t, Settled(d, a, e)));
    }
  }

  lemma PrependTwice(d: seq<Digit>, r: Option<(seq<Digit>, string)>)
    requires d != []
    ensures Prepend([d[0]], Prepend(d[1..], r)) == Prepend(d, r)
  {
    if r.Some? { assert [d[0]] + (d[1..] + r.value.0) == d + r.value.0; }
  }

  lemma PrependNone(r: Option<(seq<Digit>, string)>)
    ensures Prepend([], r) == r
  {
    if r.Some? { assert [] + r.value.0 == r.value.0; }
  }

  lemma SettledNone(a: Alphabet, e: Alphabet)
    ensures Settled([], a, e) == a
  {}

  /** Digits of two alphabets in one text are refused, with detection as well, when each part has a digit that only its
      own alphabet has. */
  lemma MixedIsRefused(d: seq<Digit>, x: seq<Digit>, a: Alphabet, e: Alphabet, f: Alphabet, b: Behavior)
    requires (e == URL_SAFE) != (f == URL_SAFE)
    requires (exists k :: 0 <= k < |d| && d[k] >= 62) && exists k :: 0 <= k < |x| && x[k] >= 62
    ensures Decode(Chars(d, e) + Chars(x, f), a, b).Failure?
  {
    hide Chars, ReadDigits;
    if Readable(d, a, e) {
      ReadsOn(d, a, e, Chars(x, f));
      ReadsChars(x, Settled(d, a, e), f, "");
      assert Chars(x, f) + "" == Chars(x, f);
    } else {
      UnreadableStays(d, a, e, Chars(x, f));
    }
  }

  lemma {:induction false} UnreadableStays(d: seq<Digit>, a: Alphabet, e: Alphabet, t: string)
    requires !Readable(d, a, e)
    ensures ReadDigits(Chars(d, e) + t, a).None?
    decreases |d|
  {
    hide Alpha, Value;
    var s := Chars(d, e) + t;
    ValueOfAlpha(a, e, d[0]);
    assert s[0] == Alpha(e)[d[0]] && s[1..] == Chars(d[1..], e) + t;
    if d[0] < 62 {
      assert d == [d[0]] + d[1..];
      UnreadableStays(d[1..], a, e, t);
    }
  }

  lemma {:induction false} NoDigits(d: seq<Digit>, a: Alphabet, e: Alphabet, c: char, t: string)
    requires c != '=' && c !in Alpha(STANDARD) && c !in Alpha(URL_SAFE)
    ensures ReadDigits(Chars(d, e) + ([c] + t), a).None?
    decreases |d|
  {
    var s := Chars(d, e) + ([c] + t);
    if d == [] {
      assert s == [c] + t;
      if Value(a, c).Some? { ValueInAlpha(a, c); }
    } else {
      hide Alpha, Value;
      assert s[1..] == Chars(d[1..], e) + ([c] + t);
      var v := Value(a, s[0]);
      ValueOfAlpha(a, e, d[0]);
      if v.Some? { NoDigits(d[1..], v.value.1, e, c, t); }
    }
  }

  lemma ValueInAlpha(a: Alphabet, c: char)
    requires Value(a, c).Some?
    ensures c in Alpha(STANDARD) || c in Alpha(URL_SAFE)
  {
    hide Alpha;
    var v := Value(a, c).value.0;
    AlphaAt(STANDARD, v);
    AlphaAt(URL_SAFE, v);
    assert c == Alpha(STANDARD)[v] || c == Alpha(URL_SAFE)[v];
  }

  /** The digits of encoded text: the bytes as one number, the missing bits zero. */
  lemma EncodedNumber(x: seq<Byte>)
    ensures DigitNumber(Unpack(x)) == ShiftUp(ByteNumber(x), |Unpack(x)|)
  {
    hide DigitNumber, ByteNumber, Pack, Unpack, ShiftUp;
    PackUnpack(x);
    PackNumber(Unpack(x));
    SpareAreZero(x);
  }

  lemma {:induction false} SpareAreZero(x: seq<Byte>)
    ensures SpareValue(Unpack(x)) == 0
    decreases |x|
  {
    hide Digit0, Digit1, Digit2, Digit3;
    if |x| == 1 {
      LastDigits(x[0]);
    } else if |x| == 2 {
      LastDigits(x[1]);
    } else if |x| >= 3 {
      SpareAreZero(x[3..]);
    }
  }

  lemma LastDigits(x: Byte)
    ensures Digit1(x, 0) as int % 16 == 0 && Digit2(x, 0) as int % 4 == 0
  {}

  /** Decoding yields the whole bytes of the number that the digits before the padding write. */
  lemma DecodedNumber(s: string, a: Alphabet, b: Behavior)
    requires Decode(s, a, b).Success?
    ensures var d, x := ReadDigits(s, a).value.0, Decode(s, a, b).value;
      ByteNumber(x) == ShiftDown(DigitNumber(d), |d|) && |x| == 6 * |d| / 8 && |x| <= MaxDecodeSize(|s|)
  {
    hide DigitNumber, ByteNumber, Pack, ShiftUp, ShiftDown, SpareValue;
    var d := ReadDigits(s, a).value.0;
    PackNumber(d);
    SpareBound(d, ByteNumber(Pack(d)));
    PackLength(d);
    DigitsFit(s, a);
  }

  lemma {:induction false} DigitsFit(s: string, a: Alphabet)
    requires ReadDigits(s, a).Some?
    ensures |ReadDigits(s, a).value.0| <= |s|
    decreases |s|
  {
    hide Value;
    if s != "" && s[0] != '=' { DigitsFit(s[1..], Value(a, s[0]).value.1); }
  }

  // ---------- the loops ----------

  method EncodeBytes(x: seq<Byte>, alphabet: Alphabet) returns (out: string)
    ensures out == Encode(x, alphabet)
  {
    hide Alpha, Digit0, Digit1, Digit2, Digit3, Encode;
    EncodeNone(alphabet);
    assert x[0..] == x;
    var alpha := Alpha(alphabet);
    out := "";
    var i := 0;
    while i < |x|
      invariant i <= |x| && |alpha| == 64
      invariant Encode(x, alphabet) == out + Encode(x[i..], alphabet)
    {
      ghost var rest, was := x[i..], out;
      var i0 := x[i];
      i := i + 1;
      out := out + [alpha[Digit0(i0)]];
      var i1: Byte;
      if i < |x| {
        i1 := x[i];
        i := i + 1;
        out := out + [alpha[Digit1(i0, i1)]];
      } else {
        out := out + [alpha[Digit1(i0, 0)]] + ['='] + ['='];
        EncodeOne(rest, alphabet);
        break;
      }
      var i2: Byte;
      if i < |x| {
        i2 := x[i];
        i := i + 1;
        out := out + [alpha[Digit2(i1, i2)]];
      } else {
        out := out + [alpha[Digit2(i1, 0)]] + ['='];
        EncodeTwo(rest, alphabet);
        break;
      }
      out := out + [alpha[Digit3(i2)]];
      EncodeGroup(rest, alphabet);
      assert rest[3..] == x[i..];
    }
    assert out + "" == out && (i == |x| ==> x[i..] == []);
  }

  lemma CharsCons(v: Digit, d: seq<Digit>, e: Alphabet)
    ensures Chars([v] + d, e) == [Alpha(e)[v]] + Chars(d, e)
  {
    hide Alpha;
    assert ([v] + d)[1..] == d;
  }

  lemma EncodeNone(e: Alphabet)
    ensures Encode([], e) == ""
  {}

  lemma EncodeOne(x: seq<Byte>, e: Alphabet)
    requires |x| == 1
    ensures Encode(x, e) == [Alpha(e)[Digit0(x[0])], Alpha(e)[Digit1(x[0], 0)]] + "=="
  {
    hide Alpha, Digit0, Digit1;
    CharsCons(Digit1(x[0], 0), [], e);
    CharsCons(Digit0(x[0]), [Digit1(x[0], 0)], e);
    assert Unpack(x) == [Digit0(x[0])] + ([Digit1(x[0], 0)] + []);
  }

  lemma EncodeTwo(x: seq<Byte>, e: Alphabet)
    requires |x| == 2
    ensures Encode(x, e) ==
      [Alpha(e)[Digit0(x[0])], Alpha(e)[Digit1(x[0], x[1])], Alpha(e)[Digit2(x[1], 0)]] + "="
  {
    hide Alpha, Digit0, Digit1, Digit2;
    var b, c := Digit1(x[0], x[1]), Digit2(x[1], 0);
    CharsCons(c, [], e);
    CharsCons(b, [c], e);
    CharsCons(Digit0(x[0]), [b, c], e);
    assert Unpack(x) == [Digit0(x[0])] + [b, c] && [b, c] == [b] + [c] && [c] == [c] + [];
  }

  lemma FourThen(a: char, b: char, c: char, d: char, t: string, p: string)
    ensures [a] + ([b] + ([c] + ([d] + t))) + p == [a, b, c, d] + (t + p)
  {}

  lemma EncodeGroup(x: seq<Byte>, e: Alphabet)
    requires |x| >= 3
    ensures Encode(x, e) ==
      [Alpha(e)[Digit0(x[0])], Alpha(e)[Digit1(x[0], x[1])], Alpha(e)[Digit2(x[1], x[2])], Alpha(e)[Digit3(x[2])]]
        + Encode(x[3..], e)
  {
    hide Alpha, Digit0, Digit1, Digit2, Digit3, Chars, Unpack;
    var a, b, c, d := Digit0(x[0]), Digit1(x[0], x[1]), Digit2(x[1], x[2]), Digit3(x[2]);
    var rest := Unpack(x[3..]);
    UnpackGroup(x);
    FourChars(a, b, c, d, rest, e);
    FourThen(Alpha(e)[a], Alpha(e)[b], Alpha(e)[c], Alpha(e)[d], Chars(rest, e), Padding(|x|));
  }

  lemma FourChars(a: Digit, b: Digit, c: Digit, d: Digit, rest: seq<Digit>, e: Alphabet)
    ensures Chars([a, b, c, d] + rest, e) ==
      [Alpha(e)[a]] + ([Alpha(e)[b]] + ([Alpha(e)[c]] + ([Alpha(e)[d]] + Chars(rest, e))))
  {
    hide Alpha, Chars;
    CharsCons(d, rest, e);
    CharsCons(c, [d] + rest, e);
    CharsCons(b, [c] + ([d] + rest), e);
    CharsCons(a, [b] + ([c] + ([d] + rest)), e);
    assert [a, b, c, d] + rest == [a] + ([b] + ([c] + ([d] + rest)));
  }

  /** The state of a decoding loop that has read `d`: what is left to read, and the spare bits. */
  ghost predicate Decoding(s: string, a: Alphabet, d: seq<Digit>, rest: string, alphabet: Alphabet, last: Digit, bits: nat) {
    && ReadDigits(s, a) == Prepend(d, ReadDigits(rest, alphabet))
    && LeadingDigits(s, a) == d + LeadingDigits(rest, alphabet)
    && bits == SpareBits(|d|)
    && (d != [] ==> last == d[|d| - 1])
  }

  lemma ReadOne(rest: string, a: Alphabet)
    requires rest != ""
    ensures rest[0] == '=' ==> ReadDigits(rest, a) == Some(([], rest[1..])) && LeadingDigits(rest, a) == []
    ensures rest[0] != '=' && Value(a, rest[0]).None? ==> ReadDigits(rest, a).None? && LeadingDigits(rest, a) == []
    ensures rest[0] != '=' && Value(a, rest[0]).Some? ==>
      var v := Value(a, rest[0]).value;
      && ReadDigits(rest, a) == Prepend([v.0], ReadDigits(rest[1..], v.1))
      && LeadingDigits(rest, a) == [v.0] + LeadingDigits(rest[1..], v.1)
  {
    hide Value;
  }

  lemma PrependSnoc(d: seq<Digit>, x: Digit, r: Option<(seq<Digit>, string)>, l: seq<Digit>)
    ensures Prepend(d, Prepend([x], r)) == Prepend(d + [x], r) && d + ([x] + l) == d + [x] + l
  {
    if r.Some? { assert d + ([x] + r.value.0) == d + [x] + r.value.0; }
  }

  /** One character more. */
  lemma DecodingStep(s: string, a: Alphabet, d: seq<Digit>, rest: string, alphabet: Alphabet, last: Digit, bits: nat)
    requires Decoding(s, a, d, rest, alphabet, last, bits) && rest != ""
    ensures rest[0] == '=' ==> ReadDigits(s, a) == Some((d, rest[1..]))
    ensures rest[0] != '=' && Value(alphabet, rest[0]).None? ==> ReadDigits(s, a).None?
    ensures rest[0] == '=' || Value(alphabet, rest[0]).None? ==> LeadingDigits(s, a) == d
    ensures rest[0] != '=' && Value(alphabet, rest[0]).Some? ==>
      var v := Value(alphabet, rest[0]).value;
      && (bits == 0 || bits == 2 || bits == 4 || bits == 6)
      && Decoding(s, a, d + [v.0], rest[1..], v.1, v.0, if bits + 6 >= 8 then bits - 2 else bits + 6)
      && Pack(d + [v.0]) == if bits + 6 >= 8 then Pack(d) + [Completed(last, v.0, bits)] else Pack(d)
  {
    hide Value, Pack, Completed, ReadDigits, LeadingDigits;
    ReadOne(rest, alphabet);
    assert d + [] == d;
    if rest[0] != '=' && Value(alphabet, rest[0]).Some? {
      var v := Value(alphabet, rest[0]).value;
      PackSnoc(d, last, v.0);
      assert Pack(d) + [] == Pack(d);
      PrependSnoc(d, v.0, ReadDigits(rest[1..], v.1), LeadingDigits(rest[1..], v.1));
    }
  }

  lemma DecodingEnd(s: string, a: Alphabet, d: seq<Digit>, alphabet: Alphabet, last: Digit, bits: nat)
    requires Decoding(s, a, d, "", alphabet, last, bits)
    ensures ReadDigits(s, a) == Some((d, "")) && LeadingDigits(s, a) == d
  {
    assert d + [] == d;
  }

  /** Only padding may follow the first padding character. */
  method CheckPadding(s: string, from: nat) returns (ok: bool)
    requires from <= |s|
    ensures ok <==> AllPadding(s[from..])
  {
    var i := from;
    while i < |s|
      invariant from <= i <= |s| && forall k :: from <= k < i ==> s[k] == '='
    {
      var c := s[i];
      i := i + 1;
      if c != '=' {
        assert s[from..][i - 1 - from] == c;
        return false;
      }
    }
    return true;
  }

  method DecodeText(s: string, a: Alphabet, behavior: Behavior) returns (result: Result<seq<Byte>>)
    ensures result == Decode(s, a, behavior)
  {
    hide Decoding, ReadDigits, LeadingDigits, Pack, Value, Completed, SpareBits;
    var alphabet := a;
    var last: Digit, bits: nat, i, out: seq<Byte> := 0, 0, 0, [];
    ghost var d: seq<Digit> := [];
    DecodingStart(s, a);
    while i < |s|
      invariant i <= |s| && out == Pack(d)
      invariant Decoding(s, a, d, s[i..], alphabet, last, bits)
    {
      var c := s[i];
      DecodingStep(s, a, d, s[i..], alphabet, last, bits);
      assert s[i..][1..] == s[i + 1..];
      i := i + 1;
      if c == '=' {
        break;
      }
      var v := Value(alphabet, c);
      if v.None? { return Failure; }
      var part := v.value.0;
      alphabet := v.value.1;
      if bits + 6 >= 8 {
        out := out + [Completed(last, part, bits)];
        bits := bits - 2;
      } else {
        bits := bits + 6;
      }
      last := part;
      d := d + [part];
    }
    assert ReadDigits(s, a) == Some((d, s[i..])) by {
      if i == |s| {
        assert s[i..] == "";
        if Decoding(s, a, d, "", alphabet, last, bits) { DecodingEnd(s, a, d, alphabet, last, bits); }
      }
    }
    if behavior != LOOSE {
      var ok := CheckPadding(s, i);
      if !ok { return Failure; }
    }
    return Success(out);
  }

  lemma DecodingStart(s: string, a: Alphabet)
    ensures Decoding(s, a, [], s, a, 0, 0) && Pack([]) == [] && s[0..] == s
  {
    var r := ReadDigits(s, a);
    if r.Some? { assert [] + r.value.0 == r.value.0; }
  }

  // ---------- decoding in place ----------

  /** The text with its front overwritten by bytes. */
  function Overwritten(s: seq<char>, out: seq<Byte>): (r: seq<char>)
    requires |out| <= |s|
    ensures |r| == |s|
  {
    seq(|s|, k requires 0 <= k < |s| => if k < |out| then out[k] as char else s[k])
  }

  /** The buffer holds the decoded bytes so far, all of them behind position `i`. */
  ghost predicate HalfDecoded(buf: seq<char>, s: seq<char>, out: seq<Byte>, i: nat) {
    |out| <= i <= |s| && buf == Overwritten(s, out)
  }

  lemma LaterHalf(buf: seq<char>, s: seq<char>, out: seq<Byte>, i: nat)
    requires HalfDecoded(buf, s, out, i) && i < |s|
    ensures HalfDecoded(buf, s, out, i + 1) && i < |buf| && buf[i] == s[i]
  {}

  /** Writing the next byte leaves everything behind it as it was. */
  lemma WriteBehind(buf: seq<char>, s: seq<char>, out: seq<Byte>, i: nat, b: Byte)
    requires HalfDecoded(buf, s, out, i) && |out| < i
    ensures |out| < |buf| && HalfDecoded(buf[|out| := b as char], s, out + [b], i)
  {}

  /** What has not been read is still there. */
  lemma StillThere(buf: seq<char>, s: seq<char>, out: seq<Byte>, i: nat, size: nat)
    requires HalfDecoded(buf, s, out, i) && i <= size <= |s|
    ensures |buf| == |s| && buf[i..size] == s[..size][i..] && |out| <= |s| && buf == Overwritten(s, out)
  {}

  /** The write position stays behind the read position. */
  lemma WriteIsBehind(d: seq<Digit>, i: nat)
    requires |d| < i
    ensures |Pack(d)| < i
  {
    PackLength(d);
  }

  method CheckPaddingIn(str: array<char>, from: nat, size: nat) returns (ok: bool)
    requires from <= size <= str.Length
    ensures ok <==> AllPadding(str[from..size])
  {
    var i := from;
    while i < size
      invariant from <= i <= size && forall k :: from <= k < i ==> str[k] == '='
    {
      var c := str[i];
      i := i + 1;
      if c != '=' {
        assert str[from..size][i - 1 - from] == c;
        return false;
      }
    }
    return true;
  }

  /** Reads and writes the same buffer. The result is that of decoding an untouched copy: a byte is
      written only where the text has been read already. Accepted or not, the front of the buffer is then
      overwritten by the bytes of the leading digits, and nothing else is. */
  method DecodeInplace(str: array<char>, size: nat, a: Alphabet, behavior: Behavior) returns (result: Result<nat>)
    requires size <= str.Length
    modifies str
    ensures var s := old(str[..size]);
      var out := Pack(LeadingDigits(s, a));
      && |out| <= size && str[..] == Overwritten(old(str[..]), out)
      && Decode(s, a, behavior) == (if result.Success? then Success(out) else Failure)
      && (result.Success? ==> result.value == |out|)
  {
    hide Decoding, ReadDigits, LeadingDigits, Pack, Value, Completed, SpareBits, HalfDecoded, Overwritten, AllPadding;
    ghost var all, s := str[..], str[..size];
    var alphabet := a;
    var last: Digit, bits: nat, i, o := 0, 0, 0, 0;
    ghost var d: seq<Digit> := [];
    DecodingStart(s, a);
    HalfStart(all);
    while i < size
      invariant i <= size && |d| == i && o == |Pack(d)|
      invariant Decoding(s, a, d, s[i..], alphabet, last, bits)
      invariant HalfDecoded(str[..], all, Pack(d), i)
    {
      ghost var was := str[..];
      var c := str[i];
      LaterHalf(was, all, Pack(d), i);
      DecodingStep(s, a, d, s[i..], alphabet, last, bits);
      assert s[i..][1..] == s[i + 1..];
      i := i + 1;
      if c == '=' {
        break;
      }
      var v := Value(alphabet, c);
      if v.None? {
        StillThere(was, all, Pack(d), i, size);
        WriteIsBehind(d, i);
        return Failure;
      }
      var part := v.value.0;
      alphabet := v.value.1;
      if bits + 6 >= 8 {
        WriteIsBehind(d, i);
        WriteBehind(was, all, Pack(d), i, Completed(last, part, bits));
        str[o] := Completed(last, part, bits) as char;
        assert str[..] == was[o := Completed(last, part, bits) as char];
        o := o + 1;
        bits := bits - 2;
      } else {
        bits := bits + 6;
      }
      last := part;
      d := d + [part];
    }
    assert ReadDigits(s, a) == Some((d, s[i..])) && LeadingDigits(s, a) == d by {
      if i == size {
        assert s[i..] == "";
        if Decoding(s, a, d, "", alphabet, last, bits) { DecodingEnd(s, a, d, alphabet, last, bits); }
      }
    }
    StillThere(str[..], all, Pack(d), i, size);
    WriteIsBehind(d, i + 1);
    assert str[..][i..size] == str[i..size];
    if behavior != LOOSE {
      var ok := CheckPaddingIn(str, i, size);
      if !ok { return Failure; }
    }
    return Success(o);
  }

  lemma HalfStart(s: seq<char>)
    ensures HalfDecoded(s, s, [], 0)
  {}
}
