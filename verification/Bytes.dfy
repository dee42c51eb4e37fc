/** Hexadecimal, UUID text (section 4 of RFC 9562), big-endian integers and base64url text
    (section 5 of RFC 4648). */
module Bytes {

  type Byte = x: int | 0 <= x < 256

  // -------------------------------------------------------------------------
  // Hexadecimal
  // -------------------------------------------------------------------------

  function HexDigit(n: int): (c: char)
    requires 0 <= n < 16
  {
    if n < 10 then ('0' as int + n) as char else ('a' as int + n - 10) as char
  }

  predicate IsHex(c: char) {
    '0' <= c <= '9' || 'a' <= c <= 'f' || 'A' <= c <= 'F'
  }

  function HexValue(c: char): (n: int)
    requires IsHex(c)
    ensures 0 <= n < 16
  {
    if '0' <= c <= '9' then c as int - '0' as int
    else if 'a' <= c <= 'f' then c as int - 'a' as int + 10
    else c as int - 'A' as int + 10
  }

  function ToHex(b: seq<Byte>): (s: string)
    ensures |s| == 2 * |b| && forall i :: 0 <= i < |s| ==> IsHex(s[i]) && !('A' <= s[i] <= 'F')
  {
    if b == [] then "" else [HexDigit(b[0] / 16), HexDigit(b[0] % 16)] + ToHex(b[1..])
  }

  function FromHex(s: string): (b: seq<Byte>)
    requires |s| % 2 == 0 && forall i :: 0 <= i < |s| ==> IsHex(s[i])
    ensures |b| == |s| / 2
  {
    if s == "" then [] else [16 * HexValue(s[0]) + HexValue(s[1])] + FromHex(s[2..])
  }

  lemma {:induction false} HexRoundTrip(b: seq<Byte>)
    ensures FromHex(ToHex(b)) == b
  {
    if b != [] {
      HexRoundTrip(b[1..]);
      assert ToHex(b)[2..] == ToHex(b[1..]);
    }
  }

  predicate LowerHex(s: string) {
    forall i :: 0 <= i < |s| ==> IsHex(s[i]) && !('A' <= s[i] <= 'F')
  }

  lemma DigitBack(c: char, d: char)
    requires IsHex(c) && IsHex(d) && !('A' <= c <= 'F') && !('A' <= d <= 'F')
    ensures var n := 16 * HexValue(c) + HexValue(d); n < 256 && HexDigit(n / 16) == c && HexDigit(n % 16) == d
  {
  }

  lemma {:induction false} HexBack(s: string)
    requires |s| % 2 == 0 && LowerHex(s)
    ensures ToHex(FromHex(s)) == s
  {
    if s != "" {
      var b, rest := FromHex(s), FromHex(s[2..]);
      HexBack(s[2..]);
      DigitBack(s[0], s[1]);
      assert b[1..] == rest;
      assert s == [s[0], s[1]] + s[2..];
    }
  }

  // -------------------------------------------------------------------------
  // UUIDs
  // -------------------------------------------------------------------------

  function WithoutHyphens(s: string): (r: string)
    ensures '-' !in r
  {
    if s == "" then "" else (if s[0] == '-' then "" else [s[0]]) + WithoutHyphens(s[1..])
  }

  predicate IsUuid(s: string) {
    var hex := WithoutHyphens(s);
    |hex| == 32 && forall i :: 0 <= i < |hex| ==> IsHex(hex[i])
  }

  function UuidToBytes(s: string): (b: seq<Byte>)
    requires IsUuid(s)
    ensures |b| == 16
  {
    FromHex(WithoutHyphens(s))
  }

  function Hyphenate(hex: string): (s: string)
    requires |hex| == 32
  {
    hex[..8] + "-" + hex[8..12] + "-" + hex[12..16] + "-" + hex[16..20] + "-" + hex[20..]
  }

  function BytesToUuid(b: seq<Byte>): (s: string)
    requires |b| == 16
  {
    Hyphenate(ToHex(b))
  }

  /** Lower case, hyphens after 8, 12, 16 and 20 digits. */
  ghost predicate IsCanonicalUuid(s: string) {
    exists hex: string :: |hex| == 32 && LowerHex(hex) && s == Hyphenate(hex)
  }

  lemma {:induction false} WithoutHyphensConcat(a: string, b: string)
    ensures WithoutHyphens(a + b) == WithoutHyphens(a) + WithoutHyphens(b)
  {
    if a == "" {
      assert a + b == b;
    } else {
      var t := a + b;
      assert t[1..] == a[1..] + b && t[0] == a[0];
      WithoutHyphensConcat(a[1..], b);
      var head, x, y := if a[0] == '-' then "" else [a[0]], WithoutHyphens(a[1..]), WithoutHyphens(b);
      assert head + (x + y) == (head + x) + y;
    }
  }

  lemma {:induction false} NoHyphens(s: string)
    requires '-' !in s
    ensures WithoutHyphens(s) == s
  {
    if s != "" {
      assert s[0] in s;
      NoHyphens(s[1..]);
    }
  }

  lemma HyphenDropped(b: string)
    ensures WithoutHyphens("-" + b) == WithoutHyphens(b)
  {
    var s := "-" + b;
    assert s[0] == '-' && s[1..] == b;
  }

  lemma HyphenThen(a: string, b: string)
    requires '-' !in a
    ensures WithoutHyphens(a + ("-" + b)) == a + WithoutHyphens(b)
  {
    WithoutHyphensConcat(a, "-" + b);
    NoHyphens(a);
    HyphenDropped(b);
  }

  lemma HyphenateUndone(hex: string)
    requires |hex| == 32 && '-' !in hex
    ensures WithoutHyphens(Hyphenate(hex)) == hex
  {
    var a, b, c, d, e := hex[..8], hex[8..12], hex[12..16], hex[16..20], hex[20..];
    FiveParts(a, b, c, d, e);
    assert Hyphenate(hex) == a + ("-" + (b + ("-" + (c + ("-" + (d + ("-" + e)))))));
    assert hex == a + (b + (c + (d + e)));
  }

  lemma FiveParts(a: string, b: string, c: string, d: string, e: string)
    requires '-' !in a && '-' !in b && '-' !in c && '-' !in d && '-' !in e
    ensures WithoutHyphens(a + ("-" + (b + ("-" + (c + ("-" + (d + ("-" + e)))))))) == a + (b + (c + (d + e)))
  {
    var de := d + ("-" + e);
    var cde := c + ("-" + de);
    var bcde := b + ("-" + cde);
    HyphenThen(d, e);
    HyphenThen(c, de);
    HyphenThen(b, cde);
    HyphenThen(a, bcde);
    NoHyphens(e);
  }

  /** Bytes survive the text form. */
  lemma UuidRoundTrip(b: seq<Byte>)
    requires |b| == 16
    ensures IsUuid(BytesToUuid(b)) && UuidToBytes(BytesToUuid(b)) == b
    ensures IsCanonicalUuid(BytesToUuid(b))
  {
    var hex := ToHex(b);
    HyphenateUndone(hex);
    HexRoundTrip(b);
  }

  /** Text survives the bytes exactly when it was canonical. */
  lemma UuidTextRoundTripIff(s: string)
    requires IsUuid(s)
    ensures BytesToUuid(UuidToBytes(s)) == s <==> IsCanonicalUuid(s)
  {
    if IsCanonicalUuid(s) {
      var hex: string :| |hex| == 32 && LowerHex(hex) && s == Hyphenate(hex);
      HyphenateUndone(hex);
      HexBack(hex);
    }
    UuidRoundTrip(UuidToBytes(s));
  }

  // -------------------------------------------------------------------------
  // Big-endian integers
  // -------------------------------------------------------------------------

  const U32_LIMIT := 0x1_0000_0000

  function U32Bytes(n: int): (b: seq<Byte>)
    requires 0 <= n < U32_LIMIT
    ensures |b| == 4
  {
    [n / 0x100_0000, n / 0x1_0000 % 256, n / 256 % 256, n % 256]
  }

  function ReadU32(b: seq<Byte>): (n: int)
    requires |b| == 4
    ensures 0 <= n < U32_LIMIT
  {
    var w: int, x: int, y: int, z: int := b[0], b[1], b[2], b[3];
    ((w * 256 + x) * 256 + y) * 256 + z
  }

  /** Four bytes, the most significant one first. */
  function HighFirst(w: int, x: int, y: int, z: int): (n: int) {
    w * 0x100_0000 + x * 0x1_0000 + y * 0x100 + z
  }

  lemma FourBytes(n: int)
    requires 0 <= n < U32_LIMIT
    ensures HighFirst(n / 0x100_0000, n / 0x1_0000 % 256, n / 256 % 256, n % 256) == n
  {
    var a := n / 256;
    var c := a / 256;
    assert n == a * 256 + n % 256 && a == c * 256 + a % 256 && c == c / 256 * 256 + c % 256;
    assert n / 0x1_0000 == c && n / 0x100_0000 == c / 256;
  }

  lemma BigEndian(n: int)
    requires 0 <= n < U32_LIMIT
    ensures var b := U32Bytes(n); HighFirst(b[0], b[1], b[2], b[3]) == n
  {
    FourBytes(n);
  }

  /** Two digits for each byte, the high one first. */
  lemma {:induction false} HexAt(s: string, i: nat)
    requires |s| % 2 == 0 && (forall k :: 0 <= k < |s| ==> IsHex(s[k])) && 2 * i + 1 < |s|
    ensures FromHex(s)[i] == 16 * HexValue(s[2 * i]) + HexValue(s[2 * i + 1])
    decreases i
  {
    if i > 0 {
      HexAt(s[2..], i - 1);
    }
  }

  lemma U32RoundTrip(n: int)
    requires 0 <= n < U32_LIMIT
    ensures ReadU32(U32Bytes(n)) == n
  {
    FourBytes(n);
  }

  lemma U32Back(b: seq<Byte>)
    requires |b| == 4
    ensures U32Bytes(ReadU32(b)) == b
  {
    var n := ReadU32(b);
    var w: int, x: int, y: int, z: int := b[0], b[1], b[2], b[3];
    var hi := (w * 256 + x) * 256 + y;
    assert n == hi * 256 + z && n / 256 == hi && n % 256 == z;
    assert hi / 256 == w * 256 + x && hi % 256 == y;
    assert n / 0x1_0000 == hi / 256;
    assert n / 0x100_0000 == (hi / 256) / 256;
  }

  // -------------------------------------------------------------------------
  // base64url
  // -------------------------------------------------------------------------

  type Sextet = x: int | 0 <= x < 64

  function CharOf(n: Sextet): (c: char) {
    if n < 26 then ('A' as int + n) as char
    else if n < 52 then ('a' as int + n - 26) as char
    else if n < 62 then ('0' as int + n - 52) as char
    else if n == 62 then '-' else '_'
  }

  predicate InAlphabet(c: char) {
    'A' <= c <= 'Z' || 'a' <= c <= 'z' || '0' <= c <= '9' || c == '-' || c == '_'
  }

  function ValueOf(c: char): (n: Sextet)
    requires InAlphabet(c)
  {
    if 'A' <= c <= 'Z' then c as int - 'A' as int
    else if 'a' <= c <= 'z' then c as int - 'a' as int + 26
    else if '0' <= c <= '9' then c as int - '0' as int + 52
    else if c == '-' then 62 else 63
  }

  /** Three bytes are four characters; one or two bytes left are two or three, unpadded. */
  function Base64Url(b: seq<Byte>): (s: string)
    ensures forall i :: 0 <= i < |s| ==> InAlphabet(s[i])
  {
    if |b| == 0 then ""
    else if |b| == 1 then [CharOf(b[0] / 4), CharOf(b[0] % 4 * 16)]
    else if |b| == 2 then [CharOf(b[0] / 4), CharOf(b[0] % 4 * 16 + b[1] / 16), CharOf(b[1] % 16 * 4)]
    else
      [CharOf(b[0] / 4), CharOf(b[0] % 4 * 16 + b[1] / 16), CharOf(b[1] % 16 * 4 + b[2] / 64), CharOf(b[2] % 64)]
      + Base64Url(b[3..])
  }

  /** Characters outside the alphabet are skipped; a single leftover character is dropped. */
  function FromBase64Url(s: string): (b: seq<Byte>) {
    Unpack(Sextets(s))
  }

  function Sextets(s: string): (r: seq<Sextet>) {
    if s == "" then [] else (if InAlphabet(s[0]) then [ValueOf(s[0])] else []) + Sextets(s[1..])
  }

  /** The bytes across the first, second and third boundary of a group. */
  function Byte0(p: int, q: int): (r: int) { p * 4 + q / 16 }
  function Byte1(q: int, r: int): (b: int) { q % 16 * 16 + r / 4 }
  function Byte2(r: int, s: int): (b: int) { r % 4 * 64 + s }

  function Unpack(v: seq<Sextet>): (b: seq<Byte>) {
    if |v| < 2 then []
    else if |v| == 2 then [Byte0(v[0], v[1])]
    else if |v| == 3 then [Byte0(v[0], v[1]), Byte1(v[1], v[2])]
    else [Byte0(v[0], v[1]), Byte1(v[1], v[2]), Byte2(v[2], v[3])] + Unpack(v[4..])
  }

  lemma CharValue(n: Sextet)
    ensures InAlphabet(CharOf(n)) && ValueOf(CharOf(n)) == n
  {
  }

  /** The characters one group of up to three bytes becomes. */
  lemma GroupOfThree(x: Byte, y: Byte, z: Byte)
    ensures Unpack([x / 4, x % 4 * 16 + y / 16, y % 16 * 4 + z / 64, z % 64]) == [x, y, z]
    ensures Unpack([x / 4, x % 4 * 16 + y / 16, y % 16 * 4]) == [x, y]
    ensures Unpack([x / 4, x % 4 * 16]) == [x]
  {
    var q := [x / 4, x % 4 * 16 + y / 16, y % 16 * 4 + z / 64, z % 64];
    assert q[4..] == [];
    assert (x % 4 * 16 + y / 16) / 16 == x % 4 && (x % 4 * 16 + y / 16) % 16 == y / 16;
    assert (y % 16 * 4 + z / 64) / 4 == y % 16 && (y % 16 * 4 + z / 64) % 4 == z / 64;
  }

  lemma {:induction false} SextetsOfChars(v: seq<Sextet>, rest: string)
    ensures Sextets(Chars(v) + rest) == v + Sextets(rest)
    decreases |v|
  {
    if v == [] {
      assert Chars(v) + rest == rest;
    } else {
      CharValue(v[0]);
      SextetsOfChars(v[1..], rest);
      assert (Chars(v) + rest)[1..] == Chars(v[1..]) + rest;
    }
  }

  lemma UnpackGroup(v: seq<Sextet>, w: seq<Sextet>)
    requires |v| == 4
    ensures Unpack(v + w) == Unpack(v) + Unpack(w)
  {
    assert (v + w)[4..] == w && v[4..] == [];
  }

  function Chars(v: seq<Sextet>): (s: string)
    ensures |s| == |v|
  {
    seq(|v|, i requires 0 <= i < |v| => CharOf(v[i]))
  }

  lemma LastGroup(b: seq<Byte>, v: seq<Sextet>)
    requires Base64Url(b) == Chars(v) && Unpack(v) == b
    ensures FromBase64Url(Base64Url(b)) == b
  {
    SextetsOfChars(v, "");
    assert Chars(v) + "" == Chars(v) && v + Sextets("") == v;
  }

  lemma FullGroup(b: seq<Byte>, v: seq<Sextet>)
    requires |b| >= 3 && |v| == 4 && Base64Url(b) == Chars(v) + Base64Url(b[3..]) && Unpack(v) == b[..3]
    requires FromBase64Url(Base64Url(b[3..])) == b[3..]
    ensures FromBase64Url(Base64Url(b)) == b
  {
    SextetsOfChars(v, Base64Url(b[3..]));
    UnpackGroup(v, Sextets(Base64Url(b[3..])));
    assert b == b[..3] + b[3..];
  }

  lemma {:induction false} Base64RoundTrip(b: seq<Byte>)
    ensures FromBase64Url(Base64Url(b)) == b
    decreases |b|
  {
    if |b| == 0 {
    } else if |b| == 1 {
      GroupOfThree(b[0], 0, 0);
      LastGroup(b, [b[0] / 4, b[0] % 4 * 16]);
    } else if |b| == 2 {
      GroupOfThree(b[0], b[1], 0);
      LastGroup(b, [b[0] / 4, b[0] % 4 * 16 + b[1] / 16, b[1] % 16 * 4]);
    } else {
      Base64RoundTrip(b[3..]);
      GroupOfThree(b[0], b[1], b[2]);
      FullGroup(b, [b[0] / 4, b[0] % 4 * 16 + b[1] / 16, b[1] % 16 * 4 + b[2] / 64, b[2] % 64]);
    }
  }
}
