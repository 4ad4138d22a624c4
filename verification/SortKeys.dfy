/**
  Storage keys: base-16 components, sort keys of scalars and direct-index keys. Text is encoded
  through UTF-8, whose byte order is the order of code points.
 */
module SortKeys {
  import opened Json
  import opened Order

  // ---------------------------------------------------------------- lexicographic order of concatenations

  lemma {:induction false} LessPrefix(p: string, a: string, b: string)
    ensures Less(p + a, p + b) <==> Less(a, b)
  {
    if p == [] {
      assert p + a == a && p + b == b;
    } else {
      assert (p + a)[1..] == p[1..] + a && (p + b)[1..] == p[1..] + b;
      LessPrefix(p[1..], a, b);
    }
  }

  /** `a` is decided below `b` before either ends. */
  predicate Below(a: string, b: string) {
    |a| > 0 && |b| > 0 && (a[0] < b[0] || (a[0] == b[0] && Below(a[1..], b[1..])))
  }

  lemma {:induction false} BelowDecides(a: string, b: string, x: string, y: string)
    requires Below(a, b)
    ensures Less(a + x, b + y)
  {
    assert (a + x)[0] == a[0] && (b + y)[0] == b[0];
    if a[0] == b[0] {
      assert (a + x)[1..] == a[1..] + x && (b + y)[1..] == b[1..] + y;
      BelowDecides(a[1..], b[1..], x, y);
    }
  }

  lemma {:induction false} BelowExtends(p: string, a: string, b: string)
    requires Below(a, b)
    ensures Below(p + a, p + b)
  {
    if p == [] {
      assert p + a == a && p + b == b;
    } else {
      assert (p + a)[1..] == p[1..] + a && (p + b)[1..] == p[1..] + b;
      BelowExtends(p[1..], a, b);
    }
  }

  // ---------------------------------------------------------------- hexadecimal digits

  function Digit(d: nat): char
    requires d < 16
  {
    "0123456789abcdef"[d]
  }

  lemma DigitOrder(d: nat, e: nat)
    requires d < 16 && e < 16
    ensures Digit(d) < Digit(e) <==> d < e
    ensures Digit(d) != '/'
  {
  }

  /** A number in a fixed count of base-16 digits. */
  function Hex(v: nat, width: nat): (s: string)
    ensures |s| == width
  {
    if width == 0 then "" else Hex(v / 16, width - 1) + [Digit(v % 16)]
  }

  function Power16(width: nat): nat {
    if width == 0 then 1 else 16 * Power16(width - 1)
  }

  lemma {:induction false} HexBelow(v: nat, u: nat, width: nat)
    requires v < u < Power16(width)
    ensures Below(Hex(v, width), Hex(u, width))
    decreases width
  {
    if v / 16 < u / 16 {
      HexBelow(v / 16, u / 16, width - 1);
      var a, b := Hex(v / 16, width - 1), Hex(u / 16, width - 1);
      BelowAppend(a, b, [Digit(v % 16)], [Digit(u % 16)]);
    } else {
      DigitOrder(v % 16, u % 16);
      var p := Hex(v / 16, width - 1);
      assert Below([Digit(v % 16)], [Digit(u % 16)]);
      BelowExtends(p, [Digit(v % 16)], [Digit(u % 16)]);
    }
  }

  lemma {:induction false} BelowAppend(a: string, b: string, x: string, y: string)
    requires Below(a, b)
    ensures Below(a + x, b + y)
  {
    if a[0] == b[0] {
      assert (a + x)[1..] == a[1..] + x && (b + y)[1..] == b[1..] + y;
      BelowAppend(a[1..], b[1..], x, y);
    }
  }

  lemma {:induction false} NoSlashInHex(v: nat, width: nat)
    ensures '/' !in Hex(v, width)
    decreases width
  {
    if width > 0 {
      NoSlashInHex(v / 16, width - 1);
      DigitOrder(v % 16, 0);
    }
  }

  // ---------------------------------------------------------------- UTF-8

  /** The bytes of a code point. */
  function Utf8(c: char): (r: seq<nat>)
    ensures 1 <= |r| <= 4 && forall i :: 0 <= i < |r| ==> r[i] < 256
  {
    var n := c as int;
    if n < 0x80 then [n]
    else if n < 0x800 then [0xC0 + n / 64, 0x80 + n % 64]
    else if n < 0x10000 then [0xE0 + n / 4096, 0x80 + n / 64 % 64, 0x80 + n % 64]
    else [0xF0 + n / 262144, 0x80 + n / 4096 % 64, 0x80 + n / 64 % 64, 0x80 + n % 64]
  }

  function HexBytes(bytes: seq<nat>): string {
    if bytes == [] then "" else Hex(bytes[0], 2) + HexBytes(bytes[1..])
  }

  function EncodeChar(c: char): string {
    HexBytes(Utf8(c))
  }

  /** Lower-case base 16 of the UTF-8 bytes. */
  function Encode(s: string): string {
    if s == "" then "" else EncodeChar(s[0]) + Encode(s[1..])
  }

  /** Bytes that differ decide the order of what they encode to. */
  lemma FirstByteDecides(a: seq<nat>, b: seq<nat>)
    requires |a| > 0 && |b| > 0 && a[0] < b[0] < 256
    ensures Below(HexBytes(a), HexBytes(b))
  {
    assert Power16(2) == 256 by { assert Power16(1) == 16 * Power16(0); }
    HexBelow(a[0], b[0], 2);
    BelowAppend(Hex(a[0], 2), Hex(b[0], 2), HexBytes(a[1..]), HexBytes(b[1..]));
  }

  lemma {:induction false} BytesDecide(a: seq<nat>, b: seq<nat>, k: nat)
    requires k < |a| && k < |b| && a[..k] == b[..k] && a[k] < b[k] < 256
    ensures Below(HexBytes(a), HexBytes(b))
    decreases k
  {
    if k == 0 {
      FirstByteDecides(a, b);
    } else {
      assert a[0] == a[..k][0] == b[..k][0] == b[0];
      assert a[1..][..k - 1] == a[..k][1..] && b[1..][..k - 1] == b[..k][1..];
      BytesDecide(a[1..], b[1..], k - 1);
      BelowExtends(Hex(a[0], 2), HexBytes(a[1..]), HexBytes(b[1..]));
    }
  }

  lemma Split64(n: nat, m: nat)
    requires n < m
    ensures n / 64 < m / 64 || (n / 64 == m / 64 && n % 64 < m % 64)
  {
  }

  /** Two numbers of three base-64 digits first differ at a lesser digit. */
  lemma Split4096(n: nat, m: nat)
    requires n < m
    ensures n / 4096 == n / 64 / 64 && m / 4096 == m / 64 / 64
    ensures || n / 4096 < m / 4096
            || (n / 4096 == m / 4096 && n / 64 % 64 < m / 64 % 64)
            || (n / 64 == m / 64 && n % 64 < m % 64)
  {
    Split64(n, m);
    if n / 64 < m / 64 {
      Split64(n / 64, m / 64);
    }
  }

  lemma Utf8Differs3(c: char, d: char) returns (k: nat)
    requires c < d && 0x800 <= c as int && (d as int) < 0x10000
    ensures k < |Utf8(c)| && k < |Utf8(d)| && Utf8(c)[..k] == Utf8(d)[..k] && Utf8(c)[k] < Utf8(d)[k]
  {
    var n, m := c as int, d as int;
    Split4096(n, m);
    k := if n / 4096 < m / 4096 then 0 else if n / 64 < m / 64 then 1 else 2;
  }

  lemma Utf8Differs4(c: char, d: char) returns (k: nat)
    requires c < d && 0x10000 <= c as int
    ensures k < |Utf8(c)| && k < |Utf8(d)| && Utf8(c)[..k] == Utf8(d)[..k] && Utf8(c)[k] < Utf8(d)[k]
  {
    var n, m := c as int, d as int;
    Split4096(n, m);
    assert n / 262144 == n / 4096 / 64 && m / 262144 == m / 4096 / 64;
    if n / 4096 < m / 4096 {
      Split64(n / 4096, m / 4096);
      k := if n / 262144 < m / 262144 then 0 else 1;
    } else {
      k := if n / 64 < m / 64 then 2 else 3;
    }
  }

  /** Where the bytes of two code points first differ, the lesser has the lesser byte. */
  lemma Utf8Differs(c: char, d: char) returns (k: nat)
    requires c < d
    ensures k < |Utf8(c)| && k < |Utf8(d)| && Utf8(c)[..k] == Utf8(d)[..k] && Utf8(c)[k] < Utf8(d)[k]
  {
    var n, m := c as int, d as int;
    if 0x10000 <= n {
      k := Utf8Differs4(c, d);
    } else if 0x800 <= n && m < 0x10000 {
      k := Utf8Differs3(c, d);
    } else {
      k := 0;
      if 0x80 <= n && m < 0x800 {
        Split64(n, m);
        k := if n / 64 < m / 64 then 0 else 1;
      }
    }
  }

  /** Of two code points, the bytes of the lesser are decided below those of the greater. */
  lemma Utf8Order(c: char, d: char)
    requires c < d
    ensures Below(EncodeChar(c), EncodeChar(d))
  {
    var k := Utf8Differs(c, d);
    BytesDecide(Utf8(c), Utf8(d), k);
  }

  /** Strings that differ at once are ordered there, encoded or not. */
  lemma EncodeFirst(s: string, t: string)
    requires s != "" && t != "" && s[0] < t[0]
    ensures Less(s, t) && !Less(t, s)
    ensures Less(Encode(s), Encode(t)) && !Less(Encode(t), Encode(s))
  {
    Utf8Order(s[0], t[0]);
    BelowDecides(EncodeChar(s[0]), EncodeChar(t[0]), Encode(s[1..]), Encode(t[1..]));
    OneWay(Encode(s), Encode(t));
  }

  /** Encoding keeps the order of strings, both ways. */
  lemma {:induction false} EncodeOrder(s: string, t: string)
    ensures Less(Encode(s), Encode(t)) <==> Less(s, t)
  {
    if s == "" || t == "" {
      if t != "" {
        assert |EncodeChar(t[0])| > 0;
      }
    } else if s[0] == t[0] {
      LessPrefix(EncodeChar(s[0]), Encode(s[1..]), Encode(t[1..]));
      EncodeOrder(s[1..], t[1..]);
    } else if s[0] < t[0] {
      EncodeFirst(s, t);
    } else {
      EncodeFirst(t, s);
    }
  }

  lemma EncodeInjective(s: string, t: string)
    requires Encode(s) == Encode(t)
    ensures s == t
  {
    StringOrder();
    EncodeOrder(s, t);
    EncodeOrder(t, s);
  }

  lemma {:induction false} EncodeConcat(s: string, t: string)
    ensures Encode(s + t) == Encode(s) + Encode(t)
  {
    if s == "" {
      assert s + t == t;
    } else {
      assert (s + t)[1..] == s[1..] + t;
      EncodeConcat(s[1..], t);
    }
  }

  /** Encoding keeps prefixes. */
  lemma EncodePrefix(text: string, s: string)
    requires text <= s
    ensures Encode(text) <= Encode(s)
  {
    assert s == text + s[|text|..];
    EncodeConcat(text, s[|text|..]);
  }

  lemma PrefixTail(p: string, q: string)
    requires p != "" && q != ""
    ensures p <= q ==> p[1..] <= q[1..]
  {
  }

  lemma {:induction false} BelowIsNoPrefix(a: string, b: string, x: string, y: string)
    requires Below(a, b) || Below(b, a)
    ensures !(a + x <= b + y)
  {
    assert (a + x)[0] == a[0] && (b + y)[0] == b[0];
    if a[0] == b[0] {
      assert (a + x)[1..] == a[1..] + x && (b + y)[1..] == b[1..] + y;
      BelowIsNoPrefix(a[1..], b[1..], x, y);
      PrefixTail(a + x, b + y);
    }
  }

  /** Encoding reflects prefixes. */
  lemma {:induction false} EncodePrefixBack(text: string, s: string)
    requires Encode(text) <= Encode(s)
    ensures text <= s
  {
    if text != "" {
      assert |EncodeChar(text[0])| > 0;
      if s[0] != text[0] {
        if text[0] < s[0] { Utf8Order(text[0], s[0]); } else { Utf8Order(s[0], text[0]); }
        BelowIsNoPrefix(EncodeChar(text[0]), EncodeChar(s[0]), Encode(text[1..]), Encode(s[1..]));
        assert false;
      }
      var e := EncodeChar(s[0]);
      assert Encode(text)[|e|..] == Encode(text[1..]) && Encode(s)[|e|..] == Encode(s[1..]);
      assert Encode(text)[|e|..] <= Encode(s)[|e|..];
      EncodePrefixBack(text[1..], s[1..]);
    }
  }

  // ---------------------------------------------------------------- decoding

  function HexValue(c: char): Option<nat> {
    if '0' <= c <= '9' then Some(c as int - '0' as int)
    else if 'a' <= c <= 'f' then Some(c as int - 'a' as int + 10)
    else if 'A' <= c <= 'F' then Some(c as int - 'A' as int + 10)
    else None
  }

  /** A two-character byte; a leading plus sign is read as no digit. */
  function PairValue(a: char, b: char): Option<nat> {
    if a == '+' then HexValue(b)
    else if HexValue(a).Some? && HexValue(b).Some? then Some(16 * HexValue(a).value + HexValue(b).value)
    else None
  }

  function DecodeHex(s: string): Option<seq<nat>>
    decreases |s|
  {
    if s == "" then Some([])
    else if |s| == 1 then None
    else
      var first, rest := PairValue(s[0], s[1]), DecodeHex(s[2..]);
      if first.Some? && rest.Some? then Some([first.value] + rest.value) else None
  }

  predicate Continues(b: nat) {
    0x80 <= b < 0xC0
  }

  predicate IsScalarValue(n: int) {
    0 <= n < 0xD800 || 0xE000 <= n < 0x11_0000
  }

  /** The first code point of valid UTF-8 and its length. Overlong forms and surrogates are invalid. */
  function DecodeFirst(b: seq<nat>): Option<(char, nat)>
    requires |b| > 0
  {
    if b[0] < 0x80 then Some((b[0] as char, 1))
    else if 0xC2 <= b[0] < 0xE0 && |b| > 1 && Continues(b[1]) then
      Some((((b[0] - 0xC0) * 64 + (b[1] - 0x80)) as char, 2))
    else if 0xE0 <= b[0] < 0xF0 && |b| > 2 && Continues(b[1]) && Continues(b[2]) then
      var n := (b[0] - 0xE0) * 4096 + (b[1] - 0x80) * 64 + (b[2] - 0x80);
      if n >= 0x800 && IsScalarValue(n) then Some((n as char, 3)) else None
    else if 0xF0 <= b[0] < 0xF5 && |b| > 3 && Continues(b[1]) && Continues(b[2]) && Continues(b[3]) then
      var n := (b[0] - 0xF0) * 262144 + (b[1] - 0x80) * 4096 + (b[2] - 0x80) * 64 + (b[3] - 0x80);
      if n >= 0x10000 && IsScalarValue(n) then Some((n as char, 4)) else None
    else None
  }

  lemma FirstFits(b: seq<nat>)
    requires |b| > 0 && DecodeFirst(b).Some?
    ensures 0 < DecodeFirst(b).value.1 <= |b|
  {
  }

  function DecodeUtf8(b: seq<nat>): Option<string>
    decreases |b|
  {
    if b == [] then Some("")
    else if DecodeFirst(b).None? then None
    else
      FirstFits(b);
      var (c, width) := DecodeFirst(b).value;
      var rest := DecodeUtf8(b[width..]);
      if rest.Some? then Some([c] + rest.value) else None
  }

  function Decode(s: string): Option<string> {
    if DecodeHex(s).Some? then DecodeUtf8(DecodeHex(s).value) else None
  }

  function Utf8All(s: string): seq<nat> {
    if s == "" then [] else Utf8(s[0]) + Utf8All(s[1..])
  }

  lemma HexOne(v: nat)
    requires v < 16
    ensures Hex(v, 1) == [Digit(v)]
  {
    assert v % 16 == v;
    assert Hex(v, 1) == Hex(v / 16, 0) + [Digit(v)];
  }

  lemma PairOf(high: nat, low: nat)
    requires high < 16 && low < 16
    ensures PairValue(Digit(high), Digit(low)) == Some(16 * high + low)
  {
    DigitValue(high);
    DigitValue(low);
  }

  lemma PairRoundTrip(v: nat)
    requires v < 256
    ensures Hex(v, 2) == [Digit(v / 16), Digit(v % 16)]
    ensures PairValue(Digit(v / 16), Digit(v % 16)) == Some(v)
  {
    var high, low := v / 16, v % 16;
    HexOne(high);
    assert Hex(v, 2) == Hex(high, 1) + [Digit(low)];
    PairOf(high, low);
  }

  lemma DigitValue(d: nat)
    requires d < 16
    ensures HexValue(Digit(d)) == Some(d) && Digit(d) != '+'
  {
  }

  lemma HexPairRoundTrip(v: nat, tail: string)
    requires v < 256 && DecodeHex(tail).Some?
    ensures DecodeHex(Hex(v, 2) + tail) == Some([v] + DecodeHex(tail).value)
  {
    PairRoundTrip(v);
    var s := [Digit(v / 16), Digit(v % 16)] + tail;
    assert s[2..] == tail && s[0] == Digit(v / 16) && s[1] == Digit(v % 16);
  }

  lemma HexBytesFirst(bytes: seq<nat>, rest: string)
    requires bytes != []
    ensures HexBytes(bytes) + rest == Hex(bytes[0], 2) + (HexBytes(bytes[1..]) + rest)
  {
    Associates(Hex(bytes[0], 2), HexBytes(bytes[1..]), rest);
  }

  lemma Associates(a: string, b: string, c: string)
    ensures a + b + c == a + (b + c)
  {
  }

  lemma {:induction false} HexBytesRoundTrip(bytes: seq<nat>, rest: string)
    requires forall i :: 0 <= i < |bytes| ==> bytes[i] < 256
    requires DecodeHex(rest).Some?
    ensures DecodeHex(HexBytes(bytes) + rest) == Some(bytes + DecodeHex(rest).value)
  {
    var back := DecodeHex(rest).value;
    if bytes == [] {
      assert HexBytes(bytes) + rest == rest && bytes + back == back;
    } else {
      HexBytesRoundTrip(bytes[1..], rest);
      HexPairRoundTrip(bytes[0], HexBytes(bytes[1..]) + rest);
      HexBytesFirst(bytes, rest);
      assert [bytes[0]] + (bytes[1..] + back) == bytes + back;
    }
  }

  lemma {:induction false} EncodeIsHexOfUtf8(s: string)
    ensures DecodeHex(Encode(s)) == Some(Utf8All(s))
  {
    if s != "" {
      EncodeIsHexOfUtf8(s[1..]);
      HexBytesRoundTrip(Utf8(s[0]), Encode(s[1..]));
    }
  }

  lemma Utf8First3(c: char, rest: seq<nat>)
    requires 0x800 <= c as int < 0x10000
    ensures DecodeFirst(Utf8(c) + rest) == Some((c, |Utf8(c)|))
  {
    var n := c as int;
    var b := Utf8(c) + rest;
    assert b[0] == 0xE0 + n / 4096 && b[1] == 0x80 + n / 64 % 64 && b[2] == 0x80 + n % 64;
    assert n / 4096 * 4096 + n / 64 % 64 * 64 + n % 64 == n;
  }

  lemma FourDigits(n: nat)
    ensures n / 262144 * 262144 + n / 4096 % 64 * 4096 + n / 64 % 64 * 64 + n % 64 == n
  {
    assert n / 4096 == n / 64 / 64 && n / 262144 == n / 4096 / 64;
  }

  lemma Utf8First4(c: char, rest: seq<nat>)
    requires 0x10000 <= c as int
    ensures DecodeFirst(Utf8(c) + rest) == Some((c, |Utf8(c)|))
  {
    var n := c as int;
    var b := Utf8(c) + rest;
    assert b[0] == 0xF0 + n / 262144 && b[1] == 0x80 + n / 4096 % 64 && b[2] == 0x80 + n / 64 % 64 &&
           b[3] == 0x80 + n % 64;
    FourDigits(n);
  }

  lemma Utf8First(c: char, rest: seq<nat>)
    ensures DecodeFirst(Utf8(c) + rest) == Some((c, |Utf8(c)|))
  {
    var n := c as int;
    if n >= 0x10000 {
      Utf8First4(c, rest);
    } else if n >= 0x800 {
      Utf8First3(c, rest);
    } else {
      var b := Utf8(c) + rest;
      assert forall i :: 0 <= i < |Utf8(c)| ==> b[i] == Utf8(c)[i];
    }
  }

  lemma {:induction false} Utf8RoundTrip(s: string)
    ensures DecodeUtf8(Utf8All(s)) == Some(s)
  {
    if s != "" {
      Utf8First(s[0], Utf8All(s[1..]));
      Utf8RoundTrip(s[1..]);
      assert Utf8All(s)[|Utf8(s[0])|..] == Utf8All(s[1..]);
      assert s == [s[0]] + s[1..];
    }
  }

  /** Decoding undoes encoding. */
  lemma DecodeEncode(s: string)
    ensures Decode(Encode(s)) == Some(s)
  {
    EncodeIsHexOfUtf8(s);
    Utf8RoundTrip(s);
  }

  // ---------------------------------------------------------------- sort keys

  /** Bit patterns rearranged so that unsigned order is numeric order. */
  function SortableBits(bits: Bits): Bits {
    if bits < SIGN then bits + SIGN else 0xFFFF_FFFF_FFFF_FFFF - bits
  }

  function NumberKey(bits: Bits): string {
    "n_" + Hex(SortableBits(bits), 16)
  }

  function SortKey(value: Json): Option<string> {
    match value
    case Str(s) => Some("s_" + Encode(s))
    case Number(num) => Some(NumberKey(num.bits))
    case Bool(b) => Some(if b then "b_1" else "b_0")
    case Null => Some("z_null")
    case _ => None
  }

  /** The total order of non-NaN doubles (section 5.10 of IEEE 754-2008): numeric, with -0 before +0. */
  predicate TotalLess(a: Bits, b: Bits) {
    Magnitude(a) < Magnitude(b) || (a == SIGN && b == 0)
  }

  lemma Power16Of16()
    ensures Power16(16) == 0x1_0000_0000_0000_0000
  {
    assert Power16(4) == 0x1_0000 by { assert Power16(2) == 0x100; }
    assert Power16(8) == 0x1_0000_0000 by { assert Power16(6) == 0x100_0000; }
    assert Power16(12) == 0x1_0000_0000_0000 by { assert Power16(10) == 0x100_0000_0000; }
    assert Power16(14) == 0x100_0000_0000_0000;
  }

  lemma NumberKeyBelow(a: Bits, b: Bits)
    requires SortableBits(a) < SortableBits(b)
    ensures Less(NumberKey(a), NumberKey(b))
  {
    Power16Of16();
    HexBelow(SortableBits(a), SortableBits(b), 16);
    BelowDecides(Hex(SortableBits(a), 16), Hex(SortableBits(b), 16), "", "");
    assert Hex(SortableBits(a), 16) + "" == Hex(SortableBits(a), 16) &&
           Hex(SortableBits(b), 16) + "" == Hex(SortableBits(b), 16);
    LessPrefix("n_", Hex(SortableBits(a), 16), Hex(SortableBits(b), 16));
  }

  /** Number keys order bit patterns exactly as the total order of doubles does. */
  lemma NumberKeyOrder(a: Bits, b: Bits)
    ensures Less(NumberKey(a), NumberKey(b)) <==> TotalLess(a, b)
    ensures NumberKey(a) == NumberKey(b) <==> a == b
  {
    StringOrder();
    if SortableBits(a) < SortableBits(b) {
      NumberKeyBelow(a, b);
    } else if SortableBits(b) < SortableBits(a) {
      NumberKeyBelow(b, a);
    }
  }

  // ---------------------------------------------------------------- direct-index keys

  function DirectKey(path: string, sortable: string, node: string): string {
    "direct" + "/" + (Encode(path) + "/" + (sortable + "/" + Encode(node)))
  }

  function KeyParts(key: string): Option<(string, string, string)> {
    var parts := Split(key, '/');
    if |parts| == 4 && parts[0] == "direct" then Some((parts[1], parts[2], parts[3])) else None
  }

  lemma {:induction false} NoSlashInBytes(bytes: seq<nat>)
    ensures '/' !in HexBytes(bytes)
  {
    if bytes != [] {
      NoSlashInHex(bytes[0], 2);
      NoSlashInBytes(bytes[1..]);
    }
  }

  lemma {:induction false} NoSlashInEncode(s: string)
    ensures '/' !in Encode(s)
  {
    if s != "" {
      NoSlashInBytes(Utf8(s[0]));
      NoSlashInEncode(s[1..]);
    }
  }

  lemma NoSlashInSortKey(value: Json)
    requires SortKey(value).Some?
    ensures '/' !in SortKey(value).value
  {
    match value
    case Str(s) => NoSlashInEncode(s);
    case Number(num) => NoSlashInHex(SortableBits(num.bits), 16);
    case _ =>
  }

  /** A direct-index key splits into its three components. */
  lemma DirectKeyParts(path: string, value: Json, node: string)
    requires SortKey(value).Some?
    ensures KeyParts(DirectKey(path, SortKey(value).value, node)) ==
            Some((Encode(path), SortKey(value).value, Encode(node)))
  {
    var k := SortKey(value).value;
    NoSlashInEncode(path);
    NoSlashInSortKey(value);
    NoSlashInEncode(node);
    SplitPiece("direct", '/', Encode(path) + "/" + (k + "/" + Encode(node)));
    SplitPiece(Encode(path), '/', k + "/" + Encode(node));
    SplitPiece(k, '/', Encode(node));
    SplitNone(Encode(node), '/');
  }

  /** Direct-index keys are distinct for distinct paths, sort keys and nodes. */
  lemma DirectKeyInjective(p: string, v: Json, n: string, p': string, v': Json, n': string)
    requires SortKey(v).Some? && SortKey(v').Some?
    requires DirectKey(p, SortKey(v).value, n) == DirectKey(p', SortKey(v').value, n')
    ensures p == p' && SortKey(v) == SortKey(v') && n == n'
  {
    DirectKeyParts(p, v, n);
    DirectKeyParts(p', v', n');
    EncodeInjective(p, p');
    EncodeInjective(n, n');
  }
}
