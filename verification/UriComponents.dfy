/** encodeURIComponent and decodeURIComponent (ECMA-262, section 19.2.6) over UTF-16 code units. */
module UriComponents {
  import opened Options
  import opened Basics

  type Unit = u: int | 0 <= u < 0x10000

  type Text = seq<Unit>

  const PERCENT: Unit := 0x25

  // ---- UTF-16 and UTF-8 ----

  predicate IsLead(u: int) { 0xD800 <= u < 0xDC00 }

  predicate IsTrail(u: int) { 0xDC00 <= u < 0xE000 }

  predicate IsScalar(p: int) {
    0 <= p < 0xD800 || 0xE000 <= p < 0x110000
  }

  /** A code point, and how many units or octets it is written with. */
  datatype Point = NoPoint | Point(code: int, width: nat)

  /** The code point at the start, and how many units it takes; NoPoint for an unpaired surrogate. */
  function PointAt(s: Text): (r: Point)
    requires s != []
    ensures r.Point? ==> IsScalar(r.code) && 1 <= r.width <= |s| && s[..r.width] == Utf16(r.code)
  {
    if IsTrail(s[0]) then NoPoint
    else if !IsLead(s[0]) then Point(s[0], 1)
    else if |s| >= 2 && IsTrail(s[1]) then
      var lead: int, trail: int := s[0], s[1];
      Point(0x10000 + (lead - 0xD800) * 0x400 + (trail - 0xDC00), 2)
    else NoPoint
  }

  function Utf16(p: int): Text
    requires IsScalar(p)
  {
    if p < 0x10000 then [p] else [0xD800 + (p - 0x10000) / 0x400, 0xDC00 + (p - 0x10000) % 0x400]
  }

  type Octet = b: int | 0 <= b < 256

  function Utf8(p: int): seq<Octet>
    requires IsScalar(p)
  {
    if p < 0x80 then [p]
    else if p < 0x800 then [0xC0 + p / 0x40, 0x80 + p % 0x40]
    else if p < 0x10000 then [0xE0 + p / 0x1000, 0x80 + p / 0x40 % 0x40, 0x80 + p % 0x40]
    else [0xF0 + p / 0x40000, 0x80 + p / 0x1000 % 0x40, 0x80 + p / 0x40 % 0x40, 0x80 + p % 0x40]
  }

  // ---- escapes ----

  function HexDigit(n: int): Unit
    requires 0 <= n < 16
  {
    if n < 10 then 0x30 + n else 0x41 + n - 10
  }

  function HexValue(u: Unit): Option<int> {
    if 0x30 <= u <= 0x39 then Some(u - 0x30)
    else if 0x41 <= u <= 0x46 then Some(u - 0x41 + 10)
    else if 0x61 <= u <= 0x66 then Some(u - 0x61 + 10)
    else None
  }

  function Escape(b: Octet): Text {
    [PERCENT, HexDigit(b / 16), HexDigit(b % 16)]
  }

  function Escapes(octets: seq<Octet>): Text {
    if octets == [] then [] else Escape(octets[0]) + Escapes(octets[1..])
  }

  /** The escape at the start. */
  function OctetAt(s: Text): (r: Option<Octet>)
    ensures r.Some? ==> |s| >= 3 && s[0] == PERCENT
  {
    if |s| < 3 || s[0] != PERCENT then None
    else
      var high, low := HexValue(s[1]), HexValue(s[2]);
      if high.None? || low.None? then None else Some(16 * high.value + low.value)
  }

  // ---- encode ----

  /** A-Z a-z 0-9 - _ . ! ~ * ' ( ) */
  predicate IsUnescaped(u: Unit) {
    IsAlphanumeric(u) || u in {0x2D, 0x5F, 0x2E, 0x21, 0x7E, 0x2A, 0x27, 0x28, 0x29}
  }

  /** A code point whose first unit is `u`. */
  function EncodePoint(u: Unit, p: int): Text
    requires IsScalar(p)
  {
    if IsUnescaped(u) then [u] else Escapes(Utf8(p))
  }

  /** None is the URIError of an unpaired surrogate. */
  function Encode(s: Text): Option<Text> {
    if s == [] then Some([])
    else
      var point := PointAt(s);
      if point.NoPoint? then None
      else
        var rest := Encode(s[point.width..]);
        if rest.None? then None
        else Some(EncodePoint(s[0], point.code) + rest.value)
  }

  // ---- decode ----

  predicate IsContinuation(b: Option<Octet>) {
    b.Some? && 0x80 <= b.value < 0xC0
  }

  /** Number of octets announced by the first one. */
  function OctetCount(b: Octet): nat {
    if b < 0x80 then 1 else if b < 0xC0 then 0 else if b < 0xE0 then 2 else if b < 0xF0 then 3 else if b < 0xF8 then 4 else 0
  }

  /** The code point escaped at the start: its octets must be valid UTF-8, with no overlong form and no
      surrogate. NoPoint is the URIError. */
  function DecodePoint(s: Text): (r: Point)
    ensures r.Point? ==> IsScalar(r.code) && 3 <= 3 * r.width <= |s|
    ensures r.Point? && r.code >= 0x10000 ==> r.width == 4
  {
    var b0 := OctetAt(s);
    if b0.None? then NoPoint
    else
      var n := OctetCount(b0.value);
      if n == 0 || |s| < 3 * n then NoPoint
      else if n == 1 then Point(b0.value, 1)
      else
        var b1 := OctetAt(s[3..]);
        if !IsContinuation(b1) then NoPoint
        else if n == 2 then Shortest((b0.value - 0xC0) * 0x40 + (b1.value - 0x80), 2)
        else
          var b2 := OctetAt(s[6..]);
          if !IsContinuation(b2) then NoPoint
          else if n == 3 then Shortest((b0.value - 0xE0) * 0x1000 + (b1.value - 0x80) * 0x40 + (b2.value - 0x80), 3)
          else
            var b3 := OctetAt(s[9..]);
            if !IsContinuation(b3) then NoPoint
            else Shortest((b0.value - 0xF0) * 0x40000 + (b1.value - 0x80) * 0x1000 + (b2.value - 0x80) * 0x40 + (b3.value - 0x80), 4)
  }

  function Shortest(p: int, n: nat): (r: Point)
    requires 2 <= n <= 4
    ensures r.Point? ==> r == Point(p, n) && IsScalar(p)
    ensures r.Point? && p >= 0x10000 ==> n == 4
  {
    var low := if n == 2 then 0x80 else if n == 3 then 0x800 else 0x10000;
    if p < low || !IsScalar(p) || (n < 4 && p >= 0x10000) then NoPoint else Point(p, n)
  }

  function Decode(s: Text): Option<Text> {
    if s == [] then Some([])
    else if s[0] != PERCENT then
      var rest := Decode(s[1..]);
      if rest.None? then None else Some([s[0]] + rest.value)
    else
      var point := DecodePoint(s);
      if point.NoPoint? then None
      else
        var rest := Decode(s[3 * point.width..]);
        if rest.None? then None else Some(Utf16(point.code) + rest.value)
  }

  // ---- decoding shortens ----

  /** Decoding never lengthens, and strictly shortens whatever holds a percent sign. */
  lemma {:induction false} DecodeShortens(s: Text)
    requires Decode(s).Some?
    ensures |Decode(s).value| <= |s|
    ensures PERCENT in s ==> |Decode(s).value| < |s|
  {
    if s != [] {
      if s[0] != PERCENT {
        DecodeShortens(s[1..]);
        assert s == [s[0]] + s[1..];
      } else {
        DecodeShortens(s[3 * DecodePoint(s).width..]);
      }
    }
  }

  lemma {:induction false} DecodeWithoutPercent(s: Text)
    requires PERCENT !in s
    ensures Decode(s) == Some(s)
  {
    if s != [] {
      DecodeWithoutPercent(s[1..]);
      assert s == [s[0]] + s[1..];
    }
  }

  /** A text decodes to itself exactly when it holds no percent sign. */
  lemma DecodeFixesIff(s: Text)
    ensures Decode(s) == Some(s) <==> PERCENT !in s
  {
    if PERCENT !in s {
      DecodeWithoutPercent(s);
    }
    if Decode(s) == Some(s) {
      DecodeShortens(s);
    }
  }

  // ---- the round trip ----

  lemma EscapeIsRead(b: Octet, rest: Text)
    ensures OctetAt(Escape(b) + rest) == Some(b)
  {
  }

  lemma EscapesLength(octets: seq<Octet>)
    ensures |Escapes(octets)| == 3 * |octets|
  {
  }

  lemma AppendParts(a: Text, b: Text)
    ensures (a + b)[..|a|] == a && (a + b)[|a|..] == b
  {
  }

  lemma AppendIsAssociative(a: Text, b: Text, c: Text)
    ensures (a + b) + c == a + (b + c)
  {
  }

  lemma {:induction false} EscapesTail(octets: seq<Octet>, rest: Text)
    requires octets != []
    ensures var t := Escapes(octets) + rest;
      |t| == 3 * |octets| + |rest| && OctetAt(t) == Some(octets[0]) && t[3..] == Escapes(octets[1..]) + rest
  {
    EscapesLength(octets);
    AppendIsAssociative(Escape(octets[0]), Escapes(octets[1..]), rest);
    EscapeIsRead(octets[0], Escapes(octets[1..]) + rest);
    AppendParts(Escape(octets[0]), Escapes(octets[1..]) + rest);
  }

  lemma Quotients(p: nat)
    ensures p / 0x1000 == p / 0x40 / 0x40 && p / 0x40000 == p / 0x1000 / 0x40
  {
  }

  lemma Digits64(p: nat)
    ensures p == p / 0x40 * 0x40 + p % 0x40
    ensures p == p / 0x1000 * 0x1000 + p / 0x40 % 0x40 * 0x40 + p % 0x40
    ensures p == p / 0x40000 * 0x40000 + p / 0x1000 % 0x40 * 0x1000 + p / 0x40 % 0x40 * 0x40 + p % 0x40
  {
    Quotients(p);
    var q1, q2 := p / 0x40, p / 0x1000;
    assert q1 == q2 * 0x40 + q1 % 0x40;
    assert q2 == p / 0x40000 * 0x40 + q2 % 0x40;
  }

  /** The octets at the start of an escaped sequence, and what follows them. */
  lemma {:induction false} EscapesRead(octets: seq<Octet>, rest: Text, i: nat)
    requires i < |octets|
    ensures var t := Escapes(octets) + rest;
      |t| == 3 * |octets| + |rest| && OctetAt(t[3 * i..]) == Some(octets[i]) && t[3 * |octets|..] == rest
  {
    EscapesTail(octets, rest);
    var t := Escapes(octets) + rest;
    if i > 0 {
      EscapesRead(octets[1..], rest, i - 1);
      assert t[3 * i..] == t[3..][3 * (i - 1)..];
      assert t[3 * |octets|..] == t[3..][3 * |octets[1..]|..];
    } else {
      assert t[0..] == t;
      EscapesLength(octets);
    }
  }

  /** Escaping a code point and reading it back. */
  lemma PointRoundTrips(p: int, rest: Text)
    requires IsScalar(p)
    ensures var t := Escapes(Utf8(p)) + rest;
      |t| >= 3 * |Utf8(p)| && t[0] == PERCENT && DecodePoint(t) == Point(p, |Utf8(p)|) && t[3 * |Utf8(p)|..] == rest
  {
    var o := Utf8(p);
    var t := Escapes(o) + rest;
    EscapesRead(o, rest, 0);
    assert t[0..] == t;
    if p < 0x80 {
    } else if p < 0x800 {
      EscapesRead(o, rest, 1);
      Digits64(p);
      LongPoint2(t, p);
    } else if p < 0x10000 {
      EscapesRead(o, rest, 1);
      EscapesRead(o, rest, 2);
      LongPoint3(t, p);
    } else {
      EscapesRead(o, rest, 1);
      EscapesRead(o, rest, 2);
      EscapesRead(o, rest, 3);
      LongPoint4(t, p);
    }
  }

  lemma LongPoint2(t: Text, p: int)
    requires 0x80 <= p < 0x800 && |t| >= 6
    requires OctetAt(t) == Some(0xC0 + p / 0x40) && OctetAt(t[3..]) == Some(0x80 + p % 0x40)
    ensures DecodePoint(t) == Point(p, 2)
  {
  }

  lemma LongPoint3(t: Text, p: int)
    requires 0x800 <= p < 0x10000 && IsScalar(p) && |t| >= 9
    requires OctetAt(t) == Some(0xE0 + p / 0x1000) && OctetAt(t[3..]) == Some(0x80 + p / 0x40 % 0x40)
    requires OctetAt(t[6..]) == Some(0x80 + p % 0x40)
    ensures DecodePoint(t) == Point(p, 3)
  {
    Digits64(p);
  }

  lemma LongPoint4(t: Text, p: int)
    requires 0x10000 <= p < 0x110000 && |t| >= 12
    requires OctetAt(t) == Some(0xF0 + p / 0x40000) && OctetAt(t[3..]) == Some(0x80 + p / 0x1000 % 0x40)
    requires OctetAt(t[6..]) == Some(0x80 + p / 0x40 % 0x40) && OctetAt(t[9..]) == Some(0x80 + p % 0x40)
    ensures DecodePoint(t) == Point(p, 4)
  {
    Digits64(p);
  }

  lemma DecodeOfPoint(u: Unit, p: int, rest: Text, s: Text)
    requires IsScalar(p) && Decode(rest) == Some(s) && (IsUnescaped(u) ==> Utf16(p) == [u])
    ensures Decode(EncodePoint(u, p) + rest) == Some(Utf16(p) + s)
  {
    if IsUnescaped(u) {
      AppendParts([u], rest);
    } else {
      PointRoundTrips(p, rest);
    }
  }

  lemma FirstUnit(s: Text)
    requires s != [] && PointAt(s).Point?
    ensures IsUnescaped(s[0]) ==> Utf16(PointAt(s).code) == [s[0]]
    ensures s == Utf16(PointAt(s).code) + s[PointAt(s).width..]
  {
  }

  /** decodeURIComponent undoes encodeURIComponent. */
  lemma {:induction false} DecodeOfEncode(s: Text, e: Text)
    requires Encode(s) == Some(e)
    ensures Decode(e) == Some(s)
    decreases |s|
  {
    if s != [] {
      var point := PointAt(s);
      var after := s[point.width..];
      var rest := Encode(after).value;
      DecodeOfEncode(after, rest);
      FirstUnit(s);
      DecodeOfPoint(s[0], point.code, rest, after);
    }
  }

  /** A unit that is no surrogate, or one that has its other half next to it. */
  predicate Paired(s: Text, i: nat)
    requires i < |s|
  {
    && (IsLead(s[i]) ==> i + 1 < |s| && IsTrail(s[i + 1]))
    && (IsTrail(s[i]) ==> i > 0 && IsLead(s[i - 1]))
  }

  predicate WellFormed(s: Text) {
    forall i | 0 <= i < |s| :: Paired(s, i)
  }

  /** Behind a whole code point the pairing is what it was. */
  lemma PairedBehind(s: Text, i: nat)
    requires s != [] && PointAt(s).Point? && i < |s| - PointAt(s).width
    ensures Paired(s[PointAt(s).width..], i) <==> Paired(s, i + PointAt(s).width)
  {
  }

  lemma WellFormedBehind(s: Text)
    requires s != [] && PointAt(s).Point?
    ensures WellFormed(s) <==> WellFormed(s[PointAt(s).width..])
  {
    var w := PointAt(s).width;
    var rest := s[w..];
    forall i | 0 <= i < |rest|
      ensures Paired(rest, i) <==> Paired(s, i + w)
    {
      PairedBehind(s, i);
    }
    if WellFormed(rest) {
      forall i | 0 <= i < |s|
        ensures Paired(s, i)
      {
        if i >= w {
          assert Paired(rest, i - w);
        }
      }
    }
  }

  /** Encoding fails exactly on a text with a lead surrogate no trail follows, or a trail no lead precedes. */
  lemma {:induction false} EncodeSucceedsIff(s: Text)
    ensures Encode(s).Some? <==> WellFormed(s)
  {
    if s != [] {
      if PointAt(s).Point? {
        EncodeSucceedsIff(s[PointAt(s).width..]);
        WellFormedBehind(s);
      } else {
        assert !Paired(s, 0);
      }
    }
  }

  lemma {:induction false} EscapesAreUnescapedOrPercent(octets: seq<Octet>)
    ensures forall i | 0 <= i < |Escapes(octets)| :: Escapes(octets)[i] == PERCENT || IsAlphanumeric(Escapes(octets)[i])
  {
    if octets != [] {
      EscapesAreUnescapedOrPercent(octets[1..]);
    }
  }

  /** An encoded text is made of unreserved characters and percent signs only. */
  lemma {:induction false} EncodedCharacters(s: Text)
    requires Encode(s).Some?
    ensures forall i | 0 <= i < |Encode(s).value| :: Encode(s).value[i] == PERCENT || IsUnescaped(Encode(s).value[i])
  {
    if s != [] {
      var point := PointAt(s);
      EncodedCharacters(s[point.width..]);
      EscapesAreUnescapedOrPercent(Utf8(point.code));
    }
  }
  // ---- the same in characters, digits and bits ----

  /** A text of ASCII characters, as units. */
  function Ascii(s: string): Text {
    seq(|s|, i requires 0 <= i < |s| => if s[i] as int < 128 then s[i] as int else 0)
  }

  /** A letter, a digit or one of nine marks. */
  predicate IsPlain(u: Unit) {
    || 'A' as int <= u <= 'Z' as int || 'a' as int <= u <= 'z' as int || '0' as int <= u <= '9' as int
    || u == '-' as int || u == '_' as int || u == '.' as int || u == '!' as int || u == '~' as int
    || u == '*' as int || u == '\'' as int || u == '(' as int || u == ')' as int
  }

  lemma UnescapedIsPlain(u: Unit)
    ensures IsUnescaped(u) <==> IsPlain(u)
  {
  }

  lemma {:induction false} EncodeLengthens(s: Text)
    requires Encode(s).Some?
    ensures |Encode(s).value| >= |s|
    ensures |Encode(s).value| == |s| ==> Encode(s).value == s && forall i | 0 <= i < |s| :: IsPlain(s[i])
  {
    if s != [] {
      var point := PointAt(s);
      var rest := s[point.width..];
      EncodeLengthens(rest);
      EscapesLength(Utf8(point.code));
      UnescapedIsPlain(s[0]);
      if IsUnescaped(s[0]) {
        assert s == [s[0]] + rest;
      }
    }
  }

  lemma PlainInFront(s: Text)
    requires s != [] && IsPlain(s[0]) && Encode(s[1..]) == Some(s[1..])
    ensures Encode(s) == Some(s)
  {
    UnescapedIsPlain(s[0]);
    assert PointAt(s) == Point(s[0], 1);
    assert s == [s[0]] + s[1..];
  }

  lemma {:induction false} PlainIsItself(s: Text)
    requires forall i | 0 <= i < |s| :: IsPlain(s[i])
    ensures Encode(s) == Some(s)
  {
    if s != [] {
      var rest := s[1..];
      assert forall i | 0 <= i < |rest| :: rest[i] == s[i + 1];
      PlainIsItself(rest);
      PlainInFront(s);
    }
  }

  /** A text is its own encoding exactly when it is made of letters, digits and - _ . ! ~ * ' ( ) */
  lemma OwnEncodingIff(s: Text)
    ensures Encode(s) == Some(s) <==> forall i | 0 <= i < |s| :: IsPlain(s[i])
  {
    if Encode(s) == Some(s) {
      EncodeLengthens(s);
    }
    if forall i | 0 <= i < |s| :: IsPlain(s[i]) {
      PlainIsItself(s);
    }
  }

  /** Escapes are written with upper-case digits ... */
  lemma HexDigitIs(n: int)
    requires 0 <= n < 16
    ensures HexDigit(n) == "0123456789ABCDEF"[n] as int
  {
  }

  /** ... and read with digits of either case. */
  lemma HexValueIs(u: Unit, n: int)
    requires 0 <= n < 16
    ensures HexValue(u) == Some(n) <==> u == "0123456789ABCDEF"[n] as int || u == "0123456789abcdef"[n] as int
  {
  }

  /** ASCII characters are encoded one by one: the plain ones as they are, every other as a percent sign and its
      code. */
  lemma EncodeAscii(u: Unit, rest: Text, e: Text)
    requires u < 0x80 && Encode(rest) == Some(e)
    ensures IsPlain(u) ==> Encode([u] + rest) == Some([u] + e)
    ensures !IsPlain(u) ==>
      Encode([u] + rest) == Some(['%' as int, "0123456789ABCDEF"[u / 16] as int, "0123456789ABCDEF"[u % 16] as int] + e)
  {
    var s := [u] + rest;
    assert PointAt(s) == Point(u, 1) && s[1..] == rest;
    UnescapedIsPlain(u);
    if !IsPlain(u) {
      HexDigitIs(u / 16);
      HexDigitIs(u % 16);
      assert Utf8(u) == [u];
      assert Escapes(Utf8(u)) == Escape(u) + Escapes(Utf8(u)[1..]) == Escape(u) + [] == Escape(u);
    }
  }

  /** Every code point but the surrogates; and which of those lead and which trail. */
  lemma ScalarsAre(p: int)
    ensures IsScalar(p) <==> 0 <= p <= 0x10FFFF && !(0xD800 <= p <= 0xDFFF)
    ensures IsLead(p) <==> 0xD800 <= p <= 0xDBFF
    ensures IsTrail(p) <==> 0xDC00 <= p <= 0xDFFF
  {
  }

  /** The rows of the table of RFC 3629, section 3: the range of the first octet, and the bits that all carry. */
  predicate IsRow1(p: int, a: int) {
    0 <= a <= 127 && p == a
  }

  predicate IsRow2(p: int, a: int, b: int) {
    194 <= a <= 223 && p == (a - 192) * 64 + (b - 128)
  }

  predicate IsRow3(p: int, a: int, b: int, c: int) {
    224 <= a <= 239 && p == (a - 224) * 4096 + (b - 128) * 64 + (c - 128)
  }

  predicate IsRow4(p: int, a: int, b: int, c: int, d: int) {
    240 <= a <= 244 && p == (a - 240) * 262144 + (b - 128) * 4096 + (c - 128) * 64 + (d - 128)
  }

  lemma Utf8Bits(p: int)
    requires IsScalar(p)
    ensures var o := Utf8(p);
      && (p <= 0x7F ==> |o| == 1 && IsRow1(p, o[0]))
      && (0x7F < p <= 0x7FF ==> |o| == 2 && IsRow2(p, o[0], o[1]))
      && (0x7FF < p <= 0xFFFF ==> |o| == 3 && IsRow3(p, o[0], o[1], o[2]))
      && (0xFFFF < p ==> |o| == 4 && IsRow4(p, o[0], o[1], o[2], o[3]))
      && forall i | 1 <= i < |o| :: 128 <= o[i] <= 191
  {
    Digits64(p);
  }

  predicate IsPair(p: int, lead: int, trail: int) {
    0xD800 <= lead <= 0xDBFF && 0xDC00 <= trail <= 0xDFFF && p == 65536 + (lead - 0xD800) * 1024 + (trail - 0xDC00)
  }

  /** A code point past the basic plane is two surrogates, ten bits each. */
  lemma Utf16Bits(p: int)
    requires IsScalar(p)
    ensures p <= 0xFFFF ==> Utf16(p) == [p]
    ensures p > 0xFFFF ==> |Utf16(p)| == 2 && IsPair(p, Utf16(p)[0], Utf16(p)[1])
  {
  }

  // ---- only proper escapes are read ----

  /** The octets escaped at the start. */
  ghost predicate Escaped(s: Text, octets: seq<Octet>) {
    3 * |octets| <= |s| && forall i | 0 <= i < |octets| :: OctetAt(s[3 * i..]) == Some(octets[i])
  }

  lemma TwoOctets(s: Text, p: int)
    requires DecodePoint(s) == Point(p, 2)
    ensures Escaped(s, Utf8(p))
  {
    assert s[3 * 0..] == s;
    var a: int, b: int := OctetAt(s).value, OctetAt(s[3..]).value;
    Octets2(p, a, b);
  }

  lemma Octets2(p: int, a: int, b: int)
    requires IsRow2(p, a, b) && 128 <= b <= 191
    ensures Utf8(p) == [a, b]
  {
  }

  lemma ThreeOctets(s: Text, p: int)
    requires DecodePoint(s) == Point(p, 3)
    ensures Escaped(s, Utf8(p))
  {
    assert s[3 * 0..] == s;
    var a: int, b: int, c: int := OctetAt(s).value, OctetAt(s[3..]).value, OctetAt(s[6..]).value;
    Octets3(p, a, b, c);
  }

  lemma Octets3(p: int, a: int, b: int, c: int)
    requires 0x800 <= p && IsScalar(p) && IsRow3(p, a, b, c) && 128 <= b <= 191 && 128 <= c <= 191
    ensures Utf8(p) == [a, b, c]
  {
    Divides((a - 224) * 0x40 + (b - 128), c - 128);
    Divides(a - 224, b - 128);
    Quotients(p);
  }

  lemma FourOctets(s: Text, p: int)
    requires DecodePoint(s) == Point(p, 4)
    ensures Escaped(s, Utf8(p))
  {
    assert s[3 * 0..] == s;
    var a: int, b: int, c: int, d: int := OctetAt(s).value, OctetAt(s[3..]).value, OctetAt(s[6..]).value, OctetAt(s[9..]).value;
    assert p == (a - 240) * 262144 + (b - 128) * 4096 + (c - 128) * 64 + (d - 128);
    Octets4(p, a, b, c, d);
  }

  lemma Octets4(p: int, a: int, b: int, c: int, d: int)
    requires 0x10000 <= p < 0x110000 && 240 <= a < 248 && 128 <= b <= 191 && 128 <= c <= 191 && 128 <= d <= 191
    requires p == (a - 240) * 262144 + (b - 128) * 4096 + (c - 128) * 64 + (d - 128)
    ensures Utf8(p) == [a, b, c, d]
  {
    var q := ((a - 240) * 0x40 + (b - 128)) * 0x40 + (c - 128);
    assert p == q * 0x40 + (d - 128);
    Divides(q, d - 128);
    Divides((a - 240) * 0x40 + (b - 128), c - 128);
    Divides(a - 240, b - 128);
    Quotients(p);
  }

  lemma Divides(q: int, r: int)
    requires 0 <= r < 0x40
    ensures (q * 0x40 + r) / 0x40 == q && (q * 0x40 + r) % 0x40 == r
  {
  }

  /** Reading succeeds exactly at the UTF-8 octets of a code point: no overlong form, no surrogate, nothing past
      the last code point. */
  lemma DecodePointIff(s: Text, p: int)
    ensures (exists n :: DecodePoint(s) == Point(p, n)) <==> IsScalar(p) && Escaped(s, Utf8(p))
  {
    if n: nat :| DecodePoint(s) == Point(p, n) {
      if n == 2 {
        TwoOctets(s, p);
      } else if n == 3 {
        ThreeOctets(s, p);
      } else if n == 4 {
        FourOctets(s, p);
      } else {
        assert s[3 * 0..] == s;
      }
    }
    if IsScalar(p) && Escaped(s, Utf8(p)) {
      EscapedIsRead(s, p);
    }
  }

  lemma EscapedIsRead(s: Text, p: int)
    requires IsScalar(p) && Escaped(s, Utf8(p))
    ensures DecodePoint(s) == Point(p, |Utf8(p)|)
  {
    var o := Utf8(p);
    assert s[3 * 0..] == s && OctetAt(s[3 * 0..]) == Some(o[0]);
    if p >= 0x80 {
      assert OctetAt(s[3 * 1..]) == Some(o[1]);
    }
    if p >= 0x800 {
      assert OctetAt(s[3 * 2..]) == Some(o[2]);
    }
    if p >= 0x10000 {
      assert OctetAt(s[3 * 3..]) == Some(o[3]);
      LongPoint4(s, p);
    } else if p >= 0x800 {
      LongPoint3(s, p);
    } else if p >= 0x80 {
      Digits64(p);
      LongPoint2(s, p);
    }
  }

  // ---- the case of escapes ----

  /** The same unit, or the same letter A-F in the other case. */
  predicate SameDigit(u: Unit, v: Unit) {
    || u == v
    || ('A' as int <= u <= 'F' as int && v == u + 32)
    || ('A' as int <= v <= 'F' as int && u == v + 32)
  }

  predicate SameAt(s: Text, t: Text, i: nat)
    requires i < |s| == |t|
  {
    && SameDigit(s[i], t[i])
    && (s[i] == t[i] || (i >= 1 && s[i - 1] == PERCENT) || (i >= 2 && s[i - 2] == PERCENT))
  }

  /** Equal but for the case of the two characters behind each percent sign. */
  predicate SameEscapes(s: Text, t: Text) {
    |s| == |t| && forall i | 0 <= i < |s| :: SameAt(s, t, i)
  }

  lemma SameOctet(s: Text, t: Text)
    requires |s| == |t| && (|s| >= 3 ==> s[0] == t[0] && SameDigit(s[1], t[1]) && SameDigit(s[2], t[2]))
    ensures OctetAt(s) == OctetAt(t)
  {
  }

  /** A percent sign is no digit, so it stands where it stands. */
  lemma SamePercent(s: Text, t: Text)
    requires SameEscapes(s, t)
    ensures forall i | 0 <= i < |s| :: s[i] == PERCENT <==> t[i] == PERCENT
  {
    forall i | 0 <= i < |s|
      ensures s[i] == PERCENT <==> t[i] == PERCENT
    {
      assert SameAt(s, t, i);
    }
  }

  lemma SamePoint(s: Text, t: Text)
    requires SameEscapes(s, t) && s != [] && s[0] == t[0]
    ensures DecodePoint(s) == DecodePoint(t)
  {
    SamePercent(s, t);
    forall k | 0 <= k <= |s|
      ensures OctetAt(s[k..]) == OctetAt(t[k..])
    {
      if k + 2 < |s| && s[k] == PERCENT {
        assert SameAt(s, t, k + 1) && SameAt(s, t, k + 2);
        SameOctet(s[k..], t[k..]);
      }
    }
    assert s[0..] == s && t[0..] == t;
  }

  lemma EscapesBehind(s: Text, t: Text, n: nat)
    requires SameEscapes(s, t) && n <= |s|
    requires n >= 1 ==> s[n - 1] != PERCENT
    requires n >= 2 ==> s[n - 2] != PERCENT
    ensures SameEscapes(s[n..], t[n..])
  {
    forall i | 0 <= i < |s[n..]|
      ensures SameAt(s[n..], t[n..], i)
    {
      assert SameAt(s, t, n + i);
      assert i >= 1 ==> s[n..][i - 1] == s[n + i - 1];
      assert i >= 2 ==> s[n..][i - 2] == s[n + i - 2];
    }
  }

  /** The last escape of a point that is read ends in two digits. */
  lemma PointEndsInDigits(s: Text)
    requires DecodePoint(s).Point?
    ensures var n := 3 * DecodePoint(s).width; n <= |s| && s[n - 1] != PERCENT && s[n - 2] != PERCENT
  {
    var n := DecodePoint(s).width;
    assert s[0..] == s;
    assert OctetAt(s[3 * (n - 1)..]).Some?;
    assert s[3 * (n - 1)..][1] == s[3 * n - 2] && s[3 * (n - 1)..][2] == s[3 * n - 1];
  }

  /** decodeURIComponent reads %2f as %2F. */
  lemma {:induction false} EscapesIgnoreCase(s: Text, t: Text)
    requires SameEscapes(s, t)
    ensures Decode(s) == Decode(t)
    decreases |s|
  {
    if s != [] {
      assert SameAt(s, t, 0);
      if s[0] != PERCENT {
        EscapesBehind(s, t, 1);
        EscapesIgnoreCase(s[1..], t[1..]);
      } else {
        SamePoint(s, t);
        if DecodePoint(s).Point? {
          PointEndsInDigits(s);
          EscapesBehind(s, t, 3 * DecodePoint(s).width);
          EscapesIgnoreCase(s[3 * DecodePoint(s).width..], t[3 * DecodePoint(s).width..]);
        }
      }
    }
  }
}
