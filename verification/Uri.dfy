/** `encodeURIComponent` and `decodeURIComponent` (ECMA-262, section 19.2.6), octet by octet through UTF-8. */
module Uri {
  import opened Collections
  import opened Wrappers
  import opened Texts

  /** What is never escaped: letters, digits and - _ . ! ~ * ' ( ). */
  predicate Unreserved(u: Unit) {
    || 48 <= u <= 57 || 65 <= u <= 90 || 97 <= u <= 122
    || u == 45 || u == 95 || u == 46 || u == 33 || u == 126 || u == 42 || 39 <= u <= 41
  }

  predicate IsLead(u: Unit) { 0xD800 <= u < 0xDC00 }
  predicate IsTrail(u: Unit) { 0xDC00 <= u < 0xE000 }

  /** Unicode scalar values: code points that are not surrogates. */
  predicate IsScalar(c: int) {
    0 <= c < 0xD800 || 0xE000 <= c < 0x11_0000
  }

  function Units(c: int): (t: Text)
    requires IsScalar(c)
  {
    if c < 0x1_0000 then [c] else [0xD800 + (c - 0x1_0000) / 0x400, 0xDC00 + (c - 0x1_0000) % 0x400]
  }

  /** The code point a text starts with; None when it starts with a lone surrogate. */
  function FirstScalar(t: Text): (c: Option<int>)
    requires t != []
    ensures c.Some? ==> IsScalar(c.value) && Units(c.value) <= t
  {
    if IsLead(t[0]) then
      if |t| >= 2 && IsTrail(t[1]) then
        var (lead: int, trail: int) := (t[0], t[1]);
        var c := (lead - 0xD800) * 0x400 + (trail - 0xDC00) + 0x1_0000;
        assert Units(c) == t[..2];
        Some(c)
      else None
    else if IsTrail(t[0]) then None
    else Some(t[0])
  }

  /** A text in which every surrogate is half of a pair. */
  predicate WellFormed(t: Text) {
    t == [] || (FirstScalar(t).Some? && WellFormed(t[|Units(FirstScalar(t).value)|..]))
  }

  function Utf8(c: int): (octets: seq<nat>)
    requires IsScalar(c)
    ensures forall i :: 0 <= i < |octets| ==> octets[i] < 256
  {
    if c < 0x80 then [c]
    else if c < 0x800 then [0xC0 + c / 0x40, 0x80 + c % 0x40]
    else if c < 0x1_0000 then [0xE0 + c / 0x1000, 0x80 + c / 0x40 % 0x40, 0x80 + c % 0x40]
    else [0xF0 + c / 0x4_0000, 0x80 + c / 0x1000 % 0x40, 0x80 + c / 0x40 % 0x40, 0x80 + c % 0x40]
  }

  /** How many 1 bits an octet starts with, five standing for five or more. */
  function LeadingOnes(b: nat): nat {
    if b < 0x80 then 0 else if b < 0xC0 then 1 else if b < 0xE0 then 2 else if b < 0xF0 then 3 else if b < 0xF8 then 4 else 5
  }

  /** What a UTF-8 sequence of each length denotes, marker bits taken off. */
  function Utf8Value(o: seq<int>): int
    requires 1 <= |o| <= 4
  {
    if |o| == 1 then o[0]
    else if |o| == 2 then (o[0] - 0xC0) * 0x40 + (o[1] - 0x80)
    else if |o| == 3 then (o[0] - 0xE0) * 0x1000 + (o[1] - 0x80) * 0x40 + (o[2] - 0x80)
    else (o[0] - 0xF0) * 0x4_0000 + (o[1] - 0x80) * 0x1000 + (o[2] - 0x80) * 0x40 + (o[3] - 0x80)
  }

  /** The code point of one well-formed UTF-8 sequence: no overlong form, no surrogate, nothing past U+10FFFF. */
  function FromUtf8(o: seq<int>): (c: Option<int>)
    requires 1 <= |o| <= 4
    ensures c.Some? ==> IsScalar(c.value)
  {
    var least := if |o| == 1 then 0 else if |o| == 2 then 0x80 else if |o| == 3 then 0x800 else 0x1_0000;
    if (forall i :: 1 <= i < |o| ==> 0x80 <= o[i] < 0xC0) && Utf8Value(o) >= least && IsScalar(Utf8Value(o))
    then Some(Utf8Value(o)) else None
  }

  function HexDigit(v: nat): (u: Unit)
    requires v < 16
  {
    if v < 10 then 48 + v else 55 + v
  }

  function HexValue(u: Unit): (v: Option<nat>)
    ensures v.Some? ==> v.value < 16
  {
    if 48 <= u <= 57 then Some(u - 48)
    else if 65 <= u <= 70 then Some(u - 55)
    else if 97 <= u <= 102 then Some(u - 87)
    else None
  }

  function Escapes(octets: seq<nat>): (t: Text)
    requires forall i :: 0 <= i < |octets| ==> octets[i] < 256
    ensures |t| == 3 * |octets|
  {
    if octets == [] then []
    else [37, HexDigit(octets[0] / 16), HexDigit(octets[0] % 16)] + Escapes(octets[1..])
  }

  /** The octets of the first n escapes of a text; None when they are not all there. */
  function ReadEscapes(t: Text, n: nat): (o: Option<seq<nat>>)
    ensures o.Some? ==> |o.value| == n && |t| >= 3 * n
    decreases n
  {
    if n == 0 then Some([])
    else if |t| < 3 || t[0] != 37 || HexValue(t[1]).None? || HexValue(t[2]).None? then None
    else match ReadEscapes(t[3..], n - 1) {
      case None => None
      case Some(rest) => Some([HexValue(t[1]).value * 16 + HexValue(t[2]).value] + rest)
    }
  }

  function Prepend(a: Text, b: Option<Text>): Option<Text> {
    match b case None => None case Some(t) => Some(a + t)
  }

  /** None stands for the URIError a lone surrogate raises. */
  function EncodeComponent(t: Text): (r: Option<Text>) {
    if t == [] then Some([])
    else if Unreserved(t[0]) then Prepend([t[0]], EncodeComponent(t[1..]))
    else match FirstScalar(t) {
      case None => None
      case Some(c) => Prepend(Escapes(Utf8(c)), EncodeComponent(t[|Units(c)|..]))
    }
  }

  /** None stands for the URIError of a malformed escape. */
  function DecodeComponent(t: Text): Option<Text> {
    if t == [] then Some([])
    else if t[0] != 37 then Prepend([t[0]], DecodeComponent(t[1..]))
    else match ReadEscapes(t, 1) {
      case None => None
      case Some(first) =>
        var ones := LeadingOnes(first[0]);
        if ones == 0 then Prepend([first[0]], DecodeComponent(t[3..]))
        else if ones == 1 || ones > 4 then None
        else match ReadEscapes(t, ones) {
          case None => None
          case Some(octets) =>
            match FromUtf8(octets)
            case None => None
            case Some(c) => Prepend(Units(c), DecodeComponent(t[3 * ones..]))
        }
    }
  }

  lemma Utf8RoundTrip(c: int)
    requires IsScalar(c)
    ensures 1 <= |Utf8(c)| <= 4 && FromUtf8(Utf8(c)) == Some(c)
    ensures LeadingOnes(Utf8(c)[0]) == if |Utf8(c)| == 1 then 0 else |Utf8(c)|
  {
    Utf8Denotes(c);
  }

  lemma Utf8Denotes(c: int)
    requires IsScalar(c)
    ensures 1 <= |Utf8(c)| <= 4 && Utf8Value(Utf8(c)) == c
  {
    SixBitParts(c);
  }

  lemma SixBitParts(c: int)
    requires 0 <= c < 0x11_0000
    ensures c == c / 0x40 * 0x40 + c % 0x40
    ensures c / 0x40 == c / 0x1000 * 0x40 + c / 0x40 % 0x40
    ensures c / 0x1000 == c / 0x4_0000 * 0x40 + c / 0x1000 % 0x40
  {}

  lemma HexRoundTrip(b: nat)
    requires b < 256
    ensures HexValue(HexDigit(b / 16)) == Some(b / 16) && HexValue(HexDigit(b % 16)) == Some(b % 16)
    ensures b / 16 * 16 + b % 16 == b
  {}

  lemma EscapesBegin(octets: seq<nat>, rest: Text)
    requires octets != [] && forall i :: 0 <= i < |octets| ==> octets[i] < 256
    ensures var t := Escapes(octets) + rest;
      && |t| >= 3 && t[0] == 37 && t[1] == HexDigit(octets[0] / 16) && t[2] == HexDigit(octets[0] % 16)
      && t[3..] == Escapes(octets[1..]) + rest
  {
    AfterThree(37, HexDigit(octets[0] / 16), HexDigit(octets[0] % 16), Escapes(octets[1..]), rest);
  }

  lemma AfterThree(x: Unit, y: Unit, z: Unit, more: Text, rest: Text)
    ensures var t := [x, y, z] + more + rest; t[0] == x && t[1] == y && t[2] == z && t[3..] == more + rest
  {}

  lemma {:induction false} EscapesReadBack(octets: seq<nat>, rest: Text)
    requires forall i :: 0 <= i < |octets| ==> octets[i] < 256
    ensures ReadEscapes(Escapes(octets) + rest, |octets|) == Some(octets)
  {
    if octets != [] {
      HexRoundTrip(octets[0]);
      EscapesReadBack(octets[1..], rest);
      EscapesBegin(octets, rest);
      FirstThenRest(octets);
    }
  }

  /** One escaped code point decodes to its units, whatever follows. */
  lemma DecodeScalar(c: int, rest: Text)
    requires IsScalar(c)
    ensures DecodeComponent(Escapes(Utf8(c)) + rest) == Prepend(Units(c), DecodeComponent(rest))
  {
    hide ReadEscapes, Utf8, HexDigit;
    var octets := Utf8(c);
    var t := Escapes(octets) + rest;
    Utf8RoundTrip(c);
    EscapesReadBack(octets, rest);
    assert t == Escapes(octets[..1]) + t[3..] by { assert octets[..1][1..] == []; }
    EscapesReadBack(octets[..1], t[3..]);
    assert t[3 * |octets|..] == rest;
  }

  /** Decoding undoes encoding, and encoding fails exactly on texts with a lone surrogate. */
  lemma {:induction false} ComponentRoundTrip(t: Text)
    ensures EncodeComponent(t).Some? <==> WellFormed(t)
    ensures WellFormed(t) ==> DecodeComponent(EncodeComponent(t).value) == Some(t)
    decreases |t|
  {
    if t != [] && FirstScalar(t).Some? {
      var c := FirstScalar(t).value;
      var rest := t[|Units(c)|..];
      assert t == Units(c) + rest;
      ComponentRoundTrip(rest);
      if WellFormed(t) {
        var encoded := EncodeComponent(rest).value;
        if Unreserved(t[0]) {
          assert ([t[0]] + encoded)[1..] == encoded;
        } else {
          DecodeScalar(c, encoded);
        }
      }
    }
  }

  /** The encoded text is ASCII: unreserved characters and '%'. */
  lemma {:induction false} EncodedIsAscii(t: Text)
    requires EncodeComponent(t).Some?
    ensures forall i :: 0 <= i < |EncodeComponent(t).value| ==> EncodeComponent(t).value[i] < 128
    decreases |t|
  {
    if t != [] {
      if Unreserved(t[0]) {
        EncodedIsAscii(t[1..]);
      } else {
        var c := FirstScalar(t).value;
        EncodedIsAscii(t[|Units(c)|..]);
        EscapesAreAscii(Utf8(c));
      }
    }
  }

  lemma {:induction false} EscapesAreAscii(octets: seq<nat>)
    requires forall i :: 0 <= i < |octets| ==> octets[i] < 256
    ensures forall i :: 0 <= i < |Escapes(octets)| ==> Escapes(octets)[i] < 128
  {
    if octets != [] {
      EscapesAreAscii(octets[1..]);
    }
  }

  // ---- What it writes, code point by code point ----

  /** An octet as a percent sign and two upper-case hexadecimal digits. */
  function Percent(b: nat): Text
    requires b < 256
  {
    [0x25, HexAt(b / 16), HexAt(b % 16)]
  }

  function HexAt(v: nat): Unit
    requires v < 16
  {
    if v < 10 then '0' as int + v else 'A' as int + (v - 10)
  }

  /** Letters, digits and nine marks are written as they are. */
  predicate StaysRaw(c: int) {
    || ('A' as int <= c <= 'Z' as int) || ('a' as int <= c <= 'z' as int) || ('0' as int <= c <= '9' as int)
    || c in {'-' as int, '_' as int, '.' as int, '!' as int, '~' as int, '*' as int, '\'' as int, '(' as int, ')' as int}
  }

  /** Any other code point is written as the octets of RFC 3629, six bits to each octet after the first. */
  function WrittenAs(c: int): Text
    requires IsScalar(c)
  {
    if StaysRaw(c) then [c]
    else if c < 128 then Percent(c)
    else if c < 2048 then Percent(192 + c / 64) + Percent(128 + c % 64)
    else if c < 65536 then Percent(224 + c / 4096) + Percent(128 + c / 64 % 64) + Percent(128 + c % 64)
    else Percent(240 + c / 262144) + Percent(128 + c / 4096 % 64) + Percent(128 + c / 64 % 64) + Percent(128 + c % 64)
  }

  lemma RawIsUnreserved(u: Unit)
    ensures StaysRaw(u) <==> Unreserved(u)
    ensures StaysRaw(u) ==> IsScalar(u) && Units(u) == [u]
  {}

  lemma PercentIsEscape(b: nat)
    requires b < 256
    ensures Escapes([b]) == Percent(b)
  {
    assert [b][1..] == [];
  }

  lemma EscapesStep(octets: seq<nat>)
    requires octets != [] && forall i :: 0 <= i < |octets| ==> octets[i] < 256
    ensures Escapes(octets) == Percent(octets[0]) + Escapes(octets[1..])
  {}

  lemma EscapedOctets(c: int)
    requires IsScalar(c) && !StaysRaw(c)
    ensures Escapes(Utf8(c)) == WrittenAs(c)
  {
    hide Escapes, Percent, StaysRaw;
    var o := Utf8(c);
    if |o| == 1 {
      PercentIsEscape(o[0]);
    } else if |o| == 2 {
      EscapesStep(o);
      PercentIsEscape(o[1]);
    } else if |o| == 3 {
      EscapesStep(o);
      EscapesStep(o[1..]);
      PercentIsEscape(o[2]);
    } else {
      EscapesStep(o);
      EscapesStep(o[1..]);
      EscapesStep(o[2..]);
      PercentIsEscape(o[3]);
    }
  }

  /** Encoding writes a code point so, whatever follows, and goes on behind it. */
  lemma EncodesScalar(t: Text)
    requires t != [] && WellFormed(t)
    ensures FirstScalar(t).Some? && Units(FirstScalar(t).value) <= t
    ensures var c := FirstScalar(t).value;
      EncodeComponent(t) == Prepend(WrittenAs(c), EncodeComponent(t[|Units(c)|..])) && EncodeComponent([]) == Some([])
  {
    hide StaysRaw, Unreserved, Utf8, Escapes;
    var c := FirstScalar(t).value;
    RawIsUnreserved(t[0]);
    if Unreserved(t[0]) {
      assert c == t[0];
    } else {
      assert !StaysRaw(c) by { RawIsOneUnit(t, c); }
      EscapedOctets(c);
    }
  }

  lemma RawIsOneUnit(t: Text, c: int)
    requires t != [] && FirstScalar(t) == Some(c) && !StaysRaw(t[0])
    ensures !StaysRaw(c)
  {}

  /** Decoding takes octets for a code point only if they are the ones encoding writes: no overlong form passes. */
  lemma DecodesStrictly(o: seq<int>, c: int)
    requires 1 <= |o| <= 4 && forall i :: 0 <= i < |o| ==> 0 <= o[i] < 256
    requires LeadingOnes(o[0]) == if |o| == 1 then 0 else |o|
    ensures FromUtf8(o) == Some(c) <==> IsScalar(c) && Utf8(c) == o
  {
    if IsScalar(c) && Utf8(c) == o {
      Utf8RoundTrip(c);
    }
    if FromUtf8(o) == Some(c) {
      Canonical(o, c);
    }
  }

  /** A number put together from six-bit parts comes apart into them. */
  lemma SixBitsApart(high: int, low: int)
    requires 0 <= low < 0x40
    ensures (high * 0x40 + low) / 0x40 == high && (high * 0x40 + low) % 0x40 == low
  {}

  lemma PartsOfFour(a: int, b: int, d: int, e: int)
    requires 0 <= b < 0x40 && 0 <= d < 0x40 && 0 <= e < 0x40
    ensures var c := a * 0x4_0000 + b * 0x1000 + d * 0x40 + e;
      && c % 0x40 == e && c / 0x40 == a * 0x1000 + b * 0x40 + d && c / 0x40 % 0x40 == d
      && c / 0x1000 == a * 0x40 + b && c / 0x1000 % 0x40 == b && c / 0x4_0000 == a
  {
    var c := a * 0x4_0000 + b * 0x1000 + d * 0x40 + e;
    SixBitsApart(a * 0x1000 + b * 0x40 + d, e);
    assert c == (a * 0x1000 + b * 0x40 + d) * 0x40 + e;
    SixBitsApart(a * 0x40 + b, d);
    SixBitsApart(a, b);
    assert c / 0x1000 == c / 0x40 / 0x40 && c / 0x4_0000 == c / 0x1000 / 0x40;
  }

  lemma CanonicalTwo(a: int, b: int)
    requires 0xC0 <= a < 0xE0 && 0x80 <= b < 0xC0 && (a - 0xC0) * 0x40 + (b - 0x80) >= 0x80
    ensures Utf8((a - 0xC0) * 0x40 + (b - 0x80)) == [a, b]
  {
    PartsOfFour(0, 0, a - 0xC0, b - 0x80);
  }

  lemma CanonicalThree(a: int, b: int, d: int)
    requires 0xE0 <= a < 0xF0 && 0x80 <= b < 0xC0 && 0x80 <= d < 0xC0
    requires var c := (a - 0xE0) * 0x1000 + (b - 0x80) * 0x40 + (d - 0x80); c >= 0x800 && IsScalar(c)
    ensures Utf8((a - 0xE0) * 0x1000 + (b - 0x80) * 0x40 + (d - 0x80)) == [a, b, d]
  {
    PartsOfFour(0, a - 0xE0, b - 0x80, d - 0x80);
  }

  lemma CanonicalFour(a: int, b: int, d: int, e: int)
    requires 0xF0 <= a < 0xF8 && 0x80 <= b < 0xC0 && 0x80 <= d < 0xC0 && 0x80 <= e < 0xC0
    requires var c := (a - 0xF0) * 0x4_0000 + (b - 0x80) * 0x1000 + (d - 0x80) * 0x40 + (e - 0x80); c >= 0x1_0000 && IsScalar(c)
    ensures Utf8((a - 0xF0) * 0x4_0000 + (b - 0x80) * 0x1000 + (d - 0x80) * 0x40 + (e - 0x80)) == [a, b, d, e]
  {
    PartsOfFour(a - 0xF0, b - 0x80, d - 0x80, e - 0x80);
  }

  lemma Canonical(o: seq<int>, c: int)
    requires 1 <= |o| <= 4 && forall i :: 0 <= i < |o| ==> 0 <= o[i] < 256
    requires LeadingOnes(o[0]) == if |o| == 1 then 0 else |o|
    requires FromUtf8(o) == Some(c)
    ensures IsScalar(c) && Utf8(c) == o
  {
    if |o| == 1 {
      assert o == [o[0]];
    } else {
      hide Utf8;
      if |o| == 2 {
        CanonicalTwo(o[0], o[1]);
        assert o == [o[0], o[1]];
      } else if |o| == 3 {
        CanonicalThree(o[0], o[1], o[2]);
        assert o == [o[0], o[1], o[2]];
      } else {
        CanonicalFour(o[0], o[1], o[2], o[3]);
        assert o == [o[0], o[1], o[2], o[3]];
      }
    }
  }
}
