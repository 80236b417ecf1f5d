/**
 * Integers as JavaScript prints them, and texts as `Number` reads them (ECMA-262, section 7.1.4.1), for
 * texts without a '.'. Rounding a mathematical value to the nearest double is a parameter.
 */
module Numbers {
  import opened Wrappers
  import opened Arithmetic
  import opened Texts

  datatype Num = NaN | Infinite(negative: bool) | Finite(value: real)

  /** The nearest double of a mathematical value. */
  type Rounding = real -> Num

  const MAX_SAFE: int := 0x1F_FFFF_FFFF_FFFF

  /** What is assumed of rounding: integers up to 2^53 - 1 are doubles, so they are left alone. */
  ghost predicate ExactOnSafe(round: Rounding) {
    forall v: real :: v == v.Floor as real && -MAX_SAFE <= v.Floor <= MAX_SAFE ==> round(v) == Finite(v)
  }

  predicate IsDigit(u: Unit) {
    48 <= u <= 57
  }

  predicate AllDigits(t: Text) {
    t != [] && forall i :: 0 <= i < |t| ==> IsDigit(t[i])
  }

  function Decimal(n: nat): (t: Text)
    ensures AllDigits(t)
  {
    if n < 10 then [48 + n] else Decimal(n / 10) + [48 + n % 10]
  }

  function IntegerText(n: int): Text {
    if n < 0 then [45] + Decimal(-n) else Decimal(n)
  }

  /** The value of a digit in a base, letters counting from ten in either case. */
  function DigitValue(u: Unit, base: nat): Option<nat> {
    var v := if IsDigit(u) then u - 48 else if 65 <= u <= 90 then u - 55 else if 97 <= u <= 122 then u - 87 else base;
    if v < base then Some(v) else None
  }

  /** A non-empty run of digits in a base. */
  function DigitsValue(t: Text, base: nat): Option<nat> {
    if t == [] then None
    else
      var last := |t| - 1;
      match DigitValue(t[last], base)
      case None => None
      case Some(d) =>
        if last == 0 then Some(d)
        else match DigitsValue(t[..last], base) { case None => None case Some(v) => Some(v * base + d) }
  }

  lemma {:induction false} DigitsOfDecimal(n: nat)
    ensures DigitsValue(Decimal(n), 10) == Some(n)
  {
    if n >= 10 {
      DigitsOfDecimal(n / 10);
      assert Decimal(n)[..|Decimal(n)| - 1] == Decimal(n / 10);
    }
  }

  /** The first position of either of two characters, or the length when there is none. */
  function Find(t: Text, a: Unit, b: Unit): (k: nat)
    ensures k <= |t| && (forall i :: 0 <= i < k ==> t[i] != a && t[i] != b)
    ensures k < |t| ==> t[k] == a || t[k] == b
  {
    if t == [] || t[0] == a || t[0] == b then 0 else 1 + Find(t[1..], a, b)
  }

  const INFINITY: Text := [73, 110, 102, 105, 110, 105, 116, 121]

  function Scaled(digits: nat, exponent: int): real {
    if exponent >= 0 then (digits * Pow(10, exponent)) as real
    else digits as real / Pow(10, -exponent) as real
  }

  function Signed(t: Text): (bool, Text) {
    if t != [] && (t[0] == 43 || t[0] == 45) then (t[0] == 45, t[1..]) else (false, t)
  }

  function SignedDigits(t: Text): Option<int> {
    var (negative, digits) := Signed(t);
    match DigitsValue(digits, 10)
    case None => None
    case Some(n) => var v: int := n; Some(if negative then -v else v)
  }

  /** StrUnsignedDecimalLiteral without a fraction: digits, and perhaps an exponent. */
  function DecimalLiteral(t: Text): Option<real> {
    var e := Find(t, 101, 69);
    match DigitsValue(t[..e], 10)
    case None => None
    case Some(n) =>
      if e == |t| then Some(n as real)
      else match SignedDigits(t[e + 1..]) { case None => None case Some(x) => Some(Scaled(n, x)) }
  }

  function PrefixBase(u: Unit): Option<nat> {
    if u == 120 || u == 88 then Some(16)
    else if u == 111 || u == 79 then Some(8)
    else if u == 98 || u == 66 then Some(2)
    else None
  }

  function NumberOf(t: Text, round: Rounding): Num
    requires 46 !in t
  {
    var s := Trim(t);
    if s == [] then Finite(0.0)
    else if |s| >= 2 && s[0] == 48 && PrefixBase(s[1]).Some? then
      match DigitsValue(s[2..], PrefixBase(s[1]).value) { case None => NaN case Some(n) => round(n as real) }
    else
      var (negative, unsigned) := Signed(s);
      if unsigned == INFINITY then Infinite(negative)
      else match DecimalLiteral(unsigned) {
        case None => NaN
        case Some(v) => round(if negative then -v else v)
      }
  }

  lemma DecimalIsPlain(n: nat)
    ensures Trimmed(Decimal(n)) && Find(Decimal(n), 101, 69) == |Decimal(n)| && 46 !in Decimal(n)
    ensures |Decimal(n)| >= 2 ==> PrefixBase(Decimal(n)[1]).None?
  {}

  /** Reading what was printed gives the integer back, sign included. */
  lemma NumberOfInteger(n: int, round: Rounding)
    requires ExactOnSafe(round) && -MAX_SAFE <= n <= MAX_SAFE
    ensures 46 !in IntegerText(n) && NumberOf(IntegerText(n), round) == Finite(n as real)
  {
    var m := if n < 0 then -n else n;
    assert (n as real).Floor == n;
    var t := IntegerText(n);
    DecimalIsPlain(m);
    LiteralOfDecimal(m);
    TrimOfTrimmed(t);
    assert Signed(t) == (n < 0, Decimal(m));
  }

  lemma LiteralOfDecimal(m: nat)
    ensures DecimalLiteral(Decimal(m)) == Some(m as real) && Decimal(m) != INFINITY
  {
    DecimalIsPlain(m);
    DigitsOfDecimal(m);
    assert Decimal(m)[..|Decimal(m)|] == Decimal(m);
    assert Decimal(m)[0] != INFINITY[0];
  }

  // ---- What else it reads ----

  /** The digit a character stands for: decimal, or a letter from ten on. */
  function DigitOf(u: Unit): Option<nat> {
    if '0' as int <= u <= '9' as int then Some(u - '0' as int)
    else if 'a' as int <= u <= 'z' as int then Some(u - 'a' as int + 10)
    else if 'A' as int <= u <= 'Z' as int then Some(u - 'A' as int + 10)
    else None
  }

  /** Digits are read by value and place: the last counts as it is, those before it `base` times as much. */
  lemma DigitsByPlace(t: Text, u: Unit, base: nat)
    requires 2 <= base <= 36
    ensures var d := DigitOf(u);
      && DigitsValue([], base) == None
      && DigitsValue([u], base) == (if d.Some? && d.value < base then d else None)
      && (t != [] ==>
            DigitsValue(t + [u], base)
              == if d.Some? && d.value < base && DigitsValue(t, base).Some?
                 then Some(DigitsValue(t, base).value * base + d.value) else None)
  {
    assert (t + [u])[..|t|] == t;
  }

  /** White space around a number is skipped, and white space alone is zero. */
  lemma ReadsTrimmed(t: Text, round: Rounding)
    requires 0x2E !in t
    ensures AllSpace(t) ==> NumberOf(t, round) == Finite(0.0)
    ensures 0x2E !in Trim(t) && NumberOf(Trim(t), round) == NumberOf(t, round)
  {
    TrimEmpties(t);
    TrimIsTrimmed(t);
    TrimOfTrimmed(Trim(t));
    var before, after := TrimIsTheMiddle(t);
    assert forall u :: u in Trim(t) ==> u in t;
  }

  /** The base a prefix letter announces. */
  predicate Announces(u: Unit, base: nat) {
    || (base == 16 && (u == 'x' as int || u == 'X' as int))
    || (base == 8 && (u == 'o' as int || u == 'O' as int))
    || (base == 2 && (u == 'b' as int || u == 'B' as int))
  }

  lemma ReadsPrefixed(u: Unit, digits: Text, base: nat, round: Rounding)
    requires Announces(u, base) && Trimmed(['0' as int, u] + digits) && 0x2E !in ['0' as int, u] + digits
    ensures NumberOf(['0' as int, u] + digits, round)
         == match DigitsValue(digits, base) case None => NaN case Some(n) => round(n as real)
  {
    var t: Text := ['0' as int, u] + digits;
    TrimOfTrimmed(t);
    assert t[2..] == digits;
  }

  lemma FindNothing(t: Text, a: Unit, b: Unit)
    requires a !in t && b !in t
    ensures Find(t, a, b) == |t|
  {}

  lemma FindFirst(t: Text, u: Unit, rest: Text, a: Unit, b: Unit)
    requires a !in t && b !in t && (u == a || u == b)
    ensures Find(t + [u] + rest, a, b) == |t|
  {
    var all := t + [u] + rest;
    assert all[|t|] == u && forall i :: 0 <= i < |t| ==> all[i] == t[i];
  }

  lemma DigitsAreNoLetters(t: Text)
    requires AllDigits(t)
    ensures 101 !in t && 69 !in t && 43 !in t && 45 !in t
  {}

  lemma ReadsMantissa(digits: Text, e: Unit, rest: Text, n: nat, x: int)
    requires AllDigits(digits) && (e == 101 || e == 69)
    requires DigitsValue(digits, 10) == Some(n) && SignedDigits(rest) == Some(x)
    ensures DecimalLiteral(digits + [e] + rest) == Some(Scaled(n, x))
  {
    hide DigitsValue, SignedDigits, Scaled;
    var t := digits + [e] + rest;
    DigitsAreNoLetters(digits);
    FindFirst(digits, e, rest, 101, 69);
    assert t[..|digits|] == digits && t[|digits| + 1..] == rest;
  }

  lemma ReadsSigned(exponent: Text, x: int)
    requires AllDigits(exponent) && x >= 0 && DigitsValue(exponent, 10) == Some(x)
    ensures SignedDigits(exponent) == Some(x) && SignedDigits([0x2D] + exponent) == Some(-x)
    ensures SignedDigits([0x2B] + exponent) == Some(x)
  {
    hide DigitsValue;
    DigitsAreNoLetters(exponent);
    assert ([0x2D] + exponent)[1..] == exponent && ([0x2B] + exponent)[1..] == exponent;
  }

  lemma ScaledUp(n: nat, x: nat)
    ensures Scaled(n, x) == (n * Pow(10, x)) as real
  {}

  lemma ScaledDown(n: nat, x: int)
    requires x >= 0
    ensures Scaled(n, -x) * Pow(10, x) as real == n as real
  {}

  /** An exponent moves the digits by as many places: up, or with a minus sign down. */
  lemma ReadsExponent(digits: Text, e: Unit, exponent: Text, n: nat, x: nat)
    requires AllDigits(digits) && AllDigits(exponent) && (e == 'e' as int || e == 'E' as int)
    requires DigitsValue(digits, 10) == Some(n) && DigitsValue(exponent, 10) == Some(x)
    ensures DecimalLiteral(digits + [e] + exponent) == Some((n * Pow(10, x)) as real)
    ensures DecimalLiteral(digits + [e] + ([0x2B] + exponent)) == Some((n * Pow(10, x)) as real)
    ensures DecimalLiteral(digits + [e] + ([0x2D] + exponent)).Some?
    ensures DecimalLiteral(digits + [e] + ([0x2D] + exponent)).value * Pow(10, x) as real == n as real
  {
    hide DecimalLiteral, DigitsValue, Scaled, Pow, SignedDigits;
    var places: int := x;
    assert Scaled(n, places) == (n * Pow(10, x)) as real by { ScaledUp(n, x); }
    ReadsSigned(exponent, places);
    ReadsMantissa(digits, e, exponent, n, places);
    ReadsMantissa(digits, e, [0x2B] + exponent, n, places);
    ReadsMantissa(digits, e, [0x2D] + exponent, n, -places);
    ScaledDown(n, places);
  }

  /** A sign before a number that is not prefixed turns its value, and no more. */
  lemma ReadsSign(t: Text, round: Rounding)
    requires t != [] && IsDigit(t[0]) && Trimmed(t) && 0x2E !in t
    requires |t| >= 2 ==> t[0] != '0' as int || PrefixBase(t[1]).None?
    ensures NumberOf(t, round) == (match DecimalLiteral(t) case None => NaN case Some(v) => round(v))
    ensures NumberOf([0x2D] + t, round) == match DecimalLiteral(t) case None => NaN case Some(v) => round(-v)
  {
    hide DecimalLiteral;
    var signed := [0x2D] + t;
    TrimOfTrimmed(t);
    TrimOfTrimmed(signed);
    assert signed[1..] == t;
    assert t[0] != INFINITY[0];
  }

  lemma InfinityIsTrimmed()
    ensures |INFINITY| == 8 && INFINITY[0] == 'I' as int && Trimmed(INFINITY) && 0x2E !in INFINITY
    ensures INFINITY == [
      'I' as int, 'n' as int, 'f' as int, 'i' as int, 'n' as int, 'i' as int, 't' as int, 'y' as int]
  {}

  lemma SignedInfinity(sign: Text, round: Rounding)
    requires sign == [] || sign == [0x2D] || sign == [0x2B]
    ensures 0x2E !in sign + INFINITY && NumberOf(sign + INFINITY, round) == Infinite(sign == [0x2D])
  {
    hide INFINITY, DecimalLiteral, DigitsValue;
    var t := sign + INFINITY;
    InfinityIsTrimmed();
    TrimOfTrimmed(t);
    assert sign == [] ==> t == INFINITY;
    assert sign != [] ==> t[1..] == INFINITY;
  }

  /** The word `Infinity`, with or without a sign, is read as infinite. */
  lemma ReadsInfinity(round: Rounding)
    ensures var word: Text := [
        'I' as int, 'n' as int, 'f' as int, 'i' as int, 'n' as int, 'i' as int, 't' as int, 'y' as int];
      && 0x2E !in [] + word && 0x2E !in [0x2D] + word && 0x2E !in [0x2B] + word
      && NumberOf([] + word, round) == Infinite(false)
      && NumberOf([0x2D] + word, round) == Infinite(true) && NumberOf([0x2B] + word, round) == Infinite(false)
  {
    hide NumberOf, INFINITY;
    InfinityIsTrimmed();
    SignedInfinity([], round);
    SignedInfinity([0x2D], round);
    SignedInfinity([0x2B], round);
  }
}
