/**
 * The small part of JavaScript's built-in behaviour the backend and the
 * front end rely on: `String.prototype.trim`, `toUpperCase`/`toLowerCase`,
 * `includes`, `String(n)` for integers, string `length` (UTF-16 code units),
 * `Number(...)` coercions reduced to "finite or not", and `Math.min`/`Math.max`
 * over IEEE numbers without rounding.
 */
module Js {

  /** The outcome of `Number(v)` followed by `Number.isFinite`. */
  datatype Coerced<T> = NotFinite | Finite(value: T)

  /** A JavaScript number: NaN, the two infinities, or a finite value (rounding is not modelled). */
  datatype JsNumber = NaN | PosInf | NegInf | Num(value: real)

  /** `Math.max(a, b)`: NaN if either is NaN. */
  function Max(a: JsNumber, b: JsNumber): (r: JsNumber)
    ensures (a.NaN? || b.NaN?) <==> r.NaN?
    ensures !r.NaN? ==> r == a || r == b
    ensures !r.NaN? ==> Le(a, r) && Le(b, r)
  {
    if a.NaN? || b.NaN? then NaN
    else if Le(a, b) then b else a
  }

  /** `Math.min(a, b)`: NaN if either is NaN. */
  function Min(a: JsNumber, b: JsNumber): (r: JsNumber)
    ensures (a.NaN? || b.NaN?) <==> r.NaN?
    ensures !r.NaN? ==> r == a || r == b
    ensures !r.NaN? ==> Le(r, a) && Le(r, b)
  {
    if a.NaN? || b.NaN? then NaN
    else if Le(a, b) then a else b
  }

  /** `a <= b` on numbers (false whenever NaN is involved). */
  predicate Le(a: JsNumber, b: JsNumber) {
    match (a, b)
    case (NaN, _) => false
    case (_, NaN) => false
    case (NegInf, _) => true
    case (_, PosInf) => true
    case (PosInf, _) => false
    case (_, NegInf) => false
    case (Num(x), Num(y)) => x <= y
  }

  /** `a + b` with IEEE rules for NaN and the infinities. */
  function Add(a: JsNumber, b: JsNumber): JsNumber {
    match (a, b)
    case (NaN, _) => NaN
    case (_, NaN) => NaN
    case (PosInf, NegInf) => NaN
    case (NegInf, PosInf) => NaN
    case (PosInf, _) => PosInf
    case (_, PosInf) => PosInf
    case (NegInf, _) => NegInf
    case (_, NegInf) => NegInf
    case (Num(x), Num(y)) => Num(x + y)
  }

  /** `a * b` with IEEE rules for NaN and the infinities (the sign of zero is not modelled). */
  function Mul(a: JsNumber, b: JsNumber): JsNumber {
    match (a, b)
    case (NaN, _) => NaN
    case (_, NaN) => NaN
    case (Num(x), Num(y)) => Num(x * y)
    case (Num(x), _) => if x == 0.0 then NaN else if (x > 0.0) == b.PosInf? then PosInf else NegInf
    case (_, Num(y)) => if y == 0.0 then NaN else if (y > 0.0) == a.PosInf? then PosInf else NegInf
    case _ => if a == b then PosInf else NegInf
  }

  /** `Number(v) || 0`: NaN (and zero) become zero, everything else stays. */
  function OrZero(a: JsNumber): (r: JsNumber)
    ensures !r.NaN?
    ensures !a.NaN? ==> r == a
  {
    if a.NaN? then Num(0.0) else a
  }

  // ---------------------------------------------------------------- strings

  /** WhiteSpace and LineTerminator code points, which `String.prototype.trim` removes. */
  predicate IsWhite(c: char) {
    c == '\t' || c == '\n' || c == '\U{000B}' || c == '\U{000C}' || c == '\r' || c == ' ' ||
    c == '\U{00A0}' || c == '\U{1680}' || ('\U{2000}' <= c <= '\U{200A}') ||
    c == '\U{2028}' || c == '\U{2029}' || c == '\U{202F}' || c == '\U{205F}' || c == '\U{3000}' ||
    c == '\U{FEFF}'
  }

  predicate AllWhite(s: string) {
    forall i :: 0 <= i < |s| ==> IsWhite(s[i])
  }

  function TrimStart(s: string): (r: string)
    ensures |r| <= |s| && r == s[|s| - |r|..]
    ensures forall i :: 0 <= i < |s| - |r| ==> IsWhite(s[i])
    ensures r == [] || !IsWhite(r[0])
  {
    if s != [] && IsWhite(s[0]) then
      var r := TrimStart(s[1..]);
      assert forall i :: 1 <= i < |s| ==> s[i] == s[1..][i - 1];
      r
    else s
  }

  function TrimEnd(s: string): (r: string)
    ensures |r| <= |s| && r == s[..|r|]
    ensures forall i :: |r| <= i < |s| ==> IsWhite(s[i])
    ensures r == [] || !IsWhite(r[|r| - 1])
  {
    if s != [] && IsWhite(s[|s| - 1]) then TrimEnd(s[..|s| - 1]) else s
  }

  /** `s.trim()`. */
  function Trim(s: string): (r: string)
  {
    TrimEnd(TrimStart(s))
  }

  /** Trimming removes exactly a white prefix and a white suffix and leaves no white at either end. */
  lemma TrimIsInfix(s: string)
    ensures exists i, j :: 0 <= i <= j <= |s| && Trim(s) == s[i..j] && AllWhite(s[..i]) && AllWhite(s[j..])
    ensures Trim(s) == [] || (!IsWhite(Trim(s)[0]) && !IsWhite(Trim(s)[|Trim(s)| - 1]))
  {
    var i, j := TrimBounds(s);
    var t := TrimStart(s);
    if Trim(s) != [] {
      assert Trim(s)[0] == t[0];
    }
  }

  /** Trimming leaves nothing exactly when the text is all white. */
  lemma TrimBlank(s: string)
    ensures Trim(s) == [] <==> AllWhite(s)
  {
    var i, j := TrimBounds(s);
    if Trim(s) == [] {
      forall k | 0 <= k < |s| ensures IsWhite(s[k]) {
        if k < i {
          assert s[..i][k] == s[k];
        } else {
          assert s[j..][k - j] == s[k];
        }
      }
    } else {
      TrimIsInfix(s);
      assert Trim(s)[0] == s[i];
    }
  }

  /** Where the trimmed text starts and ends in s. */
  lemma TrimBounds(s: string) returns (i: nat, j: nat)
    ensures 0 <= i <= j <= |s| && Trim(s) == s[i..j] && AllWhite(s[..i]) && AllWhite(s[j..])
  {
    var t := TrimStart(s);
    i := |s| - |t|;
    WhitePrefix(s, i);
    var r := TrimEnd(t);
    j := i + |r|;
    forall k | j <= k < |s| ensures IsWhite(s[k]) {
      assert s[k] == t[k - i];
    }
    WhiteSuffix(s, j);
    assert t == s[i..];
    assert t[..|r|] == s[i..j];
  }

  lemma WhitePrefix(s: string, i: nat)
    requires i <= |s| && forall k :: 0 <= k < i ==> IsWhite(s[k])
    ensures AllWhite(s[..i])
  {
    assert forall k :: 0 <= k < i ==> s[..i][k] == s[k];
  }

  lemma WhiteSuffix(s: string, j: nat)
    requires j <= |s| && forall k :: j <= k < |s| ==> IsWhite(s[k])
    ensures AllWhite(s[j..])
  {
    assert forall k :: 0 <= k < |s| - j ==> s[j..][k] == s[j + k];
  }

  /** A string with no white at either end is its own trimmed form. */
  lemma TrimKeeps(s: string)
    requires s == [] || (!IsWhite(s[0]) && !IsWhite(s[|s| - 1]))
    ensures Trim(s) == s
  {
    assert TrimStart(s) == s;
    assert TrimEnd(s) == s;
  }

  /** Trimming a trimmed string changes nothing. */
  lemma TrimIdempotent(s: string)
    ensures Trim(Trim(s)) == Trim(s)
  {
    var r := Trim(s);
    TrimIsInfix(s);
    if r != [] {
      assert !IsWhite(r[0]);
      assert TrimStart(r) == r;
      assert TrimEnd(r) == r;
    }
  }

  /** Length as JavaScript counts it: code points above U+FFFF take two UTF-16 code units. */
  function Utf16Length(s: string): (n: nat)
    ensures |s| <= n <= 2 * |s|
  {
    if s == [] then 0 else (if s[0] as int > 0xFFFF then 2 else 1) + Utf16Length(s[1..])
  }

  /** Upper-case mapping of one character: ASCII letters and the Polish letters. */
  function UpperChar(c: char): char {
    if 'a' <= c <= 'z' then (c as int - 32) as char
    else if c == '\U{0105}' then '\U{0104}'
    else if c == '\U{0107}' then '\U{0106}'
    else if c == '\U{0119}' then '\U{0118}'
    else if c == '\U{0142}' then '\U{0141}'
    else if c == '\U{0144}' then '\U{0143}'
    else if c == '\U{00F3}' then '\U{00D3}'
    else if c == '\U{015B}' then '\U{015A}'
    else if c == '\U{017A}' then '\U{0179}'
    else if c == '\U{017C}' then '\U{017B}'
    else c
  }

  /** Lower-case mapping of one character: ASCII letters and the Polish letters. */
  function LowerChar(c: char): char {
    if 'A' <= c <= 'Z' then (c as int + 32) as char
    else if c == '\U{0104}' then '\U{0105}'
    else if c == '\U{0106}' then '\U{0107}'
    else if c == '\U{0118}' then '\U{0119}'
    else if c == '\U{0141}' then '\U{0142}'
    else if c == '\U{0143}' then '\U{0144}'
    else if c == '\U{00D3}' then '\U{00F3}'
    else if c == '\U{015A}' then '\U{015B}'
    else if c == '\U{0179}' then '\U{017A}'
    else if c == '\U{017B}' then '\U{017C}'
    else c
  }

  /** `s.toUpperCase()` (character by character, so the length is kept). */
  function Upper(s: string): (r: string)
    ensures |r| == |s| && forall i :: 0 <= i < |s| ==> r[i] == UpperChar(s[i])
  {
    seq(|s|, i requires 0 <= i < |s| => UpperChar(s[i]))
  }

  /** `s.toLowerCase()` (character by character, so the length is kept). */
  function Lower(s: string): (r: string)
    ensures |r| == |s| && forall i :: 0 <= i < |s| ==> r[i] == LowerChar(s[i])
  {
    seq(|s|, i requires 0 <= i < |s| => LowerChar(s[i]))
  }

  /** `s.includes(q)`: q occurs in s as a contiguous piece. */
  predicate Includes(s: string, q: string) {
    exists i | 0 <= i <= |s| - |q| :: OccursAt(s, q, i)
  }

  /** q occurs in s starting at position i. */
  predicate OccursAt(s: string, q: string, i: int) {
    0 <= i <= |s| - |q| && s[i..i + |q|] == q
  }

  // ------------------------------------------------------- integer strings

  function DigitChar(d: nat): (c: char)
    requires d < 10
    ensures '0' <= c <= '9'
  {
    ('0' as int + d) as char
  }

  /** Decimal digits of a natural number, without leading zeros. */
  function NatToString(n: nat): (r: string)
    ensures |r| >= 1 && forall i :: 0 <= i < |r| ==> '0' <= r[i] <= '9'
    ensures (r[0] == '0') <==> n == 0
    decreases n
  {
    if n < 10 then [DigitChar(n)] else NatToString(n / 10) + [DigitChar(n % 10)]
  }

  /** `String(n)` for an integer number. */
  function IntToString(n: int): (r: string)
    ensures r != [] && ':' !in r
    ensures forall i :: 0 <= i < |r| ==> r[i] == '-' || '0' <= r[i] <= '9'
  {
    if n < 0 then "-" + NatToString(-n) else NatToString(n)
  }

  lemma {:induction false} NatToStringInjective(m: nat, n: nat)
    requires NatToString(m) == NatToString(n)
    ensures m == n
    decreases m
  {
    if m >= 10 && n >= 10 {
      var a, b := NatToString(m), NatToString(n);
      assert a[|a| - 1] == b[|b| - 1];
      assert DigitChar(m % 10) == DigitChar(n % 10);
      assert NatToString(m / 10) == a[..|a| - 1] && NatToString(n / 10) == b[..|b| - 1];
      NatToStringInjective(m / 10, n / 10);
    }
  }

  /** Different integers have different decimal strings. */
  lemma IntToStringInjective(m: int, n: int)
    requires IntToString(m) == IntToString(n)
    ensures m == n
  {
    if m < 0 && n < 0 {
      var a, b := IntToString(m), IntToString(n);
      assert a[1..] == NatToString(-m) && b[1..] == NatToString(-n);
      NatToStringInjective(-m, -n);
    } else if m >= 0 && n >= 0 {
      NatToStringInjective(m, n);
    }
  }
}
