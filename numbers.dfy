/** The decimal-number recogniser that stands for `strtod` (C) and `float()` (Python).
    Numbers are exact reals; the rounding to binary floating point is not modelled. */
module Numbers {
  import opened Wrappers
  import opened Text

  predicate IsDigit(c: char) {
    '0' <= c <= '9'
  }

  /** Characters a decimal numeral with an exponent can be made of. */
  predicate IsNumeralChar(c: char) {
    IsDigit(c) || c == '+' || c == '-' || c == '.' || c == 'e' || c == 'E'
  }

  /** End of the run of C whitespace starting at `i`. */
  function SpaceRun(s: string, i: nat): (j: nat)
    requires i <= |s|
    ensures i <= j <= |s|
    ensures j < |s| ==> !IsCSpace(s[j])
    decreases |s| - i
  {
    if i < |s| && IsCSpace(s[i]) then SpaceRun(s, i + 1) else i
  }

  /** End of the run of decimal digits starting at `i`. */
  function DigitRun(s: string, i: nat): (j: nat)
    requires i <= |s|
    ensures i <= j <= |s|
    ensures j < |s| ==> !IsDigit(s[j])
    decreases |s| - i
  {
    if i < |s| && IsDigit(s[i]) then DigitRun(s, i + 1) else i
  }

  lemma {:induction false} DigitRunDigits(s: string, i: nat)
    requires i <= |s|
    ensures forall k :: i <= k < DigitRun(s, i) ==> IsDigit(s[k])
    decreases |s| - i
  {
    if i < |s| && IsDigit(s[i]) {
      DigitRunDigits(s, i + 1);
    }
  }

  /** Value of the decimal digits `s[i..j]`. */
  function DigitsValue(s: string, i: nat, j: nat): int
    requires i <= j <= |s|
    decreases j - i
  {
    if i == j then 0
    else DigitsValue(s, i, j - 1) * 10 + (s[j - 1] as int - '0' as int)
  }

  function Pow10(n: nat): (r: nat)
    ensures r >= 1
  {
    if n == 0 then 1 else 10 * Pow10(n - 1)
  }

  /** Optional sign at `i`: the position after it. */
  function AfterSign(s: string, i: nat): (j: nat)
    requires i <= |s|
    ensures i <= j <= |s| && j <= i + 1
    ensures j == i + 1 ==> s[i] == '+' || s[i] == '-'
  {
    if i < |s| && (s[i] == '+' || s[i] == '-') then i + 1 else i
  }

  /** End of an exponent part `[eE][+-]?digits` starting at `i`, or `i` when there is none
      (a lone `e` is not consumed, as with `strtod`). */
  function ExponentEnd(s: string, i: nat): (j: nat)
    requires i <= |s|
    ensures i <= j <= |s|
  {
    if i < |s| && (s[i] == 'e' || s[i] == 'E') then
      var d := AfterSign(s, i + 1);
      var e := DigitRun(s, d);
      if e > d then e else i
    else i
  }

  /** Signed value of the exponent part `s[i..j]` produced by `ExponentEnd`. */
  function ExponentValue(s: string, i: nat, j: nat): int
    requires i <= j <= |s|
  {
    if i == j then 0
    else
      var d := AfterSign(s, i + 1);
      var e := DigitRun(s, d);
      var m := DigitsValue(s, d, e);
      if d == i + 2 && s[i + 1] == '-' then -m else m
  }

  function Scale(x: real, e: int): real {
    if e >= 0 then x * Pow10(e) as real else x / Pow10(-e) as real
  }

  /** Where the pieces of a numeral starting at `lead` end: after the sign, after the
      integer digits, after the point, after the fraction digits. */
  datatype Mantissa = Mantissa(intStart: nat, intEnd: nat, fracStart: nat, fracEnd: nat)

  function MantissaAt(s: string, lead: nat): (m: Mantissa)
    requires lead <= |s|
    ensures lead <= m.intStart <= m.intEnd <= m.fracStart <= m.fracEnd <= |s|
    ensures m.fracStart <= m.intEnd + 1
  {
    var intStart := AfterSign(s, lead);
    var intEnd := DigitRun(s, intStart);
    var fracStart := if intEnd < |s| && s[intEnd] == '.' then intEnd + 1 else intEnd;
    Mantissa(intStart, intEnd, fracStart, DigitRun(s, fracStart))
  }

  /** Value of a numeral whose pieces are `m` and whose exponent ends at `expEnd`. */
  function MantissaValue(s: string, lead: nat, m: Mantissa, expEnd: nat): real
    requires lead <= |s| && m == MantissaAt(s, lead) && m.fracEnd <= expEnd <= |s|
  {
    var mantissa := DigitsValue(s, m.intStart, m.intEnd) as real
      + DigitsValue(s, m.fracStart, m.fracEnd) as real / Pow10(m.fracEnd - m.fracStart) as real;
    var magnitude := Scale(mantissa, ExponentValue(s, m.fracEnd, expEnd));
    if m.intStart == lead + 1 && s[lead] == '-' then -magnitude else magnitude
  }

  /** The numeral has at least one digit, before or after the point. */
  predicate HasDigits(m: Mantissa) {
    m.intEnd > m.intStart || m.fracEnd > m.fracStart
  }

  /** Where `strtod` stops when started at `i` on decimal input: after leading C
      whitespace and `[+-]?digits[.digits]` with at least one digit and an optional
      exponent; at `i` itself, consuming nothing, when there is no such numeral. */
  function NumeralEnd(s: string, i: nat): (e: nat)
    requires i <= |s|
    ensures i <= e <= |s|
    ensures e > i ==> SpaceRun(s, i) < e
    ensures e > i ==> exists k :: SpaceRun(s, i) <= k < e && IsDigit(s[k])
  {
    var lead := SpaceRun(s, i);
    var m := MantissaAt(s, lead);
    if HasDigits(m) then
      var k := if m.intEnd > m.intStart then m.intStart else m.fracStart;
      assert IsDigit(s[k]);
      ExponentEnd(s, m.fracEnd)
    else i
  }

  /** Past the leading whitespace, everything `strtod` consumes is a numeral character. */
  lemma NumeralChars(s: string, i: nat)
    requires i <= |s|
    ensures forall k :: SpaceRun(s, i) <= k < NumeralEnd(s, i) ==> IsNumeralChar(s[k])
  {
    var lead := SpaceRun(s, i);
    var m := MantissaAt(s, lead);
    if HasDigits(m) {
      DigitRunDigits(s, m.intStart);
      DigitRunDigits(s, m.fracStart);
      var e := ExponentEnd(s, m.fracEnd);
      if e > m.fracEnd {
        DigitRunDigits(s, AfterSign(s, m.fracEnd + 1));
      }
    }
  }

  /** The value `strtod` returns when started at `i` on decimal input: 0.0 when it
      consumes nothing. */
  function NumeralValue(s: string, i: nat): real
    requires i <= |s|
  {
    var lead := SpaceRun(s, i);
    var m := MantissaAt(s, lead);
    if HasDigits(m) then MantissaValue(s, lead, m, ExponentEnd(s, m.fracEnd)) else 0.0
  }

  /** Python's `float(t)` on decimal input: the whole stripped text must be one numeral. */
  function ParseFloat(t: string): (r: Option<real>)
    ensures r.Some? ==> PyStrip(t) != []
  {
    var u := PyStrip(t);
    if u != [] && NumeralEnd(u, 0) == |u| then Some(NumeralValue(u, 0)) else None
  }
}
