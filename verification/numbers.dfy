/** Numeric literals: the integer and real patterns, their longest prefixes,
    and the `i64` / `bool` parsing the token callbacks perform. */
module Numbers {
  import opened Results
  import opened Chars
  import opened Tokens

  function DigitValue(c: char): nat
    requires InClass(Digit, c)
  {
    (c as int) - ('0' as int)
  }

  /** The value of a string of decimal digits. */
  function DecimalValue(w: string): nat
    requires All(Digit, w)
    decreases |w|
  {
    if |w| == 0 then 0 else 10 * DecimalValue(w[..|w| - 1]) + DigitValue(w[|w| - 1])
  }

  /** Appending a digit multiplies by ten and adds the digit. */
  lemma {:induction false} DecimalValueStep(w: string, i: nat)
    requires i < |w| && All(Digit, w)
    ensures DecimalValue(w[..i + 1]) == 10 * DecimalValue(w[..i]) + DigitValue(w[i])
  {
    assert w[..i + 1][..i] == w[..i];
  }

  /** A prefix of a digit string is worth no more than the whole string. */
  lemma {:induction false} DecimalValuePrefix(w: string, i: nat)
    requires i <= |w| && All(Digit, w)
    ensures DecimalValue(w[..i]) <= DecimalValue(w)
    decreases |w|
  {
    if i < |w| {
      var v := w[..|w| - 1];
      assert v[..i] == w[..i];
      DecimalValuePrefix(v, i);
    } else {
      assert w[..i] == w;
    }
  }

  // ---------------------------------------------------------------------------
  // `str::parse::<i64>`

  /** Parsing of an `i64` as the standard library does it: an optional sign,
      at least one character after it, then digits accumulated from the left
      with a checked multiply-and-add; a non-digit is reported before an
      overflow at the same position. */
  function ParseI64(w: string): Result<i64, ParseIntError> {
    if |w| == 0 then Err(ParseIntError(Empty))
    else if (w[0] == '+' || w[0] == '-') && |w| == 1 then Err(ParseIntError(InvalidDigit))
    else if w[0] == '+' then Accumulate(w[1..], 0, 0, false)
    else if w[0] == '-' then Accumulate(w[1..], 0, 0, true)
    else Accumulate(w, 0, 0, false)
  }

  function Accumulate(digits: string, i: nat, acc: int, negative: bool): Result<i64, ParseIntError>
    requires i <= |digits| && I64Min <= acc <= I64Max
    decreases |digits| - i
  {
    if i == |digits| then Ok(acc as i64)
    else if !InClass(Digit, digits[i]) then Err(ParseIntError(InvalidDigit))
    else
      var next := if negative then 10 * acc - DigitValue(digits[i]) else 10 * acc + DigitValue(digits[i]);
      if next > I64Max then Err(ParseIntError(PosOverflow))
      else if next < I64Min then Err(ParseIntError(NegOverflow))
      else Accumulate(digits, i + 1, next, negative)
  }

  lemma {:induction false} AccumulateUnsigned(w: string, i: nat)
    requires i <= |w| && All(Digit, w) && DecimalValue(w[..i]) <= I64Max
    ensures Accumulate(w, i, DecimalValue(w[..i]), false)
         == if DecimalValue(w) <= I64Max then Ok(DecimalValue(w) as i64) else Err(ParseIntError(PosOverflow))
    decreases |w| - i
  {
    if i == |w| {
      assert w[..i] == w;
    } else {
      DecimalValueStep(w, i);
      var next := DecimalValue(w[..i + 1]);
      if next > I64Max {
        DecimalValuePrefix(w, i + 1);
      } else {
        AccumulateUnsigned(w, i + 1);
      }
    }
  }

  /** On an unsigned digit string the parse succeeds exactly when the value
      fits in an `i64`, and otherwise reports a positive overflow. */
  lemma {:induction false} ParseUnsignedDigits(w: string)
    requires |w| > 0 && All(Digit, w)
    ensures ParseI64(w) == if DecimalValue(w) <= I64Max then Ok(DecimalValue(w) as i64) else Err(ParseIntError(PosOverflow))
  {
    assert w[..0] == [];
    AccumulateUnsigned(w, 0);
  }

  /** `str::parse::<bool>`: only the exact words `true` and `false` parse. */
  function ParseBool(w: string): Option<bool> {
    if w == "true" then Some(true)
    else if w == "false" then Some(false)
    else None
  }

  // ---------------------------------------------------------------------------
  // The integer pattern `[1-9][0-9]*`

  predicate IsIntegerLexeme(w: string) {
    |w| > 0 && w[0] != '0' && All(Digit, w)
  }

  /** Length of the longest prefix of `rest` matching the integer pattern (0 if none). */
  function IntegerLongest(rest: string): (n: nat)
    ensures n <= |rest|
  {
    if |rest| > 0 && InClass(NonZeroDigit, rest[0]) then 1 + Run(Digit, rest[1..]) else 0
  }

  lemma {:induction false} IntegerLongestCorrect(rest: string)
    ensures IntegerLongest(rest) > 0 ==> IsIntegerLexeme(rest[..IntegerLongest(rest)])
    ensures forall m :: IntegerLongest(rest) < m <= |rest| ==> !IsIntegerLexeme(rest[..m])
  {
    var n := IntegerLongest(rest);
    if n > 0 {
      assert rest[..n] == [rest[0]] + rest[1..][..n - 1];
    }
    forall m | n < m <= |rest|
      ensures !IsIntegerLexeme(rest[..m])
    {
    }
  }

  // ---------------------------------------------------------------------------
  // The real pattern `(0|[1-9]\d*)(\.\d+)?([eE][+-]?\d+)?`

  predicate IsIntegerPart(a: string) {
    a == "0" || IsIntegerLexeme(a)
  }

  predicate IsFraction(b: string) {
    |b| == 0 || (|b| >= 2 && b[0] == '.' && All(Digit, b[1..]))
  }

  predicate IsExponent(c: string) {
    || |c| == 0
    || (&& |c| >= 2
        && (c[0] == 'e' || c[0] == 'E')
        && (|| All(Digit, c[1..])
            || (|c| >= 3 && (c[1] == '+' || c[1] == '-') && All(Digit, c[2..]))))
  }

  /** `w` splits into an integer part, an optional fraction and an optional exponent. */
  predicate IsRealLexeme(w: string) {
    exists i, j | 0 < i <= j <= |w| :: IsIntegerPart(w[..i]) && IsFraction(w[i..j]) && IsExponent(w[j..])
  }

  function IntegerPartLength(rest: string): (n: nat)
    ensures n <= |rest|
  {
    if |rest| == 0 then 0
    else if rest[0] == '0' then 1
    else if InClass(NonZeroDigit, rest[0]) then 1 + Run(Digit, rest[1..])
    else 0
  }

  function FractionLength(rest: string, i: nat): (n: nat)
    requires i <= |rest|
    ensures i + n <= |rest|
  {
    if i + 1 < |rest| && rest[i] == '.' && InClass(Digit, rest[i + 1]) then 1 + Run(Digit, rest[i + 1..])
    else 0
  }

  function ExponentLength(rest: string, j: nat): (n: nat)
    requires j <= |rest|
    ensures j + n <= |rest|
  {
    if j + 1 < |rest| && (rest[j] == 'e' || rest[j] == 'E') then
      if InClass(Digit, rest[j + 1]) then 1 + Run(Digit, rest[j + 1..])
      else if j + 2 < |rest| && (rest[j + 1] == '+' || rest[j + 1] == '-') && InClass(Digit, rest[j + 2]) then
        2 + Run(Digit, rest[j + 2..])
      else 0
    else 0
  }

  /** Length of the longest prefix of `rest` matching the real pattern (0 if none). */
  function RealLongest(rest: string): (n: nat)
    ensures n <= |rest|
  {
    var i := IntegerPartLength(rest);
    if i == 0 then 0
    else
      var f := FractionLength(rest, i);
      i + f + ExponentLength(rest, i + f)
  }

  lemma {:induction false} IntegerPartMatches(rest: string)
    requires IntegerPartLength(rest) > 0
    ensures IsIntegerPart(rest[..IntegerPartLength(rest)])
  {
    var i := IntegerPartLength(rest);
    if rest[0] == '0' {
      assert rest[..i] == "0";
    } else {
      assert rest[..i][1..] == rest[1..][..i - 1];
    }
  }

  lemma {:induction false} FractionMatches(rest: string, i: nat)
    requires i <= |rest|
    ensures IsFraction(rest[i..i + FractionLength(rest, i)])
  {
    var f := FractionLength(rest, i);
    if f > 0 {
      assert rest[i..i + f][1..] == rest[i + 1..][..f - 1];
    }
  }

  lemma {:induction false} ExponentMatches(rest: string, j: nat)
    requires j <= |rest|
    ensures IsExponent(rest[j..j + ExponentLength(rest, j)])
  {
    var e := ExponentLength(rest, j);
    if e > 0 {
      if InClass(Digit, rest[j + 1]) {
        assert rest[j..j + e][1..] == rest[j + 1..][..e - 1];
      } else {
        assert rest[j..j + e][2..] == rest[j + 2..][..e - 2];
      }
    }
  }

  /** A prefix of `rest` cut into the three parts matches the real pattern. */
  lemma {:induction false} RealFromParts(rest: string, n: nat, i: nat, j: nat)
    requires 0 < i <= j <= n <= |rest|
    requires IsIntegerPart(rest[..i]) && IsFraction(rest[i..j]) && IsExponent(rest[j..n])
    ensures IsRealLexeme(rest[..n])
  {
    var w := rest[..n];
    assert w[..i] == rest[..i];
    assert w[i..j] == rest[i..j];
    assert w[j..] == rest[j..n];
  }

  /** The integer part, fraction and exponent the scanner measures form a
      real lexeme together. */
  lemma {:induction false} RealPartsMatch(rest: string, i: nat, j: nat, n: nat)
    requires i == IntegerPartLength(rest) > 0
    requires j == i + FractionLength(rest, i)
    requires n == j + ExponentLength(rest, j)
    ensures IsRealLexeme(rest[..n])
  {
    IntegerPartMatches(rest);
    FractionMatches(rest, i);
    ExponentMatches(rest, j);
    RealFromParts(rest, n, i, j);
  }

  /** The prefix `RealLongest` measures does match the real pattern. */
  lemma {:induction false} RealLongestMatches(rest: string)
    requires RealLongest(rest) > 0
    ensures IsRealLexeme(rest[..RealLongest(rest)])
  {
    var i := IntegerPartLength(rest);
    var j := i + FractionLength(rest, i);
    assert RealLongest(rest) == j + ExponentLength(rest, j);
    RealPartsMatch(rest, i, j, RealLongest(rest));
  }

  /** The integer part of any real prefix is bounded by `IntegerPartLength`,
      and when it stops short the next character is a digit. */
  lemma {:induction false} IntegerPartBound(rest: string, i: nat)
    requires 0 < i <= |rest| && IsIntegerPart(rest[..i])
    ensures i <= IntegerPartLength(rest)
    ensures i < IntegerPartLength(rest) ==> InClass(Digit, rest[i])
  {
    if rest[0] != '0' {
      assert rest[..i][1..] == rest[1..][..i - 1];
      RunMaximal(Digit, rest[1..], i - 1);
      var k := Run(Digit, rest[1..]);
      if i < 1 + k {
        assert rest[1..][..k][i - 1] == rest[i];
      }
    } else {
      assert rest[..i][0] == '0';
    }
  }

  lemma {:induction false} FractionBound(rest: string, i: nat, j: nat)
    requires i <= j <= |rest| && IsFraction(rest[i..j])
    ensures j - i <= FractionLength(rest, i)
    ensures j - i < FractionLength(rest, i) ==> j < |rest| && (j == i ==> rest[j] == '.') && (j > i ==> InClass(Digit, rest[j]))
  {
    var f := FractionLength(rest, i);
    if j > i {
      assert rest[i..j][1..] == rest[i + 1..][..j - i - 1];
      assert rest[i..j][1] == rest[i + 1];
      RunMaximal(Digit, rest[i + 1..], j - i - 1);
      var k := Run(Digit, rest[i + 1..]);
      if j - i < f {
        assert rest[i + 1..][..k][j - i - 1] == rest[j];
      }
    }
  }

  lemma {:induction false} ExponentBound(rest: string, j: nat, m: nat)
    requires j <= m <= |rest| && IsExponent(rest[j..m])
    ensures m - j <= ExponentLength(rest, j)
  {
    if m > j {
      var c := rest[j..m];
      assert c[0] == rest[j] && c[1] == rest[j + 1];
      if InClass(Digit, rest[j + 1]) {
        assert c[1..] == rest[j + 1..][..m - j - 1];
        RunMaximal(Digit, rest[j + 1..], m - j - 1);
      } else {
        assert c[2] == rest[j + 2];
        assert c[2..] == rest[j + 2..][..m - j - 2];
        RunMaximal(Digit, rest[j + 2..], m - j - 2);
      }
    }
  }

  lemma {:induction false} RealBoundSplit(rest: string, m: nat, i: nat, j: nat)
    requires 0 < i <= j <= m <= |rest|
    requires IsIntegerPart(rest[..i]) && IsFraction(rest[i..j]) && IsExponent(rest[j..m])
    ensures m <= RealLongest(rest)
  {
    IntegerPartBound(rest, i);
    if i == IntegerPartLength(rest) {
      FractionBound(rest, i, j);
      if j - i == FractionLength(rest, i) {
        ExponentBound(rest, j, m);
      }
    }
  }

  /** No prefix longer than `RealLongest` matches the real pattern. */
  lemma {:induction false} RealLongestMaximal(rest: string, m: nat)
    requires m <= |rest|
    ensures IsRealLexeme(rest[..m]) ==> m <= RealLongest(rest)
  {
    var w := rest[..m];
    if IsRealLexeme(w) {
      var i, j :| 0 < i <= j <= |w| && IsIntegerPart(w[..i]) && IsFraction(w[i..j]) && IsExponent(w[j..]);
      assert w[..i] == rest[..i];
      assert w[i..j] == rest[i..j];
      assert w[j..] == rest[j..m];
      RealBoundSplit(rest, m, i, j);
    }
  }

  /** A whole real lexeme starts with a digit and is matched in full by the
      real rule. */
  lemma {:induction false} WholeRealLexeme(w: string)
    requires IsRealLexeme(w)
    ensures |w| > 0 && InClass(Digit, w[0]) && RealLongest(w) == |w|
  {
    var i, j :| 0 < i <= j <= |w| && IsIntegerPart(w[..i]) && IsFraction(w[i..j]) && IsExponent(w[j..]);
    assert w[..i][0] == w[0];
    assert w[..|w|] == w;
    RealLongestMaximal(w, |w|);
  }

  /** Every integer lexeme is also a real lexeme, so the two rules tie. */
  lemma {:induction false} IntegerIsReal(w: string)
    requires IsIntegerLexeme(w)
    ensures IsRealLexeme(w)
  {
    assert w[..|w|] == w;
    assert IsIntegerPart(w[..|w|]) && IsFraction(w[|w|..|w|]) && IsExponent(w[|w|..]);
  }

  /** Among real lexemes, the integer pattern matches exactly those that are
      not the lone `0` and contain no `.`, `e` or `E`. */
  lemma {:induction false} RealIsIntegerIff(w: string)
    requires IsRealLexeme(w)
    ensures IsIntegerLexeme(w) <==> (w != "0" && forall k :: 0 <= k < |w| ==> w[k] != '.' && w[k] != 'e' && w[k] != 'E')
  {
    var i, j :| 0 < i <= j <= |w| && IsIntegerPart(w[..i]) && IsFraction(w[i..j]) && IsExponent(w[j..]);
    if w != "0" && forall k :: 0 <= k < |w| ==> w[k] != '.' && w[k] != 'e' && w[k] != 'E' {
      assert w[..i] == w;
    }
  }
}
