/** EAN-13 check digits of src/barcode/service.py and src/barcode/excel_barcode.py (GS1 General
    Specifications, section 7.9). */
module Gtin {
  import opened Common

  /** What the interpreter's character database says: the decimal digits of all scripts with their
      values, and the other characters str.isdigit accepts although int() does not. */
  datatype CharTable = CharTable(decimal: map<char, nat>, others: set<char>)

  const ASCII: string := "0123456789"

  predicate IsCharTable(u: CharTable) {
    (forall c | c in u.decimal :: u.decimal[c] < 10 && c !in u.others) &&
    forall n: nat | n < 10 :: ASCII[n] in u.decimal && u.decimal[ASCII[n]] == n
  }

  const ASCII_ONLY: CharTable :=
    CharTable(map['0' := 0, '1' := 1, '2' := 2, '3' := 3, '4' := 4, '5' := 5, '6' := 6, '7' := 7, '8' := 8, '9' := 9], {})

  type Chars = u: CharTable | IsCharTable(u) witness ASCII_ONLY

  /** str.isdigit */
  predicate IsDigit(u: Chars, c: char) {
    c in u.decimal || c in u.others
  }

  /** int() accepts every character. */
  predicate AllDecimal(u: Chars, s: string) {
    forall i | 0 <= i < |s| :: s[i] in u.decimal
  }

  function Value(u: Chars, c: char): (v: nat)
    requires c in u.decimal
    ensures v < 10
  {
    u.decimal[c]
  }

  /** str() of a single digit. */
  function DigitChar(u: Chars, n: nat): (c: char)
    requires n < 10
    ensures c in u.decimal && Value(u, c) == n
  {
    ASCII[n]
  }

  /** The digits of a text, in order. */
  function Cleaned(u: Chars, s: string): (r: string)
    ensures forall i | 0 <= i < |r| :: IsDigit(u, r[i])
    ensures (forall i | 0 <= i < |s| :: IsDigit(u, s[i])) ==> r == s
  {
    if s == [] then []
    else
      assert s == s[..|s| - 1] + [s[|s| - 1]];
      Cleaned(u, s[..|s| - 1]) + (if IsDigit(u, s[|s| - 1]) then [s[|s| - 1]] else [])
  }

  /** Character by character: digits of any script stay, everything else goes. */
  lemma CleanedOne(u: Chars, c: char)
    ensures Cleaned(u, [c]) == if c in u.decimal || c in u.others then [c] else []
  {
    assert [c][..0] == [];
  }

  lemma CleanedNext(u: Chars, s: string, c: char)
    ensures Cleaned(u, s + [c]) == Cleaned(u, s) + Cleaned(u, [c])
  {
    assert (s + [c])[..|s|] == s;
    CleanedOne(u, c);
  }

  lemma CleanedGrow(u: Chars, a: string, b: string, c: char)
    requires Cleaned(u, a + b) == Cleaned(u, a) + Cleaned(u, b)
    ensures Cleaned(u, a + (b + [c])) == Cleaned(u, a) + Cleaned(u, b + [c])
  {
    CleanedNext(u, a + b, c);
    CleanedNext(u, b, c);
    Associates(a, b, [c]);
    Associates(Cleaned(u, a), Cleaned(u, b), Cleaned(u, [c]));
  }

  lemma {:induction false} CleanedConcat(u: Chars, a: string, b: string)
    ensures Cleaned(u, a + b) == Cleaned(u, a) + Cleaned(u, b)
  {
    if b == [] {
      assert a + b == a;
    } else {
      var init, last := b[..|b| - 1], b[|b| - 1];
      assert b == init + [last];
      CleanedConcat(u, a, init);
      CleanedGrow(u, a, init, last);
    }
  }

  function Weight(i: nat): nat {
    if i % 2 == 0 then 1 else 3
  }

  /** A value times the weight of its position. */
  function Weighted(v: int, i: nat): int {
    if i % 2 == 0 then v else 3 * v
  }

  function WeightedSum(u: Chars, s: string): nat
    requires AllDecimal(u, s)
  {
    if s == [] then 0 else WeightedSum(u, s[..|s| - 1]) + Weighted(Value(u, s[|s| - 1]), |s| - 1)
  }

  function CheckDigit(u: Chars, s: string): (d: nat)
    requires AllDecimal(u, s)
    ensures d < 10 && (WeightedSum(u, s) + d) % 10 == 0
  {
    (10 - WeightedSum(u, s) % 10) % 10
  }

  /** The loop raises at the first character that int() refuses. */
  method CalcCheckDigit(u: Chars, digits: string) returns (r: Result<nat, ServiceError>)
    ensures r == if AllDecimal(u, digits) then Ok(CheckDigit(u, digits)) else Err(Unexpected)
  {
    var total := 0;
    for i := 0 to |digits|
      invariant AllDecimal(u, digits[..i]) && total == WeightedSum(u, digits[..i])
    {
      if digits[i] !in u.decimal {
        return Err(Unexpected);
      }
      assert digits[..i + 1][..i] == digits[..i];
      var weight := if i % 2 == 0 then 1 else 3;
      total := total + Value(u, digits[i]) * weight;
    }
    assert digits[..|digits|] == digits;
    r := Ok((10 - total % 10) % 10);
  }

  function Zeros(n: nat): (r: string)
    ensures |r| == n && forall i | 0 <= i < n :: r[i] == '0'
  {
    seq(n, _ => '0')
  }

  function PadTo12(s: string): string
    requires |s| <= 12
  {
    s + Zeros(12 - |s|)
  }

  lemma PaddedIsDecimal(u: Chars, s: string)
    requires |s| <= 12
    ensures AllDecimal(u, PadTo12(s)) <==> AllDecimal(u, s)
  {
    assert ASCII[0] == '0';
    assert forall i | 0 <= i < |s| :: PadTo12(s)[i] == s[i];
  }

  function GenerateGtin(u: Chars, prefix: string): Result<string, ServiceError> {
    var cleaned := Cleaned(u, prefix);
    if |cleaned| < 7 || |cleaned| > 12 then Err(Validation)
    else
      var padded := PadTo12(cleaned);
      if AllDecimal(u, padded) then Ok(padded + [DigitChar(u, CheckDigit(u, padded))]) else Err(Unexpected)
  }

  /** Whether the text is a valid code; the check of a 13-digit one raises on digits int() refuses. */
  function ValidateGtin(u: Chars, gtin: string): Result<bool, ServiceError> {
    var cleaned := Cleaned(u, gtin);
    if |cleaned| !in {8, 12, 13, 14} then Ok(false)
    else if |cleaned| != 13 then Ok(true)
    else if !AllDecimal(u, cleaned) then Err(Unexpected)
    else Ok(Value(u, cleaned[12]) == CheckDigit(u, cleaned[..12]))
  }

  predicate IsValid(u: Chars, gtin: string) {
    ValidateGtin(u, gtin) == Ok(true)
  }

  // ---- The code's second implementation -------------------------------------------------

  /** sum(int(d) * w for d, w in zip(digits[:12], [1, 3] * 6)) */
  function ZipSum(u: Chars, digits: string, weights: seq<nat>): nat
    requires AllDecimal(u, digits)
    decreases |digits|
  {
    if digits == [] || weights == [] then 0
    else Value(u, digits[0]) * weights[0] + ZipSum(u, digits[1..], weights[1..])
  }

  const PATTERN: seq<nat> := [1, 3, 1, 3, 1, 3, 1, 3, 1, 3, 1, 3]

  function FirstTwelve(s: string): (r: string)
    ensures |r| <= 12 && r <= s
  {
    if |s| <= 12 then s else s[..12]
  }

  function ExcelCheckDigit(u: Chars, digits: string): (d: nat)
    requires AllDecimal(u, FirstTwelve(digits))
    ensures d < 10
  {
    (10 - ZipSum(u, FirstTwelve(digits), PATTERN) % 10) % 10
  }

  function GenerateGtinFromSku(u: Chars, sku: string): Result<string, ServiceError> {
    var padded := PadTo12(FirstTwelve(Cleaned(u, sku)));
    if AllDecimal(u, padded) then Ok(padded + [DigitChar(u, ExcelCheckDigit(u, padded))]) else Err(Unexpected)
  }

  lemma {:induction false} ZipSumAppend(u: Chars, a: string, x: char, weights: seq<nat>)
    requires AllDecimal(u, a) && x in u.decimal && |a| < |weights|
    ensures ZipSum(u, a + [x], weights) == ZipSum(u, a, weights) + Value(u, x) * weights[|a|]
    decreases |a|
  {
    if a == [] {
      assert [x][1..] == [];
    } else {
      assert (a + [x])[1..] == a[1..] + [x];
      ZipSumAppend(u, a[1..], x, weights[1..]);
    }
  }

  lemma {:induction false} ZipSumIsWeightedSum(u: Chars, s: string, weights: seq<nat>)
    requires AllDecimal(u, s) && |s| <= |weights| && forall i | 0 <= i < |weights| :: weights[i] == Weight(i)
    ensures ZipSum(u, s, weights) == WeightedSum(u, s)
  {
    if s != [] {
      var n := |s| - 1;
      ZipSumIsWeightedSum(u, s[..n], weights);
      ZipSumAppend(u, s[..n], s[n], weights);
      assert s == s[..n] + [s[n]];
    }
  }

  lemma PatternIsWeights()
    ensures |PATTERN| == 12 && forall i | 0 <= i < |PATTERN| :: PATTERN[i] == Weight(i)
  {
  }

  /** Both check-digit implementations agree on every string of at most twelve digits. */
  lemma ImplementationsAgree(u: Chars, s: string)
    requires AllDecimal(u, s) && |s| <= 12
    ensures ExcelCheckDigit(u, s) == CheckDigit(u, s)
  {
    PatternIsWeights();
    ZipSumIsWeightedSum(u, s, PATTERN);
  }

  /** The first twelve characters are those of the digits, as far as they go, and then zeros. */
  ghost predicate IsPadded(digits: string, code: string) {
    |code| >= 12 && forall i | 0 <= i < 12 :: code[i] == if i < |digits| then digits[i] else '0'
  }

  // ---- Round trip ---------------------------------------------------------------------------

  /** Twelve decimal digits and their check digit are a valid code. */
  lemma CheckedIsValid(u: Chars, s: string)
    requires AllDecimal(u, s) && |s| == 12
    ensures IsValid(u, s + [DigitChar(u, CheckDigit(u, s))])
  {
    var code := s + [DigitChar(u, CheckDigit(u, s))];
    assert forall i | 0 <= i < |code| :: IsDigit(u, code[i]);
    assert code[..12] == s;
  }

  /** Generation succeeds exactly for 7 to 12 decimal digits, and what it generates is valid; other
      characters that pass for digits escape as an error. */
  lemma GeneratedIsValid(u: Chars, s: string)
    ensures var r := GenerateGtin(u, s);
            (r.Ok? <==> 7 <= |Cleaned(u, s)| <= 12 && AllDecimal(u, Cleaned(u, s))) &&
            (r == Err(Validation) <==> !(7 <= |Cleaned(u, s)| <= 12)) &&
            (r.Ok? ==> |r.value| == 13 && IsPadded(Cleaned(u, s), r.value) && IsValid(u, r.value))
  {
    if 7 <= |Cleaned(u, s)| <= 12 {
      PaddedIsDecimal(u, Cleaned(u, s));
      if AllDecimal(u, Cleaned(u, s)) {
        CheckedIsValid(u, PadTo12(Cleaned(u, s)));
      }
    }
  }

  /** The code made from any SKU text is valid too, and is the one the other module makes whenever
      that module accepts the text. */
  lemma SkuCodeIsValid(u: Chars, sku: string)
    ensures var r := GenerateGtinFromSku(u, sku);
            (r.Ok? <==> AllDecimal(u, FirstTwelve(Cleaned(u, sku)))) &&
            (r.Ok? ==> |r.value| == 13 && IsPadded(Cleaned(u, sku), r.value) && IsValid(u, r.value)) &&
            (GenerateGtin(u, sku).Ok? ==> r == GenerateGtin(u, sku))
  {
    var cleaned := FirstTwelve(Cleaned(u, sku));
    PaddedIsDecimal(u, cleaned);
    if AllDecimal(u, cleaned) {
      ImplementationsAgree(u, PadTo12(cleaned));
      CheckedIsValid(u, PadTo12(cleaned));
    }
  }

  // ---- Error detection ---------------------------------------------------------------------------

  /** A 13-digit code is valid exactly when its full weighted sum is a multiple of ten. */
  lemma ValidIffSum(u: Chars, s: string)
    requires AllDecimal(u, s) && |s| == 13
    ensures IsValid(u, s) <==> WeightedSum(u, s) % 10 == 0
  {
    assert forall i | 0 <= i < |s| :: IsDigit(u, s[i]);
    CheckDigitUnique(WeightedSum(u, s[..12]), CheckDigit(u, s[..12]), Value(u, s[12]));
  }

  /** The sum of every second digit from a position on. */
  function EverySecond(u: Chars, s: string, from: nat): nat
    requires AllDecimal(u, s)
    decreases |s| - from
  {
    if from >= |s| then 0 else Value(u, s[from]) + EverySecond(u, s, from + 2)
  }

  lemma {:induction false} EverySecondAppend(u: Chars, s: string, x: char, from: nat)
    requires AllDecimal(u, s) && x in u.decimal
    ensures EverySecond(u, s + [x], from) ==
            EverySecond(u, s, from) + (if from <= |s| && (|s| - from) % 2 == 0 then Value(u, x) else 0)
    decreases |s| - from
  {
    if from <= |s| { EverySecondAppend(u, s, x, from + 2); }
  }

  /** The weighted sum is that of the digits at even positions and three times that of the others. */
  lemma {:induction false} SumIsEverySecond(u: Chars, s: string)
    requires AllDecimal(u, s)
    ensures WeightedSum(u, s) == EverySecond(u, s, 0) + 3 * EverySecond(u, s, 1)
  {
    if s != [] {
      var init, x := s[..|s| - 1], s[|s| - 1];
      SumIsEverySecond(u, init);
      EverySecondAppend(u, init, x, 0);
      EverySecondAppend(u, init, x, 1);
      assert s == init + [x];
    }
  }

  /** Which texts are valid codes, and for which the check raises. */
  lemma ValidMeans(u: Chars, gtin: string)
    ensures var s, r := Cleaned(u, gtin), ValidateGtin(u, gtin);
            (r == Err(Unexpected) <==> |s| == 13 && !AllDecimal(u, s)) && (r.Err? ==> r.error == Unexpected) &&
            (r == Ok(true) <==>
             |s| in {8, 12, 14} ||
             (|s| == 13 && AllDecimal(u, s) && (EverySecond(u, s, 0) + 3 * EverySecond(u, s, 1)) % 10 == 0))
  {
    var s := Cleaned(u, gtin);
    if |s| == 13 && AllDecimal(u, s) {
      ValidIffSum(u, s);
      SumIsEverySecond(u, s);
    }
  }

  lemma CheckDigitUnique(sum: nat, d: nat, v: nat)
    requires d < 10 && v < 10 && (sum + d) % 10 == 0
    ensures v == d <==> (sum + v) % 10 == 0
  {
  }

  lemma {:induction false} SumAfterChange(u: Chars, s: string, i: nat, c: char)
    requires AllDecimal(u, s) && c in u.decimal && i < |s|
    ensures AllDecimal(u, s[i := c])
    ensures WeightedSum(u, s[i := c]) == WeightedSum(u, s) + Weighted(Value(u, c) - Value(u, s[i]), i)
  {
    var n := |s| - 1;
    if i < n {
      SumAfterChange(u, s[..n], i, c);
      assert s[i := c][..n] == s[..n][i := c];
    } else {
      assert s[i := c][..n] == s[..n];
    }
  }

  lemma MultipleOfTen(delta: int, i: nat)
    requires -9 <= delta <= 9
    ensures Weighted(delta, i) % 10 == 0 <==> delta == 0
  {
  }

  lemma SumsAgreeModTen(a: int, b: int)
    ensures a % 10 == 0 ==> ((a + b) % 10 == 0 <==> b % 10 == 0)
  {
  }

  /** Changing any one digit of a valid 13-digit code is detected exactly when its value changes, as
      it always does among the digits of one script. */
  lemma SingleErrorDetectedIff(u: Chars, s: string, i: nat, c: char)
    requires AllDecimal(u, s) && |s| == 13 && IsValid(u, s) && i < 13 && c in u.decimal
    ensures !IsValid(u, s[i := c]) <==> Value(u, c) != Value(u, s[i])
    ensures c in ASCII && s[i] in ASCII ==> (!IsValid(u, s[i := c]) <==> c != s[i])
  {
    SumAfterChange(u, s, i, c);
    ValidIffSum(u, s);
    ValidIffSum(u, s[i := c]);
    var delta := Value(u, c) - Value(u, s[i]);
    MultipleOfTen(delta, i);
    SumsAgreeModTen(WeightedSum(u, s), Weighted(delta, i));
    if c in ASCII && s[i] in ASCII {
      AsciiValues(u, c);
      AsciiValues(u, s[i]);
    }
  }

  lemma AsciiValues(u: Chars, c: char)
    requires c in ASCII
    ensures c in u.decimal && Value(u, c) == (c as int) - ('0' as int)
  {
    var n: nat :| n < 10 && ASCII[n] == c;
  }

  /** What swapping the digits at `i` and `i + 1` adds to the weighted sum. */
  lemma SumAfterSwap(u: Chars, s: string, i: nat)
    requires AllDecimal(u, s) && i + 1 < |s|
    ensures var t, delta := s[i := s[i + 1]][i + 1 := s[i]], Value(u, s[i + 1]) - Value(u, s[i]);
            AllDecimal(u, t) && |t| == |s| && WeightedSum(u, t) == WeightedSum(u, s) + (if i % 2 == 0 then -2 * delta else 2 * delta)
  {
    var t := s[i := s[i + 1]];
    SumAfterChange(u, s, i, s[i + 1]);
    SumAfterChange(u, t, i + 1, s[i]);
  }

  lemma TwiceDelta(sum: int, delta: int)
    requires sum % 10 == 0 && -9 <= delta <= 9
    ensures (sum + 2 * delta) % 10 == 0 <==> delta == 0 || delta == 5 || delta == -5
  {
    SumsAgreeModTen(sum, 2 * delta);
  }

  /** Swapping two neighbouring digits of a valid code is accepted exactly when their values are equal
      or differ by five. */
  lemma NeighbourSwapDetectedIff(u: Chars, s: string, i: nat)
    requires AllDecimal(u, s) && |s| == 13 && IsValid(u, s) && i + 1 < 13
    ensures var delta := Value(u, s[i + 1]) - Value(u, s[i]);
            IsValid(u, s[i := s[i + 1]][i + 1 := s[i]]) <==> delta == 0 || delta == 5 || delta == -5
  {
    var delta := Value(u, s[i + 1]) - Value(u, s[i]);
    SumAfterSwap(u, s, i);
    ValidIffSum(u, s);
    ValidIffSum(u, s[i := s[i + 1]][i + 1 := s[i]]);
    TwiceDelta(WeightedSum(u, s), delta);
    TwiceDelta(WeightedSum(u, s), -delta);
  }
}
