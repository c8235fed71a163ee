/** The two pieces of Go integer behaviour the handlers rely on: `strconv.Atoi`
    on a decimal string (64-bit `int`) and the `int32(x)` conversion, which keeps
    the low 32 bits in two's complement. */
module Decimal {
  import opened Wrappers

  const Int64Min: int := -0x8000_0000_0000_0000
  const Int64Max: int := 0x7FFF_FFFF_FFFF_FFFF
  const Int32Min: int := -0x8000_0000
  const Int32Max: int := 0x7FFF_FFFF
  const TwoTo32: int := 0x1_0000_0000

  /** `strconv.ErrSyntax` and `strconv.ErrRange`. */
  datatype AtoiError = InvalidSyntax | OutOfRange

  predicate IsDigit(c: char) {
    '0' <= c <= '9'
  }

  /** A non-empty run of decimal digits. */
  predicate IsDigits(s: string) {
    |s| > 0 && forall i :: 0 <= i < |s| ==> IsDigit(s[i])
  }

  function DigitValue(c: char): nat
    requires IsDigit(c)
  {
    c as int - '0' as int
  }

  function DigitChar(d: nat): char
    requires d < 10
  {
    ('0' as int + d) as char
  }

  /** The value of a digit string read most-significant digit first. */
  function DigitsValue(s: string): nat
    requires forall i :: 0 <= i < |s| ==> IsDigit(s[i])
  {
    if |s| == 0 then 0 else DigitsValue(s[..|s| - 1]) * 10 + DigitValue(s[|s| - 1])
  }

  predicate HasSign(s: string) {
    |s| > 0 && (s[0] == '+' || s[0] == '-')
  }

  /** The string with its one optional leading sign removed. */
  function Magnitude(s: string): string {
    if HasSign(s) then s[1..] else s
  }

  const MaxUint64: int := 0xFFFF_FFFF_FFFF_FFFF

  /** Every character before index n is a decimal digit. */
  predicate DigitsBefore(s: string, n: nat)
    requires n <= |s|
  {
    forall i :: 0 <= i < n ==> IsDigit(s[i])
  }

  /** What the digit loop of `strconv.ParseUint` ends with. */
  datatype Scan = Value(n: nat) | Stopped(e: AtoiError)

  /** ParseUint's loop from index i with the value `acc` read so far: each
      character is first checked to be a digit (a syntax error otherwise), then
      checked not to carry the value past 2^64-1 (a range error otherwise).
      Go's two overflow tests, `n >= cutoff` and `n1 < n || n1 > maxVal`,
      together fail exactly when acc * 10 + d exceeds 2^64-1. */
  function ScanDigits(m: string, acc: nat, i: nat): Scan
    requires i <= |m|
    decreases |m| - i
  {
    if i == |m| then Value(acc)
    else if !IsDigit(m[i]) then Stopped(InvalidSyntax)
    else if acc * 10 + DigitValue(m[i]) > MaxUint64 then Stopped(OutOfRange)
    else ScanDigits(m, acc * 10 + DigitValue(m[i]), i + 1)
  }

  /** The value of a digit string carrying its sign. */
  function Signed(s: string, magnitude: nat): int {
    if HasSign(s) && s[0] == '-' then 0 - magnitude else magnitude
  }

  /** `strconv.Atoi`: an optional `+` or `-`, then decimal digits read left to
      right. The scan stops at the first character that is not a digit
      (invalid syntax) or at the first digit that carries the magnitude past
      2^64-1 (out of range), whichever comes first; a complete magnitude outside
      the 64-bit signed range is out of range too. Strings shorter than 19
      bytes take Go's fast path, which cannot overflow and so agrees. */
  function Atoi(s: string): (r: Result<int, AtoiError>)
    ensures var m := Magnitude(s);
            r == Failure(InvalidSyntax) <==>
              || m == ""
              || exists j :: 0 <= j < |m| && !IsDigit(m[j]) && DigitsBefore(m, j) && DigitsValue(m[..j]) <= MaxUint64
    ensures IsDigits(Magnitude(s)) ==>
              (r.Success? <==> Int64Min <= Signed(s, DigitsValue(Magnitude(s))) <= Int64Max)
    ensures r.Success? ==> IsDigits(Magnitude(s)) && r.value == Signed(s, DigitsValue(Magnitude(s)))
    ensures r.Success? ==> Int64Min <= r.value <= Int64Max
    ensures r.Success? && r.value < 0 ==> s[0] == '-'
    ensures r.Success? && r.value > 0 ==> s[0] != '-'
  {
    var m := Magnitude(s);
    ScanSpec(m, 0);
    if m == "" then Failure(InvalidSyntax)
    else
      match ScanDigits(m, 0, 0)
      case Stopped(e) => Failure(e)
      case Value(n) =>
        var v := Signed(s, n);
        if v < Int64Min || v > Int64Max then Failure(OutOfRange) else Success(v)
  }

  /** A longer digit prefix never has a smaller value. */
  lemma {:induction false} DigitsPrefixMonotone(s: string, a: nat, b: nat)
    requires a <= b <= |s| && DigitsBefore(s, b)
    ensures DigitsValue(s[..a]) <= DigitsValue(s[..b])
  {
    if a < b {
      DigitsPrefixMonotone(s, a, b - 1);
      assert s[..b][..b - 1] == s[..b - 1];
    }
  }

  /** Appending one digit to a prefix multiplies its value by ten and adds it. */
  lemma DigitsStep(s: string, i: nat)
    requires i < |s| && DigitsBefore(s, i + 1)
    ensures DigitsValue(s[..i + 1]) == DigitsValue(s[..i]) * 10 + DigitValue(s[i])
  {
    assert s[..i + 1][..i] == s[..i];
  }

  /** The scan from index i, started with the value of the digits before i,
      completes exactly when the whole string is digits worth at most 2^64-1
      (and then yields their value), and stops on a syntax error exactly when a
      non-digit comes before the value passes 2^64-1. */
  lemma {:induction false} ScanSpec(m: string, i: nat)
    requires i <= |m| && DigitsBefore(m, i) && DigitsValue(m[..i]) <= MaxUint64
    ensures var r := ScanDigits(m, DigitsValue(m[..i]), i);
            && (r.Value? <==> DigitsBefore(m, |m|) && DigitsValue(m) <= MaxUint64)
            && (r.Value? ==> r.n == DigitsValue(m))
            && (r == Stopped(InvalidSyntax) <==>
                  exists j :: 0 <= j < |m| && !IsDigit(m[j]) && DigitsBefore(m, j) && DigitsValue(m[..j]) <= MaxUint64)
    decreases |m| - i
  {
    var acc := DigitsValue(m[..i]);
    if i == |m| {
      assert m[..i] == m;
    } else if !IsDigit(m[i]) {
      assert !DigitsBefore(m, |m|);
    } else {
      DigitsStep(m, i);
      if acc * 10 + DigitValue(m[i]) > MaxUint64 {
        forall j | 0 <= j < |m| && !IsDigit(m[j]) && DigitsBefore(m, j)
          ensures DigitsValue(m[..j]) > MaxUint64
        {
          DigitsPrefixMonotone(m, i + 1, j);
        }
        if DigitsBefore(m, |m|) {
          DigitsPrefixMonotone(m, i + 1, |m|);
          assert m[..|m|] == m;
        }
      } else {
        ScanSpec(m, i + 1);
      }
    }
  }

  /** The value of k nines. */
  function Nines(k: nat): nat {
    if k == 0 then 0 else Nines(k - 1) * 10 + 9
  }

  lemma {:induction false} NinesValue(m: string, k: nat)
    requires k <= |m| && forall i :: 0 <= i < k ==> m[i] == '9'
    ensures DigitsBefore(m, k) && DigitsValue(m[..k]) == Nines(k)
  {
    if k > 0 {
      NinesValue(m, k - 1);
      DigitsStep(m, k - 1);
    }
  }

  /** Once the digits read pass 2^64-1 the answer is a range error, whatever
      follows them: a later non-digit is never reached. */
  lemma OverflowFirst(s: string, k: nat)
    requires !HasSign(s) && k <= |s| && DigitsBefore(s, k) && DigitsValue(s[..k]) > MaxUint64
    ensures Atoi(s) == Failure(OutOfRange)
  {
    assert Magnitude(s) == s && s != "";
    forall j | 0 <= j < |s| && !IsDigit(s[j]) && DigitsBefore(s, j)
      ensures DigitsValue(s[..j]) > MaxUint64
    {
      DigitsPrefixMonotone(s, k, j);
    }
    if IsDigits(s) {
      DigitsPrefixMonotone(s, k, |s|);
      assert s[..|s|] == s;
    }
    var r := Atoi(s);
    assert r != Failure(InvalidSyntax) && r.Failure?;
    assert r.error != InvalidSyntax;
  }

  /** Twenty nines followed by a letter, such as "99999999999999999999x": the
      nines pass 2^64-1 before the letter is reached, so the answer is a range
      error rather than a syntax error. */
  lemma RangeBeforeSyntax(s: string)
    requires |s| == 21 && s[20] == 'x' && forall i :: 0 <= i < 20 ==> s[i] == '9'
    ensures Atoi(s) == Failure(OutOfRange)
  {
    NinesValue(s, 20);
    assert Nines(20) > MaxUint64 by {
      assert Nines(5) == 99999;
      assert Nines(10) == 9999999999;
      assert Nines(15) == 999999999999999;
    }
    OverflowFirst(s, 20);
  }

  /** The text of the error value Atoi returns, as `%v` prints it (the input is
      quoted without Go's escaping of special characters). */
  function AtoiMessage(s: string, e: AtoiError): string {
    "strconv.Atoi: parsing \"" + s + "\": " + (if e == InvalidSyntax then "invalid syntax" else "value out of range")
  }

  /** Decimal rendering of a natural number, most-significant digit first. */
  function NatDigits(n: nat): (s: string)
    ensures IsDigits(s)
  {
    if n < 10 then [DigitChar(n)] else NatDigits(n / 10) + [DigitChar(n % 10)]
  }

  /** `strconv.Itoa`: the canonical decimal form, `-` for negatives. */
  function Itoa(n: int): (s: string)
    ensures n >= 0 ==> IsDigits(s)
    ensures n < 0 ==> HasSign(s) && s[0] == '-' && IsDigits(s[1..])
  {
    if n < 0 then "-" + NatDigits(-n) else NatDigits(n)
  }

  lemma {:induction false} NatDigitsValue(n: nat)
    ensures DigitsValue(NatDigits(n)) == n
  {
    if n >= 10 {
      NatDigitsValue(n / 10);
      var s := NatDigits(n);
      assert s[..|s| - 1] == NatDigits(n / 10);
    }
  }

  /** Atoi inverts Itoa on every 64-bit value. */
  lemma AtoiItoa(n: int)
    requires Int64Min <= n <= Int64Max
    ensures Atoi(Itoa(n)) == Success(n)
  {
    var digits := NatDigits(if n < 0 then -n else n);
    NatDigitsValue(if n < 0 then -n else n);
    assert IsDigit(digits[0]);
    if n < 0 {
      assert Itoa(n)[1..] == digits;
    }
  }

  /** `int32(x)`: the unique value of the 32-bit range congruent to x modulo 2^32. */
  function ToInt32(x: int): (r: int)
    ensures Int32Min <= r <= Int32Max
    ensures (x - r) % TwoTo32 == 0
    ensures Int32Min <= x <= Int32Max ==> r == x
  {
    var m := x % TwoTo32;
    assert x == (x / TwoTo32) * TwoTo32 + m;
    if m > Int32Max then m - TwoTo32 else m
  }
}
