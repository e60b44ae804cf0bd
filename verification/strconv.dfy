/** Decimal integer conversion in the manner of Go's `strconv.Atoi` and
    `strconv.Itoa` on a platform whose `int` is 64 bits wide. */
module StrConv {
  import opened Optional

  const MinInt64: int := -0x8000_0000_0000_0000
  const MaxInt64: int := 0x7FFF_FFFF_FFFF_FFFF

  predicate IsDigit(c: char) {
    '0' <= c <= '9'
  }

  predicate AllDigits(s: string) {
    forall i :: 0 <= i < |s| ==> IsDigit(s[i])
  }

  function DigitValue(c: char): (d: nat)
    requires IsDigit(c)
    ensures d < 10
  {
    c as int - '0' as int
  }

  function DigitChar(d: nat): (c: char)
    requires d < 10
    ensures IsDigit(c) && DigitValue(c) == d
  {
    ('0' as int + d) as char
  }

  function Pow10(k: nat): (p: nat)
    ensures p >= 1
  {
    if k == 0 then 1 else 10 * Pow10(k - 1)
  }

  /** Value of a digit string, most significant digit first. */
  function DigitsValue(s: string): nat
    requires AllDigits(s)
    decreases |s|
  {
    if |s| == 0 then 0 else DigitsValue(s[..|s| - 1]) * 10 + DigitValue(s[|s| - 1])
  }

  /** The syntax `Atoi` accepts: an optional `+` or `-`, then one or more ASCII digits. */
  predicate IsIntSyntax(s: string) {
    if |s| > 0 && (s[0] == '+' || s[0] == '-') then |s| > 1 && AllDigits(s[1..])
    else |s| > 0 && AllDigits(s)
  }

  /** The digits of `s` scanned left to right into a number, as the loop in
      `Atoi` does; `None` for an empty string or one holding a non-digit. */
  function ParseDigits(s: string): Option<nat>
    decreases |s|
  {
    if |s| == 0 || !IsDigit(s[|s| - 1]) then None
    else if |s| == 1 then Some(DigitValue(s[0]))
    else match ParseDigits(s[..|s| - 1])
      case None => None
      case Some(v) => Some(v * 10 + DigitValue(s[|s| - 1]))
  }

  /** The part of `s` after an optional leading sign. */
  function Unsigned(s: string): (d: string)
    requires |s| > 0
    ensures |d| < |s| ==> d == s[1..]
  {
    if s[0] == '+' || s[0] == '-' then s[1..] else s
  }

  /** `strconv.Atoi`: `None` stands for the syntax error and the range error. */
  function Atoi(s: string): (r: Option<int>)
    ensures r.Some? ==> MinInt64 <= r.value <= MaxInt64
  {
    if |s| == 0 then None
    else
      match ParseDigits(Unsigned(s))
      case None => None
      case Some(v) =>
        var n: int := if s[0] == '-' then 0 - v else v;
        if MinInt64 <= n <= MaxInt64 then Some(n) else None
  }

  /** The value a well-formed string denotes: its digits, negated after a
      leading `-`. */
  function SignedValue(s: string): int
    requires IsIntSyntax(s)
  {
    if s[0] == '-' then 0 - DigitsValue(s[1..])
    else if s[0] == '+' then DigitsValue(s[1..])
    else DigitsValue(s)
  }

  /** The scan accepts exactly the non-empty digit strings and yields their value. */
  lemma {:induction false} ParseDigitsValue(s: string)
    ensures ParseDigits(s) == if |s| > 0 && AllDigits(s) then Some(DigitsValue(s)) else None
    decreases |s|
  {
    if |s| > 1 && IsDigit(s[|s| - 1]) {
      var prefix := s[..|s| - 1];
      ParseDigitsValue(prefix);
      assert AllDigits(s) <==> AllDigits(prefix) by {
        if AllDigits(prefix) {
          forall i | 0 <= i < |s| ensures IsDigit(s[i]) {
            if i < |s| - 1 {
              assert s[i] == prefix[i];
            }
          }
        }
      }
    } else if |s| == 1 && IsDigit(s[0]) {
      assert s[..0] == [];
    }
  }

  /** Decimal digits of `n` without leading zeros. */
  function FormatNat(n: nat): (s: string)
    ensures |s| > 0 && AllDigits(s)
    decreases n
  {
    if n < 10 then [DigitChar(n)] else FormatNat(n / 10) + [DigitChar(n % 10)]
  }

  /** `strconv.Itoa`. */
  function Itoa(n: int): (s: string)
    ensures |s| > 0
    ensures s[0] == '-' <==> n < 0
  {
    if n < 0 then "-" + FormatNat(-n) else FormatNat(n)
  }

  /** A digit string of length k denotes a number below 10^k. */
  lemma {:induction false} DigitsValueBound(s: string)
    requires AllDigits(s)
    ensures DigitsValue(s) < Pow10(|s|)
    decreases |s|
  {
    if |s| > 0 {
      DigitsValueBound(s[..|s| - 1]);
    }
  }

  lemma {:induction false} Pow10Monotone(j: nat, k: nat)
    requires j <= k
    ensures Pow10(j) <= Pow10(k)
    decreases k
  {
    if j < k {
      Pow10Monotone(j, k - 1);
    }
  }

  /** `Atoi` accepts only its syntax. */
  lemma AtoiOnlySyntax(s: string)
    ensures Atoi(s).Some? ==> IsIntSyntax(s)
  {
    if |s| > 0 {
      ParseDigitsValue(Unsigned(s));
    }
  }

  lemma Pow10Of18()
    ensures Pow10(18) == 1_000_000_000_000_000_000
  {
    assert Pow10(6) == 1_000_000;
    assert Pow10(12) == 1_000_000_000_000;
  }

  /** At most 18 digits stay below 10^18, well inside the 64-bit range. */
  lemma ShortDigitsFit(d: string)
    requires AllDigits(d) && |d| <= 18
    ensures DigitsValue(d) < 1_000_000_000_000_000_000
  {
    DigitsValueBound(d);
    Pow10Monotone(|d|, 18);
    Pow10Of18();
  }

  /** Every well-formed string of at most 18 characters is accepted: it
      cannot leave the 64-bit range. */
  lemma AtoiAcceptsShort(s: string)
    requires IsIntSyntax(s) && |s| <= 18
    ensures Atoi(s).Some?
  {
    var d := Unsigned(s);
    ParseDigitsValue(d);
    ShortDigitsFit(d);
  }

  lemma {:induction false} FormatNatValue(n: nat)
    ensures DigitsValue(FormatNat(n)) == n
    decreases n
  {
    if n >= 10 {
      var s := FormatNat(n);
      var prefix := FormatNat(n / 10);
      assert s[..|s| - 1] == prefix;
      FormatNatValue(n / 10);
    }
  }

  /** The sign-free case of `AtoiItoa`. */
  lemma AtoiFormatNat(n: nat)
    requires n <= MaxInt64
    ensures Atoi(FormatNat(n)) == Some(n)
  {
    var s := FormatNat(n);
    assert IsDigit(s[0]);
    assert Unsigned(s) == s;
    FormatNatValue(n);
    ParseDigitsValue(s);
  }

  /** The negative case of `AtoiItoa`. */
  lemma AtoiNegative(n: int)
    requires MinInt64 <= n < 0
    ensures Atoi(Itoa(n)) == Some(n)
  {
    var s := Itoa(n);
    assert Unsigned(s) == FormatNat(-n);
    FormatNatValue(-n);
    ParseDigitsValue(FormatNat(-n));
  }

  /** Formatting then parsing gives back every 64-bit integer. */
  lemma AtoiItoa(n: int)
    requires MinInt64 <= n <= MaxInt64
    ensures Atoi(Itoa(n)) == Some(n)
  {
    if n < 0 {
      AtoiNegative(n);
    } else {
      AtoiFormatNat(n);
    }
  }

  /** `Atoi` exactly: a well-formed string whose value fits in 64 bits gives
      that value; everything else (a syntax or a range error) gives `None`. */
  lemma AtoiValue(s: string)
    ensures Atoi(s) == if IsIntSyntax(s) && MinInt64 <= SignedValue(s) <= MaxInt64
                       then Some(SignedValue(s)) else None
  {
    if |s| > 0 {
      ParseDigitsValue(Unsigned(s));
    }
  }

  /** Strings outside the syntax, the empty string among them, are rejected. */
  lemma AtoiRejectsEmptyAndSignOnly()
    ensures Atoi("") == None
    ensures Atoi("+") == None && Atoi("-") == None
  {
  }
}
