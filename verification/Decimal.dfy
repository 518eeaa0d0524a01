/**
  Go's decimal text for integers: fmt's %d and strconv's FormatInt on the way out,
  ParseUint, ParseInt and Atoi on the way in, with their 64-bit range rules.
 */
module Decimal {

  const TWO63: int := 0x8000_0000_0000_0000
  const MAX_UINT64: int := 0xFFFF_FFFF_FFFF_FFFF

  predicate IsDigit(c: char) { '0' <= c <= '9' }

  predicate AllDigits(s: string) { forall i :: 0 <= i < |s| ==> IsDigit(s[i]) }

  function DigitChar(d: nat): (c: char)
    requires d < 10
    ensures c == "0123456789"[d] && IsDigit(c) && DigitValue(c) == d
  {
    (d + '0' as int) as char
  }

  function DigitValue(c: char): (d: nat)
    requires IsDigit(c)
    ensures d < 10
  {
    c as int - '0' as int
  }

  function FormatNat(n: nat): (s: string)
    ensures s != "" && AllDigits(s)
  {
    if n < 10 then [DigitChar(n)] else FormatNat(n / 10) + [DigitChar(n % 10)]
  }

  function FormatInt(n: int): string {
    if n < 0 then "-" + FormatNat(-n) else FormatNat(n)
  }

  datatype Parsed = Syntax | Range(clamped: int) | Number(n: int)

  /** The scanning loop of strconv.ParseUint: `acc` is the value of the digits before position `i`. */
  function ScanDigits(s: string, i: nat, acc: nat): Parsed
    requires i <= |s|
    decreases |s| - i
  {
    if i == |s| then Number(acc)
    else if !IsDigit(s[i]) then Syntax
    else
      var next := acc * 10 + DigitValue(s[i]);
      if next > MAX_UINT64 then Range(MAX_UINT64) else ScanDigits(s, i + 1, next)
  }

  function ParseUint(s: string): Parsed {
    if s == "" then Syntax else ScanDigits(s, 0, 0)
  }

  function ParseInt(s: string): Parsed {
    if s == "" then Syntax
    else
      var neg := s[0] == '-';
      var magnitude := ParseUint(if neg || s[0] == '+' then s[1..] else s);
      if magnitude.Syntax? then Syntax
      else
        var m := if magnitude.Range? then magnitude.clamped else magnitude.n;
        if !neg && m >= TWO63 then Range(TWO63 - 1)
        else if neg && m > TWO63 then Range(-TWO63)
        else Number(if neg then -m else m)
  }

  /** strconv.Atoi with its error dropped: what is left is 0 or the clamped bound. */
  function AtoiDroppingError(s: string): int {
    match ParseInt(s)
    case Number(n) => n
    case Range(clamped) => clamped
    case Syntax => 0
  }

  // ----- what is accepted -----

  /** The number that a digit text denotes. */
  function Value(s: string): nat
    requires AllDigits(s)
  {
    if s == "" then 0 else Value(s[..|s| - 1]) * 10 + DigitValue(s[|s| - 1])
  }

  predicate IsNumeral(s: string) { s != "" && AllDigits(s) }

  /** Some of the leading digits alone are too large. */
  ghost predicate Overflows(s: string) {
    exists k :: 0 <= k <= |s| && AllDigits(s[..k]) && Value(s[..k]) > MAX_UINT64
  }

  lemma ValueOfPrefix(s: string, i: nat)
    requires AllDigits(s) && i <= |s|
    ensures Value(s[..i]) <= Value(s)
    decreases |s|
  {
    if i == |s| {
      assert s[..i] == s;
    } else {
      var t := s[..|s| - 1];
      assert s[..i] == t[..i];
      ValueOfPrefix(t, i);
    }
  }

  lemma ValueOfMore(s: string, i: nat)
    requires i < |s| && AllDigits(s[..i]) && IsDigit(s[i])
    ensures AllDigits(s[..i + 1]) && Value(s[..i + 1]) == Value(s[..i]) * 10 + DigitValue(s[i])
  {
    var t := s[..i + 1];
    assert t[..|t| - 1] == s[..i] && t[|t| - 1] == s[i];
  }

  lemma DigitAt(s: string, k: nat, i: nat)
    requires i < k <= |s| && AllDigits(s[..k])
    ensures IsDigit(s[i])
  {
    assert s[..k][i] == s[i];
  }

  lemma NoOverflowUpTo(s: string, i: nat)
    requires i <= |s| && AllDigits(s[..i]) && Value(s[..i]) <= MAX_UINT64
    requires i == |s| || !IsDigit(s[i])
    ensures !Overflows(s)
  {
    forall k | 0 <= k <= |s| && AllDigits(s[..k]) ensures Value(s[..k]) <= MAX_UINT64 {
      assert k <= i by { if k > i { DigitAt(s, k, i); } }
      assert s[..k] == s[..i][..k];
      ValueOfPrefix(s[..i], k);
    }
  }

  /** How the scan goes on from a prefix of digits that is not too large. */
  lemma {:induction false} ScanIs(s: string, i: nat)
    requires i <= |s| && AllDigits(s[..i]) && Value(s[..i]) <= MAX_UINT64
    ensures var r := ScanDigits(s, i, Value(s[..i]));
            && (r.Number? <==> AllDigits(s) && !Overflows(s))
            && (r.Number? ==> r.n == Value(s))
            && (r.Range? <==> Overflows(s))
            && (r.Range? ==> r.clamped == MAX_UINT64)
    decreases |s| - i
  {
    if i == |s| {
      assert s[..i] == s;
      NoOverflowUpTo(s, i);
    } else if !IsDigit(s[i]) {
      NoOverflowUpTo(s, i);
    } else {
      ValueOfMore(s, i);
      if Value(s[..i + 1]) > MAX_UINT64 {
        assert Overflows(s);
      } else {
        ScanIs(s, i + 1);
      }
    }
  }

  lemma OverflowOfNumeral(s: string)
    requires AllDigits(s)
    ensures Overflows(s) <==> Value(s) > MAX_UINT64
  {
    assert s[..|s|] == s;
    if Value(s) <= MAX_UINT64 { NoOverflowUpTo(s, |s|); }
  }

  /**
    ParseUint reads exactly the non-empty digit texts whose value fits in 64 bits. Leading digits that
    do not fit are a range error, whatever follows them; every other text is a syntax error.
   */
  lemma ParseUintIff(s: string)
    ensures forall n :: ParseUint(s) == Number(n) <==> IsNumeral(s) && n == Value(s) <= MAX_UINT64
    ensures ParseUint(s).Range? <==> Overflows(s)
    ensures ParseUint(s).Range? ==> ParseUint(s).clamped == MAX_UINT64
  {
    assert s[..0] == "";
    ScanIs(s, 0);
    if AllDigits(s) { OverflowOfNumeral(s); }
    if s == "" { assert !Overflows(s); }
  }

  predicate Positive(s: string, d: string) { s == d || s == "+" + d }

  predicate Negative(s: string, d: string) { s == "-" + d }

  /** `s` is a decimal text of `n`: digits, after at most one sign. */
  ghost predicate Denotes(s: string, n: int) {
    exists d :: IsNumeral(d) && ((Positive(s, d) && n == Value(d)) || (Negative(s, d) && n == 0 - Value(d)))
  }

  /** Above the largest signed number, or with too many digits before anything else is seen. */
  ghost predicate TooLarge(s: string) {
    exists d :: Positive(s, d) && (Overflows(d) || (IsNumeral(d) && Value(d) >= TWO63))
  }

  ghost predicate TooSmall(s: string) {
    exists d :: Negative(s, d) && (Overflows(d) || (IsNumeral(d) && Value(d) > TWO63))
  }

  /** The text without its sign. */
  function Unsigned(s: string): string { if s != "" && (s[0] == '-' || s[0] == '+') then s[1..] else s }

  lemma OverflowStarts(d: string)
    requires Overflows(d)
    ensures d != "" && IsDigit(d[0])
  {
    var k :| 0 <= k <= |d| && AllDigits(d[..k]) && Value(d[..k]) > MAX_UINT64;
    assert k > 0;
    DigitAt(d, k, 0);
  }

  /** There is one way to take a sign off a text that starts with a digit then. */
  lemma UnsignedIs(s: string, d: string)
    requires IsNumeral(d) || Overflows(d)
    ensures Positive(s, d) ==> d == Unsigned(s) && s != "" && s[0] != '-'
    ensures Negative(s, d) ==> d == Unsigned(s) && s[0] == '-'
  {
    if Overflows(d) { OverflowStarts(d); }
  }

  lemma UnsignedSuits(s: string)
    requires s != ""
    ensures if s[0] == '-' then Negative(s, Unsigned(s)) else Positive(s, Unsigned(s))
  {
  }

  lemma DenotesIs(s: string, n: int)
    ensures Denotes(s, n) <==> s != "" && IsNumeral(Unsigned(s))
                               && n == if s[0] == '-' then 0 - Value(Unsigned(s)) else Value(Unsigned(s))
  {
    if Denotes(s, n) {
      var d :| IsNumeral(d) && ((Positive(s, d) && n == Value(d)) || (Negative(s, d) && n == 0 - Value(d)));
      UnsignedIs(s, d);
    }
    if s != "" { UnsignedSuits(s); }
  }

  lemma TooLargeIs(s: string)
    ensures TooLarge(s) <==> s != "" && s[0] != '-'
                             && (Overflows(Unsigned(s)) || (IsNumeral(Unsigned(s)) && Value(Unsigned(s)) >= TWO63))
  {
    if TooLarge(s) {
      var d :| Positive(s, d) && (Overflows(d) || (IsNumeral(d) && Value(d) >= TWO63));
      UnsignedIs(s, d);
    }
    if s != "" { UnsignedSuits(s); }
  }

  lemma TooSmallIs(s: string)
    ensures TooSmall(s) <==> s != "" && s[0] == '-'
                             && (Overflows(Unsigned(s)) || (IsNumeral(Unsigned(s)) && Value(Unsigned(s)) > TWO63))
  {
    if TooSmall(s) {
      var d :| Negative(s, d) && (Overflows(d) || (IsNumeral(d) && Value(d) > TWO63));
      UnsignedIs(s, d);
    }
    if s != "" { UnsignedSuits(s); }
  }

  /**
    ParseInt reads exactly the digit texts, after at most one sign, of the numbers that fit in 64 bits. Out
    of range it reports the nearer bound, and every other text is a syntax error.
   */
  lemma ParseIntIff(s: string, n: int)
    ensures ParseInt(s) == Number(n) <==> Denotes(s, n) && -TWO63 <= n < TWO63
    ensures ParseInt(s) == Range(n) <==> (TooLarge(s) && n == TWO63 - 1) || (TooSmall(s) && n == -TWO63)
  {
    DenotesIs(s, n);
    TooLargeIs(s);
    TooSmallIs(s);
    if s != "" { MagnitudeIs(Unsigned(s)); }
  }

  lemma MagnitudeIs(d: string)
    ensures ParseUint(d).Number? <==> IsNumeral(d) && !Overflows(d)
    ensures ParseUint(d).Number? ==> ParseUint(d).n == Value(d) <= MAX_UINT64
    ensures ParseUint(d).Range? <==> Overflows(d)
    ensures ParseUint(d).Range? ==> ParseUint(d).clamped == MAX_UINT64
    ensures IsNumeral(d) && Overflows(d) ==> Value(d) > MAX_UINT64
  {
    ParseUintIff(d);
    if AllDigits(d) {
      OverflowOfNumeral(d);
      assert ParseUint(d) == Number(Value(d)) <==> IsNumeral(d) && Value(d) <= MAX_UINT64;
    }
  }

  /** The number, the nearer bound, or zero for a text that is neither. */
  ghost predicate AtoiGives(s: string, n: int) {
    || (Denotes(s, n) && -TWO63 <= n < TWO63)
    || (TooLarge(s) && n == TWO63 - 1)
    || (TooSmall(s) && n == -TWO63)
    || (!(exists m :: Denotes(s, m)) && !TooLarge(s) && !TooSmall(s) && n == 0)
  }

  /** What Atoi leaves when its error is dropped. */
  lemma AtoiIff(s: string, n: int)
    ensures AtoiDroppingError(s) == n <==> AtoiGives(s, n)
  {
    ParseIntIff(s, n);
    var r := ParseInt(s);
    if r.Number? { ParseIntIff(s, r.n); }
    if r.Range? { ParseIntIff(s, r.clamped); }
    ParseIntIff(s, TWO63 - 1);
    ParseIntIff(s, -TWO63);
    forall m | Denotes(s, m) ensures !r.Syntax? {
      ParseIntIff(s, m);
      OutOfRange(s, m);
    }
  }

  lemma OutOfRange(s: string, n: int)
    requires Denotes(s, n)
    ensures n >= TWO63 <==> TooLarge(s)
    ensures n < -TWO63 <==> TooSmall(s)
  {
    DenotesIs(s, n);
    TooLargeIs(s);
    TooSmallIs(s);
    OverflowOfNumeral(Unsigned(s));
  }

  // ----- printing and reading back -----

  lemma {:induction false} ValueOfFormat(n: nat)
    ensures Value(FormatNat(n)) == n
  {
    var s := FormatNat(n);
    if n < 10 {
      assert s[..0] == "";
    } else {
      assert s[..|s| - 1] == FormatNat(n / 10);
      ValueOfFormat(n / 10);
    }
  }

  /** ParseUint inverts %d on every 64-bit unsigned value. */
  lemma ParseUintOfFormat(n: nat)
    requires n <= MAX_UINT64
    ensures ParseUint(FormatNat(n)) == Number(n)
  {
    ValueOfFormat(n);
    ParseUintIff(FormatNat(n));
  }

  /** ParseInt, and so Atoi, inverts %d on every 64-bit signed value. */
  lemma ParseIntOfFormat(n: int)
    requires -TWO63 <= n < TWO63
    ensures ParseInt(FormatInt(n)) == Number(n)
    ensures AtoiDroppingError(FormatInt(n)) == n
  {
    var s := FormatInt(n);
    if n < 0 {
      assert s[1..] == FormatNat(-n);
      ParseUintOfFormat(-n);
    } else {
      ParseUintOfFormat(n);
    }
  }

  lemma FormatIntChars(n: int, c: char)
    requires c in FormatInt(n)
    ensures IsDigit(c) || c == '-'
  {
  }

  /** Different numbers have different texts, whatever their size. */
  lemma FormatNatInjective(a: nat, b: nat)
    requires FormatNat(a) == FormatNat(b)
    ensures a == b
  {
    ValueOfFormat(a);
    ValueOfFormat(b);
  }
}
