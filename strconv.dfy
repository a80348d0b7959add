/** Decimal integer parsing as Go's strconv package does it for the handlers:
    `ParseUint(s, 10, 32)` for the ids in like/follow paths and
    `Atoi` (that is `ParseInt(s, 10, 64)`) for comment post ids, the
    pagination parameters and the primary-key strings handed to the store. */
module Strconv {
  import opened Wrappers

  const MaxUint32: nat := 0xFFFF_FFFF
  const MaxUint64: nat := 0xFFFF_FFFF_FFFF_FFFF
  const MaxInt64: int := 0x7FFF_FFFF_FFFF_FFFF
  const MinInt64: int := -0x8000_0000_0000_0000

  predicate IsDigit(c: char) { '0' <= c <= '9' }

  predicate AllDigits(s: string) { forall i :: 0 <= i < |s| ==> IsDigit(s[i]) }

  function DigitValue(c: char): nat
    requires IsDigit(c)
  {
    c as int - '0' as int
  }

  function DigitChar(d: nat): (c: char)
    requires d < 10
    ensures IsDigit(c) && DigitValue(c) == d
  {
    ('0' as int + d) as char
  }

  /** The value a digit string denotes, most significant digit first: the
      reference meaning against which the parsing loop is proved. */
  function Decimal(s: string): nat
    requires AllDigits(s)
  {
    if s == [] then 0 else Decimal(s[..|s| - 1]) * 10 + DigitValue(s[|s| - 1])
  }

  datatype NumError = SyntaxError | RangeError

  datatype UintResult = Parsed(value: nat) | Failed(err: NumError)

  /** The digit loop of `strconv.ParseUint` in base 10, from index `i` on,
      with `acc` the value of the digits already read: a non-digit is a syntax
      error, and the first digit that takes the value above `max` is a range
      error, reported at once without looking at the rest. */
  function ScanDigits(s: string, i: nat, acc: nat, max: nat): (r: UintResult)
    requires i <= |s|
    ensures acc <= max && r.Parsed? ==> r.value <= max
    decreases |s| - i
  {
    if i == |s| then Parsed(acc)
    else if !IsDigit(s[i]) then Failed(SyntaxError)
    else if acc * 10 + DigitValue(s[i]) > max then Failed(RangeError)
    else ScanDigits(s, i + 1, acc * 10 + DigitValue(s[i]), max)
  }

  /** `strconv.ParseUint(s, 10, bits)` where `max` is 2^bits - 1: the empty
      string is a syntax error; base 10 admits no sign, prefix or underscore. */
  function ParseUint(s: string, max: nat): (r: UintResult)
    ensures s == [] ==> r == Failed(SyntaxError)
    ensures r.Parsed? ==> r.value <= max
  {
    if s == [] then Failed(SyntaxError) else ScanDigits(s, 0, 0, max)
  }

  /** `strconv.ParseUint(s, 10, 32)`, the parser of like and follow path ids. */
  function ParseUint32(s: string): (r: UintResult)
    ensures r.Parsed? ==> r.value <= MaxUint32
  {
    ParseUint(s, MaxUint32)
  }

  lemma DigitsOfPrefix(s: string, k: nat)
    requires AllDigits(s) && k <= |s|
    ensures AllDigits(s[..k])
  {
  }

  lemma DigitsExtend(s: string, k: nat)
    requires k < |s| && AllDigits(s[..k]) && IsDigit(s[k])
    ensures AllDigits(s[..k + 1])
  {
    assert forall j :: 0 <= j < k ==> s[..k + 1][j] == s[..k][j];
  }

  lemma DecimalPrefix(s: string, k: nat)
    requires k < |s| && AllDigits(s[..k + 1])
    ensures AllDigits(s[..k]) && IsDigit(s[k])
    ensures Decimal(s[..k + 1]) == Decimal(s[..k]) * 10 + DigitValue(s[k])
  {
    assert s[..k + 1][..k] == s[..k];
    assert s[..k + 1][k] == s[k];
  }

  lemma {:induction false} DecimalPrefixBound(s: string, k: nat)
    requires AllDigits(s) && k <= |s|
    ensures Decimal(s[..k]) <= Decimal(s)
    decreases |s| - k
  {
    if k < |s| {
      DigitsOfPrefix(s, k + 1);
      DecimalPrefix(s, k);
      DecimalPrefixBound(s, k + 1);
    } else {
      assert s[..k] == s;
    }
  }

  lemma {:induction false} ScanDigitsMeaning(s: string, i: nat, acc: nat, max: nat)
    requires i <= |s| && AllDigits(s[..i]) && acc == Decimal(s[..i]) && acc <= max
    ensures ScanDigits(s, i, acc, max).Parsed? <==> AllDigits(s) && Decimal(s) <= max
    ensures ScanDigits(s, i, acc, max).Parsed? ==> ScanDigits(s, i, acc, max).value == Decimal(s)
    decreases |s| - i
  {
    if i == |s| {
      assert s[..i] == s;
    } else if !IsDigit(s[i]) {
      assert !AllDigits(s);
    } else {
      DigitsExtend(s, i);
      DecimalPrefix(s, i);
      if acc * 10 + DigitValue(s[i]) > max {
        if AllDigits(s) { DecimalPrefixBound(s, i + 1); }
      } else {
        ScanDigitsMeaning(s, i + 1, acc * 10 + DigitValue(s[i]), max);
      }
    }
  }

  /** ParseUint accepts exactly the non-empty digit strings whose value is at
      most `max`, and then yields that value. */
  lemma ParseUintMeaning(s: string, max: nat)
    ensures ParseUint(s, max).Parsed? <==> s != [] && AllDigits(s) && Decimal(s) <= max
    ensures ParseUint(s, max).Parsed? ==> ParseUint(s, max).value == Decimal(s)
  {
    if s != [] {
      assert s[..0] == [];
      ScanDigitsMeaning(s, 0, 0, max);
    }
  }

  /** A range error means that some leading run of digits already exceeds
      `max`, whatever follows it: "99999999999x" is a range error, not a
      syntax error. */
  lemma ParseUintRangeError(s: string, max: nat)
    requires ParseUint(s, max) == Failed(RangeError)
    ensures exists k :: 0 < k <= |s| && AllDigits(s[..k]) && Decimal(s[..k]) > max
  {
    assert s[..0] == [];
    RangeErrorOnlyOnDigits(s, 0, 0, max);
  }

  lemma {:induction false} RangeErrorOnlyOnDigits(s: string, i: nat, acc: nat, max: nat)
    requires i <= |s| && AllDigits(s[..i]) && acc == Decimal(s[..i]) && acc <= max
    requires ScanDigits(s, i, acc, max) == Failed(RangeError)
    ensures exists k :: i < k <= |s| && AllDigits(s[..k]) && Decimal(s[..k]) > max
    decreases |s| - i
  {
    assert i < |s| && IsDigit(s[i]);
    DigitsExtend(s, i);
    DecimalPrefix(s, i);
    if acc * 10 + DigitValue(s[i]) > max {
      assert Decimal(s[..i + 1]) > max;
    } else {
      RangeErrorOnlyOnDigits(s, i + 1, acc * 10 + DigitValue(s[i]), max);
    }
  }

  /** Decimal notation of a natural number, without leading zeros. */
  function Format(n: nat): (s: string)
    ensures s != [] && AllDigits(s)
    decreases n
  {
    if n < 10 then [DigitChar(n)] else Format(n / 10) + [DigitChar(n % 10)]
  }

  lemma {:induction false} DecimalOfFormat(n: nat)
    ensures Decimal(Format(n)) == n
    decreases n
  {
    if n >= 10 {
      var s := Format(n);
      assert s[..|s| - 1] == Format(n / 10);
      DecimalOfFormat(n / 10);
    }
  }

  /** ParseUint32 inverts Format on every value it admits. */
  lemma ParseUint32OfFormat(n: nat)
    requires n <= MaxUint32
    ensures ParseUint32(Format(n)) == Parsed(n)
  {
    DecimalOfFormat(n);
    ParseUintMeaning(Format(n), MaxUint32);
  }

  /** The outcome of `strconv.ParseInt(s, 10, 64)`: the value Go returns
      (0 on a syntax error, the nearest int64 bound on a range error) and the
      error, if any. */
  datatype IntResult = IntResult(value: int, err: Option<NumError>)

  /** `strconv.ParseInt(s, 10, 64)`: an optional `+` or `-`, then ParseUint
      over 64 bits on the rest; a magnitude beyond the signed range is a range
      error whose value is clamped. `strconv.Atoi` on a 64-bit platform returns
      the same value and error (its fast path covers only inputs short enough
      never to overflow). */
  function ParseInt(s: string): (r: IntResult)
    ensures MinInt64 <= r.value <= MaxInt64
    ensures r.err == Some(SyntaxError) ==> r.value == 0
  {
    if s == [] then IntResult(0, Some(SyntaxError))
    else
      var neg := s[0] == '-';
      var digits := if s[0] == '+' || s[0] == '-' then s[1..] else s;
      match ParseUint(digits, MaxUint64)
      case Failed(SyntaxError) => IntResult(0, Some(SyntaxError))
      case Failed(RangeError) =>
        IntResult(if neg then MinInt64 else MaxInt64, Some(RangeError))
      case Parsed(un) =>
        if !neg && un > MaxInt64 then IntResult(MaxInt64, Some(RangeError))
        else if neg && un > -MinInt64 then IntResult(MinInt64, Some(RangeError))
        else var v: int := un; IntResult(if neg then -v else v, None)
  }

  /** `strconv.Atoi`: on a 64-bit platform, ParseInt(s, 10, 64). */
  function Atoi(s: string): (r: IntResult)
    ensures MinInt64 <= r.value <= MaxInt64
    ensures r.err == Some(SyntaxError) ==> r.value == 0
  {
    ParseInt(s)
  }

  /** Decimal notation of an integer, with a leading `-` when negative. */
  function FormatInt(n: int): string
  {
    if n < 0 then "-" + Format(-n) else Format(n)
  }

  /** Atoi inverts FormatInt on the whole int64 range. */
  lemma AtoiOfFormatInt(n: int)
    requires MinInt64 <= n <= MaxInt64
    ensures Atoi(FormatInt(n)) == IntResult(n, None)
  {
    var m: nat := if n < 0 then -n else n;
    DecimalOfFormat(m);
    ParseUintMeaning(Format(m), MaxUint64);
    if n < 0 {
      assert FormatInt(n)[1..] == Format(m);
    } else {
      assert FormatInt(n)[0] != '-' && FormatInt(n)[0] != '+';
    }
  }

  /** Atoi succeeds only on an optionally signed non-empty digit string, and
      its value is then that string's value with the sign applied. */
  lemma AtoiAccepts(s: string)
    requires Atoi(s).err == None
    ensures s != []
    ensures var digits := if s[0] == '+' || s[0] == '-' then s[1..] else s;
      digits != [] && AllDigits(digits) &&
      Atoi(s).value == if s[0] == '-' then 0 - Decimal(digits) as int else Decimal(digits)
  {
    var digits := if s[0] == '+' || s[0] == '-' then s[1..] else s;
    ParseUintMeaning(digits, MaxUint64);
  }
}
