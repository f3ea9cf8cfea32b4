/** The two conversions of Go's `strconv` package that the core uses:
    `Itoa` (decimal rendering of an `int`) and `Atoi` (decimal parsing into a 64-bit `int`). */
module Strconv {
  import opened GoStrings

  const MaxInt64: int := 0x7FFF_FFFF_FFFF_FFFF
  const MinInt64: int := -0x8000_0000_0000_0000
  const MaxUint64: int := 0xFFFF_FFFF_FFFF_FFFF

  predicate InInt64(n: int) {
    MinInt64 <= n <= MaxInt64
  }

  function DigitChar(d: nat): (c: Byte)
    requires d < 10
    ensures IsDigit(c) && DigitValue(c) == d
  {
    ['0', '1', '2', '3', '4', '5', '6', '7', '8', '9'][d]
  }

  function DigitValue(c: Byte): nat
    requires IsDigit(c)
  {
    c as int - '0' as int
  }

  predicate AllDigits(s: GoString) {
    forall i :: 0 <= i < |s| ==> IsDigit(s[i])
  }

  /** The number a run of decimal digits denotes. */
  function DecimalValue(s: GoString): nat
    requires AllDigits(s)
  {
    if s == [] then 0 else DecimalValue(s[..|s| - 1]) * 10 + DigitValue(s[|s| - 1])
  }

  /** The shortest decimal rendering of `n`, without a sign. */
  function Digits(n: nat): (s: GoString)
    ensures s != [] && AllDigits(s)
    decreases n
  {
    if n < 10 then [DigitChar(n)] else Digits(n / 10) + [DigitChar(n % 10)]
  }

  /** `strconv.Itoa`: a minus sign for negative numbers, then the digits. */
  function Itoa(n: int): GoString {
    if n < 0 then "-" + Digits(-n) else Digits(n)
  }

  lemma {:induction false} DigitsValue(n: nat)
    ensures DecimalValue(Digits(n)) == n
    decreases n
  {
    if n >= 10 {
      DigitsValue(n / 10);
      var s := Digits(n);
      assert s[..|s| - 1] == Digits(n / 10);
    }
  }

  /** The rendering is never empty, never starts with '+', and has a leading '-' exactly for negative numbers. */
  lemma ItoaShape(n: int)
    ensures Itoa(n) != []
    ensures Itoa(n)[0] != '+'
    ensures n < 0 <==> Itoa(n)[0] == '-'
    ensures forall i :: 0 < i < |Itoa(n)| ==> IsDigit(Itoa(n)[i])
  {
  }

  /** Distinct numbers render differently. */
  lemma ItoaInjective(m: int, n: int)
    requires Itoa(m) == Itoa(n)
    ensures m == n
  {
    ItoaShape(m);
    ItoaShape(n);
    assert (m < 0) == (n < 0);
    var dm := if m < 0 then -m else m;
    var dn := if n < 0 then -n else n;
    assert Digits(dm) == Digits(dn) by {
      if m < 0 {
        assert Itoa(m)[1..] == Digits(dm);
        assert Itoa(n)[1..] == Digits(dn);
      }
    }
    DigitsValue(dm);
    DigitsValue(dn);
  }

  datatype NumError = NoError | ErrSyntax | ErrRange

  /** What `strconv.Atoi` returns: the value and the error. On a syntax error the value is 0;
      on a range error it is the nearest 64-bit bound. */
  datatype Parsed = Parsed(value: int, err: NumError)

  /** The length of the longest prefix of `s` made of decimal digits. */
  function DigitRunLength(s: GoString): (k: nat)
    ensures k <= |s| && AllDigits(s[..k])
    ensures k < |s| ==> !IsDigit(s[k])
  {
    if s == [] || !IsDigit(s[0]) then 0
    else
      var k := 1 + DigitRunLength(s[1..]);
      assert s[..k] == [s[0]] + s[1..][..k - 1];
      k
  }

  /** `strconv.ParseUint(s, 10, 64)`: digits only. It scans from the left and stops with a range
      error at the first digit that overflows 64 bits, before it would see a later non-digit. */
  function ParseUint(s: GoString): Parsed {
    var k := DigitRunLength(s);
    if s == [] then Parsed(0, ErrSyntax)
    else if DecimalValue(s[..k]) > MaxUint64 then Parsed(MaxUint64, ErrRange)
    else if k < |s| then Parsed(0, ErrSyntax)
    else Parsed(DecimalValue(s), NoError)
  }

  /** `strconv.Atoi(s)` on a 64-bit platform: `ParseInt(s, 10, 0)`, an optional sign, then
      `ParseUint`, with the result clamped to the `int64` range on overflow. */
  function Atoi(s: GoString): (r: Parsed)
    ensures InInt64(r.value)
    ensures r.err != NoError ==> r.value in {0, MaxInt64, MinInt64}
  {
    if s == [] then Parsed(0, ErrSyntax)
    else
      var neg := s[0] == '-';
      var body := if s[0] == '+' || s[0] == '-' then s[1..] else s;
      var u := ParseUint(body);
      if u.err == ErrSyntax then Parsed(0, ErrSyntax)
      else if !neg && u.value > MaxInt64 then Parsed(MaxInt64, ErrRange)
      else if neg && u.value > -MinInt64 then Parsed(MinInt64, ErrRange)
      else Parsed(if neg then -u.value else u.value, NoError)
  }

  /** Parsing the rendering of any 64-bit integer gives the integer back, with no error. */
  lemma AtoiItoa(n: int)
    requires InInt64(n)
    ensures Atoi(Itoa(n)) == Parsed(n, NoError)
  {
    var m := if n < 0 then -n else n;
    var d := Digits(m);
    DigitsValue(m);
    assert DigitRunLength(d) == |d| by {
      DigitRunFull(d);
    }
    assert d[..|d|] == d;
    if n < 0 {
      assert Itoa(n)[1..] == d;
    }
  }

  lemma {:induction false} DigitRunFull(s: GoString)
    requires AllDigits(s)
    ensures DigitRunLength(s) == |s|
  {
    if s != [] {
      DigitRunFull(s[1..]);
    }
  }
}
