/** The unit selection of the session report's byte formatter. */
module Report {
  import opened GoStrings
  import opened Strconv

  const Unit: int := 1024
  const UnitLetters: GoString := "KMGTPE"

  /** `1024^k`. */
  function Pow1024(k: nat): (p: int)
    ensures p >= 1
  {
    if k == 0 then 1 else Unit * Pow1024(k - 1)
  }

  /** How a byte count is shown: a plain count "n B", or the count divided by `div` in the unit whose
      letter is `UnitLetters[exp]`. The one-decimal rendering of the quotient is not modelled. */
  datatype ByteSize = Plain(text: GoString) | Scaled(div: int, exp: nat, letter: Byte)

  /** `formatBytes` for an `int64`: below 1024 (negative values included) the plain count; otherwise
      the largest power `div = 1024^(exp + 1)` with `div <= bytes`, and the unit letter at `exp`,
      which never runs past "E". */
  method FormatBytes(bytes: int) returns (r: ByteSize)
    requires InInt64(bytes)
    ensures bytes < Unit ==> r == Plain(Itoa(bytes) + " B")
    ensures bytes >= Unit ==>
      r.Scaled? && r.exp <= 5 && r.div == Pow1024(r.exp + 1) &&
      r.div <= bytes < Unit * r.div && r.letter == UnitLetters[r.exp]
  {
    if bytes < Unit {
      return Plain(Itoa(bytes) + " B");
    }
    var div, exp := Unit, 0;
    var n := bytes / Unit;
    while n >= Unit
      invariant exp >= 0 && div == Pow1024(exp + 1)
      invariant n >= 1 && div * n <= bytes < div * n + div
      decreases n
    {
      var n' := n / Unit;
      ScaleStep(bytes, div, n, n', n % Unit);
      div := div * Unit;
      exp := exp + 1;
      n := n';
    }
    UnitBound(bytes, exp, div, n);
    return Scaled(div, exp, UnitLetters[exp]);
  }

  /** Dividing the quotient by 1024 is dividing the byte count by the next power. */
  lemma ScaleStep(b: int, d: int, n: int, q: int, r: int)
    requires d >= 1 && d * n <= b < d * n + d
    requires n == Unit * q + r && 0 <= r < Unit
    ensures (d * Unit) * q <= b < (d * Unit) * q + d * Unit
  {
    assert d * n == d * (Unit * q) + d * r;
    assert d * (Unit * q) == (d * Unit) * q;
    MulMonotone(d, r + 1, Unit);
    assert d * (r + 1) == d * r + d;
  }

  lemma UnitBound(b: int, exp: nat, div: int, n: int)
    requires InInt64(b) && div == Pow1024(exp + 1) && 1 <= n < Unit && div * n <= b < div * n + div
    ensures exp <= 5 && div <= b < Unit * div
  {
    MulMonotone(div, 1, n);
    MulMonotone(div, n + 1, Unit);
    assert div * (n + 1) == div * n + div;
    if exp > 5 {
      Pow1024Monotone(7, exp + 1);
      Pow1024Seven();
    }
  }

  lemma MulMonotone(d: int, x: int, y: int)
    requires d >= 0 && x <= y
    ensures d * x <= d * y
  {
  }

  lemma Pow1024Seven()
    ensures Pow1024(7) > MaxInt64
  {
    assert Pow1024(2) == 0x10_0000;
    assert Pow1024(4) == 0x100_0000_0000;
    assert Pow1024(6) == 0x1000_0000_0000_0000;
  }

  lemma {:induction false} Pow1024Monotone(j: nat, k: nat)
    requires j <= k
    ensures Pow1024(j) <= Pow1024(k)
  {
    if j < k {
      Pow1024Monotone(j, k - 1);
    }
  }

  /** The unit is determined by the power bracket: K for [2^10, 2^20), M for [2^20, 2^30) and so on. */
  lemma UnitBracketUnique(b: int, e: nat, f: nat)
    requires Pow1024(e + 1) <= b < Pow1024(e + 2)
    requires Pow1024(f + 1) <= b < Pow1024(f + 2)
    ensures e == f
  {
    if e < f {
      Pow1024Monotone(e + 2, f + 1);
    } else if f < e {
      Pow1024Monotone(f + 2, e + 1);
    }
  }
}
