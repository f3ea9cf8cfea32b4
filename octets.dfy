/** Go's `byte` (`uint8`) and the three bitwise operators the subnet arithmetic uses:
    `&`, `|` and the complement `^x`.  The operators are defined bit by bit on natural
    numbers, lowest bit first, so that they mix freely with ordinary arithmetic. */
module Octets {

  type Octet = x: int | 0 <= x < 256

  function Pow2(k: nat): (p: nat)
    ensures p >= 1
  {
    if k == 0 then 1 else 2 * Pow2(k - 1)
  }

  /** One bit of `&` and of `|`. */
  function BitAnd(a: nat, b: nat): nat {
    if a == 1 && b == 1 then 1 else 0
  }

  function BitOr(a: nat, b: nat): nat {
    if a == 1 || b == 1 then 1 else 0
  }

  lemma Pow2Byte()
    ensures Pow2(8) == 256
  {
    assert Pow2(4) == 16;
  }

  /** Bitwise AND. */
  function AndN(x: nat, y: nat): nat
    decreases x
  {
    if x == 0 || y == 0 then 0
    else 2 * AndN(x / 2, y / 2) + BitAnd(x % 2, y % 2)
  }

  /** Bitwise OR. */
  function OrN(x: nat, y: nat): nat
    decreases x + y
  {
    if x == 0 then y
    else if y == 0 then x
    else 2 * OrN(x / 2, y / 2) + BitOr(x % 2, y % 2)
  }

  /** `x & y` on bytes. */
  function And(x: Octet, y: Octet): (r: Octet)
    ensures r <= x && r <= y
  {
    AndBelow(x, y);
    AndN(x, y)
  }

  /** `x | y` on bytes. */
  function Or(x: Octet, y: Octet): (r: Octet)
    ensures x <= r && y <= r
  {
    Pow2Byte();
    OrBelow(x, y, 8);
    OrAbove(x, y);
    OrN(x, y)
  }

  /** `^x` on a byte: every one of the eight bits flipped. */
  function Not(x: Octet): Octet {
    255 - x
  }

  /** The lowest bit split off: the recursion of `AndN` holds for every pair. */
  lemma AndStep(x: nat, y: nat)
    ensures AndN(x, y) == 2 * AndN(x / 2, y / 2) + BitAnd(x % 2, y % 2)
  {
  }

  lemma OrStep(x: nat, y: nat)
    ensures OrN(x, y) == 2 * OrN(x / 2, y / 2) + BitOr(x % 2, y % 2)
  {
    if x == 0 {
      assert OrN(x / 2, y / 2) == y / 2;
    } else if y == 0 {
      assert OrN(x / 2, y / 2) == x / 2;
    }
  }

  /** The laws of `HostBitsKeepMask` and `BelowHostBits` for a single bit. */
  lemma BitLaws(b: nat, m: nat)
    requires b < 2 && m < 2
    ensures BitAnd(BitOr(BitAnd(b, m), 1 - m), m) == BitAnd(b, m)
    ensures b <= BitOr(BitAnd(b, m), 1 - m)
  {
  }

  /** Two numbers compare as their halves and lowest bits do. */
  lemma Halves(x: int, x2: int, xb: int, y: int, y2: int, yb: int)
    requires x == 2 * x2 + xb && y == 2 * y2 + yb && x2 <= y2 && xb <= yb
    ensures x <= y
  {
  }

  lemma Halve(x: nat)
    ensures x == 2 * (x / 2) + x % 2 && x % 2 < 2
  {
  }

  lemma Join(x: int, q: int, r: int)
    requires 0 <= r < 2 && x == 2 * q + r
    ensures x / 2 == q && x % 2 == r
  {
  }

  lemma {:induction false} AndBelow(x: nat, y: nat)
    ensures AndN(x, y) <= x && AndN(x, y) <= y
    decreases x
  {
    if x != 0 && y != 0 {
      AndBelow(x / 2, y / 2);
    }
  }

  lemma {:induction false} OrAbove(x: nat, y: nat)
    ensures x <= OrN(x, y) && y <= OrN(x, y)
    decreases x + y
  {
    if x != 0 && y != 0 {
      OrAbove(x / 2, y / 2);
    }
  }

  lemma {:induction false} OrBelow(x: nat, y: nat, k: nat)
    requires x < Pow2(k) && y < Pow2(k)
    ensures OrN(x, y) < Pow2(k)
  {
    if k > 0 {
      OrBelow(x / 2, y / 2, k - 1);
      OrStep(x, y);
    }
  }

  /** `AndN` and `OrN` on numbers given by their halves and lowest bits. */
  lemma AndSplit(x: nat, y: nat, x2: nat, y2: nat, xb: nat, yb: nat)
    requires xb < 2 && yb < 2 && x == 2 * x2 + xb && y == 2 * y2 + yb
    ensures AndN(x, y) == 2 * AndN(x2, y2) + BitAnd(xb, yb)
  {
    Join(x, x2, xb);
    Join(y, y2, yb);
    AndStep(x, y);
  }

  lemma OrSplit(x: nat, y: nat, x2: nat, y2: nat, xb: nat, yb: nat)
    requires xb < 2 && yb < 2 && x == 2 * x2 + xb && y == 2 * y2 + yb
    ensures OrN(x, y) == 2 * OrN(x2, y2) + BitOr(xb, yb)
  {
    Join(x, x2, xb);
    Join(y, y2, yb);
    OrStep(x, y);
  }

  /** Masking twice is masking once. */
  lemma {:induction false} AndTwice(l: nat, m: nat)
    ensures AndN(AndN(l, m), m) == AndN(l, m)
    decreases l
  {
    if l != 0 && m != 0 {
      var l2, lb, m2, mb := l / 2, l % 2, m / 2, m % 2;
      var a2 := AndN(l2, m2);
      var ab := BitAnd(lb, mb);
      AndSplit(l, m, l2, m2, lb, mb);
      AndSplit(AndN(l, m), m, a2, m2, ab, mb);
      AndTwice(l2, m2);
    }
  }

  /** Setting the bits outside the mask does not change the bits inside it. */
  lemma {:induction false} HostBitsKeepMask(l: nat, m: nat, k: nat)
    requires m < Pow2(k)
    ensures AndN(OrN(AndN(l, m), Pow2(k) - 1 - m), m) == AndN(l, m)
  {
    if k > 0 {
      var l2, lb, m2, mb := l / 2, l % 2, m / 2, m % 2;
      Halve(l);
      Halve(m);
      HostBitsKeepMask(l2, m2, k - 1);
      var a, c := AndN(l, m), Pow2(k) - 1 - m;
      var o := OrN(a, c);
      var a2, c2 := AndN(l2, m2), Pow2(k - 1) - 1 - m2;
      var o2 := OrN(a2, c2);
      var ab := BitAnd(lb, mb);
      var ob := BitOr(ab, 1 - mb);
      AndSplit(l, m, l2, m2, lb, mb);
      OrSplit(a, c, a2, c2, ab, 1 - mb);
      AndSplit(o, m, o2, m2, ob, mb);
      BitLaws(lb, mb);
      Halves(AndN(o, m), AndN(o2, m2), BitAnd(ob, mb), a, a2, ab);
      Halves(a, a2, ab, AndN(o, m), AndN(o2, m2), BitAnd(ob, mb));
    }
  }

  /** A number lies below the number with its own masked bits and every bit outside the mask set. */
  lemma {:induction false} BelowHostBits(b: nat, m: nat, k: nat)
    requires b < Pow2(k) && m < Pow2(k)
    ensures b <= OrN(AndN(b, m), Pow2(k) - 1 - m)
  {
    if k > 0 {
      var b2, bb, m2, mb := b / 2, b % 2, m / 2, m % 2;
      Halve(b);
      Halve(m);
      BelowHostBits(b2, m2, k - 1);
      var a, c := AndN(b, m), Pow2(k) - 1 - m;
      var a2, c2 := AndN(b2, m2), Pow2(k - 1) - 1 - m2;
      var ab := BitAnd(bb, mb);
      AndSplit(b, m, b2, m2, bb, mb);
      OrSplit(a, c, a2, c2, ab, 1 - mb);
      BitLaws(bb, mb);
      Halves(b, b2, bb, OrN(a, c), OrN(a2, c2), BitOr(ab, 1 - mb));
    }
  }

  /** The all-ones mask of `k` bits keeps every bit of a `k`-bit number. */
  lemma {:induction false} AllOnesKeeps(m: nat, k: nat)
    requires m < Pow2(k)
    ensures AndN(Pow2(k) - 1, m) == m
  {
    if k > 0 {
      var m2, mb := m / 2, m % 2;
      AndSplit(Pow2(k) - 1, m, Pow2(k - 1) - 1, m2, 1, mb);
      AllOnesKeeps(m2, k - 1);
    }
  }

  /** On bytes: the two laws of network and broadcast addresses. */
  lemma MaskByte(l: Octet, m: Octet)
    ensures And(And(l, m), m) == And(l, m)
    ensures And(Or(And(l, m), Not(m)), m) == And(l, m)
  {
    AndTwice(l, m);
    Pow2Byte();
    HostBitsKeepMask(l, m, 8);
  }

  /** On bytes: a byte with the network's masked bits lies between the network byte and the
      broadcast byte. */
  lemma MemberByte(b: Octet, l: Octet, m: Octet)
    requires And(b, m) == And(l, m)
    ensures And(l, m) <= b <= Or(And(l, m), Not(m))
  {
    Pow2Byte();
    BelowHostBits(b, m, 8);
  }

  /** On bytes: only the zero mask gives 255 and 0 the same masked bits. */
  lemma OnesZerosAgree(m: Octet)
    requires And(255, m) == And(0, m)
    ensures m == 0
  {
    Pow2Byte();
    AllOnesKeeps(m, 8);
  }


  /** `&` commutes. */
  lemma {:induction false} AndComm(x: nat, y: nat)
    ensures AndN(x, y) == AndN(y, x)
    decreases x
  {
    if x != 0 && y != 0 {
      AndComm(x / 2, y / 2);
      AndStep(y, x);
    }
  }

  /** The all-ones byte as a mask keeps a byte; the zero byte as a host part adds nothing. */
  lemma FullByte(x: Octet)
    ensures And(x, 255) == x && Or(x, Not(255)) == x
  {
    Pow2Byte();
    AllOnesKeeps(x, 8);
    AndComm(x, 255);
  }

  /** The mask byte `0b11111100` clears the two lowest bits, and setting them again adds 3. */
  lemma TwoHostBits(x: Octet)
    ensures And(x, 252) % 4 == 0
    ensures Or(And(x, 252), Not(252)) == And(x, 252) + 3
  {
    var h := x / 2;
    var q := if h == 0 then 0 else AndN(h / 2, 63);
    AndStep(x, 252);
    AndStep(h, 126);
    assert AndN(x, 252) == 4 * q;
    OrLowBits(q);
  }

  lemma OrLowBits(q: nat)
    ensures OrN(4 * q, 3) == 4 * q + 3
  {
    if q != 0 {
      assert OrN(4 * q, 3) == 2 * OrN(2 * q, 1) + BitOr(0, 1);
      assert OrN(2 * q, 1) == 2 * OrN(q, 0) + BitOr(0, 1);
    }
  }
}
