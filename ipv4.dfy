/** IPv4 addresses as the byte slices of Go's `net.IP`, with the subnet arithmetic of
    the discovery scanner: network and broadcast address, membership, and the in-place
    big-endian increment `inc`. */
module IPv4 {

  import opened Octets

  /** A 4-byte address or mask (`net.IP.To4()`, a 4-byte `net.IPMask`). */
  type Addr = s: seq<Octet> | |s| == 4 witness [0, 0, 0, 0]

  function Pow256(n: nat): (p: nat)
    ensures p >= 1
  {
    if n == 0 then 1 else 256 * Pow256(n - 1)
  }

  /** The bytes read as one big-endian unsigned number. */
  function Value(s: seq<Octet>): nat {
    if s == [] then 0 else Value(s[..|s| - 1]) * 256 + s[|s| - 1]
  }

  lemma {:induction false} ValueBound(s: seq<Octet>)
    ensures Value(s) < Pow256(|s|)
  {
    if s != [] {
      ValueBound(s[..|s| - 1]);
    }
  }

  lemma {:induction false} ValueAppend(a: seq<Octet>, b: seq<Octet>)
    ensures Value(a + b) == Value(a) * Pow256(|b|) + Value(b)
    decreases |b|
  {
    if b != [] {
      var b' := b[..|b| - 1];
      var x := b[|b| - 1];
      assert (a + b)[..|a + b| - 1] == a + b';
      ValueAppend(a, b');
      calc {
        Value(a + b);
        Value(a + b') * 256 + x;
        (Value(a) * Pow256(|b'|) + Value(b')) * 256 + x;
        { ShiftDistrib(Value(a), Pow256(|b'|), Value(b'), x); }
        Value(a) * (256 * Pow256(|b'|)) + (Value(b') * 256 + x);
      }
      assert Pow256(|b|) == 256 * Pow256(|b'|);
      assert Value(b) == Value(b') * 256 + x;
    } else {
      assert a + b == a;
    }
  }

  lemma ShiftDistrib(a: int, p: int, v: int, x: int)
    ensures (a * p + v) * 256 + x == a * (256 * p) + (v * 256 + x)
  {
  }

  function Repeat(x: Octet, n: nat): (s: seq<Octet>)
    ensures |s| == n && forall i :: 0 <= i < n ==> s[i] == x
  {
    if n == 0 then [] else Repeat(x, n - 1) + [x]
  }

  lemma {:induction false} ValueRepeat(n: nat)
    ensures Value(Repeat(0, n)) == 0
    ensures Value(Repeat(255, n)) == Pow256(n) - 1
  {
    if n > 0 {
      ValueRepeat(n - 1);
      assert Repeat(0, n)[..n - 1] == Repeat(0, n - 1);
      assert Repeat(255, n)[..n - 1] == Repeat(255, n - 1);
    }
  }

  /** All-zero bytes read as 0, all-255 bytes as the largest value of their length. */
  lemma {:induction false} ValueUniform(s: seq<Octet>, x: Octet)
    requires x == 0 || x == 255
    requires forall k :: 0 <= k < |s| ==> s[k] == x
    ensures Value(s) == if x == 0 then 0 else Pow256(|s|) - 1
  {
    if s != [] {
      ValueUniform(s[..|s| - 1], x);
    }
  }

  /** `inc`: adds one to the address in place, the last byte first (a byte wraps from 255
      to 0 as Go's `uint8` does), carrying into the byte before it while a byte wraps to 0;
      an all-255 address becomes all-zero. */
  method Inc(ip: array<Octet>)
    modifies ip
    ensures Value(ip[..]) == (Value(old(ip[..])) + 1) % Pow256(ip.Length)
  {
    ghost var s := ip[..];
    var j := ip.Length - 1;
    while j >= 0
      invariant -1 <= j < ip.Length
      invariant ip[..j + 1] == s[..j + 1]
      invariant forall k :: j < k < ip.Length ==> ip[k] == 0 && s[k] == 255
      decreases j
    {
      ip[j] := (ip[j] as int + 1) % 256;
      if ip[j] > 0 {
        IncStops(s, ip[..], j);
        return;
      }
      j := j - 1;
    }
    IncWraps(s, ip[..]);
  }

  /** The carry stops at byte `j`, which does not wrap. */
  lemma IncStops(s: seq<Octet>, t: seq<Octet>, j: nat)
    requires |t| == |s| && j < |s|
    requires t[..j] == s[..j] && t[j] == (s[j] as int + 1) % 256 && t[j] != 0
    requires forall k :: j < k < |s| ==> t[k] == 0 && s[k] == 255
    ensures Value(t) == (Value(s) + 1) % Pow256(|s|)
  {
    assert s[j] < 255;
    assert t == s[..j] + [s[j] + 1] + Repeat(0, |s| - j - 1);
    IncAt(s, j);
    ValueBound(t);
    ModSmall(Value(t), Pow256(|s|));
  }

  /** Every byte carries: the all-255 address becomes all-zero. */
  lemma IncWraps(s: seq<Octet>, t: seq<Octet>)
    requires |t| == |s|
    requires forall k :: 0 <= k < |s| ==> t[k] == 0 && s[k] == 255
    ensures Value(t) == (Value(s) + 1) % Pow256(|s|)
  {
    ValueUniform(t, 0);
    ValueUniform(s, 255);
    ModSmall(0, Pow256(|s|));
  }

  lemma ModSmall(x: nat, p: nat)
    requires x < p
    ensures x % p == x && (p + x) % p == x
  {
  }

  /** Adding one to a byte that is not 255, followed only by 255-bytes that become 0. */
  lemma IncAt(s: seq<Octet>, j: nat)
    requires j < |s| && s[j] < 255
    requires forall k :: j < k < |s| ==> s[k] == 255
    ensures Value(s[..j] + [s[j] + 1] + Repeat(0, |s| - j - 1)) == Value(s) + 1
  {
    var n := |s| - j - 1;
    var lo := s[..j] + [s[j]];
    var hi := s[..j] + [s[j] + 1];
    assert s == lo + Repeat(255, n);
    ValueAllOnesTail(lo, n);
    ValueZeroTail(hi, n);
    LastByteSucc(s[..j], s[j]);
    SuccTimes(Value(hi), Value(lo), Pow256(n));
  }

  lemma ValueAllOnesTail(a: seq<Octet>, n: nat)
    ensures Value(a + Repeat(255, n)) == Value(a) * Pow256(n) + (Pow256(n) - 1)
  {
    ValueAppend(a, Repeat(255, n));
    ValueRepeat(n);
  }

  lemma ValueZeroTail(a: seq<Octet>, n: nat)
    ensures Value(a + Repeat(0, n)) == Value(a) * Pow256(n)
  {
    ValueAppend(a, Repeat(0, n));
    ValueRepeat(n);
  }

  lemma LastByteSucc(a: seq<Octet>, x: Octet)
    requires x < 255
    ensures Value(a + [x + 1]) == Value(a + [x]) + 1
  {
    assert (a + [x + 1])[..|a|] == a && (a + [x])[..|a|] == a;
  }

  lemma SuccTimes(w: int, v: int, p: int)
    requires w == v + 1
    ensures w * p == v * p + (p - 1) + 1
  {
  }

  /** Network address: the address AND the mask, byte by byte. */
  function Network(ip: Addr, mask: Addr): Addr {
    [And(ip[0], mask[0]), And(ip[1], mask[1]), And(ip[2], mask[2]), And(ip[3], mask[3])]
  }

  /** Broadcast address: the network address OR the complement of the mask. */
  function Broadcast(net: Addr, mask: Addr): Addr {
    [Or(net[0], Not(mask[0])), Or(net[1], Not(mask[1])), Or(net[2], Not(mask[2])), Or(net[3], Not(mask[3]))]
  }

  /** `IPNet.Contains`: a 4-byte address whose masked bytes equal the network's masked bytes. */
  predicate InSubnet(local: Addr, mask: Addr, ip: seq<Octet>) {
    |ip| == 4 && forall i :: 0 <= i < 4 ==> And(ip[i], mask[i]) == And(local[i], mask[i])
  }

  /** In-place `currentIP[i] &= mask[i]` for the bytes the mask covers. */
  method MaskInPlace(a: array<Octet>, mask: seq<Octet>)
    modifies a
    ensures forall i :: 0 <= i < a.Length ==> a[i] == if i < |mask| then And(old(a[i]), mask[i]) else old(a[i])
  {
    for i := 0 to a.Length
      invariant forall k :: 0 <= k < i ==> a[k] == if k < |mask| then And(old(a[k]), mask[k]) else old(a[k])
      invariant forall k :: i <= k < a.Length ==> a[k] == old(a[k])
    {
      if i < |mask| {
        a[i] := And(a[i], mask[i]);
      }
    }
  }

  /** In-place `broadcastIP[i] |= ^mask[i]` for the bytes the mask covers. */
  method SetHostBits(a: array<Octet>, mask: seq<Octet>)
    modifies a
    ensures forall i :: 0 <= i < a.Length ==> a[i] == if i < |mask| then Or(old(a[i]), Not(mask[i])) else old(a[i])
  {
    for i := 0 to a.Length
      invariant forall k :: 0 <= k < i ==> a[k] == if k < |mask| then Or(old(a[k]), Not(mask[k])) else old(a[k])
      invariant forall k :: i <= k < a.Length ==> a[k] == old(a[k])
    {
      if i < |mask| {
        a[i] := Or(a[i], Not(mask[i]));
      }
    }
  }

  lemma {:induction false} ValueMonotone(a: seq<Octet>, b: seq<Octet>)
    requires |a| == |b|
    requires forall i :: 0 <= i < |a| ==> a[i] <= b[i]
    ensures Value(a) <= Value(b)
  {
    if a != [] {
      ValueMonotone(a[..|a| - 1], b[..|b| - 1]);
    }
  }

  /** Both ends of the range lie in the subnet, and every address of the subnet lies between
      the network address and the broadcast address. */
  lemma SubnetBounds(local: Addr, mask: Addr, ip: seq<Octet>)
    ensures InSubnet(local, mask, Network(local, mask))
    ensures InSubnet(local, mask, Broadcast(Network(local, mask), mask))
    ensures InSubnet(local, mask, ip) ==>
      Value(Network(local, mask)) <= Value(ip) <= Value(Broadcast(Network(local, mask), mask))
  {
    var net := Network(local, mask);
    var bc := Broadcast(net, mask);
    forall i | 0 <= i < 4
      ensures And(net[i], mask[i]) == And(local[i], mask[i])
      ensures And(bc[i], mask[i]) == And(local[i], mask[i])
    {
      MaskByte(local[i], mask[i]);
    }
    if InSubnet(local, mask, ip) {
      forall i | 0 <= i < 4 ensures net[i] <= ip[i] <= bc[i] {
        MemberByte(ip[i], local[i], mask[i]);
      }
      ValueMonotone(net, ip);
      ValueMonotone(ip, bc);
    }
  }

  /** The address range wraps from 255.255.255.255 to 0.0.0.0 inside one subnet only for the
      all-zero mask. */
  lemma WrapNeedsZeroMask(local: Addr, mask: Addr)
    requires InSubnet(local, mask, [255, 255, 255, 255]) && InSubnet(local, mask, [0, 0, 0, 0])
    ensures mask == [0, 0, 0, 0]
  {
    forall i | 0 <= i < 4 ensures mask[i] == 0 {
      OnesZerosAgree(mask[i]);
    }
  }

  /** `bytes.Compare(a, b) < 0`: the first differing byte is smaller, or `a` is a proper prefix. */
  predicate LexLess(a: seq<Octet>, b: seq<Octet>) {
    if a == [] then b != []
    else if b == [] then false
    else a[0] < b[0] || (a[0] == b[0] && LexLess(a[1..], b[1..]))
  }

  /** For addresses of equal length, byte-wise order is numeric order. */
  lemma {:induction false} LexLessIsValueLess(a: seq<Octet>, b: seq<Octet>)
    requires |a| == |b|
    ensures LexLess(a, b) <==> Value(a) < Value(b)
    decreases |a|
  {
    if a != [] {
      LexLessIsValueLess(a[1..], b[1..]);
      ValueCons(a);
      ValueCons(b);
      ValueBound(a[1..]);
      ValueBound(b[1..]);
      var p := Pow256(|a| - 1);
      if a[0] < b[0] {
        LeadingByteDecides(a[0], b[0], Value(a[1..]), Value(b[1..]), p);
      } else if b[0] < a[0] {
        LeadingByteDecides(b[0], a[0], Value(b[1..]), Value(a[1..]), p);
      }
    }
  }

  /** The first byte weighs 256^(n-1). */
  lemma ValueCons(a: seq<Octet>)
    requires a != []
    ensures Value(a) == a[0] * Pow256(|a| - 1) + Value(a[1..])
  {
    assert a == [a[0]] + a[1..];
    ValueAppend([a[0]], a[1..]);
    assert [a[0]][..0] == [];
  }

  lemma LeadingByteDecides(x: int, y: int, t: int, u: int, p: int)
    requires x < y && 0 <= t < p && 0 <= u
    ensures x * p + t < y * p + u
  {
    assert (x + 1) * p <= y * p;
  }


  /** Two different addresses of the same length are ordered one way or the other. */
  lemma {:induction false} LexTotal(a: seq<Octet>, b: seq<Octet>)
    requires |a| == |b| && a != b
    ensures LexLess(a, b) || LexLess(b, a)
    decreases |a|
  {
    if a[0] == b[0] {
      assert a == [a[0]] + a[1..] && b == [b[0]] + b[1..];
      LexTotal(a[1..], b[1..]);
    }
  }

  /** The big-endian reading is one-to-one on addresses of one length. */
  lemma ValueInjective(a: seq<Octet>, b: seq<Octet>)
    requires |a| == |b|
    ensures Value(a) == Value(b) <==> a == b
  {
    if a != b {
      LexTotal(a, b);
      LexLessIsValueLess(a, b);
      LexLessIsValueLess(b, a);
    }
  }
}
