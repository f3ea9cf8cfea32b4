/** What the program reads from a network interface: its hardware address and its address list,
    and the search for the interface's first IPv4 address that both the scanner and the resolver
    perform. */
module NetIf {
  import opened Octets
  import opened Wrappers
  import opened IPv4
  import opened Arp

  /** An entry of the interface's address list: an IP network (address and 4-byte mask) or an
      address of some other kind. */
  datatype IfAddr = IPNet(ip: seq<Octet>, mask: Addr) | OtherAddr

  /** A looked-up interface; `addrs` is None when reading the address list fails. */
  datatype Interface = Interface(mac: MAC, addrs: Option<seq<IfAddr>>)

  /** Go's `IP.To4`: a 4-byte address as it is, the IPv4 address inside a 16-byte IPv4-mapped
      address, and nothing for anything else. */
  function To4(ip: seq<Octet>): (r: Option<Addr>)
    ensures r.Some? ==> |ip| >= 4 && r.value == ip[|ip| - 4..]
    ensures |ip| == 4 ==> r.Some? && r.value == ip
    ensures |ip| != 4 && |ip| != 16 ==> r.None?
  {
    if |ip| == 4 then var a: Addr := ip; Some(a)
    else if |ip| == 16 && (forall i :: 0 <= i < 10 ==> ip[i] == 0) && ip[10] == 255 && ip[11] == 255 then
      var a: Addr := ip[12..]; Some(a)
    else None
  }

  /** The prefix of an IPv4-mapped 16-byte address: ten zero bytes and two 255 bytes. */
  predicate V4InV6Prefix(x: seq<Octet>)
    requires |x| >= 12
  {
    (forall i :: 0 <= i < 10 ==> x[i] == 0) && x[10] == 255 && x[11] == 255
  }

  /** Go's `IP.Equal`: equal bytes at equal lengths; between a 4-byte and a 16-byte address, the
      16-byte one must be IPv4-mapped and carry the 4-byte one in its last four bytes. */
  predicate IPEqual(ip: seq<Octet>, x: seq<Octet>) {
    if |ip| == |x| then ip == x
    else if |ip| == 4 && |x| == 16 then V4InV6Prefix(x) && ip == x[12..]
    else if |ip| == 16 && |x| == 4 then V4InV6Prefix(ip) && ip[12..] == x
    else false
  }

  /** Comparing with an IPv4 address by `Equal` is comparing the IPv4 form given by `To4`. */
  lemma IPEqualIsTo4(ip: seq<Octet>, target: Addr)
    ensures IPEqual(ip, target) <==> To4(ip) == Some(target)
  {
  }

  /** An entry that is an IP network with an IPv4 address. */
  predicate IsIPv4Net(a: IfAddr) {
    a.IPNet? && To4(a.ip).Some?
  }

  /** The IPv4 address and mask of the first entry that is an IPv4 network, if any. */
  function FirstIPv4(addrs: seq<IfAddr>): Option<(Addr, Addr)>
    decreases |addrs|
  {
    if addrs == [] then None
    else if IsIPv4Net(addrs[0]) then Some((To4(addrs[0].ip).value, addrs[0].mask))
    else FirstIPv4(addrs[1..])
  }

  /** The loop over the address list that stops at the first IPv4 network: it returns that entry's
      IPv4 address and mask and its position, or None when no entry is one. */
  method FindIPv4(addrs: seq<IfAddr>) returns (r: Option<(Addr, Addr)>, k: int)
    ensures r.None? <==> forall i :: 0 <= i < |addrs| ==> !IsIPv4Net(addrs[i])
    ensures r.Some? ==>
      0 <= k < |addrs| && IsIPv4Net(addrs[k]) && (forall i :: 0 <= i < k ==> !IsIPv4Net(addrs[i])) &&
      r.value == (To4(addrs[k].ip).value, addrs[k].mask)
    ensures r == FirstIPv4(addrs)
  {
    k := 0;
    while k < |addrs|
      invariant 0 <= k <= |addrs|
      invariant forall i :: 0 <= i < k ==> !IsIPv4Net(addrs[i])
      invariant FirstIPv4(addrs[k..]) == FirstIPv4(addrs)
    {
      assert addrs[k..][1..] == addrs[k + 1..];
      var a := addrs[k];
      if a.IPNet? {
        var ip4 := To4(a.ip);
        if ip4.Some? {
          return Some((ip4.value, a.mask)), k;
        }
      }
      k := k + 1;
    }
    return None, k;
  }
}
