/** Ethernet frames that carry ARP packets, laid out as in the "Packet format" section of RFC 826,
    the two frames the program builds (a broadcast request and a directed reply), and the cache
    update a receiving host performs, from the "Packet Reception" section of RFC 826. */
module Arp {
  import opened Octets
  import opened Wrappers

  /** A hardware (MAC) address. */
  type MAC = seq<Octet>

  const EtherTypeARP: int := 0x0806
  const EtherTypeIPv4: int := 0x0800
  const LinkTypeEthernet: int := 1
  const OpRequest: int := 1
  const OpReply: int := 2

  const BroadcastMAC: MAC := [255, 255, 255, 255, 255, 255]
  const ZeroMAC: MAC := [0, 0, 0, 0, 0, 0]

  /** The fields of an ARP packet: hardware and protocol address space, their lengths, the opcode,
      and the sender and target hardware and protocol addresses. */
  datatype ArpPacket = ArpPacket(
    addrType: int,
    protocol: int,
    hwSize: int,
    protSize: int,
    op: int,
    sha: MAC,
    spa: seq<Octet>,
    tha: MAC,
    tpa: seq<Octet>
  )

  /** An Ethernet frame; `arp` is the decoded ARP layer, or None when the frame has none. */
  datatype EthFrame = EthFrame(src: MAC, dst: MAC, etherType: int, arp: Option<ArpPacket>)

  /** An Ethernet/IPv4 ARP frame whose length fields agree with its addresses. */
  predicate WellFormed(f: EthFrame) {
    f.etherType == EtherTypeARP && f.arp.Some? &&
    var p := f.arp.value;
    p.addrType == LinkTypeEthernet && p.protocol == EtherTypeIPv4 &&
    p.hwSize == 6 && p.protSize == 4 &&
    |p.sha| == 6 && |p.tha| == 6 && |p.spa| == 4 && |p.tpa| == 4 &&
    (p.op == OpRequest || p.op == OpReply)
  }

  /** The request the scanner and the resolver broadcast: "who has `dstIP`? tell `srcIP`". */
  function ArpRequest(srcMAC: MAC, srcIP: seq<Octet>, dstIP: seq<Octet>): (f: EthFrame)
    ensures |srcMAC| == 6 && |srcIP| == 4 && |dstIP| == 4 ==> WellFormed(f)
    ensures f.arp.Some? && f.arp.value.op == OpRequest && f.dst == BroadcastMAC && f.arp.value.tha == ZeroMAC
  {
    EthFrame(srcMAC, BroadcastMAC, EtherTypeARP,
      Some(ArpPacket(LinkTypeEthernet, EtherTypeIPv4, 6, 4, OpRequest, srcMAC, srcIP, ZeroMAC, dstIP)))
  }

  /** The reply the spoofer sends: "`srcIP` is at `srcMAC`", addressed to `dstMAC`/`dstIP`. The
      Ethernet source is the claimed sender hardware address. */
  function ArpReply(srcMAC: MAC, srcIP: seq<Octet>, dstMAC: MAC, dstIP: seq<Octet>): (f: EthFrame)
    ensures |srcMAC| == 6 && |dstMAC| == 6 && |srcIP| == 4 && |dstIP| == 4 ==> WellFormed(f)
    ensures f.arp.Some? && f.arp.value.op == OpReply && f.src == f.arp.value.sha && f.dst == f.arp.value.tha
  {
    EthFrame(srcMAC, dstMAC, EtherTypeARP,
      Some(ArpPacket(LinkTypeEthernet, EtherTypeIPv4, 6, 4, OpReply, srcMAC, srcIP, dstMAC, dstIP)))
  }

  /** A host's ARP cache: protocol address to hardware address. */
  type Cache = map<seq<Octet>, MAC>

  /** How a host with addresses `selfIP`/`selfMAC` updates its cache on a frame, per the
      "Packet Reception" section of RFC 826: it sees only frames sent to it or to everyone; a
      sender already in the cache has its entry refreshed; a sender is added when the packet is
      for this host. */
  function Receive(cache: Cache, selfIP: seq<Octet>, selfMAC: MAC, f: EthFrame): (c: Cache)
    ensures c.Keys >= cache.Keys
  {
    if f.dst != selfMAC && f.dst != BroadcastMAC then cache
    else if f.arp.None? then cache
    else
      var p := f.arp.value;
      if p.addrType != LinkTypeEthernet || p.protocol != EtherTypeIPv4 then cache
      else if p.spa in cache || p.tpa == selfIP then cache[p.spa := p.sha]
      else cache
  }

  /** `Receive` over a sequence of frames, in order. */
  function ReceiveAll(cache: Cache, selfIP: seq<Octet>, selfMAC: MAC, fs: seq<EthFrame>): Cache
    decreases |fs|
  {
    if fs == [] then cache
    else ReceiveAll(Receive(cache, selfIP, selfMAC, fs[0]), selfIP, selfMAC, fs[1..])
  }

  /** A reply for a host makes that host map the claimed sender address to the claimed hardware
      address, whatever it held before. */
  lemma ReplyTeaches(cache: Cache, selfIP: seq<Octet>, selfMAC: MAC, srcMAC: MAC, srcIP: seq<Octet>)
    ensures Receive(cache, selfIP, selfMAC, ArpReply(srcMAC, srcIP, selfMAC, selfIP))[srcIP] == srcMAC
  {
  }

  /** A frame whose sender protocol address is not `ip` leaves the entry for `ip` alone. */
  lemma OtherSenderKeeps(cache: Cache, selfIP: seq<Octet>, selfMAC: MAC, f: EthFrame, ip: seq<Octet>)
    requires f.arp.Some? && f.arp.value.spa != ip && ip in cache
    ensures ip in Receive(cache, selfIP, selfMAC, f) && Receive(cache, selfIP, selfMAC, f)[ip] == cache[ip]
  {
  }
}
