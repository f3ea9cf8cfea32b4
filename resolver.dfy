/** `GetMAC`: resolving an IPv4 address to a hardware address by broadcasting one ARP request
    on an interface and waiting up to three seconds for the matching reply. */
module Resolver {
  import opened Octets
  import opened Wrappers
  import opened Models
  import opened IPv4
  import opened Arp
  import opened NetIf

  /** The resolver gives up when strictly more than this has passed since the request was sent. */
  const ReplyTimeout: Duration := 3 * Second

  /** One turn of the wait loop, with the clock reading taken at its top: a received frame, or a
      100 ms wait in which nothing arrived. */
  datatype RxEvent = Packet(at: Time, frame: EthFrame) | Quiet(at: Time)

  datatype ResolveError =
    | InvalidIP
    | NoInterface
    | OpenFailed
    | AddrsFailed
    | NoSourceIP
    | WriteFailed
    | Timeout

  datatype Result<T> = Ok(value: T) | Err(error: ResolveError)

  /** What the link does during one call: whether the capture handle opens, whether the request's
      write succeeds, what arrives after it, and the clock reading when the wait starts. */
  datatype Link = Link(openOk: bool, writeOk: bool, rx: seq<RxEvent>, start: Time)

  /** The reply-matching predicate: an ARP reply whose sender protocol address equals the target
      by `IP.Equal`, so a 4-byte address or its IPv4-mapped 16-byte form. */
  predicate Accepts(f: EthFrame, target: Addr) {
    f.arp.Some? && f.arp.value.op == OpReply && IPEqual(f.arp.value.spa, target)
  }

  predicate Expired(e: RxEvent, start: Time) {
    e.at - start > ReplyTimeout
  }

  predicate Matches(e: RxEvent, target: Addr) {
    e.Packet? && Accepts(e.frame, target)
  }

  /** The wait loop over the received events. It returns the sender hardware address of the first
      matching packet seen before the deadline, and `used`, the number of turns it took; it fails
      with Timeout at the first turn past the deadline, or when the events run out. */
  method AwaitReply(rx: seq<RxEvent>, start: Time, target: Addr) returns (r: Result<MAC>, used: nat)
    ensures used <= |rx|
    ensures forall j :: 0 <= j < used ==> !Expired(rx[j], start) && !Matches(rx[j], target)
    ensures r.Ok? ==>
      used < |rx| && !Expired(rx[used], start) && Matches(rx[used], target) &&
      r.value == rx[used].frame.arp.value.sha
    ensures r.Err? ==> r.error == Timeout && (used == |rx| || Expired(rx[used], start))
  {
    used := 0;
    while used < |rx|
      invariant used <= |rx|
      invariant forall j :: 0 <= j < used ==> !Expired(rx[j], start) && !Matches(rx[j], target)
    {
      var e := rx[used];
      if e.at - start > ReplyTimeout {
        return Err(Timeout), used;
      }
      if e.Packet? {
        var f := e.frame;
        if f.arp.Some? && f.arp.value.op == OpReply && IPEqual(f.arp.value.spa, target) {
          return Ok(f.arp.value.sha), used;
        }
      }
      used := used + 1;
    }
    return Err(Timeout), used;
  }

  /** The first matching packet before the deadline, as a function of the events. */
  function FirstReply(rx: seq<RxEvent>, start: Time, target: Addr): Option<MAC>
    decreases |rx|
  {
    if rx == [] || Expired(rx[0], start) then None
    else if Matches(rx[0], target) then Some(rx[0].frame.arp.value.sha)
    else FirstReply(rx[1..], start, target)
  }

  /** The outcome the loop's contract allows is exactly `FirstReply`. */
  lemma {:induction false} AwaitReplyIsFirstReply(rx: seq<RxEvent>, start: Time, target: Addr, used: nat)
    requires used <= |rx|
    requires forall j :: 0 <= j < used ==> !Expired(rx[j], start) && !Matches(rx[j], target)
    ensures used < |rx| && !Expired(rx[used], start) && Matches(rx[used], target) ==>
      FirstReply(rx, start, target) == Some(rx[used].frame.arp.value.sha)
    ensures used == |rx| || (used < |rx| && Expired(rx[used], start)) ==>
      FirstReply(rx, start, target) == None
    decreases used
  {
    if used > 0 {
      AwaitReplyIsFirstReply(rx[1..], start, target, used - 1);
    }
  }

  /** A reply sent by the target, on time, ends the wait with the target's hardware address,
      provided nothing earlier matched. */
  lemma TargetReplyResolves(target: Addr, mac: MAC, dstMAC: MAC, dstIP: seq<Octet>, at: Time, start: Time)
    requires at - start <= ReplyTimeout
    ensures FirstReply([Packet(at, ArpReply(mac, target, dstMAC, dstIP))], start, target) == Some(mac)
  {
  }

  /** A request is never taken for a reply, and neither is a reply from another address. */
  lemma OnlyTargetRepliesMatch(target: Addr, m: MAC, ip: seq<Octet>, d: MAC, dip: seq<Octet>)
    ensures !Accepts(ArpRequest(m, ip, dip), target)
    ensures Accepts(ArpReply(m, ip, d, dip), target) <==> To4(ip) == Some(target)
    ensures |ip| == 4 ==> (Accepts(ArpReply(m, ip, d, dip), target) <==> ip == target)
  {
    IPEqualIsTo4(ip, target);
  }

  /** What `GetMAC` returns for a valid target on an existing interface: the first failing step in
      the order the code takes them (open the handle, list the addresses, find an IPv4 source, write
      the request), else the first on-time reply, or Timeout. */
  function Outcome(target: Addr, i: Interface, link: Link): Result<MAC> {
    if !link.openOk then Err(OpenFailed)
    else if i.addrs.None? then Err(AddrsFailed)
    else if FirstIPv4(i.addrs.value).None? then Err(NoSourceIP)
    else if !link.writeOk then Err(WriteFailed)
    else match FirstReply(link.rx, link.start, target)
      case Some(mac) => Ok(mac)
      case None => Err(Timeout)
  }

  /** `GetMAC` for a target given as parsed text (None when it is not a valid address) and an
      interface given as looked up (None when there is no such interface). It returns the result,
      whether a capture handle was handleOpened, and the frames written. */
  method GetMAC(targetIP: Option<Addr>, iface: Option<Interface>, link: Link)
    returns (r: Result<MAC>, handleOpened: bool, sent: seq<EthFrame>)
    ensures targetIP.None? ==> r == Err(InvalidIP) && !handleOpened && sent == []
    ensures targetIP.Some? && iface.None? ==> r == Err(NoInterface) && !handleOpened && sent == []
    ensures targetIP.Some? && iface.Some? ==>
      var i := iface.value;
      handleOpened == link.openOk &&
      (!link.openOk ==> r == Err(OpenFailed) && sent == []) &&
      (link.openOk && i.addrs.None? ==> r == Err(AddrsFailed) && sent == []) &&
      (link.openOk && i.addrs.Some? && (forall k :: 0 <= k < |i.addrs.value| ==> !IsIPv4Net(i.addrs.value[k])) ==>
        r == Err(NoSourceIP) && sent == [])
    ensures sent != [] ==>
      targetIP.Some? && iface.Some? && iface.value.addrs.Some? &&
      exists k :: 0 <= k < |iface.value.addrs.value| && IsIPv4Net(iface.value.addrs.value[k]) &&
        (forall j :: 0 <= j < k ==> !IsIPv4Net(iface.value.addrs.value[j])) &&
        sent == [ArpRequest(iface.value.mac, To4(iface.value.addrs.value[k].ip).value, targetIP.value)]
    ensures sent != [] && !link.writeOk ==> r == Err(WriteFailed)
    ensures sent != [] && link.writeOk ==>
      r == (match FirstReply(link.rx, link.start, targetIP.value)
            case Some(mac) => Ok(mac)
            case None => Err(Timeout))
    ensures r.Ok? ==> sent != [] && link.writeOk
    ensures targetIP.Some? && iface.Some? && link.openOk && iface.value.addrs.Some? && FirstIPv4(iface.value.addrs.value).Some?
      ==> sent == [ArpRequest(iface.value.mac, FirstIPv4(iface.value.addrs.value).value.0, targetIP.value)]
    ensures targetIP.Some? && iface.Some? ==> r == Outcome(targetIP.value, iface.value, link)
    ensures |sent| <= 1
  {
    sent := [];
    handleOpened := false;
    if targetIP.None? {
      return Err(InvalidIP), handleOpened, sent;
    }
    if iface.None? {
      return Err(NoInterface), handleOpened, sent;
    }
    var i := iface.value;
    if !link.openOk {
      return Err(OpenFailed), handleOpened, sent;
    }
    handleOpened := true;
    if i.addrs.None? {
      return Err(AddrsFailed), handleOpened, sent;
    }
    var src, k := FindIPv4(i.addrs.value);
    if src.None? {
      return Err(NoSourceIP), handleOpened, sent;
    }
    sent := [ArpRequest(i.mac, src.value.0, targetIP.value)];
    if !link.writeOk {
      return Err(WriteFailed), handleOpened, sent;
    }
    var reply, used := AwaitReply(link.rx, link.start, targetIP.value);
    AwaitReplyIsFirstReply(link.rx, link.start, targetIP.value, used);
    return reply, handleOpened, sent;
  }
}
