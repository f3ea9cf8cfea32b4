/** The ARP spoofing engine: a man-in-the-middle between a target and its gateway. While running it
    tells the target that the gateway's address is at this host and the gateway that the target's
    address is at this host; on stop it sends the true mappings three times and closes its handle.
    Every frame write is recorded, in order, in an append-only action log. */
module Injector {
  import opened Octets
  import opened Wrappers
  import opened GoStrings
  import opened IPv4
  import opened Arp
  import opened NetIf
  import Resolver

  /** What the engine does to the outside world, in order. A write is recorded whether or not the
      link accepts it. */
  datatype Action = Write(frame: EthFrame) | SignalStop | CloseHandle

  /** The two parties and this host. */
  datatype Peers = Peers(targetIP: Addr, gatewayIP: Addr, targetMAC: MAC, gatewayMAC: MAC, hostMAC: MAC)

  /** Tell the target that the gateway's address is at this host. */
  function SpoofToTarget(p: Peers): EthFrame {
    ArpReply(p.hostMAC, p.gatewayIP, p.targetMAC, p.targetIP)
  }

  /** Tell the gateway that the target's address is at this host. */
  function SpoofToGateway(p: Peers): EthFrame {
    ArpReply(p.hostMAC, p.targetIP, p.gatewayMAC, p.gatewayIP)
  }

  /** Tell the target the gateway's true hardware address. */
  function RestoreTarget(p: Peers): EthFrame {
    ArpReply(p.gatewayMAC, p.gatewayIP, p.targetMAC, p.targetIP)
  }

  /** Tell the gateway the target's true hardware address. */
  function RestoreGateway(p: Peers): EthFrame {
    ArpReply(p.targetMAC, p.targetIP, p.gatewayMAC, p.gatewayIP)
  }

  /** `n` restoration rounds, each a write to the target and then one to the gateway. */
  function RestoreRounds(p: Peers, n: nat): seq<Action> {
    if n == 0 then [] else RestoreRounds(p, n - 1) + [Write(RestoreTarget(p)), Write(RestoreGateway(p))]
  }

  /** The variable part of an engine: whether its capture handle is open, whether the stop signal
      has been given (it can be given once), whether it counts as running, and its action log. */
  datatype EngineState = EngineState(handleOpen: bool, stopClosed: bool, isRunning: bool, log: seq<Action>)

  const Initial: EngineState := EngineState(false, false, false, [])

  /** The spoof loop is alive from a successful start until the stop signal. */
  predicate LoopAlive(s: EngineState) {
    s.isRunning && !s.stopClosed
  }

  /** `Start`: the handle is (re)opened; on failure the error is returned and the running flag is
      left as it was; on success the engine runs. */
  function StartRule(s: EngineState, openOk: bool): EngineState {
    if openOk then s.(handleOpen := true, isRunning := true) else s.(handleOpen := false)
  }

  datatype TickOutcome = TickOutcome(next: EngineState, ok: bool)

  /** One tick of the spoof loop: when the loop is alive, a write to the target, and only if that
      succeeds a write to the gateway. The error of either write is reported. */
  function TickRule(s: EngineState, p: Peers, firstOk: bool, secondOk: bool): TickOutcome {
    if !LoopAlive(s) then TickOutcome(s, true)
    else if !firstOk then TickOutcome(s.(log := s.log + [Write(SpoofToTarget(p))]), false)
    else TickOutcome(s.(log := s.log + [Write(SpoofToTarget(p)), Write(SpoofToGateway(p))]), secondOk)
  }

  /** `Stop`: nothing unless running; otherwise signal the loop, stop running, send the three
      restoration rounds and close the handle. */
  function StopRule(s: EngineState, p: Peers): EngineState {
    if !s.isRunning then s
    else EngineState(false, true, false, s.log + [SignalStop] + RestoreRounds(p, 3) + [CloseHandle])
  }

  /** The states in which `Stop` and a tick do not dereference a missing handle or close the stop
      signal twice. */
  predicate SafeToStop(s: EngineState) {
    s.isRunning ==> s.handleOpen && !s.stopClosed
  }

  predicate SafeToTick(s: EngineState) {
    LoopAlive(s) ==> s.handleOpen
  }

  class Engine {
    const interfaceName: GoString
    const targetIP: Addr
    const gatewayIP: Addr
    const targetMAC: MAC
    const gatewayMAC: MAC
    const hostMAC: MAC

    var handleOpen: bool
    var stopClosed: bool
    var isRunning: bool
    var log: seq<Action>

    /** The engine's fixed addresses. */
    function Parties(): Peers {
      Peers(targetIP, gatewayIP, targetMAC, gatewayMAC, hostMAC)
    }

    function State(): EngineState
      reads this
    {
      EngineState(handleOpen, stopClosed, isRunning, log)
    }

    constructor (interfaceName: GoString, targetIP: Addr, gatewayIP: Addr, targetMAC: MAC, gatewayMAC: MAC, hostMAC: MAC)
      ensures this.interfaceName == interfaceName && this.targetIP == targetIP && this.gatewayIP == gatewayIP
      ensures this.targetMAC == targetMAC && this.gatewayMAC == gatewayMAC && this.hostMAC == hostMAC
      ensures State() == Initial
    {
      this.interfaceName := interfaceName;
      this.targetIP := targetIP;
      this.gatewayIP := gatewayIP;
      this.targetMAC := targetMAC;
      this.gatewayMAC := gatewayMAC;
      this.hostMAC := hostMAC;
      handleOpen, stopClosed, isRunning, log := false, false, false, [];
    }

    /** Opens the capture handle; `openOk` is whether that succeeds. Returns whether it started. */
    method Start(openOk: bool) returns (ok: bool)
      modifies this
      ensures ok == openOk
      ensures State() == StartRule(old(State()), openOk)
    {
      handleOpen := openOk;
      if !openOk {
        return false;
      }
      isRunning := true;
      return true;
    }

    /** `sendARP`: builds the reply frame and writes it; `writeOk` is the link's answer. */
    method SendARP(srcMAC: MAC, srcIP: Addr, dstMAC: MAC, dstIP: Addr, writeOk: bool) returns (ok: bool)
      requires handleOpen
      modifies this
      ensures ok == writeOk
      ensures log == old(log) + [Write(ArpReply(srcMAC, srcIP, dstMAC, dstIP))]
      ensures handleOpen == old(handleOpen) && stopClosed == old(stopClosed) && isRunning == old(isRunning)
    {
      log := log + [Write(ArpReply(srcMAC, srcIP, dstMAC, dstIP))];
      return writeOk;
    }

    /** `sendSpoofPackets`: the target is told first; the gateway is told only if that write succeeded. */
    method SendSpoofPackets(firstOk: bool, secondOk: bool) returns (ok: bool)
      requires handleOpen && LoopAlive(State())
      modifies this
      ensures TickOutcome(State(), ok) == TickRule(old(State()), Parties(), firstOk, secondOk)
    {
      ok := SendARP(hostMAC, gatewayIP, targetMAC, targetIP, firstOk);
      if !ok {
        return false;
      }
      ok := SendARP(hostMAC, targetIP, gatewayMAC, gatewayIP, secondOk);
    }

    /** One tick of the spoof loop's ticker. The loop only logs an error and keeps going. */
    method Tick(firstOk: bool, secondOk: bool) returns (ok: bool)
      requires SafeToTick(State())
      modifies this
      ensures TickOutcome(State(), ok) == TickRule(old(State()), Parties(), firstOk, secondOk)
    {
      if !(isRunning && !stopClosed) {
        return true;
      }
      ok := SendSpoofPackets(firstOk, secondOk);
    }

    /** `cleanup`: three rounds of the true mappings; write errors are ignored. */
    method Cleanup()
      requires handleOpen
      modifies this
      ensures log == old(log) + RestoreRounds(Parties(), 3)
      ensures handleOpen == old(handleOpen) && stopClosed == old(stopClosed) && isRunning == old(isRunning)
    {
      for i := 0 to 3
        invariant log == old(log) + RestoreRounds(Parties(), i)
        invariant handleOpen == old(handleOpen) && stopClosed == old(stopClosed) && isRunning == old(isRunning)
      {
        var _ := SendARP(gatewayMAC, gatewayIP, targetMAC, targetIP, true);
        var _ := SendARP(targetMAC, targetIP, gatewayMAC, gatewayIP, true);
      }
    }

    /** `Stop`. */
    method Stop()
      requires SafeToStop(State())
      modifies this
      ensures State() == StopRule(old(State()), Parties())
    {
      if !isRunning {
        return;
      }
      log := log + [SignalStop];
      stopClosed := true;
      isRunning := false;
      Cleanup();
      log := log + [CloseHandle];
      handleOpen := false;
    }
  }

  /** Start succeeds exactly when the handle opens; a failed first start leaves the engine idle. */
  lemma StartOutcome(s: EngineState, openOk: bool)
    ensures StartRule(s, openOk).isRunning == (s.isRunning || openOk)
    ensures StartRule(s, openOk).handleOpen == openOk
    ensures StartRule(s, openOk).log == s.log
    ensures StartRule(Initial, false) == Initial
  {
  }

  /** A tick writes the frame to the target first, the one to the gateway second and only after the
      first succeeded, and never anything else. */
  lemma {:induction false} TickFrames(s: EngineState, p: Peers, firstOk: bool, secondOk: bool)
    ensures var o := TickRule(s, p, firstOk, secondOk);
      s.log <= o.next.log &&
      o.next.(log := s.log) == s &&
      var w := o.next.log[|s.log|..];
      (!LoopAlive(s) ==> w == [] && o.ok) &&
      (LoopAlive(s) ==>
         1 <= |w| <= 2 && w[0] == Write(SpoofToTarget(p)) &&
         (|w| == 2 <==> firstOk) && (|w| == 2 ==> w[1] == Write(SpoofToGateway(p))) &&
         (o.ok <==> firstOk && secondOk))
  {
    var o := TickRule(s, p, firstOk, secondOk);
    if !LoopAlive(s) {
      assert o.next.log[|s.log|..] == [];
    } else if !firstOk {
      assert o.next.log[|s.log|..] == [Write(SpoofToTarget(p))];
    } else {
      assert o.next.log[|s.log|..] == [Write(SpoofToTarget(p)), Write(SpoofToGateway(p))];
    }
  }

  /** Three rounds are six writes, alternating between the target and the gateway. */
  lemma CleanupSixFrames(p: Peers)
    ensures |RestoreRounds(p, 3)| == 6
    ensures forall i :: 0 <= i < 6 && i % 2 == 0 ==> RestoreRounds(p, 3)[i] == Write(RestoreTarget(p))
    ensures forall i :: 0 <= i < 6 && i % 2 == 1 ==> RestoreRounds(p, 3)[i] == Write(RestoreGateway(p))
  {
    var round := [Write(RestoreTarget(p)), Write(RestoreGateway(p))];
    assert RestoreRounds(p, 1) == round;
    assert RestoreRounds(p, 2) == round + round;
    assert RestoreRounds(p, 3) == [Write(RestoreTarget(p)), Write(RestoreGateway(p)),
                                   Write(RestoreTarget(p)), Write(RestoreGateway(p)),
                                   Write(RestoreTarget(p)), Write(RestoreGateway(p))];
  }

  /** Stop on an idle engine changes nothing, so stopping twice is stopping once; on a running one it
      signals first, then writes the six restoration frames, then closes the handle, and the engine
      is left idle. */
  lemma StopBehaviour(s: EngineState, p: Peers)
    ensures !s.isRunning ==> StopRule(s, p) == s
    ensures StopRule(StopRule(s, p), p) == StopRule(s, p)
    ensures s.log <= StopRule(s, p).log
    ensures !StopRule(s, p).isRunning
    ensures s.isRunning ==>
      var w := StopRule(s, p).log[|s.log|..];
      |w| == 8 && w[0] == SignalStop && w[7] == CloseHandle && w[1..7] == RestoreRounds(p, 3)
  {
    CleanupSixFrames(p);
    if s.isRunning {
      var w := StopRule(s, p).log[|s.log|..];
      assert w == [SignalStop] + RestoreRounds(p, 3) + [CloseHandle];
    }
  }

  /** The frames the two parties receive, in order, out of an action log. */
  function Frames(log: seq<Action>): seq<EthFrame> {
    if log == [] then []
    else Frames(log[..|log| - 1]) + (if log[|log| - 1].Write? then [log[|log| - 1].frame] else [])
  }

  /** What the spoof frames achieve at their receivers: the target then maps the gateway's address
      to this host, and the gateway maps the target's address to this host. */
  lemma SpoofPoisons(p: Peers, targetCache: Cache, gatewayCache: Cache)
    ensures Receive(targetCache, p.targetIP, p.targetMAC, SpoofToTarget(p))[p.gatewayIP] == p.hostMAC
    ensures Receive(gatewayCache, p.gatewayIP, p.gatewayMAC, SpoofToGateway(p))[p.targetIP] == p.hostMAC
  {
    ReplyTeaches(targetCache, p.targetIP, p.targetMAC, p.hostMAC, p.gatewayIP);
    ReplyTeaches(gatewayCache, p.gatewayIP, p.gatewayMAC, p.hostMAC, p.targetIP);
  }

  /** What the restoration achieves: whatever the caches held before, once a party has received all
      restoration frames it maps the other party's address to that party's true hardware address. */
  lemma RestorationHeals(p: Peers, targetCache: Cache, gatewayCache: Cache)
    requires p.targetIP != p.gatewayIP
    ensures var fs := Frames(RestoreRounds(p, 3));
      var t := ReceiveAll(targetCache, p.targetIP, p.targetMAC, fs);
      var g := ReceiveAll(gatewayCache, p.gatewayIP, p.gatewayMAC, fs);
      p.gatewayIP in t && t[p.gatewayIP] == p.gatewayMAC && p.targetIP in g && g[p.targetIP] == p.targetMAC
  {
    var last := [RestoreTarget(p), RestoreGateway(p)];
    var fs := Frames(RestoreRounds(p, 3));
    var before := Frames(RestoreRounds(p, 2));
    FramesAppend(RestoreRounds(p, 2), [Write(RestoreTarget(p)), Write(RestoreGateway(p))]);
    assert Frames([Write(RestoreTarget(p)), Write(RestoreGateway(p))]) == last by {
      var round := [Write(RestoreTarget(p)), Write(RestoreGateway(p))];
      assert round[..1] == [Write(RestoreTarget(p))];
      assert round[..1][..0] == [];
      assert Frames(round[..1]) == [RestoreTarget(p)];
    }
    assert fs == before + last;
    ReceiveAllAppend(targetCache, p.targetIP, p.targetMAC, before, last);
    ReceiveAllAppend(gatewayCache, p.gatewayIP, p.gatewayMAC, before, last);
    var t1 := ReceiveAll(targetCache, p.targetIP, p.targetMAC, before);
    var g1 := ReceiveAll(gatewayCache, p.gatewayIP, p.gatewayMAC, before);
    ReplyTeaches(t1, p.targetIP, p.targetMAC, p.gatewayMAC, p.gatewayIP);
    var t2 := Receive(t1, p.targetIP, p.targetMAC, RestoreTarget(p));
    OtherSenderKeeps(t2, p.targetIP, p.targetMAC, RestoreGateway(p), p.gatewayIP);
    ReceivePair(t1, p.targetIP, p.targetMAC, RestoreTarget(p), RestoreGateway(p));
    var g2 := Receive(g1, p.gatewayIP, p.gatewayMAC, RestoreTarget(p));
    ReplyTeaches(g2, p.gatewayIP, p.gatewayMAC, p.targetMAC, p.targetIP);
    ReceivePair(g1, p.gatewayIP, p.gatewayMAC, RestoreTarget(p), RestoreGateway(p));
  }

  lemma ReceivePair(c: Cache, ip: seq<Octet>, mac: MAC, f: EthFrame, g: EthFrame)
    ensures ReceiveAll(c, ip, mac, [f, g]) == Receive(Receive(c, ip, mac, f), ip, mac, g)
  {
    var c1 := Receive(c, ip, mac, f);
    assert [f, g][1..] == [g] && [g][1..] == [];
    assert ReceiveAll(c, ip, mac, [f, g]) == ReceiveAll(c1, ip, mac, [g]);
    assert ReceiveAll(c1, ip, mac, [g]) == ReceiveAll(Receive(c1, ip, mac, g), ip, mac, []);
  }

  lemma {:induction false} FramesAppend(a: seq<Action>, b: seq<Action>)
    ensures Frames(a + b) == Frames(a) + Frames(b)
    decreases |b|
  {
    if b != [] {
      var b' := b[..|b| - 1];
      assert (a + b)[..|a + b| - 1] == a + b';
      FramesAppend(a, b');
    } else {
      assert a + b == a;
    }
  }

  lemma {:induction false} ReceiveAllAppend(c: Cache, ip: seq<Octet>, mac: MAC, a: seq<EthFrame>, b: seq<EthFrame>)
    ensures ReceiveAll(c, ip, mac, a + b) == ReceiveAll(ReceiveAll(c, ip, mac, a), ip, mac, b)
    decreases |a|
  {
    if a == [] {
      assert a + b == b;
    } else {
      assert (a + b)[1..] == a[1..] + b;
      ReceiveAllAppend(Receive(c, ip, mac, a[0]), ip, mac, a[1..], b);
    }
  }

  datatype EngineError = InvalidIPs | NoInterface | TargetUnresolved(cause: Resolver.ResolveError) | GatewayUnresolved(cause: Resolver.ResolveError)

  /** `NewEngine`: both addresses must parse, the interface must exist, then the target is resolved and
      then the gateway, each over its own link; the engine stores the resolved hardware addresses and
      the interface's own. Returns the engine or the error, and the request frames written. */
  method NewEngine(interfaceName: GoString, targetIP: Option<Addr>, gatewayIP: Option<Addr>,
                   iface: Option<Interface>, targetLink: Resolver.Link, gatewayLink: Resolver.Link)
    returns (e: Engine?, err: Option<EngineError>, sent: seq<EthFrame>)
    ensures e == null <==> err.Some?
    ensures targetIP.None? || gatewayIP.None? ==> err == Some(InvalidIPs) && sent == []
    ensures targetIP.Some? && gatewayIP.Some? && iface.None? ==> err == Some(NoInterface) && sent == []
    ensures sent != [] ==> sent[0].arp.Some? && sent[0].arp.value.tpa == targetIP.value
    ensures |sent| <= 2 && (|sent| == 2 ==> sent[1].arp.Some? && sent[1].arp.value.tpa == gatewayIP.value)
    ensures err.Some? && err.value.GatewayUnresolved? ==> |sent| >= 1
    ensures targetIP.Some? && gatewayIP.Some? && iface.Some? ==>
      var o1 := Resolver.Outcome(targetIP.value, iface.value, targetLink);
      var o2 := Resolver.Outcome(gatewayIP.value, iface.value, gatewayLink);
      (o1.Err? ==> err == Some(TargetUnresolved(o1.error)) && |sent| <= 1) &&
      (o1.Ok? && o2.Err? ==> err == Some(GatewayUnresolved(o2.error))) &&
      (o1.Ok? && o2.Ok? ==> e != null && e.targetMAC == o1.value && e.gatewayMAC == o2.value)
    ensures e != null ==>
      fresh(e) && e.State() == Initial && |sent| == 2 && e.interfaceName == interfaceName &&
      e.targetIP == targetIP.value && e.gatewayIP == gatewayIP.value && e.hostMAC == iface.value.mac &&
      Resolver.FirstReply(targetLink.rx, targetLink.start, targetIP.value) == Some(e.targetMAC) &&
      Resolver.FirstReply(gatewayLink.rx, gatewayLink.start, gatewayIP.value) == Some(e.gatewayMAC)
  {
    e, sent := null, [];
    if targetIP.None? || gatewayIP.None? {
      return e, Some(InvalidIPs), sent;
    }
    if iface.None? {
      return e, Some(NoInterface), sent;
    }
    var r1, _, sent1 := Resolver.GetMAC(targetIP, iface, targetLink);
    sent := sent + sent1;
    if r1.Err? {
      return e, Some(TargetUnresolved(r1.error)), sent;
    }
    var r2, _, sent2 := Resolver.GetMAC(gatewayIP, iface, gatewayLink);
    sent := sent + sent2;
    if r2.Err? {
      return e, Some(GatewayUnresolved(r2.error)), sent;
    }
    e := new Engine(interfaceName, targetIP.value, gatewayIP.value, r1.value, r2.value, iface.value.mac);
    return e, None, sent;
  }
}
