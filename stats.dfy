/** The traffic statistics aggregator: running byte and packet counters, a rate window, bytes per
    source address, packets per protocol, a bounded log of the domain names seen, and the anomaly
    detector every packet is forwarded to. */
module Stats {
  import opened GoStrings
  import opened Models
  import opened History
  import opened Wrappers
  import opened Sorting
  import Anomalies

  /** The domain log keeps this many entries. */
  const MaxDomainLog: nat := 50

  datatype IPStat = IPStat(ip: GoString, bytes: int)

  datatype ProtocolStat = ProtocolStat(protocol: GoString, count: int)

  /** Which field a domain name was taken from; the log shows it as "SNI", "DNS" or "HTTP". */
  datatype Source = SNI | DNS | HTTP

  function SourceName(src: Source): GoString {
    match src
    case SNI => "SNI"
    case DNS => "DNS"
    case HTTP => "HTTP"
  }

  /** A domain name seen in a packet, when it was seen, and which field carried it. */
  datatype DomainEntry = DomainEntry(hostname: GoString, timestamp: Time, source: Source)

  /** The counters and maps of the aggregator, without its detector. */
  datatype StatsState = StatsState(
    totalBytes: int,
    windowBytes: int,
    windowPackets: int,
    lastTick: Time,
    ipBytes: map<GoString, int>,
    protocolCounts: map<GoString, int>,
    domainLog: seq<DomainEntry>
  )

  function Initial(now: Time): StatsState {
    StatsState(0, 0, 0, now, map[], map[], [])
  }

  /** `m[k] += d`. */
  function AddTo(m: map<GoString, int>, k: GoString, d: int): map<GoString, int> {
    m[k := Anomalies.CountOf(m, k) + d]
  }

  /** The protocol a packet is counted under: an empty protocol counts as "Unknown". */
  function ProtocolKey(protocol: GoString): (k: GoString)
    ensures k != []
    ensures protocol != [] ==> k == protocol
  {
    if protocol == [] then "Unknown" else protocol
  }

  /** Which field the hostname came from, guessed from the destination port and the protocol:
      TLS for ports 443 and 853, DNS for port 53 or any UDP packet, HTTP otherwise. */
  function DomainSource(pkt: PacketData): Source {
    if pkt.dstPort == 443 || pkt.dstPort == 853 then SNI
    else if pkt.dstPort == 53 || pkt.protocol == "UDP" then DNS
    else HTTP
  }

  /** The domain entry a packet adds to the log, if it names a host. */
  function LoggedEntry(pkt: PacketData, now: Time): Option<DomainEntry> {
    if pkt.hostname == [] then None else Some(DomainEntry(pkt.hostname, now, DomainSource(pkt)))
  }

  /** The counting half of `ProcessPacket`. */
  function CountRule(s: StatsState, pkt: PacketData): StatsState {
    s.(totalBytes := s.totalBytes + pkt.length,
       windowBytes := s.windowBytes + pkt.length,
       windowPackets := s.windowPackets + 1,
       ipBytes := if pkt.srcIP != [] then AddTo(s.ipBytes, pkt.srcIP, pkt.length) else s.ipBytes,
       protocolCounts := AddTo(s.protocolCounts, ProtocolKey(pkt.protocol), 1))
  }

  /** The logging half of `ProcessPacket`. */
  function LogRule(s: StatsState, pkt: PacketData, now: Time): StatsState {
    var e := LoggedEntry(pkt, now);
    s.(domainLog := if e.Some? then Push(s.domainLog, e.value, MaxDomainLog) else s.domainLog)
  }

  /** `ProcessPacket`, apart from the detector. */
  function StatsRule(s: StatsState, pkt: PacketData, now: Time): StatsState {
    LogRule(CountRule(s, pkt), pkt, now)
  }

  /** A duration in seconds, exactly. */
  function Seconds(d: Duration): real {
    d as real / Second as real
  }

  /** What `GetRates` returns: bits and packets per second over the window, or (0, 0) when no
      time has passed. */
  function Rates(s: StatsState, now: Time): (real, real) {
    var d := Seconds(now - s.lastTick);
    if d == 0.0 then (0.0, 0.0) else ((s.windowBytes as real * 8.0) / d, s.windowPackets as real / d)
  }

  /** The state after `GetRates`: a new window from `now`, unless no time has passed. */
  function RatesRule(s: StatsState, now: Time): StatsState {
    if now == s.lastTick then s else s.(windowBytes := 0, windowPackets := 0, lastTick := now)
  }

  class TrafficStats {
    var totalBytes: int
    var windowBytes: int
    var windowPackets: int
    var lastTick: Time
    var ipBytes: map<GoString, int>
    var protocolCounts: map<GoString, int>
    var domainLog: seq<DomainEntry>
    const detector: Anomalies.AnomalyDetector

    function State(): StatsState
      reads this
    {
      StatsState(totalBytes, windowBytes, windowPackets, lastTick, ipBytes, protocolCounts, domainLog)
    }

    /** `NewTrafficStats`, with the clock reading `now`, and a new detector. */
    constructor (now: Time)
      ensures State() == Initial(now)
      ensures fresh(detector) && detector.State() == Anomalies.InitialState
    {
      totalBytes, windowBytes, windowPackets := 0, 0, 0;
      lastTick := now;
      ipBytes, protocolCounts := map[], map[];
      domainLog := [];
      detector := new Anomalies.AnomalyDetector();
    }

    /** `ProcessPacket`: count the packet, log its hostname, and hand it to the detector. */
    method ProcessPacket(pkt: PacketData, now: Time)
      modifies this, detector
      ensures State() == StatsRule(old(State()), pkt, now)
      ensures detector.State() == Anomalies.ProcessRule(old(detector.State()), pkt, now)
    {
      CountPacket(pkt);
      LogDomain(pkt, now);
      detector.ProcessPacket(pkt, now);
    }

    /** The counters and the two maps. */
    method CountPacket(pkt: PacketData)
      modifies this
      ensures State() == CountRule(old(State()), pkt)
    {
      totalBytes := totalBytes + pkt.length;
      windowBytes := windowBytes + pkt.length;
      windowPackets := windowPackets + 1;
      if pkt.srcIP != [] {
        ipBytes := ipBytes[pkt.srcIP := Anomalies.CountOf(ipBytes, pkt.srcIP) + pkt.length];
      }
      var proto := pkt.protocol;
      if proto == [] {
        proto := "Unknown";
      }
      protocolCounts := protocolCounts[proto := Anomalies.CountOf(protocolCounts, proto) + 1];
    }

    /** The domain log. */
    method LogDomain(pkt: PacketData, now: Time)
      modifies this
      ensures State() == LogRule(old(State()), pkt, now)
    {
      if pkt.hostname != [] {
        var source := HTTP;
        if pkt.dstPort == 443 || pkt.dstPort == 853 {
          source := SNI;
        } else if pkt.dstPort == 53 || pkt.protocol == "UDP" {
          source := DNS;
        }
        domainLog := domainLog + [DomainEntry(pkt.hostname, now, source)];
        if |domainLog| > MaxDomainLog {
          domainLog := domainLog[|domainLog| - MaxDomainLog..];
        }
      }
    }

    /** `GetRates`: the rates since the last call, and a new window. */
    method GetRates(now: Time) returns (bps: real, pps: real)
      modifies this
      ensures (bps, pps) == Rates(old(State()), now)
      ensures State() == RatesRule(old(State()), now)
    {
      var duration := Seconds(now - lastTick);
      if duration == 0.0 {
        return 0.0, 0.0;
      }
      bps := (windowBytes as real * 8.0) / duration;
      pps := windowPackets as real / duration;
      windowBytes := 0;
      windowPackets := 0;
      lastTick := now;
    }

    /** `GetTopTalkers`: the `limit` sources that sent the most bytes, largest first. A negative
        limit would slice out of range. */
    method GetTopTalkers(limit: int) returns (r: seq<IPStat>)
      requires limit >= 0
      ensures |r| == if |ipBytes| > limit then limit else |ipBytes|
      ensures forall i :: 0 <= i < |r| ==> r[i].ip in ipBytes && r[i].bytes == ipBytes[r[i].ip]
      ensures forall i, j :: 0 <= i < j < |r| ==> r[i].ip != r[j].ip
      ensures forall i, j :: 0 <= i < j < |r| ==> r[i].bytes >= r[j].bytes
      ensures forall ip :: ip in ipBytes && (forall i :: 0 <= i < |r| ==> r[i].ip != ip) ==>
        forall i :: 0 <= i < |r| ==> ipBytes[ip] <= r[i].bytes
    {
      var l := SortedDescending(ipBytes);
      var n := if |l| > limit then limit else |l|;
      r := TopEntries(l, n);
      TopOfListing(ipBytes, l, n, r);
    }

    /** `GetProtocolStats`: one entry per protocol, most packets first. */
    method GetProtocolStats() returns (r: seq<ProtocolStat>)
      ensures |r| == |protocolCounts|
      ensures forall i :: 0 <= i < |r| ==> r[i].protocol in protocolCounts && r[i].count == protocolCounts[r[i].protocol]
      ensures forall p :: p in protocolCounts ==> exists i :: 0 <= i < |r| && r[i].protocol == p
      ensures forall i, j :: 0 <= i < j < |r| ==> r[i].protocol != r[j].protocol
      ensures forall i, j :: 0 <= i < j < |r| ==> r[i].count >= r[j].count
    {
      var l := SortedDescending(protocolCounts);
      r := seq(|l|, i requires 0 <= i < |l| => ProtocolStat(l[i].0, l[i].1));
      forall p | p in protocolCounts ensures exists i :: 0 <= i < |r| && r[i].protocol == p {
        var k :| 0 <= k < |l| && l[k].0 == p;
        assert r[k].protocol == p;
      }
    }

    /** `GetDomainLog`: a copy of the log, oldest entry first. */
    method GetDomainLog() returns (r: seq<DomainEntry>)
      ensures r == domainLog
    {
      r := domainLog;
    }

    /** `GetAlerts`: the five newest alerts of the detector. */
    method GetAlerts() returns (r: seq<Anomalies.Alert>)
      ensures var h := detector.alerts;
        |r| == (if |h| <= 5 then |h| else 5) && r == h[|h| - |r|..]
    {
      r := detector.GetRecentAlerts(5);
    }
  }

  /** `stats[:limit]`: the first `n` entries of the listing as talkers. */
  function TopEntries(l: seq<(GoString, int)>, n: nat): (r: seq<IPStat>)
    requires n <= |l|
    ensures |r| == n && forall i :: 0 <= i < n ==> r[i] == IPStat(l[i].0, l[i].1)
  {
    seq(n, i requires 0 <= i < n => IPStat(l[i].0, l[i].1))
  }

  /** The first `n` entries of a listing sorted largest first are the `n` largest. */
  lemma TopOfListing(m: map<GoString, int>, l: seq<(GoString, int)>, n: nat, r: seq<IPStat>)
    requires n <= |l| && |r| == n && forall i :: 0 <= i < n ==> r[i] == IPStat(l[i].0, l[i].1)
    requires forall k :: k in m ==> exists i :: 0 <= i < |l| && l[i].0 == k
    requires forall i, j :: 0 <= i < j < |l| ==> l[i].1 >= l[j].1
    requires forall i :: 0 <= i < |l| ==> l[i].0 in m && l[i].1 == m[l[i].0]
    requires forall i, j :: 0 <= i < j < |l| ==> l[i].0 != l[j].0
    ensures forall i :: 0 <= i < |r| ==> r[i].ip in m && r[i].bytes == m[r[i].ip]
    ensures forall i, j :: 0 <= i < j < |r| ==> r[i].ip != r[j].ip
    ensures forall i, j :: 0 <= i < j < |r| ==> r[i].bytes >= r[j].bytes
    ensures forall ip :: ip in m && (forall i :: 0 <= i < |r| ==> r[i].ip != ip) ==>
      forall i :: 0 <= i < |r| ==> m[ip] <= r[i].bytes
  {
    forall ip | ip in m && (forall i :: 0 <= i < |r| ==> r[i].ip != ip)
      ensures forall i :: 0 <= i < |r| ==> m[ip] <= r[i].bytes
    {
      var k :| 0 <= k < |l| && l[k].0 == ip;
    }
  }

  /** The entries of a map, each key once, largest value first: the map is read into a list in
      any order and the list is sorted in place. */
  method SortedDescending(m: map<GoString, int>) returns (r: seq<(GoString, int)>)
    ensures |r| == |m|
    ensures forall i :: 0 <= i < |r| ==> r[i].0 in m && r[i].1 == m[r[i].0]
    ensures forall k :: k in m ==> exists i :: 0 <= i < |r| && r[i].0 == k
    ensures forall i, j :: 0 <= i < j < |r| ==> r[i].0 != r[j].0
    ensures forall i, j :: 0 <= i < j < |r| ==> r[i].1 >= r[j].1
  {
    var list := ReadMap(m);
    var a := new (GoString, int)[|list|](i requires 0 <= i < |list| => list[i]);
    assert a[..] == list;
    SortByKey(a, Weight);
    r := a[..];
    DescendingListing(m, list, r);
  }

  /** The sort key of `SortedDescending`: larger values sort first. */
  function Weight(e: (GoString, int)): int {
    -e.1
  }

  /** A listing of the map rearranged so that the keys ascend by `Weight` lists every entry once,
      largest value first. */
  lemma DescendingListing(m: map<GoString, int>, list: seq<(GoString, int)>, r: seq<(GoString, int)>)
    requires multiset(list) == multiset(r) && |list| == |m| && Distinct(list)
    requires forall i :: 0 <= i < |list| ==> list[i].0 in m && list[i] == (list[i].0, m[list[i].0])
    requires forall k :: k in m ==> exists i :: 0 <= i < |list| && list[i].0 == k
    requires SortedBy(r, Weight)
    ensures |r| == |m|
    ensures forall i :: 0 <= i < |r| ==> r[i].0 in m && r[i].1 == m[r[i].0]
    ensures forall k :: k in m ==> exists i :: 0 <= i < |r| && r[i].0 == k
    ensures forall i, j :: 0 <= i < j < |r| ==> r[i].0 != r[j].0
    ensures forall i, j :: 0 <= i < j < |r| ==> r[i].1 >= r[j].1
  {
    SameEntries(m, list, r);
    forall i, j | 0 <= i < j < |r| ensures r[i].1 >= r[j].1 {
      assert Weight(r[i]) <= Weight(r[j]);
    }
  }

  /** Packets processed one after another, each with its clock reading. */
  function StatsRun(s: StatsState, steps: seq<(PacketData, Time)>): StatsState
    decreases |steps|
  {
    if steps == [] then s
    else
      var last := steps[|steps| - 1];
      StatsRule(StatsRun(s, steps[..|steps| - 1]), last.0, last.1)
  }

  function LengthSum(steps: seq<(PacketData, Time)>): int
    decreases |steps|
  {
    if steps == [] then 0 else LengthSum(steps[..|steps| - 1]) + steps[|steps| - 1].0.length
  }

  /** The domain entries a run logs, in order. */
  function LoggedRun(steps: seq<(PacketData, Time)>): seq<DomainEntry>
    decreases |steps|
  {
    if steps == [] then []
    else
      var last := steps[|steps| - 1];
      var e := LoggedEntry(last.0, last.1);
      LoggedRun(steps[..|steps| - 1]) + (if e.Some? then [e.value] else [])
  }

  /** The byte counters grow by exactly the lengths processed and the packet counter by one per
      packet; the total is the sum of every length since the start. */
  lemma {:induction false} CountersAreSums(s: StatsState, steps: seq<(PacketData, Time)>)
    ensures StatsRun(s, steps).totalBytes == s.totalBytes + LengthSum(steps)
    ensures StatsRun(s, steps).windowBytes == s.windowBytes + LengthSum(steps)
    ensures StatsRun(s, steps).windowPackets == s.windowPackets + |steps|
    ensures StatsRun(s, steps).lastTick == s.lastTick
    decreases |steps|
  {
    if steps != [] {
      CountersAreSums(s, steps[..|steps| - 1]);
    }
  }

  /** A packet with a source adds its length to that source's byte count; no other source's count
      changes, and a packet without a source changes none. */
  lemma SourceBytes(s: StatsState, pkt: PacketData, now: Time)
    ensures var r := StatsRule(s, pkt, now).ipBytes;
      (pkt.srcIP == [] ==> r == s.ipBytes) &&
      (pkt.srcIP != [] ==> pkt.srcIP in r && r[pkt.srcIP] == Anomalies.CountOf(s.ipBytes, pkt.srcIP) + pkt.length) &&
      (forall ip :: ip != pkt.srcIP ==> (ip in r <==> ip in s.ipBytes) && (ip in r ==> r[ip] == s.ipBytes[ip]))
  {
  }

  /** Each packet counts once, under its protocol or "Unknown"; the other counts stay. */
  lemma ProtocolCounted(s: StatsState, pkt: PacketData, now: Time)
    ensures var r := StatsRule(s, pkt, now).protocolCounts;
      var k := if pkt.protocol == [] then "Unknown" else pkt.protocol;
      k in r && r[k] == Anomalies.CountOf(s.protocolCounts, k) + 1 &&
      (forall p :: p != k ==> (p in r <==> p in s.protocolCounts) && (p in r ==> r[p] == s.protocolCounts[p]))
  {
  }

  /** The three sources are told apart by port first and by protocol second. */
  lemma DomainSourceCases(pkt: PacketData)
    ensures DomainSource(pkt) == SNI <==> pkt.dstPort == 443 || pkt.dstPort == 853
    ensures DomainSource(pkt) == DNS <==>
      pkt.dstPort != 443 && pkt.dstPort != 853 && (pkt.dstPort == 53 || pkt.protocol == "UDP")
    ensures DomainSource(pkt) == HTTP <==>
      pkt.dstPort !in {443, 853, 53} && pkt.protocol != "UDP"
  {
  }

  /** Over any run that starts within the bound, the domain log holds the last 50 entries logged,
      oldest first. */
  lemma {:induction false} DomainLogKeepsLast(s: StatsState, steps: seq<(PacketData, Time)>)
    requires |s.domainLog| <= MaxDomainLog
    ensures StatsRun(s, steps).domainLog == Trim(s.domainLog + LoggedRun(steps), MaxDomainLog)
    ensures |StatsRun(s, steps).domainLog| <= MaxDomainLog
    decreases |steps|
  {
    if steps == [] {
      assert s.domainLog + [] == s.domainLog;
    } else {
      var init := steps[..|steps| - 1];
      DomainLogKeepsLast(s, init);
      var x := LogStep(s, steps);
      TrimExtend(s.domainLog, LoggedRun(init), x, MaxDomainLog, StatsRun(s, init).domainLog, StatsRun(s, steps).domainLog);
    }
  }

  /** The last step of a run adds its entry, if any, to the log of the rest. */
  lemma LogStep(s: StatsState, steps: seq<(PacketData, Time)>) returns (x: seq<DomainEntry>)
    requires steps != [] && |StatsRun(s, steps[..|steps| - 1]).domainLog| <= MaxDomainLog
    ensures StatsRun(s, steps).domainLog == Trim(StatsRun(s, steps[..|steps| - 1]).domainLog + x, MaxDomainLog)
    ensures LoggedRun(steps) == LoggedRun(steps[..|steps| - 1]) + x
  {
    var last := steps[|steps| - 1];
    var e := LoggedEntry(last.0, last.1);
    x := if e.Some? then [e.value] else [];
    var h := StatsRun(s, steps[..|steps| - 1]).domainLog;
    assert h + [] == h;
  }

  /** A full log drops its oldest entry: 51 entries into an empty log leave the last 50. */
  lemma FirstEntryEvicted(es: seq<DomainEntry>)
    requires |es| == MaxDomainLog + 1
    ensures Trim([] + es, MaxDomainLog) == es[1..]
  {
    assert [] + es == es;
  }

  /** Away from a zero interval, the rates times the interval give back the window's bits and
      packets, and the next call at the same instant reports (0, 0) over an empty window. */
  lemma RatesMeaning(s: StatsState, now: Time)
    ensures Seconds(now - s.lastTick) == 0.0 <==> now == s.lastTick
    ensures now == s.lastTick ==> Rates(s, now) == (0.0, 0.0) && RatesRule(s, now) == s
    ensures now != s.lastTick ==>
      Rates(s, now).0 * Seconds(now - s.lastTick) == s.windowBytes as real * 8.0 &&
      Rates(s, now).1 * Seconds(now - s.lastTick) == s.windowPackets as real
    ensures now != s.lastTick ==>
      var t := RatesRule(s, now);
      t.windowBytes == 0 && t.windowPackets == 0 && t.lastTick == now && Rates(t, now) == (0.0, 0.0)
  {
  }

  /** After a reset, the window holds exactly the packets processed since. */
  lemma WindowSinceReset(s: StatsState, now: Time, steps: seq<(PacketData, Time)>)
    requires now != s.lastTick
    ensures var t := StatsRun(RatesRule(s, now), steps);
      t.windowBytes == LengthSum(steps) && t.windowPackets == |steps| && t.lastTick == now
  {
    CountersAreSums(RatesRule(s, now), steps);
  }

  /** Two packets like those of the session report, a TLS connection to port 443 and a DNS query
      to port 53, each naming a domain: the first domain is logged as SNI and the second as DNS. */
  lemma ReportDomains(s: StatsState, p1: PacketData, p2: PacketData, t1: Time, t2: Time)
    requires s.domainLog == []
    requires p1.dstPort == 443 && p1.hostname != [] && p2.dstPort == 53 && p2.hostname != []
    ensures StatsRule(StatsRule(s, p1, t1), p2, t2).domainLog ==
      [DomainEntry(p1.hostname, t1, SNI), DomainEntry(p2.hostname, t2, DNS)]
  {
    LogAppends(s, p1, t1);
    LogAppends(StatsRule(s, p1, t1), p2, t2);
  }

  /** Below the bound, a packet naming a host appends one entry to the log. */
  lemma LogAppends(s: StatsState, pkt: PacketData, now: Time)
    requires pkt.hostname != [] && |s.domainLog| < MaxDomainLog
    ensures StatsRule(s, pkt, now).domainLog == s.domainLog + [DomainEntry(pkt.hostname, now, DomainSource(pkt))]
  {
  }

  /** The same two packets, 500 bytes over TCP and 300 over UDP from one host: 800 bytes from
      that host and one packet each for TCP and UDP. */
  lemma ReportCounts(p1: PacketData, p2: PacketData, t0: Time, t1: Time, t2: Time)
    requires p1.srcIP != [] && p1.protocol == "TCP" && p1.length == 500
    requires p2.srcIP == p1.srcIP && p2.protocol == "UDP" && p2.length == 300
    ensures StatsRule(StatsRule(Initial(t0), p1, t1), p2, t2).protocolCounts == map["TCP" := 1, "UDP" := 1]
    ensures StatsRule(StatsRule(Initial(t0), p1, t1), p2, t2).ipBytes == map[p1.srcIP := 800]
    ensures StatsRule(StatsRule(Initial(t0), p1, t1), p2, t2).totalBytes == 800
  {
    var tcp: GoString := "TCP";
    var udp: GoString := "UDP";
    assert tcp != udp by {
      assert tcp[0] != udp[0];
    }
    assert map[tcp := 1][udp := 1] == map[tcp := 1, udp := 1];
  }

  /** The top-talker traffic: 10.0.0.1 sends 500 and 200 bytes, 10.0.0.2 sends 300. */
  lemma TalkerTotals(s: StatsState, t: Time)
    requires s.ipBytes == map[]
    ensures var a := PacketData(0, "10.0.0.1", "", 0, 0, "TCP", 500, "", "");
      var b := PacketData(0, "10.0.0.2", "", 0, 0, "TCP", 300, "", "");
      var c := PacketData(0, "10.0.0.1", "", 0, 0, "TCP", 200, "", "");
      StatsRule(StatsRule(StatsRule(s, a, t), b, t), c, t).ipBytes == map["10.0.0.1" := 700, "10.0.0.2" := 300]
  {
    var one: GoString := "10.0.0.1";
    var two: GoString := "10.0.0.2";
    assert one != two by {
      assert one[7] != two[7];
    }
    assert map[one := 500][two := 300][one := 700] == map[one := 700, two := 300];
  }
}
