/** The ARP subnet scanner: the configuration defaults, the sweep over the local subnet that
    broadcasts one ARP request per candidate address, the filter and first-wins record of the
    replies, and the sorted list of discovered hosts. */
module Scanner {
  import opened Octets
  import opened IPv4
  import opened Wrappers
  import opened Models
  import opened GoStrings
  import opened Arp
  import opened NetIf
  import opened Sorting

  // ---------------------------------------------------------------------------------------
  // Configuration

  const DefaultRateLimit: Duration := 50 * Microsecond
  const DefaultIdleWait: Duration := 500 * Millisecond
  const DefaultMaxHosts: int := 4096
  /** The smallest cap a capped scan keeps. */
  const MinMaxHosts: int := 512
  /** The `MaxHosts` value that means "no cap". */
  const NoCap: int := -1

  /** `ScanConfig`; `promisc` is the optional `*bool` (None when it is nil). */
  datatype ScanConfig = ScanConfig(rateLimit: Duration, idleWait: Duration, maxHosts: int, promisc: Option<bool>)

  /** A configuration every field of which is already one the scan works with. */
  predicate Settled(c: ScanConfig) {
    c.rateLimit > 0 && c.idleWait > 0 && (c.maxHosts == NoCap || c.maxHosts >= MinMaxHosts) && c.promisc.Some?
  }

  /** `applyDefaults`: a nil configuration gets every default (and a cap of 4096); otherwise the
      given configuration is copied and each unusable field replaced. */
  function ApplyDefaults(cfg: Option<ScanConfig>): (out: ScanConfig)
    ensures Settled(out)
  {
    match cfg
    case None => ScanConfig(DefaultRateLimit, DefaultIdleWait, DefaultMaxHosts, Some(true))
    case Some(c) =>
      var rate := if c.rateLimit <= 0 then DefaultRateLimit else c.rateLimit;
      var idle := if c.idleWait <= 0 then DefaultIdleWait else c.idleWait;
      var uncapped := if c.maxHosts == 0 then NoCap else if c.maxHosts < 0 then NoCap else c.maxHosts;
      var hosts := if uncapped > 0 && uncapped < MinMaxHosts then MinMaxHosts else uncapped;
      var promisc := if c.promisc.None? then Some(true) else c.promisc;
      ScanConfig(rate, idle, hosts, promisc)
  }

  /** Field by field: a positive duration is kept and any other replaced by its default; a
      non-positive cap means no cap, a cap below 512 is raised to 512 and a larger one kept; a
      missing promiscuous flag becomes true and a given one is kept. */
  lemma DefaultsRules(c: ScanConfig)
    ensures ApplyDefaults(Some(c)).rateLimit == if c.rateLimit > 0 then c.rateLimit else DefaultRateLimit
    ensures ApplyDefaults(Some(c)).idleWait == if c.idleWait > 0 then c.idleWait else DefaultIdleWait
    ensures c.maxHosts <= 0 <==> ApplyDefaults(Some(c)).maxHosts == NoCap
    ensures 0 < c.maxHosts < MinMaxHosts ==> ApplyDefaults(Some(c)).maxHosts == MinMaxHosts
    ensures c.maxHosts >= MinMaxHosts ==> ApplyDefaults(Some(c)).maxHosts == c.maxHosts
    ensures ApplyDefaults(Some(c)).promisc == if c.promisc.Some? then c.promisc else Some(true)
  {
  }

  /** A configuration is left exactly as it is if and only if it is already settled. */
  lemma SettledIsFixed(c: ScanConfig)
    ensures ApplyDefaults(Some(c)) == c <==> Settled(c)
  {
    DefaultsRules(c);
  }

  /** Applying the defaults twice is applying them once. */
  lemma ApplyDefaultsIdempotent(cfg: Option<ScanConfig>)
    ensures ApplyDefaults(Some(ApplyDefaults(cfg))) == ApplyDefaults(cfg)
  {
    SettledIsFixed(ApplyDefaults(cfg));
  }

  /** A nil configuration behaves as an all-zero one except for the cap: the zero value of
      `MaxHosts` switches the cap off, while nil gets a cap of 4096. */
  lemma NilAndZeroConfig()
    ensures ApplyDefaults(None) == ApplyDefaults(Some(ScanConfig(0, 0, DefaultMaxHosts, None)))
    ensures ApplyDefaults(Some(ScanConfig(0, 0, 0, None))).maxHosts == NoCap
  {
  }

  // ---------------------------------------------------------------------------------------
  // The sweep

  /** What waiting on the rate-limit ticker yields in one loop iteration: the tick (and, should
      the iteration write a request, whether the write succeeds) or the cancelled context. */
  datatype Step = Tick(sendOk: bool) | Cancel

  /** Why the probe loop stopped: the address left the subnet, the cap was reached, or the
      context was cancelled (also when the list of steps runs out). */
  datatype SweepEnd = LeftSubnet | CapReached | Cancelled

  const ZeroMask: Addr := [0, 0, 0, 0]

  /** The number of 4-byte addresses, 256^4. */
  const AddrSpace: nat := 0x1_0000_0000

  lemma AddrSpaceIsPow()
    ensures Pow256(4) == AddrSpace
  {
  }

  /** The address `k` steps after the one with value `n`, as a value, modulo 2^32. */
  function Offset(n: nat, k: nat): nat {
    (n + k) % AddrSpace
  }

  /** The broadcast address of the local subnet. */
  function BroadcastOf(local: Addr, mask: Addr): Addr {
    Broadcast(Network(local, mask), mask)
  }

  /** The addresses the loop visited (those for which it got a tick), one per step, starting at
      the network address and counting up by one, modulo 2^32, all inside the subnet. */
  predicate SweepTrace(local: Addr, mask: Addr, start: nat, visited: seq<Addr>, steps: seq<Step>) {
    |visited| <= |steps| &&
    forall k :: 0 <= k < |visited| ==>
      steps[k].Tick? && InSubnet(local, mask, visited[k]) &&
      Value(visited[k]) == Offset(start, k)
  }

  /** The requests written for a list of visited addresses: every visited address but the first,
      the broadcast address and the local address, with the result of its write. */
  function Probed(visited: seq<Addr>, steps: seq<Step>, bc: Addr, local: Addr): seq<(Addr, bool)>
    requires |visited| <= |steps| && forall k :: 0 <= k < |visited| ==> steps[k].Tick?
    decreases |visited|
  {
    if |visited| <= 1 then []
    else
      var n := |visited| - 1;
      var x := visited[n];
      Probed(visited[..n], steps, bc, local) + (if x != bc && x != local then [(x, steps[n].sendOk)] else [])
  }

  /** The requests whose write succeeded: the ones `scanned` counts. */
  function Successes(probes: seq<(Addr, bool)>): (n: nat)
    ensures n <= |probes|
    ensures n == |probes| <==> forall i :: 0 <= i < |probes| ==> probes[i].1
    ensures n == 0 <==> forall i :: 0 <= i < |probes| ==> !probes[i].1
    decreases |probes|
  {
    if probes == [] then 0
    else Successes(probes[..|probes| - 1]) + if probes[|probes| - 1].1 then 1 else 0
  }

  /** The probe loop of `Scan`, from the computation of its start and broadcast addresses in
      place to the loop `for ; localNet.Contains(currentIP); inc(currentIP)`. In each iteration:
      stop at the cap, wait for the tick or the cancellation, skip the first (network) address,
      the broadcast address and the local address, write a request, and count it when the write
      succeeds. */
  method Sweep(local: Addr, mask: Addr, maxHosts: int, steps: seq<Step>)
    returns (end: SweepEnd, visited: seq<Addr>, probes: seq<(Addr, bool)>, scanned: nat, stop: Addr)
    ensures SweepTrace(local, mask, Value(Network(local, mask)), visited, steps)
    ensures probes == Probed(visited, steps, BroadcastOf(local, mask), local)
    ensures scanned == Successes(probes)
    ensures maxHosts > 0 ==> scanned <= maxHosts
    ensures Value(stop) == Offset(Value(Network(local, mask)), |visited|)
    ensures end == LeftSubnet <==> !InSubnet(local, mask, stop)
    ensures end == CapReached <==> InSubnet(local, mask, stop) && maxHosts > 0 && scanned == maxHosts
    ensures end == Cancelled ==> |visited| == |steps| || steps[|visited|].Cancel?
  {
    var currentIP, bc := SubnetEnds(local, mask);
    ghost var net := currentIP[..];
    var first := true;
    scanned := 0;
    visited := [];
    probes := [];
    StartOffset(net);
    end := LeftSubnet;
    while InSubnet(local, mask, currentIP[..])
      invariant currentIP.Length == 4 && end == LeftSubnet
      invariant SweepTrace(local, mask, Value(net), visited, steps)
      invariant Value(currentIP[..]) == Offset(Value(net), |visited|)
      invariant first <==> visited == []
      invariant probes == Probed(visited, steps, bc, local)
      invariant scanned == Successes(probes)
      invariant maxHosts > 0 ==> scanned <= maxHosts
      decreases |steps| - |visited|
    {
      if maxHosts > 0 && scanned >= maxHosts {
        end := CapReached;
        break;
      }
      if |visited| == |steps| || steps[|visited|].Cancel? {
        end := Cancelled;
        break;
      }
      visited, probes, scanned := Iterate(local, mask, Value(net), currentIP, bc, first, steps, visited, probes, scanned);
      first := false;
    }
    stop := currentIP[..];
  }

  /** One iteration of the loop once the tick has come: visit the current address, write and
      count its request unless it is skipped, and step the address in place. */
  method Iterate(local: Addr, mask: Addr, ghost start: nat, currentIP: array<Octet>, bc: Addr, first: bool,
                 steps: seq<Step>, visited: seq<Addr>, probes: seq<(Addr, bool)>, scanned: nat)
    returns (visited': seq<Addr>, probes': seq<(Addr, bool)>, scanned': nat)
    requires currentIP.Length == 4 && InSubnet(local, mask, currentIP[..])
    requires SweepTrace(local, mask, start, visited, steps)
    requires |visited| < |steps| && steps[|visited|].Tick?
    requires Value(currentIP[..]) == Offset(start, |visited|)
    requires first <==> visited == []
    requires probes == Probed(visited, steps, bc, local) && scanned == Successes(probes)
    modifies currentIP
    ensures visited' == visited + [old(currentIP[..])]
    ensures SweepTrace(local, mask, start, visited', steps)
    ensures Value(currentIP[..]) == Offset(start, |visited'|)
    ensures probes' == Probed(visited', steps, bc, local) && scanned' == Successes(probes')
    ensures scanned <= scanned' <= scanned + 1
  {
    var cur: Addr := currentIP[..];
    TraceStep(local, mask, start, visited, steps, cur);
    ProbedStep(visited, steps, bc, local, cur);
    visited' := visited + [cur];
    probes', scanned' := Visit(first, cur, bc, local, steps[|visited|].sendOk, probes, scanned);
    Advance(currentIP, start, |visited|);
  }

  /** The rest of one iteration once the tick has come: skip the first address, the broadcast
      address and the local address; write a request for any other and count it when the write
      succeeds. */
  method Visit(first: bool, cur: Addr, bc: Addr, local: Addr, sendOk: bool, probes: seq<(Addr, bool)>, scanned: nat)
    returns (probes': seq<(Addr, bool)>, scanned': nat)
    requires scanned == Successes(probes)
    ensures probes' == probes + (if !first && cur != bc && cur != local then [(cur, sendOk)] else [])
    ensures scanned' == Successes(probes') && scanned <= scanned' <= scanned + 1
  {
    probes', scanned' := probes, scanned;
    if first {
      return;
    }
    if cur == bc {
      return;
    }
    if cur == local {
      return;
    }
    SuccessesStep(probes, (cur, sendOk));
    probes' := probes + [(cur, sendOk)];
    if sendOk {
      scanned' := scanned + 1;
    }
  }

  /** One more visited address keeps the trace. */
  lemma TraceStep(local: Addr, mask: Addr, start: nat, visited: seq<Addr>, steps: seq<Step>, cur: Addr)
    requires SweepTrace(local, mask, start, visited, steps)
    requires |visited| < |steps| && steps[|visited|].Tick? && InSubnet(local, mask, cur)
    requires Value(cur) == Offset(start, |visited|)
    ensures SweepTrace(local, mask, start, visited + [cur], steps)
  {
  }

  /** The request list grows by the newly visited address unless it is the first, the broadcast
      or the local address. */
  lemma ProbedStep(visited: seq<Addr>, steps: seq<Step>, bc: Addr, local: Addr, cur: Addr)
    requires |visited| < |steps| && forall k :: 0 <= k <= |visited| ==> steps[k].Tick?
    ensures Probed(visited + [cur], steps, bc, local) ==
      Probed(visited, steps, bc, local) +
      (if visited != [] && cur != bc && cur != local then [(cur, steps[|visited|].sendOk)] else [])
  {
    assert (visited + [cur])[..|visited|] == visited;
  }

  lemma SuccessesStep(p: seq<(Addr, bool)>, x: (Addr, bool))
    ensures Successes(p + [x]) == Successes(p) + if x.1 then 1 else 0
  {
    assert (p + [x])[..|p|] == p;
  }

  /** The start of the sweep: a copy of the local address masked in place (the network address),
      and a copy of that OR the complement of the mask (the broadcast address). */
  method SubnetEnds(local: Addr, mask: Addr) returns (currentIP: array<Octet>, bc: Addr)
    ensures fresh(currentIP) && currentIP.Length == 4
    ensures currentIP[..] == Network(local, mask) && bc == BroadcastOf(local, mask)
  {
    currentIP := new Octet[4](i requires 0 <= i < 4 => local[i]);
    MaskInPlace(currentIP, mask);
    var net: Addr := currentIP[..];
    assert net == Network(local, mask);
    var broadcastIP := new Octet[4](i requires 0 <= i < 4 => net[i]);
    SetHostBits(broadcastIP, mask);
    bc := broadcastIP[..];
    assert bc == BroadcastOf(local, mask);
  }

  /** `inc(currentIP)` on a 4-byte address `k` steps after the network address `n`. */
  method Advance(ip: array<Octet>, ghost n: nat, ghost k: nat)
    requires ip.Length == 4 && Value(ip[..]) == Offset(n, k)
    modifies ip
    ensures Value(ip[..]) == Offset(n, k + 1)
  {
    Inc(ip);
    NextValue(n, k);
  }

  lemma StartOffset(net: Addr)
    ensures Offset(Value(net), 0) == Value(net)
  {
    ValueBound(net);
    AddrSpaceIsPow();
  }

  lemma NextValue(n: nat, k: nat)
    ensures (Offset(n, k) + 1) % Pow256(4) == Offset(n, k + 1)
  {
    AddrSpaceIsPow();
  }

  /** Address 255.255.255.255 followed by 0.0.0.0 in one trace means the all-zero mask. */
  lemma WrapInTrace(local: Addr, mask: Addr, visited: seq<Addr>, steps: seq<Step>, k: nat)
    requires SweepTrace(local, mask, Value(Network(local, mask)), visited, steps)
    requires k < |visited| && Value(Network(local, mask)) + k >= AddrSpace
    ensures mask == ZeroMask
  {
    var n := Value(Network(local, mask));
    var p := AddrSpace;
    ValueBound(Network(local, mask));
    AddrSpaceIsPow();
    var j := p - 1 - n;
    assert 0 <= j < k;
    assert Value(visited[j]) == p - 1;
    assert Value(visited[j + 1]) == 0 by {
      assert (n + j + 1) % p == 0;
    }
    ValueRepeat(4);
    ValueInjective(visited[j], Repeat(255, 4));
    ValueInjective(visited[j + 1], Repeat(0, 4));
    assert visited[j] == [255, 255, 255, 255];
    assert visited[j + 1] == [0, 0, 0, 0];
    WrapNeedsZeroMask(local, mask);
  }

  /** With any mask but the all-zero one the visited addresses do not wrap around: the k-th one
      is the network address plus k. */
  lemma NoWrap(local: Addr, mask: Addr, visited: seq<Addr>, steps: seq<Step>)
    requires SweepTrace(local, mask, Value(Network(local, mask)), visited, steps)
    ensures mask != ZeroMask ==>
      forall k :: 0 <= k < |visited| ==> Value(visited[k]) == Value(Network(local, mask)) + k < AddrSpace
  {
    forall k | 0 <= k < |visited| && mask != ZeroMask
      ensures Value(visited[k]) == Value(Network(local, mask)) + k < AddrSpace
    {
      if Value(Network(local, mask)) + k >= AddrSpace {
        WrapInTrace(local, mask, visited, steps, k);
      }
    }
  }

  /** Every address a request is written for lies in the subnet and is neither the broadcast nor
      the local address (`bc` stands for the broadcast address). */
  lemma {:induction false} ProbedInSubnet(local: Addr, mask: Addr, start: nat, visited: seq<Addr>, steps: seq<Step>, bc: Addr)
    requires SweepTrace(local, mask, start, visited, steps)
    ensures forall i :: 0 <= i < |Probed(visited, steps, bc, local)| ==>
      InSubnet(local, mask, Probed(visited, steps, bc, local)[i].0) &&
      Probed(visited, steps, bc, local)[i].0 != bc && Probed(visited, steps, bc, local)[i].0 != local
    decreases |visited|
  {
    if |visited| > 1 {
      var n := |visited| - 1;
      var pre := visited[..n];
      assert SweepTrace(local, mask, start, pre, steps);
      ProbedInSubnet(local, mask, start, pre, steps, bc);
      var x := visited[n];
      var q := Probed(pre, steps, bc, local);
      var p := Probed(visited, steps, bc, local);
      assert p == q + (if x != bc && x != local then [(x, steps[n].sendOk)] else []);
      forall i | 0 <= i < |p| ensures InSubnet(local, mask, p[i].0) && p[i].0 != bc && p[i].0 != local {
        if i < |q| {
          assert p[i] == q[i];
        }
      }
    }
  }

  /** With any mask but the all-zero one, the addresses requests are written for are strictly
      ascending and lie above the network address and below the next address to visit. */
  lemma {:induction false} ProbedAscending(local: Addr, mask: Addr, visited: seq<Addr>, steps: seq<Step>, bc: Addr)
    requires SweepTrace(local, mask, Value(Network(local, mask)), visited, steps) && mask != ZeroMask
    ensures forall i :: 0 <= i < |Probed(visited, steps, bc, local)| ==>
      Value(Network(local, mask)) < Value(Probed(visited, steps, bc, local)[i].0) < Value(Network(local, mask)) + |visited|
    ensures forall i, j :: 0 <= i < j < |Probed(visited, steps, bc, local)| ==>
      Value(Probed(visited, steps, bc, local)[i].0) < Value(Probed(visited, steps, bc, local)[j].0)
    decreases |visited|
  {
    if |visited| > 1 {
      var n := |visited| - 1;
      var pre := visited[..n];
      assert SweepTrace(local, mask, Value(Network(local, mask)), pre, steps);
      ProbedAscending(local, mask, pre, steps, bc);
      NoWrap(local, mask, visited, steps);
      var x := visited[n];
      assert Value(x) == Value(Network(local, mask)) + n;
      var q := Probed(pre, steps, bc, local);
      var p := Probed(visited, steps, bc, local);
      assert p == q + (if x != bc && x != local then [(x, steps[n].sendOk)] else []);
      assert forall i :: 0 <= i < |q| ==> p[i] == q[i];
    }
  }

  /** With any mask but the all-zero one, the request targets lie strictly between the network
      and the broadcast address, so their number is at most the subnet size minus two. */
  lemma ProbeCount(local: Addr, mask: Addr, visited: seq<Addr>, steps: seq<Step>)
    requires SweepTrace(local, mask, Value(Network(local, mask)), visited, steps) && mask != ZeroMask
    ensures |Probed(visited, steps, BroadcastOf(local, mask), local)|
      <= Value(BroadcastOf(local, mask)) - Value(Network(local, mask)) - 1 ||
      Probed(visited, steps, BroadcastOf(local, mask), local) == []
  {
    var bc := BroadcastOf(local, mask);
    var p := Probed(visited, steps, bc, local);
    ProbedInSubnet(local, mask, Value(Network(local, mask)), visited, steps, bc);
    ProbedAscending(local, mask, visited, steps, bc);
    forall i | 0 <= i < |p| ensures Value(p[i].0) < Value(bc) {
      SubnetBounds(local, mask, p[i].0);
      ValueInjective(p[i].0, bc);
    }
    AscendingCount(p, Value(Network(local, mask)), Value(bc));
  }

  /** A strictly ascending list of addresses strictly between `lo` and `hi` has at most
      `hi - lo - 1` entries. */
  lemma {:induction false} AscendingCount(p: seq<(Addr, bool)>, lo: int, hi: int)
    requires forall i :: 0 <= i < |p| ==> lo < Value(p[i].0) < hi
    requires forall i, j :: 0 <= i < j < |p| ==> Value(p[i].0) < Value(p[j].0)
    ensures |p| <= hi - lo - 1 || p == []
    decreases |p|
  {
    if |p| == 1 {
      assert lo < Value(p[0].0) < hi;
    } else if |p| > 1 {
      var n := |p| - 1;
      AscendingCount(p[..n], lo, Value(p[n].0));
    }
  }

  const Slash30: Addr := [255, 255, 255, 252]

  /** A /30 subnet spans four addresses: its broadcast address is its network address plus 3. */
  lemma Slash30Span(local: Addr)
    ensures Value(BroadcastOf(local, Slash30)) == Value(Network(local, Slash30)) + 3
  {
    var net := Network(local, Slash30);
    var bc := BroadcastOf(local, Slash30);
    FullByte(local[0]);
    FullByte(local[1]);
    FullByte(local[2]);
    TwoHostBits(local[3]);
    assert net[..3] == bc[..3] == local[..3];
    assert bc[3] == net[3] + 3;
  }

  /** A /30 gets at most two requests: the two addresses between its network and broadcast
      addresses. */
  lemma Slash30AtMostTwo(local: Addr, visited: seq<Addr>, steps: seq<Step>)
    requires SweepTrace(local, Slash30, Value(Network(local, Slash30)), visited, steps)
    ensures |Probed(visited, steps, BroadcastOf(local, Slash30), local)| <= 2
  {
    ProbeCount(local, Slash30, visited, steps);
    Slash30Span(local);
  }

  // ---------------------------------------------------------------------------------------
  // Replies

  /** `Host`; the scanner leaves `name` empty. */
  datatype Host = Host(ip: Addr, mac: MAC, name: GoString)

  /** The reader goroutine's filter: an ARP reply whose sender protocol address lies in the local
      subnet and is not the local address. */
  predicate Recordable(f: EthFrame, local: Addr, mask: Addr) {
    f.arp.Some? && f.arp.value.op == OpReply &&
    InSubnet(local, mask, f.arp.value.spa) && f.arp.value.spa != local
  }

  /** The discovered hosts by address. */
  type Discovered = map<Addr, MAC>

  /** The collector goroutine: a recordable reply adds its sender unless the address is
      already there. */
  function Record(d: Discovered, f: EthFrame, local: Addr, mask: Addr): Discovered {
    if Recordable(f, local, mask) && f.arp.value.spa !in d then d[f.arp.value.spa := f.arp.value.sha] else d
  }

  /** The map after the frames that reached the collector, in order. */
  function Collect(fs: seq<EthFrame>, local: Addr, mask: Addr): Discovered
    decreases |fs|
  {
    if fs == [] then map[] else Record(Collect(fs[..|fs| - 1], local, mask), fs[|fs| - 1], local, mask)
  }

  /** Frame `i` is the first recordable reply from `ip`. */
  predicate FirstReplyFrom(fs: seq<EthFrame>, i: int, ip: Addr, local: Addr, mask: Addr) {
    0 <= i < |fs| && Recordable(fs[i], local, mask) && fs[i].arp.value.spa == ip &&
    forall j :: 0 <= j < i ==> !(Recordable(fs[j], local, mask) && fs[j].arp.value.spa == ip)
  }

  /** An address is recorded exactly when some recordable reply came from it. */
  lemma {:induction false} CollectKeys(fs: seq<EthFrame>, local: Addr, mask: Addr, ip: Addr)
    ensures ip in Collect(fs, local, mask) <==>
      exists j :: 0 <= j < |fs| && Recordable(fs[j], local, mask) && fs[j].arp.value.spa == ip
    decreases |fs|
  {
    if fs != [] {
      var n := |fs| - 1;
      CollectKeys(fs[..n], local, mask, ip);
      if ip in Collect(fs[..n], local, mask) {
        var j :| 0 <= j < n && Recordable(fs[..n][j], local, mask) && fs[..n][j].arp.value.spa == ip;
        assert fs[j] == fs[..n][j];
      }
      if exists j :: 0 <= j < |fs| && Recordable(fs[j], local, mask) && fs[j].arp.value.spa == ip {
        var j :| 0 <= j < |fs| && Recordable(fs[j], local, mask) && fs[j].arp.value.spa == ip;
        if j < n {
          assert fs[..n][j] == fs[j];
        }
      }
    }
  }

  /** The first reply from an address decides its hardware address: later replies, and replies
      from outside the subnet or from the local address, are ignored. */
  lemma {:induction false} FirstReplyWins(fs: seq<EthFrame>, local: Addr, mask: Addr, ip: Addr, i: int)
    requires FirstReplyFrom(fs, i, ip, local, mask)
    ensures ip in Collect(fs, local, mask) && Collect(fs, local, mask)[ip] == fs[i].arp.value.sha
    decreases |fs|
  {
    var n := |fs| - 1;
    var pre := fs[..n];
    if i == n {
      CollectKeys(pre, local, mask, ip);
      assert forall j :: 0 <= j < n ==> pre[j] == fs[j];
    } else {
      assert FirstReplyFrom(pre, i, ip, local, mask);
      FirstReplyWins(pre, local, mask, ip, i);
    }
  }

  /** Every recorded entry is the sender of the first recordable reply from its address, so it
      lies in the subnet and is not the local address. */
  lemma {:induction false} RecordedIsFirstReply(fs: seq<EthFrame>, local: Addr, mask: Addr, ip: Addr)
    requires ip in Collect(fs, local, mask)
    ensures InSubnet(local, mask, ip) && ip != local
    ensures exists i :: FirstReplyFrom(fs, i, ip, local, mask) && Collect(fs, local, mask)[ip] == fs[i].arp.value.sha
    decreases |fs|
  {
    var n := |fs| - 1;
    var pre := fs[..n];
    if ip in Collect(pre, local, mask) {
      RecordedIsFirstReply(pre, local, mask, ip);
      var i :| FirstReplyFrom(pre, i, ip, local, mask) && Collect(pre, local, mask)[ip] == pre[i].arp.value.sha;
      assert pre[i] == fs[i];
      assert forall j :: 0 <= j < i ==> pre[j] == fs[j];
      assert FirstReplyFrom(fs, i, ip, local, mask);
    } else {
      CollectKeys(pre, local, mask, ip);
      assert forall j :: 0 <= j < n ==> pre[j] == fs[j];
      assert FirstReplyFrom(fs, n, ip, local, mask);
    }
  }

  // ---------------------------------------------------------------------------------------
  // Result

  /** The hosts of the map, each once, sorted by `bytes.Compare` on their addresses. */
  method SortHosts(d: Discovered) returns (hosts: seq<Host>)
    ensures |hosts| == |d|
    ensures forall i :: 0 <= i < |hosts| ==> hosts[i].ip in d && hosts[i].mac == d[hosts[i].ip] && hosts[i].name == ""
    ensures forall ip :: ip in d ==> exists i :: 0 <= i < |hosts| && hosts[i].ip == ip
    ensures forall i, j :: 0 <= i < j < |hosts| ==> LexLess(hosts[i].ip, hosts[j].ip)
  {
    var list := ReadMap(d);
    var a := new Host[|list|](i requires 0 <= i < |list| => Host(list[i].0, list[i].1, ""));
    ghost var unsorted := a[..];
    SortByKey(a, (h: Host) => Value(h.ip));
    hosts := a[..];
    HostsFromListing(d, list, unsorted, hosts);
  }

  lemma HostsFromListing(d: Discovered, list: seq<(Addr, MAC)>, unsorted: seq<Host>, hosts: seq<Host>)
    requires |list| == |d| && Distinct(list)
    requires forall i :: 0 <= i < |list| ==> list[i].0 in d && list[i] == (list[i].0, d[list[i].0])
    requires forall k :: k in d ==> exists i :: 0 <= i < |list| && list[i].0 == k
    requires |unsorted| == |list| && forall i :: 0 <= i < |list| ==> unsorted[i] == Host(list[i].0, list[i].1, "")
    requires multiset(hosts) == multiset(unsorted)
    requires SortedBy(hosts, (h: Host) => Value(h.ip))
    ensures |hosts| == |d|
    ensures forall i :: 0 <= i < |hosts| ==> hosts[i].ip in d && hosts[i].mac == d[hosts[i].ip] && hosts[i].name == ""
    ensures forall ip :: ip in d ==> exists i :: 0 <= i < |hosts| && hosts[i].ip == ip
    ensures forall i, j :: 0 <= i < j < |hosts| ==> LexLess(hosts[i].ip, hosts[j].ip)
  {
    assert |hosts| == |multiset(hosts)| == |multiset(unsorted)| == |unsorted|;
    DistinctHosts(list, unsorted);
    PermutationKeepsDistinct(unsorted, hosts);
    HostsAreEntries(d, list, unsorted, hosts);
    HostsAscending(d, hosts);
  }

  /** The sorted hosts are the entries of the map, each one present. */
  lemma HostsAreEntries(d: Discovered, list: seq<(Addr, MAC)>, unsorted: seq<Host>, hosts: seq<Host>)
    requires forall i :: 0 <= i < |list| ==> list[i].0 in d && list[i] == (list[i].0, d[list[i].0])
    requires forall k :: k in d ==> exists i :: 0 <= i < |list| && list[i].0 == k
    requires |unsorted| == |list| && forall i :: 0 <= i < |list| ==> unsorted[i] == Host(list[i].0, list[i].1, "")
    requires multiset(hosts) == multiset(unsorted)
    ensures forall i :: 0 <= i < |hosts| ==> hosts[i].ip in d && hosts[i] == Host(hosts[i].ip, d[hosts[i].ip], "")
    ensures forall ip :: ip in d ==> exists i :: 0 <= i < |hosts| && hosts[i].ip == ip
  {
    forall i | 0 <= i < |hosts|
      ensures hosts[i].ip in d && hosts[i] == Host(hosts[i].ip, d[hosts[i].ip], "")
    {
      assert hosts[i] in multiset(unsorted);
      var k :| 0 <= k < |unsorted| && unsorted[k] == hosts[i];
    }
    forall ip | ip in d ensures exists i :: 0 <= i < |hosts| && hosts[i].ip == ip {
      var k :| 0 <= k < |list| && list[k].0 == ip;
      assert unsorted[k] in multiset(hosts);
      var i :| 0 <= i < |hosts| && hosts[i] == unsorted[k];
    }
  }

  /** Hosts with distinct entries, ordered by the value of their addresses, are in strictly
      ascending byte order. */
  lemma HostsAscending(d: Discovered, hosts: seq<Host>)
    requires forall i :: 0 <= i < |hosts| ==> hosts[i].ip in d && hosts[i] == Host(hosts[i].ip, d[hosts[i].ip], "")
    requires Distinct(hosts)
    requires SortedBy(hosts, (h: Host) => Value(h.ip))
    ensures forall i, j :: 0 <= i < j < |hosts| ==> LexLess(hosts[i].ip, hosts[j].ip)
  {
    forall i, j | 0 <= i < j < |hosts| ensures LexLess(hosts[i].ip, hosts[j].ip) {
      assert Value(hosts[i].ip) <= Value(hosts[j].ip);
      ValueInjective(hosts[i].ip, hosts[j].ip);
      LexLessIsValueLess(hosts[i].ip, hosts[j].ip);
    }
  }

  lemma DistinctHosts(list: seq<(Addr, MAC)>, unsorted: seq<Host>)
    requires Distinct(list)
    requires |unsorted| == |list| && forall i :: 0 <= i < |list| ==> unsorted[i] == Host(list[i].0, list[i].1, "")
    ensures Distinct(unsorted)
  {
  }

  // ---------------------------------------------------------------------------------------
  // Scan

  datatype ScanError = InterfaceError | AddrsError | NoIPv4 | OpenError | FilterError | ContextDone

  datatype ScanResult = Found(hosts: seq<Host>) | Failed(error: ScanError)

  /** What the scan meets outside itself: whether the capture handle opens and takes the "arp"
      filter, the steps of the probe loop, and the frames that reach the collector before the
      channels close. */
  datatype Link = Link(openOk: bool, filterOk: bool, steps: seq<Step>, rx: seq<EthFrame>)

  /** `Scan` for an interface as looked up (None when the lookup fails). It returns the result,
      the frames written, the promiscuous flag the handle was opened with (None when no handle
      was opened), and why the probe loop stopped. */
  method Scan(cfg: Option<ScanConfig>, iface: Option<Interface>, link: Link)
    returns (r: ScanResult, written: seq<EthFrame>, promisc: Option<bool>, end: SweepEnd)
    ensures iface.None? ==> r == Failed(InterfaceError) && written == [] && promisc.None?
    ensures iface.Some? && iface.value.addrs.None? ==> r == Failed(AddrsError) && written == [] && promisc.None?
    ensures iface.Some? && iface.value.addrs.Some? && FirstIPv4(iface.value.addrs.value).None? ==>
      r == Failed(NoIPv4) && written == [] && promisc.None?
    ensures iface.Some? && iface.value.addrs.Some? && FirstIPv4(iface.value.addrs.value).Some? ==>
      promisc == ApplyDefaults(cfg).promisc &&
      (!link.openOk ==> r == Failed(OpenError) && written == []) &&
      (link.openOk && !link.filterOk ==> r == Failed(FilterError) && written == [])
    ensures r.Found? || r == Failed(ContextDone) ==>
      iface.Some? && iface.value.addrs.Some? && FirstIPv4(iface.value.addrs.value).Some? &&
      link.openOk && link.filterOk
    ensures r == Failed(ContextDone) <==>
      iface.Some? && iface.value.addrs.Some? && FirstIPv4(iface.value.addrs.value).Some? &&
      link.openOk && link.filterOk && end == Cancelled
    ensures r.Found? ==>
      var (local, mask) := FirstIPv4(iface.value.addrs.value).value;
      var d := Collect(link.rx, local, mask);
      |r.hosts| == |d| &&
      (forall i :: 0 <= i < |r.hosts| ==> r.hosts[i].ip in d && r.hosts[i].mac == d[r.hosts[i].ip]) &&
      (forall ip :: ip in d ==> exists i :: 0 <= i < |r.hosts| && r.hosts[i].ip == ip) &&
      (forall i, j :: 0 <= i < j < |r.hosts| ==> LexLess(r.hosts[i].ip, r.hosts[j].ip))
    ensures written != [] ==>
      iface.Some? && iface.value.addrs.Some? && FirstIPv4(iface.value.addrs.value).Some? &&
      var (local, mask) := FirstIPv4(iface.value.addrs.value).value;
      (forall i :: 0 <= i < |written| ==> ProbeRequest(written[i], iface.value.mac, local, mask)) &&
      (mask != ZeroMask ==>
        forall i, j :: 0 <= i < j < |written| ==> Value(Target(written[i])) < Value(Target(written[j])))
  {
    var config := ApplyDefaults(cfg);
    written := [];
    promisc := None;
    end := Cancelled;
    if iface.None? {
      return Failed(InterfaceError), written, promisc, end;
    }
    var i := iface.value;
    if i.addrs.None? {
      return Failed(AddrsError), written, promisc, end;
    }
    var found, k := FindIPv4(i.addrs.value);
    if found.None? {
      return Failed(NoIPv4), written, promisc, end;
    }
    var (local, mask) := found.value;
    promisc := config.promisc;
    if !link.openOk {
      return Failed(OpenError), written, promisc, end;
    }
    if !link.filterOk {
      return Failed(FilterError), written, promisc, end;
    }
    r, written, end := ProbeAndCollect(local, mask, i.mac, config.maxHosts, link);
  }

  /** The part of `Scan` after the handle is ready: the probe loop, then, unless the context
      was cancelled, the discovered hosts in ascending address order. */
  method ProbeAndCollect(local: Addr, mask: Addr, mac: MAC, maxHosts: int, link: Link)
    returns (r: ScanResult, written: seq<EthFrame>, end: SweepEnd)
    ensures r.Found? || r == Failed(ContextDone)
    ensures r == Failed(ContextDone) <==> end == Cancelled
    ensures r.Found? ==>
      var d := Collect(link.rx, local, mask);
      |r.hosts| == |d| &&
      (forall i :: 0 <= i < |r.hosts| ==> r.hosts[i].ip in d && r.hosts[i].mac == d[r.hosts[i].ip]) &&
      (forall ip :: ip in d ==> exists i :: 0 <= i < |r.hosts| && r.hosts[i].ip == ip) &&
      (forall i, j :: 0 <= i < j < |r.hosts| ==> LexLess(r.hosts[i].ip, r.hosts[j].ip))
    ensures forall i :: 0 <= i < |written| ==> ProbeRequest(written[i], mac, local, mask)
    ensures mask != ZeroMask ==>
      (forall i, j :: 0 <= i < j < |written| ==> Value(Target(written[i])) < Value(Target(written[j]))) &&
      (|written| <= Value(BroadcastOf(local, mask)) - Value(Network(local, mask)) - 1 || written == [])
  {
    written, end := Probe(local, mask, mac, maxHosts, link.steps);
    if end == Cancelled {
      return Failed(ContextDone), written, end;
    }
    var hosts := SortHosts(Collect(link.rx, local, mask));
    return Found(hosts), written, end;
  }

  /** The probe loop with the frames it writes: one request per probed target. */
  method Probe(local: Addr, mask: Addr, mac: MAC, maxHosts: int, steps: seq<Step>)
    returns (written: seq<EthFrame>, end: SweepEnd)
    ensures forall i :: 0 <= i < |written| ==> ProbeRequest(written[i], mac, local, mask)
    ensures mask != ZeroMask ==>
      (forall i, j :: 0 <= i < j < |written| ==> Value(Target(written[i])) < Value(Target(written[j]))) &&
      (|written| <= Value(BroadcastOf(local, mask)) - Value(Network(local, mask)) - 1 || written == [])
  {
    var visited, probes, scanned, stop;
    end, visited, probes, scanned, stop := Sweep(local, mask, maxHosts, steps);
    written := seq(|probes|, j requires 0 <= j < |probes| => ArpRequest(mac, local, probes[j].0));
    WrittenRequests(local, mask, mac, visited, steps, probes, written);
  }

  /** What the requests written for the probed targets of a sweep are. */
  lemma WrittenRequests(local: Addr, mask: Addr, mac: MAC, visited: seq<Addr>, steps: seq<Step>,
                        probes: seq<(Addr, bool)>, written: seq<EthFrame>)
    requires SweepTrace(local, mask, Value(Network(local, mask)), visited, steps)
    requires probes == Probed(visited, steps, BroadcastOf(local, mask), local)
    requires |written| == |probes| && forall j :: 0 <= j < |written| ==> written[j] == ArpRequest(mac, local, probes[j].0)
    ensures forall i :: 0 <= i < |written| ==> ProbeRequest(written[i], mac, local, mask)
    ensures mask != ZeroMask ==>
      (forall i, j :: 0 <= i < j < |written| ==> Value(Target(written[i])) < Value(Target(written[j]))) &&
      (|written| <= Value(BroadcastOf(local, mask)) - Value(Network(local, mask)) - 1 || written == [])
  {
    ProbedInSubnet(local, mask, Value(Network(local, mask)), visited, steps, BroadcastOf(local, mask));
    RequestTargets(mac, local, mask, probes, written);
    if mask != ZeroMask {
      ProbedAscending(local, mask, visited, steps, BroadcastOf(local, mask));
      ProbeCount(local, mask, visited, steps);
      RequestsAscend(mac, local, probes, written);
    }
  }

  /** A frame the probe loop writes: the request from the local address for a target inside the
      subnet other than its broadcast address and the local address. */
  predicate ProbeRequest(f: EthFrame, mac: MAC, local: Addr, mask: Addr) {
    f == ArpRequest(mac, local, Target(f)) &&
    InSubnet(local, mask, Target(f)) && Target(f) != BroadcastOf(local, mask) && Target(f) != local
  }

  /** The target protocol address of an ARP frame. */
  function Target(f: EthFrame): seq<Octet> {
    if f.arp.Some? then f.arp.value.tpa else []
  }

  /** Requests written for targets in ascending order have ascending targets. */
  lemma RequestsAscend(mac: MAC, local: Addr, probes: seq<(Addr, bool)>, written: seq<EthFrame>)
    requires |written| == |probes|
    requires forall j :: 0 <= j < |written| ==> written[j] == ArpRequest(mac, local, probes[j].0)
    requires forall i, j :: 0 <= i < j < |probes| ==> Value(probes[i].0) < Value(probes[j].0)
    ensures forall i, j :: 0 <= i < j < |written| ==> Value(Target(written[i])) < Value(Target(written[j]))
  {
    assert forall j :: 0 <= j < |written| ==> Target(written[j]) == probes[j].0;
  }

  /** Each frame written is a request from the local address for one of the probed targets. */
  lemma RequestTargets(mac: MAC, local: Addr, mask: Addr, probes: seq<(Addr, bool)>, written: seq<EthFrame>)
    requires |written| == |probes|
    requires forall j :: 0 <= j < |written| ==> written[j] == ArpRequest(mac, local, probes[j].0)
    requires forall j :: 0 <= j < |probes| ==>
      InSubnet(local, mask, probes[j].0) && probes[j].0 != BroadcastOf(local, mask) && probes[j].0 != local
    ensures forall i :: 0 <= i < |written| ==> ProbeRequest(written[i], mac, local, mask)
  {
  }
}
