/** The anomaly detector: three rules applied to every packet summary, in order (broadcast storm,
    plaintext protocol, single-source packet rate), and a bounded history of the alerts they raise. */
module Anomalies {
  import opened GoStrings
  import opened Strconv
  import opened Models
  import opened History
  import opened Wrappers

  /** Thresholds, windows and the history size, as the detector hard-codes them. */
  const BroadcastThreshold: int := 50
  const DoSThreshold: int := 500
  const MaxAlerts: nat := 20
  const RateWindow: Duration := Second
  const UnsecureCooldown: Duration := 10 * Second

  /** The destination MAC text of a broadcast frame. */
  const BroadcastDst: GoString := "ff:ff:ff:ff:ff:ff"

  datatype AnomalyType = BroadcastStorm | Unsecure | PossibleDoS

  function TypeName(t: AnomalyType): GoString {
    match t
    case BroadcastStorm => "BROADCAST_STORM"
    case Unsecure => "UNSECURE_PROTOCOL"
    case PossibleDoS => "POSSIBLE_DOS"
  }

  datatype Alert = Alert(kind: AnomalyType, source: GoString, message: GoString, timestamp: Time)

  /** The plaintext protocols by destination port. */
  function UnsecurePort(port: int): Option<GoString> {
    if port == 80 then Some("HTTP")
    else if port == 21 then Some("FTP")
    else if port == 23 then Some("Telnet")
    else None
  }

  /** The throttle key of a (source, port) pair: `"<ip>:<port>"`. */
  function Key(ip: GoString, port: int): GoString {
    ip + ":" + Itoa(port)
  }

  /** Different pairs get different keys, whatever the source text holds: the rendering of the port
      has no ':', so the last ':' of a key separates the two parts. */
  lemma KeyInjective(a: GoString, p: int, b: GoString, q: int)
    requires Key(a, p) == Key(b, q)
    ensures a == b && p == q
  {
    ItoaNoColon(p);
    ItoaNoColon(q);
    LastColonAfter(a, Itoa(p));
    LastColonAfter(b, Itoa(q));
    var s := Key(a, p);
    assert a == s[..|a|] == b;
    assert Itoa(p) == s[|a| + 1..] == Itoa(q);
    ItoaInjective(p, q);
  }

  /** The position of the last ':' in `s`, or -1. */
  function LastColon(s: GoString): int {
    if s == [] then -1 else if s[|s| - 1] == ':' then |s| - 1 else LastColon(s[..|s| - 1])
  }

  lemma {:induction false} LastColonAfter(a: GoString, t: GoString)
    requires forall i :: 0 <= i < |t| ==> t[i] != ':'
    ensures LastColon(a + ":" + t) == |a|
    decreases |t|
  {
    var s := a + ":" + t;
    if t == [] {
      assert s[|s| - 1] == ':';
    } else {
      var t' := t[..|t| - 1];
      assert s[..|s| - 1] == a + ":" + t';
      LastColonAfter(a, t');
    }
  }

  lemma ItoaNoColon(n: int)
    ensures forall i :: 0 <= i < |Itoa(n)| ==> Itoa(n)[i] != ':'
  {
    var d := Digits(if n < 0 then -n else n);
    assert AllDigits(d);
  }

  function StormMessage(count: int): GoString {
    "Broadcast storm detected: " + Itoa(count) + " broadcasts in 1 second"
  }

  function UnsecureMessage(name: GoString, port: int, ip: GoString): GoString {
    "Plaintext " + name + " traffic on port " + Itoa(port) + " from " + ip
  }

  function DoSMessage(ip: GoString, count: int): GoString {
    "High packet rate from " + ip + ": " + Itoa(count) + " pps"
  }

  /** A rate counter: how many events since `start`. */
  datatype Window = Window(count: int, start: Time)

  /** A window older than one second starts over at `now`. */
  function Refresh(w: Window, now: Time): Window {
    if now - w.start > RateWindow then Window(0, now) else w
  }

  /** The count after this event, before the threshold test. */
  function Bumped(w: Window, now: Time): int {
    Refresh(w, now).count + 1
  }

  /** One event: count it, and when the count exceeds the threshold raise an alert and start over at `now`. */
  function Advance(w: Window, now: Time, threshold: int): Window {
    if Bumped(w, now) > threshold then Window(0, now) else Refresh(w, now).(count := Bumped(w, now))
  }

  /** The variable part of the detector. */
  datatype DetectorState = DetectorState(
    broadcastCount: int,
    broadcastWindow: Time,
    unsecureAlerts: map<GoString, Time>,
    ipPacketCount: map<GoString, int>,
    ipWindow: map<GoString, Time>,
    alerts: seq<Alert>
  )

  const InitialState: DetectorState := DetectorState(0, GoZeroTime, map[], map[], map[], [])

  /** Go's read of a map with a missing key: the zero value. */
  function CountOf(m: map<GoString, int>, k: GoString): int {
    if k in m then m[k] else 0
  }

  function BroadcastWindowOf(s: DetectorState): Window {
    Window(s.broadcastCount, s.broadcastWindow)
  }

  predicate IsBroadcast(pkt: PacketData) {
    pkt.ethDst == BroadcastDst
  }

  predicate StormFires(s: DetectorState, pkt: PacketData, now: Time) {
    IsBroadcast(pkt) && Bumped(BroadcastWindowOf(s), now) > BroadcastThreshold
  }

  function StormAlert(s: DetectorState, now: Time): Alert {
    Alert(BroadcastStorm, "Network", StormMessage(Bumped(BroadcastWindowOf(s), now)), now)
  }

  /** `detectBroadcastStorm`. */
  function BroadcastRule(s: DetectorState, pkt: PacketData, now: Time): DetectorState {
    if !IsBroadcast(pkt) then s
    else
      var w := Advance(BroadcastWindowOf(s), now, BroadcastThreshold);
      var alerts := if StormFires(s, pkt, now) then Push(s.alerts, StormAlert(s, now), MaxAlerts) else s.alerts;
      s.(broadcastCount := w.count, broadcastWindow := w.start, alerts := alerts)
  }

  predicate UnsecureFires(s: DetectorState, pkt: PacketData, now: Time) {
    UnsecurePort(pkt.dstPort).Some? &&
    var k := Key(pkt.srcIP, pkt.dstPort);
    (k !in s.unsecureAlerts || now - s.unsecureAlerts[k] > UnsecureCooldown)
  }

  function UnsecureAlert(pkt: PacketData, now: Time): Alert
    requires UnsecurePort(pkt.dstPort).Some?
  {
    Alert(Unsecure, pkt.srcIP, UnsecureMessage(UnsecurePort(pkt.dstPort).value, pkt.dstPort, pkt.srcIP), now)
  }

  /** `detectUnsecureProtocol`. */
  function UnsecureRule(s: DetectorState, pkt: PacketData, now: Time): DetectorState {
    if !UnsecureFires(s, pkt, now) then s
    else
      s.(alerts := Push(s.alerts, UnsecureAlert(pkt, now), MaxAlerts),
         unsecureAlerts := s.unsecureAlerts[Key(pkt.srcIP, pkt.dstPort) := now])
  }

  /** The rate window of one source; a source seen for the first time starts at `now`. */
  function IPWindowOf(s: DetectorState, ip: GoString, now: Time): Window {
    if ip in s.ipWindow then Window(CountOf(s.ipPacketCount, ip), s.ipWindow[ip]) else Window(0, now)
  }

  predicate DoSFires(s: DetectorState, pkt: PacketData, now: Time) {
    pkt.srcIP != [] && Bumped(IPWindowOf(s, pkt.srcIP, now), now) > DoSThreshold
  }

  function DoSAlert(s: DetectorState, pkt: PacketData, now: Time): Alert {
    Alert(PossibleDoS, pkt.srcIP, DoSMessage(pkt.srcIP, Bumped(IPWindowOf(s, pkt.srcIP, now), now)), now)
  }

  /** `detectDoS`. */
  function DoSRule(s: DetectorState, pkt: PacketData, now: Time): DetectorState {
    if pkt.srcIP == [] then s
    else
      var ip := pkt.srcIP;
      var w := Advance(IPWindowOf(s, ip, now), now, DoSThreshold);
      var alerts := if DoSFires(s, pkt, now) then Push(s.alerts, DoSAlert(s, pkt, now), MaxAlerts) else s.alerts;
      s.(ipPacketCount := s.ipPacketCount[ip := w.count], ipWindow := s.ipWindow[ip := w.start], alerts := alerts)
  }

  /** `detectBroadcastStorm` on a broadcast frame that pushes the count past the threshold:
      one storm alert reporting the bumped count, and the window restarts at `now`. */
  lemma StormRuleFires(s: DetectorState, pkt: PacketData, now: Time, b: int, t: DetectorState)
    requires IsBroadcast(pkt) && b == Bumped(BroadcastWindowOf(s), now) && b > BroadcastThreshold
    requires t.broadcastCount == 0 && t.broadcastWindow == now
    requires t.alerts == Push(s.alerts, Alert(BroadcastStorm, "Network", StormMessage(b), now), MaxAlerts)
    requires t.unsecureAlerts == s.unsecureAlerts && t.ipPacketCount == s.ipPacketCount && t.ipWindow == s.ipWindow
    ensures t == BroadcastRule(s, pkt, now)
  {
  }

  /** `detectBroadcastStorm` on a broadcast frame that stays within the threshold: the window is
      refreshed and counts the frame, and no alert is raised. */
  lemma StormRuleQuiet(s: DetectorState, pkt: PacketData, now: Time, t: DetectorState)
    requires IsBroadcast(pkt) && Bumped(BroadcastWindowOf(s), now) <= BroadcastThreshold
    requires t.broadcastCount == Bumped(BroadcastWindowOf(s), now)
    requires t.broadcastWindow == Refresh(BroadcastWindowOf(s), now).start
    requires t.alerts == s.alerts && t.unsecureAlerts == s.unsecureAlerts
    requires t.ipPacketCount == s.ipPacketCount && t.ipWindow == s.ipWindow
    ensures t == BroadcastRule(s, pkt, now)
  {
  }

  /** After the first half of `detectDoS`: the source's window is open and restarted if expired. */
  predicate RefreshedIP(s: DetectorState, ip: GoString, now: Time, counts: map<GoString, int>, windows: map<GoString, Time>) {
    var w := Refresh(IPWindowOf(s, ip, now), now);
    windows == s.ipWindow[ip := w.start] && CountOf(counts, ip) == w.count &&
    (counts == s.ipPacketCount || counts == s.ipPacketCount[ip := w.count])
  }

  /** After the second half of `detectDoS`: the packet is counted; above the threshold the alert is
      pushed and the source's window restarts at `now`. */
  predicate CountedIP(counts: map<GoString, int>, windows: map<GoString, Time>, alerts: seq<Alert>, ip: GoString, now: Time,
                      counts': map<GoString, int>, windows': map<GoString, Time>, alerts': seq<Alert>) {
    var b := CountOf(counts, ip) + 1;
    if b > DoSThreshold then
      alerts' == Push(alerts, Alert(PossibleDoS, ip, DoSMessage(ip, b), now), MaxAlerts) &&
      counts' == counts[ip := 0] && windows' == windows[ip := now]
    else
      alerts' == alerts && counts' == counts[ip := b] && windows' == windows
  }

  /** The two halves of `detectDoS`, one after the other, are the rule. */
  lemma DoSRuleSteps(s: DetectorState, pkt: PacketData, now: Time, m1: map<GoString, int>, w1: map<GoString, Time>, t: DetectorState)
    requires pkt.srcIP != []
    requires RefreshedIP(s, pkt.srcIP, now, m1, w1)
    requires CountedIP(m1, w1, s.alerts, pkt.srcIP, now, t.ipPacketCount, t.ipWindow, t.alerts)
    requires t.broadcastCount == s.broadcastCount && t.broadcastWindow == s.broadcastWindow
    requires t.unsecureAlerts == s.unsecureAlerts
    ensures t == DoSRule(s, pkt, now)
  {
    var ip, b := pkt.srcIP, CountOf(m1, pkt.srcIP) + 1;
    RefreshedMaps(s, ip, now, m1, w1, if b > DoSThreshold then 0 else b, now);
    if b > DoSThreshold {
      DoSRuleFires(s, pkt, now, b, t);
    } else {
      DoSRuleQuiet(s, pkt, now, b, t);
    }
  }

  /** What the first half of `detectDoS` leaves, seen from the second half, which then writes `c`
      and `t` for the source. */
  lemma RefreshedMaps(s: DetectorState, ip: GoString, now: Time, m1: map<GoString, int>, w1: map<GoString, Time>, c: int, t: Time)
    requires RefreshedIP(s, ip, now, m1, w1)
    ensures CountOf(m1, ip) + 1 == Bumped(IPWindowOf(s, ip, now), now)
    ensures m1[ip := c] == s.ipPacketCount[ip := c] && w1[ip := t] == s.ipWindow[ip := t]
    ensures w1 == s.ipWindow[ip := Refresh(IPWindowOf(s, ip, now), now).start]
  {
    var w := Refresh(IPWindowOf(s, ip, now), now);
    if m1 != s.ipPacketCount {
      assert m1[ip := c] == s.ipPacketCount[ip := w.count][ip := c];
    }
    assert w1[ip := t] == s.ipWindow[ip := w.start][ip := t];
  }

  /** The rate rule when it does not fire: the count goes up. */
  lemma DoSRuleQuiet(s: DetectorState, pkt: PacketData, now: Time, b: int, t: DetectorState)
    requires pkt.srcIP != [] && b == Bumped(IPWindowOf(s, pkt.srcIP, now), now) && b <= DoSThreshold
    requires t.alerts == s.alerts
    requires t.ipPacketCount == s.ipPacketCount[pkt.srcIP := b]
    requires t.ipWindow == s.ipWindow[pkt.srcIP := Refresh(IPWindowOf(s, pkt.srcIP, now), now).start]
    requires t.broadcastCount == s.broadcastCount && t.broadcastWindow == s.broadcastWindow
    requires t.unsecureAlerts == s.unsecureAlerts
    ensures t == DoSRule(s, pkt, now)
  {
  }

  /** The rate rule when it fires, with the count it reports. */
  lemma DoSRuleFires(s: DetectorState, pkt: PacketData, now: Time, b: int, t: DetectorState)
    requires pkt.srcIP != [] && b == Bumped(IPWindowOf(s, pkt.srcIP, now), now) && b > DoSThreshold
    requires t.alerts == Push(s.alerts, Alert(PossibleDoS, pkt.srcIP, DoSMessage(pkt.srcIP, b), now), MaxAlerts)
    requires t.ipPacketCount == s.ipPacketCount[pkt.srcIP := 0] && t.ipWindow == s.ipWindow[pkt.srcIP := now]
    requires t.broadcastCount == s.broadcastCount && t.broadcastWindow == s.broadcastWindow
    requires t.unsecureAlerts == s.unsecureAlerts
    ensures t == DoSRule(s, pkt, now)
  {
  }

  /** `ProcessPacket`: the three rules in order, all with the same clock reading. */
  function ProcessRule(s: DetectorState, pkt: PacketData, now: Time): DetectorState {
    DoSRule(UnsecureRule(BroadcastRule(s, pkt, now), pkt, now), pkt, now)
  }

  /** The alerts one packet raises, in the order the rules run. */
  function Raised(s: DetectorState, pkt: PacketData, now: Time): seq<Alert> {
    (if StormFires(s, pkt, now) then [StormAlert(s, now)] else []) +
    (if UnsecureFires(s, pkt, now) then [UnsecureAlert(pkt, now)] else []) +
    (if DoSFires(s, pkt, now) then [DoSAlert(s, pkt, now)] else [])
  }

  class AnomalyDetector {
    var broadcastCount: int
    var broadcastWindow: Time
    var unsecureAlerts: map<GoString, Time>
    var ipPacketCount: map<GoString, int>
    var ipWindow: map<GoString, Time>
    var alerts: seq<Alert>

    function State(): DetectorState
      reads this
    {
      DetectorState(broadcastCount, broadcastWindow, unsecureAlerts, ipPacketCount, ipWindow, alerts)
    }

    /** `NewAnomalyDetector`. */
    constructor ()
      ensures State() == InitialState
    {
      broadcastCount, broadcastWindow := 0, GoZeroTime;
      unsecureAlerts, ipPacketCount, ipWindow := map[], map[], map[];
      alerts := [];
    }

    /** `ProcessPacket`, with the clock reading `now`. */
    method ProcessPacket(pkt: PacketData, now: Time)
      modifies this
      ensures State() == ProcessRule(old(State()), pkt, now)
    {
      DetectBroadcastStorm(pkt, now);
      DetectUnsecureProtocol(pkt, now);
      DetectDoS(pkt, now);
    }

    method DetectBroadcastStorm(pkt: PacketData, now: Time)
      modifies this
      ensures State() == BroadcastRule(old(State()), pkt, now)
    {
      if pkt.ethDst == BroadcastDst {
        ghost var s := State();
        if now - broadcastWindow > Second {
          broadcastCount := 0;
          broadcastWindow := now;
        }
        broadcastCount := broadcastCount + 1;
        if broadcastCount > BroadcastThreshold {
          ghost var b := broadcastCount;
          AddAlert(Alert(BroadcastStorm, "Network", StormMessage(broadcastCount), now));
          broadcastCount := 0;
          broadcastWindow := now;
          StormRuleFires(s, pkt, now, b, State());
        } else {
          StormRuleQuiet(s, pkt, now, State());
        }
      }
    }

    method DetectUnsecureProtocol(pkt: PacketData, now: Time)
      modifies this
      ensures State() == UnsecureRule(old(State()), pkt, now)
    {
      var name := UnsecurePort(pkt.dstPort);
      if name.Some? {
        var key := Key(pkt.srcIP, pkt.dstPort);
        if key !in unsecureAlerts || now - unsecureAlerts[key] > 10 * Second {
          AddAlert(Alert(Unsecure, pkt.srcIP, UnsecureMessage(name.value, pkt.dstPort, pkt.srcIP), now));
          unsecureAlerts := unsecureAlerts[key := now];
        }
      }
    }

    method DetectDoS(pkt: PacketData, now: Time)
      modifies this
      ensures State() == DoSRule(old(State()), pkt, now)
    {
      var ip := pkt.srcIP;
      if ip == [] {
        return;
      }
      ghost var s := State();
      RefreshIPWindow(ip, now);
      ghost var m1, w1 := ipPacketCount, ipWindow;
      CountIP(ip, now);
      DoSRuleSteps(s, pkt, now, m1, w1, State());
    }

    /** The second half of `detectDoS`: count the packet; above the threshold raise the alert and
        restart the window. */
    method CountIP(ip: GoString, now: Time)
      requires ip in ipWindow
      modifies this
      ensures CountedIP(old(ipPacketCount), old(ipWindow), old(alerts), ip, now, ipPacketCount, ipWindow, alerts)
      ensures broadcastCount == old(broadcastCount) && broadcastWindow == old(broadcastWindow)
      ensures unsecureAlerts == old(unsecureAlerts)
    {
      ipPacketCount := ipPacketCount[ip := CountOf(ipPacketCount, ip) + 1];
      if ipPacketCount[ip] > DoSThreshold {
        AddAlert(Alert(PossibleDoS, ip, DoSMessage(ip, ipPacketCount[ip]), now));
        ipPacketCount := ipPacketCount[ip := 0];
        ipWindow := ipWindow[ip := now];
      }
    }

    /** The first half of `detectDoS`: open a window for a new source, restart an expired one. */
    method RefreshIPWindow(ip: GoString, now: Time)
      modifies this
      ensures RefreshedIP(old(State()), ip, now, ipPacketCount, ipWindow)
      ensures broadcastCount == old(broadcastCount) && broadcastWindow == old(broadcastWindow)
      ensures unsecureAlerts == old(unsecureAlerts) && alerts == old(alerts)
    {
      if ip !in ipWindow {
        ipWindow := ipWindow[ip := now];
        ipPacketCount := ipPacketCount[ip := 0];
      }
      if now - ipWindow[ip] > Second {
        ipPacketCount := ipPacketCount[ip := 0];
        ipWindow := ipWindow[ip := now];
      }
    }

    /** `addAlert`: append, then keep only the last `MaxAlerts`. */
    method AddAlert(alert: Alert)
      modifies this
      ensures alerts == Push(old(alerts), alert, MaxAlerts)
      ensures State().(alerts := old(alerts)) == old(State())
    {
      alerts := alerts + [alert];
      if |alerts| > MaxAlerts {
        alerts := alerts[|alerts| - MaxAlerts..];
      }
    }

    /** `GetRecentAlerts`: the newest `limit` alerts, oldest first. A negative limit on a non-empty
        history would slice out of range. */
    method GetRecentAlerts(limit: int) returns (r: seq<Alert>)
      requires limit >= 0 || alerts == []
      ensures |r| == (if |alerts| <= limit || alerts == [] then |alerts| else limit)
      ensures r == alerts[|alerts| - |r|..]
    {
      if |alerts| == 0 {
        return [];
      }
      var start := 0;
      if |alerts| > limit {
        start := |alerts| - limit;
      }
      r := alerts[start..];
    }
  }

  /** The bounds the detector keeps: a broadcast count of at most 50, per-source counts of at most
      500, and at most 20 stored alerts. */
  predicate Inv(s: DetectorState) {
    0 <= s.broadcastCount <= BroadcastThreshold &&
    (forall ip :: ip in s.ipPacketCount ==> 0 <= s.ipPacketCount[ip] <= DoSThreshold) &&
    |s.alerts| <= MaxAlerts
  }

  lemma BroadcastKeepsInv(s: DetectorState, pkt: PacketData, now: Time)
    requires Inv(s)
    ensures Inv(BroadcastRule(s, pkt, now))
  {
    PushBound(s.alerts, StormAlert(s, now), MaxAlerts);
  }

  lemma UnsecureKeepsInv(s: DetectorState, pkt: PacketData, now: Time)
    requires Inv(s)
    ensures Inv(UnsecureRule(s, pkt, now))
  {
    if UnsecureFires(s, pkt, now) {
      PushBound(s.alerts, UnsecureAlert(pkt, now), MaxAlerts);
    }
  }

  lemma DoSKeepsInv(s: DetectorState, pkt: PacketData, now: Time)
    requires Inv(s)
    ensures Inv(DoSRule(s, pkt, now))
  {
    if pkt.srcIP != [] {
      var ip := pkt.srcIP;
      var w := Advance(IPWindowOf(s, ip, now), now, DoSThreshold);
      assert 0 <= w.count <= DoSThreshold;
      UpdateKeepsCounts(s.ipPacketCount, ip, w.count, s.ipPacketCount[ip := w.count]);
      PushBound(s.alerts, DoSAlert(s, pkt, now), MaxAlerts);
    }
  }

  lemma UpdateKeepsCounts(m: map<GoString, int>, ip: GoString, c: int, m': map<GoString, int>)
    requires forall k :: k in m ==> 0 <= m[k] <= DoSThreshold
    requires 0 <= c <= DoSThreshold && m' == m[ip := c]
    ensures forall k :: k in m' ==> 0 <= m'[k] <= DoSThreshold
  {
  }

  /** Every packet keeps the bounds. */
  lemma ProcessKeepsInv(s: DetectorState, pkt: PacketData, now: Time)
    requires Inv(s)
    ensures Inv(ProcessRule(s, pkt, now))
  {
    var s1 := BroadcastRule(s, pkt, now);
    BroadcastKeepsInv(s, pkt, now);
    UnsecureKeepsInv(s1, pkt, now);
    DoSKeepsInv(UnsecureRule(s1, pkt, now), pkt, now);
  }

  /** Within the bounds, a storm alert always reports 51 broadcasts and a rate alert 501 packets. */
  lemma AlertsReportThreshold(s: DetectorState, pkt: PacketData, now: Time)
    requires Inv(s)
    ensures StormFires(s, pkt, now) ==> StormAlert(s, now).message == StormMessage(BroadcastThreshold + 1)
    ensures DoSFires(s, pkt, now) ==> DoSAlert(s, pkt, now).message == DoSMessage(pkt.srcIP, DoSThreshold + 1)
  {
    if StormFires(s, pkt, now) {
      assert Bumped(BroadcastWindowOf(s), now) == BroadcastThreshold + 1;
    }
    if DoSFires(s, pkt, now) {
      assert Bumped(IPWindowOf(s, pkt.srcIP, now), now) == DoSThreshold + 1;
    }
  }

  /** Only broadcast frames touch the storm counter and its window; the other two rules never do. */
  lemma OnlyBroadcastsCount(s: DetectorState, pkt: PacketData, now: Time)
    ensures !IsBroadcast(pkt) ==> BroadcastRule(s, pkt, now) == s
    ensures var r := ProcessRule(s, pkt, now);
      r.broadcastCount == BroadcastRule(s, pkt, now).broadcastCount &&
      r.broadcastWindow == BroadcastRule(s, pkt, now).broadcastWindow
  {
  }

  /** The storm alert fires exactly when the count for this frame passes 50, the count starting
      over when more than one second has passed since the window opened. */
  lemma StormFiresIff(s: DetectorState, pkt: PacketData, now: Time)
    ensures StormFires(s, pkt, now) <==>
      IsBroadcast(pkt) && (if now - s.broadcastWindow > Second then 0 else s.broadcastCount) + 1 > BroadcastThreshold
  {
  }

  /** The window moves only to `now`, and only when it has expired or the storm alert fired; after
      an alert the count is 0, and without one no alert is stored and the count goes up by one
      (from 0 when the window expired). */
  lemma StormWindowMoves(s: DetectorState, pkt: PacketData, now: Time)
    requires IsBroadcast(pkt)
    ensures var r := BroadcastRule(s, pkt, now);
      (r.broadcastWindow == s.broadcastWindow || r.broadcastWindow == now) &&
      (r.broadcastWindow != s.broadcastWindow ==> now - s.broadcastWindow > Second || StormFires(s, pkt, now))
    ensures StormFires(s, pkt, now) ==>
      BroadcastRule(s, pkt, now).broadcastCount == 0 && BroadcastRule(s, pkt, now).broadcastWindow == now
    ensures !StormFires(s, pkt, now) ==>
      BroadcastRule(s, pkt, now).alerts == s.alerts &&
      BroadcastRule(s, pkt, now).broadcastCount ==
        (if now - s.broadcastWindow > Second then 0 else s.broadcastCount) + 1
  {
  }

  /** A sequence of broadcast frames arriving at times `ts`. */
  function BroadcastRun(s: DetectorState, pkt: PacketData, ts: seq<Time>): DetectorState
    decreases |ts|
  {
    if ts == [] then s else BroadcastRule(BroadcastRun(s, pkt, ts[..|ts| - 1]), pkt, ts[|ts| - 1])
  }

  /** The first 50 broadcasts of a fresh window only count. */
  lemma {:induction false} StormRunCounts(s: DetectorState, pkt: PacketData, ts: seq<Time>, k: nat)
    requires IsBroadcast(pkt) && 1 <= k <= BroadcastThreshold && k <= |ts|
    requires ts[0] - s.broadcastWindow > Second
    requires forall i :: 0 <= i < |ts| ==> ts[i] - ts[0] <= Second
    ensures BroadcastRun(s, pkt, ts[..k]) == s.(broadcastCount := k, broadcastWindow := ts[0])
  {
    var p := ts[..k];
    assert p[..k - 1] == ts[..k - 1];
    if k > 1 {
      StormRunCounts(s, pkt, ts, k - 1);
    }
  }

  /** 51 broadcasts within one second of a fresh window raise exactly one storm alert, reporting 51,
      and leave the counter at 0 with the window at the last arrival. */
  lemma StormAfter51(s: DetectorState, pkt: PacketData, ts: seq<Time>)
    requires IsBroadcast(pkt) && |ts| == BroadcastThreshold + 1
    requires ts[0] - s.broadcastWindow > Second
    requires forall i :: 0 <= i < |ts| ==> ts[i] - ts[0] <= Second
    ensures BroadcastRun(s, pkt, ts) ==
      s.(broadcastCount := 0, broadcastWindow := ts[50],
         alerts := Push(s.alerts, Alert(BroadcastStorm, "Network", StormMessage(51), ts[50]), MaxAlerts))
  {
    StormRunCounts(s, pkt, ts, 50);
    assert ts[..|ts| - 1] == ts[..50];
  }

  /** Plaintext alerts fire only for ports 80, 21 and 23, at most once per (source, port) pair in any
      ten seconds; when no alert fires nothing changes, and when one fires only that pair's time moves. */
  lemma UnsecureThrottle(s: DetectorState, pkt: PacketData, now: Time)
    ensures UnsecureFires(s, pkt, now) ==> pkt.dstPort in {80, 21, 23}
    ensures !UnsecureFires(s, pkt, now) ==> UnsecureRule(s, pkt, now) == s
    ensures UnsecureFires(s, pkt, now) ==>
      UnsecureRule(s, pkt, now).unsecureAlerts == s.unsecureAlerts[Key(pkt.srcIP, pkt.dstPort) := now]
    ensures forall q: PacketData, later: Time ::
      UnsecureFires(s, pkt, now) && q.srcIP == pkt.srcIP && q.dstPort == pkt.dstPort && now <= later <= now + 10 * Second ==>
      !UnsecureFires(UnsecureRule(s, pkt, now), q, later)
  {
  }

  /** Two plaintext packets of one pair five seconds apart, on a pair never alerted before, raise one
      alert between them. */
  lemma UnsecureOncePerPair(s: DetectorState, pkt: PacketData, t: Time)
    requires pkt.dstPort == 80 && Key(pkt.srcIP, pkt.dstPort) !in s.unsecureAlerts
    ensures UnsecureFires(s, pkt, t)
    ensures !UnsecureFires(UnsecureRule(s, pkt, t), pkt, t + 5 * Second)
    ensures UnsecureRule(UnsecureRule(s, pkt, t), pkt, t + 5 * Second) == UnsecureRule(s, pkt, t)
  {
    UnsecureThrottle(s, pkt, t);
  }

  /** The rate rule ignores packets without a source and never touches another source's entries. */
  lemma DoSPerSource(s: DetectorState, pkt: PacketData, now: Time)
    ensures pkt.srcIP == [] ==> DoSRule(s, pkt, now) == s
    ensures forall ip :: ip != pkt.srcIP ==>
      CountOf(DoSRule(s, pkt, now).ipPacketCount, ip) == CountOf(s.ipPacketCount, ip) &&
      (ip in DoSRule(s, pkt, now).ipWindow <==> ip in s.ipWindow) &&
      (ip in s.ipWindow ==> DoSRule(s, pkt, now).ipWindow[ip] == s.ipWindow[ip])
  {
  }

  /** Packets from one source arriving at times `ts`. */
  function DoSRun(s: DetectorState, pkt: PacketData, ts: seq<Time>): DetectorState
    decreases |ts|
  {
    if ts == [] then s else DoSRule(DoSRun(s, pkt, ts[..|ts| - 1]), pkt, ts[|ts| - 1])
  }

  /** A source that is new, or whose window has expired, starts counting from the first packet. */
  predicate FreshSource(s: DetectorState, ip: GoString, t: Time) {
    ip !in s.ipWindow || t - s.ipWindow[ip] > Second
  }

  lemma {:induction false} DoSRunCounts(s: DetectorState, pkt: PacketData, ts: seq<Time>, k: nat)
    requires pkt.srcIP != [] && 1 <= k <= DoSThreshold && k <= |ts|
    requires FreshSource(s, pkt.srcIP, ts[0])
    requires forall i :: 0 <= i < |ts| ==> ts[i] - ts[0] <= Second
    ensures DoSRun(s, pkt, ts[..k]) == Counted(s, pkt.srcIP, k, ts[0])
  {
    DoSRunStep(s, pkt, ts, k);
    if k > 1 {
      DoSRunCounts(s, pkt, ts, k - 1);
      DoSCountStep(s, pkt, k - 1, ts[0], ts[k - 1]);
    } else {
      assert ts[..0] == [];
      DoSFirstStep(s, pkt, ts[0]);
    }
  }

  /** The state after `k` packets from `ip` in the window that opened at `start`. */
  function Counted(s: DetectorState, ip: GoString, k: int, start: Time): DetectorState {
    s.(ipPacketCount := s.ipPacketCount[ip := k], ipWindow := s.ipWindow[ip := start])
  }

  /** A packet inside a live window below the threshold only counts. */
  lemma DoSCountStep(s: DetectorState, pkt: PacketData, k: int, start: Time, now: Time)
    requires pkt.srcIP != [] && now - start <= Second && 0 <= k < DoSThreshold
    ensures DoSRule(Counted(s, pkt.srcIP, k, start), pkt, now) == Counted(s, pkt.srcIP, k + 1, start)
  {
    var ip := pkt.srcIP;
    var c := Counted(s, ip, k, start);
    assert c.ipPacketCount[ip := k + 1] == s.ipPacketCount[ip := k + 1];
    assert c.ipWindow[ip := start] == s.ipWindow[ip := start];
  }

  /** The first packet of a fresh source opens its window with a count of one. */
  lemma DoSFirstStep(s: DetectorState, pkt: PacketData, now: Time)
    requires pkt.srcIP != [] && FreshSource(s, pkt.srcIP, now)
    ensures DoSRule(s, pkt, now) == Counted(s, pkt.srcIP, 1, now)
  {
  }

  /** The run over the first `k` arrivals is the run over the first `k - 1` followed by the `k`-th. */
  lemma DoSRunStep(s: DetectorState, pkt: PacketData, ts: seq<Time>, k: nat)
    requires 1 <= k <= |ts|
    ensures DoSRun(s, pkt, ts[..k]) == DoSRule(DoSRun(s, pkt, ts[..k - 1]), pkt, ts[k - 1])
  {
    assert ts[..k][..k - 1] == ts[..k - 1];
  }

  /** 501 packets from one source within one second of a fresh window raise exactly one rate alert,
      naming that source and reporting 501, and restart that source's window at the last arrival. */
  lemma DoSAfter501(s: DetectorState, pkt: PacketData, ts: seq<Time>)
    requires pkt.srcIP != [] && |ts| == DoSThreshold + 1
    requires FreshSource(s, pkt.srcIP, ts[0])
    requires forall i :: 0 <= i < |ts| ==> ts[i] - ts[0] <= Second
    ensures DoSRun(s, pkt, ts) ==
      s.(ipPacketCount := s.ipPacketCount[pkt.srcIP := 0], ipWindow := s.ipWindow[pkt.srcIP := ts[500]],
         alerts := Push(s.alerts, Alert(PossibleDoS, pkt.srcIP, DoSMessage(pkt.srcIP, 501), ts[500]), MaxAlerts))
  {
    var ip := pkt.srcIP;
    DoSRunCounts(s, pkt, ts, 500);
    assert ts[..|ts| - 1] == ts[..500];
    var s0 := DoSRun(s, pkt, ts[..500]);
    assert DoSRun(s, pkt, ts) == DoSRule(s0, pkt, ts[500]);
    DoSFiresAt501(s0, pkt, ts[500]);
    assert s.ipPacketCount[ip := 500][ip := 0] == s.ipPacketCount[ip := 0];
    assert s.ipWindow[ip := ts[0]][ip := ts[500]] == s.ipWindow[ip := ts[500]];
  }

  /** The 501st packet of a live window raises the rate alert and restarts the window. */
  lemma DoSFiresAt501(s: DetectorState, pkt: PacketData, now: Time)
    requires pkt.srcIP != [] && pkt.srcIP in s.ipWindow && now - s.ipWindow[pkt.srcIP] <= Second
    requires CountOf(s.ipPacketCount, pkt.srcIP) == DoSThreshold
    ensures DoSRule(s, pkt, now) ==
      s.(ipPacketCount := s.ipPacketCount[pkt.srcIP := 0], ipWindow := s.ipWindow[pkt.srcIP := now],
         alerts := Push(s.alerts, Alert(PossibleDoS, pkt.srcIP, DoSMessage(pkt.srcIP, 501), now), MaxAlerts))
  {
    assert Bumped(IPWindowOf(s, pkt.srcIP, now), now) == 501;
  }

  /** Each rule appends at most its own alert; the storm rule leaves the fields the other two read
      alone, and the plaintext rule those the rate rule reads. */
  lemma BroadcastAlerts(s: DetectorState, pkt: PacketData, now: Time)
    requires |s.alerts| <= MaxAlerts
    ensures var r := BroadcastRule(s, pkt, now);
      r.alerts == Trim(s.alerts + (if StormFires(s, pkt, now) then [StormAlert(s, now)] else []), MaxAlerts) &&
      r.unsecureAlerts == s.unsecureAlerts && r.ipPacketCount == s.ipPacketCount && r.ipWindow == s.ipWindow
  {
    assert s.alerts + [] == s.alerts;
  }

  lemma UnsecureAlerts(s: DetectorState, pkt: PacketData, now: Time)
    requires |s.alerts| <= MaxAlerts
    ensures var r := UnsecureRule(s, pkt, now);
      r.alerts == Trim(s.alerts + (if UnsecureFires(s, pkt, now) then [UnsecureAlert(pkt, now)] else []), MaxAlerts) &&
      r.ipPacketCount == s.ipPacketCount && r.ipWindow == s.ipWindow
  {
    assert s.alerts + [] == s.alerts;
  }

  lemma DoSAlerts(s: DetectorState, pkt: PacketData, now: Time)
    requires |s.alerts| <= MaxAlerts
    ensures DoSRule(s, pkt, now).alerts ==
      Trim(s.alerts + (if DoSFires(s, pkt, now) then [DoSAlert(s, pkt, now)] else []), MaxAlerts)
  {
    assert s.alerts + [] == s.alerts;
  }

  /** One packet adds the alerts of `Raised` (storm, then plaintext, then rate, each at most once) to
      the history, which then holds the last 20 of the old history followed by them. */
  lemma ProcessAlerts(s: DetectorState, pkt: PacketData, now: Time)
    requires |s.alerts| <= MaxAlerts
    ensures ProcessRule(s, pkt, now).alerts == Trim(s.alerts + Raised(s, pkt, now), MaxAlerts)
  {
    var s1 := BroadcastRule(s, pkt, now);
    BroadcastAlerts(s, pkt, now);
    var s2 := UnsecureRule(s1, pkt, now);
    UnsecureAlerts(s1, pkt, now);
    DoSAlerts(s2, pkt, now);
    RaisedSplit(s, s1, s2, pkt, now);
    var a := if StormFires(s, pkt, now) then [StormAlert(s, now)] else [];
    var b := if UnsecureFires(s1, pkt, now) then [UnsecureAlert(pkt, now)] else [];
    var c := if DoSFires(s2, pkt, now) then [DoSAlert(s2, pkt, now)] else [];
    ThreeTrims(s.alerts, a, b, c, s1.alerts, s2.alerts, DoSRule(s2, pkt, now).alerts);
  }

  /** The plaintext and rate rules raise the same alerts on states that agree on the fields they read. */
  lemma RaisedSplit(s: DetectorState, s1: DetectorState, s2: DetectorState, pkt: PacketData, now: Time)
    requires s1.unsecureAlerts == s.unsecureAlerts
    requires s2.ipPacketCount == s.ipPacketCount && s2.ipWindow == s.ipWindow
    ensures Raised(s, pkt, now) ==
      (if StormFires(s, pkt, now) then [StormAlert(s, now)] else []) +
      (if UnsecureFires(s1, pkt, now) then [UnsecureAlert(pkt, now)] else []) +
      (if DoSFires(s2, pkt, now) then [DoSAlert(s2, pkt, now)] else [])
  {
    assert IPWindowOf(s2, pkt.srcIP, now) == IPWindowOf(s, pkt.srcIP, now);
  }

  /** The same history, seen as the alerts pushed one by one through `addAlert`. */
  lemma ProcessPushesRaised(s: DetectorState, pkt: PacketData, now: Time)
    requires |s.alerts| <= MaxAlerts
    ensures |Raised(s, pkt, now)| <= 3
    ensures ProcessRule(s, pkt, now).alerts == PushAll(s.alerts, Raised(s, pkt, now), MaxAlerts)
  {
    var r := Raised(s, pkt, now);
    ProcessAlerts(s, pkt, now);
    PushAllKeepsLast(s.alerts, r, MaxAlerts);
  }

  lemma ThreeTrims<T>(h: seq<T>, a: seq<T>, b: seq<T>, c: seq<T>, h1: seq<T>, h2: seq<T>, h3: seq<T>)
    requires h1 == Trim(h + a, MaxAlerts) && h2 == Trim(h1 + b, MaxAlerts) && h3 == Trim(h2 + c, MaxAlerts)
    ensures h3 == Trim(h + (a + b + c), MaxAlerts)
  {
    TrimExtend(h, a, b, MaxAlerts, h1, h2);
    TrimExtend(h, a + b, c, MaxAlerts, h2, h3);
  }

  /** Packets processed one after another. */
  function ProcessRun(s: DetectorState, steps: seq<(PacketData, Time)>): DetectorState
    decreases |steps|
  {
    if steps == [] then s
    else
      var last := steps[|steps| - 1];
      ProcessRule(ProcessRun(s, steps[..|steps| - 1]), last.0, last.1)
  }

  /** Every alert raised along a run, in order. */
  function RaisedRun(s: DetectorState, steps: seq<(PacketData, Time)>): seq<Alert>
    decreases |steps|
  {
    if steps == [] then []
    else
      var last := steps[|steps| - 1];
      RaisedRun(s, steps[..|steps| - 1]) + Raised(ProcessRun(s, steps[..|steps| - 1]), last.0, last.1)
  }

  /** Over any run, the history is the last 20 of everything raised, oldest first. */
  lemma {:induction false} HistoryKeepsLast(s: DetectorState, steps: seq<(PacketData, Time)>)
    requires |s.alerts| <= MaxAlerts
    ensures ProcessRun(s, steps).alerts == Trim(s.alerts + RaisedRun(s, steps), MaxAlerts)
    decreases |steps|
  {
    if steps == [] {
      assert s.alerts + [] == s.alerts;
    } else {
      var init := steps[..|steps| - 1];
      HistoryKeepsLast(s, init);
      var r := ProcessRun(s, init);
      var x := Raised(r, steps[|steps| - 1].0, steps[|steps| - 1].1);
      RunStep(s, steps);
      TrimExtend(s.alerts, RaisedRun(s, init), x, MaxAlerts, r.alerts, ProcessRun(s, steps).alerts);
    }
  }

  /** The last step of a run adds that step's alerts to the history of the rest. */
  lemma RunStep(s: DetectorState, steps: seq<(PacketData, Time)>)
    requires steps != [] && |ProcessRun(s, steps[..|steps| - 1]).alerts| <= MaxAlerts
    ensures var r := ProcessRun(s, steps[..|steps| - 1]);
      var x := Raised(r, steps[|steps| - 1].0, steps[|steps| - 1].1);
      ProcessRun(s, steps).alerts == Trim(r.alerts + x, MaxAlerts) &&
      RaisedRun(s, steps) == RaisedRun(s, steps[..|steps| - 1]) + x
  {
    var r := ProcessRun(s, steps[..|steps| - 1]);
    ProcessAlerts(r, steps[|steps| - 1].0, steps[|steps| - 1].1);
  }
}
