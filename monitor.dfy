/** The tshark front end: the flattened EK record of one captured packet, its conversion into a
    `PacketData`, and the filter that picks packet lines out of tshark's output. */
module Tshark {
  import opened GoStrings
  import opened Strconv
  import opened Wrappers
  import opened Models

  /** The layer fields tshark prints for one packet; each is a list of values, absent when empty. */
  datatype EkLayers = EkLayers(
    frameLen: seq<GoString>,
    ipSrc: seq<GoString>,
    ipDst: seq<GoString>,
    tcpSrcPort: seq<GoString>,
    tcpDstPort: seq<GoString>,
    udpSrcPort: seq<GoString>,
    udpDstPort: seq<GoString>,
    dnsQuery: seq<GoString>,
    tlsSni: seq<GoString>,
    httpHost: seq<GoString>,
    ethDst: seq<GoString>
  )

  /** One EK output record; its timestamp text is not used. */
  datatype EkPacket = EkPacket(timestamp: GoString, layers: EkLayers)

  /** The first value of a field, or "" when the field is absent. */
  function First(values: seq<GoString>): GoString {
    if |values| > 0 then values[0] else []
  }

  /** Go's `v, _ := strconv.Atoi(first)` for a field that is present: the value even on error. */
  function PortOf(values: seq<GoString>): int {
    if |values| > 0 then Atoi(values[0]).value else 0
  }

  /** The frame length: the first value when it parses without error, else 0. */
  function LengthOf(values: seq<GoString>): int {
    if |values| > 0 && Atoi(values[0]).err == NoError then Atoi(values[0]).value else 0
  }

  /** Transport protocol and ports: TCP when a TCP port is present, else UDP when a UDP port is
      present, else OTHER with both ports 0. */
  function Transport(l: EkLayers): (t: (GoString, int, int))
    ensures t.0 in {"TCP", "UDP", "OTHER"}
    ensures t.0 == "TCP" <==> |l.tcpSrcPort| > 0 || |l.tcpDstPort| > 0
    ensures t.0 == "UDP" <==>
      |l.tcpSrcPort| == 0 && |l.tcpDstPort| == 0 && (|l.udpSrcPort| > 0 || |l.udpDstPort| > 0)
    ensures t.0 == "TCP" ==>
      t.1 == (if |l.tcpSrcPort| > 0 then Atoi(l.tcpSrcPort[0]).value else 0) &&
      t.2 == (if |l.tcpDstPort| > 0 then Atoi(l.tcpDstPort[0]).value else 0)
    ensures t.0 == "UDP" ==>
      t.1 == (if |l.udpSrcPort| > 0 then Atoi(l.udpSrcPort[0]).value else 0) &&
      t.2 == (if |l.udpDstPort| > 0 then Atoi(l.udpDstPort[0]).value else 0)
    ensures t.0 == "OTHER" ==> t.1 == 0 && t.2 == 0
  {
    if |l.tcpSrcPort| > 0 || |l.tcpDstPort| > 0 then ("TCP", PortOf(l.tcpSrcPort), PortOf(l.tcpDstPort))
    else if |l.udpSrcPort| > 0 || |l.udpDstPort| > 0 then ("UDP", PortOf(l.udpSrcPort), PortOf(l.udpDstPort))
    else ("OTHER", 0, 0)
  }

  /** The host name: the first non-empty first value among TLS SNI, DNS query and HTTP Host. */
  function HostnameOf(l: EkLayers): GoString {
    if First(l.tlsSni) != [] then First(l.tlsSni)
    else if First(l.dnsQuery) != [] then First(l.dnsQuery)
    else First(l.httpHost)
  }

  /** `convertToModel`, with the clock reading `now` as the timestamp. A record with no IP address
      at all is dropped. */
  function ConvertToModel(ek: EkPacket, now: Time): (r: Option<PacketData>)
    ensures r.None? <==> |ek.layers.ipSrc| == 0 && |ek.layers.ipDst| == 0
    ensures r.Some? ==>
      var p := r.value;
      p.timestamp == now && InInt64(p.length) && InInt64(p.srcPort) && InInt64(p.dstPort) &&
      p.protocol in {"TCP", "UDP", "OTHER"} &&
      (p.protocol == "TCP" <==> |ek.layers.tcpSrcPort| > 0 || |ek.layers.tcpDstPort| > 0) &&
      (p.protocol == "OTHER" ==> p.srcPort == 0 && p.dstPort == 0) &&
      (|ek.layers.frameLen| == 0 || Atoi(ek.layers.frameLen[0]).err != NoError ==> p.length == 0)
    ensures r.Some? ==>
      var p, l := r.value, ek.layers;
      (p.protocol, p.srcPort, p.dstPort) == Transport(l) &&
      (|l.frameLen| > 0 && Atoi(l.frameLen[0]).err == NoError ==> p.length == Atoi(l.frameLen[0]).value) &&
      p.srcIP == (if |l.ipSrc| > 0 then l.ipSrc[0] else []) &&
      p.dstIP == (if |l.ipDst| > 0 then l.ipDst[0] else []) &&
      p.ethDst == (if |l.ethDst| > 0 then l.ethDst[0] else [])
  {
    var l := ek.layers;
    if |l.ipSrc| == 0 && |l.ipDst| == 0 then None
    else
      var t := Transport(l);
      Some(PacketData(now, First(l.ipSrc), First(l.ipDst), t.1, t.2, t.0, LengthOf(l.frameLen),
                      HostnameOf(l), First(l.ethDst)))
  }

  /** The host name comes from the highest-priority field that has a value: an SNI wins over
      everything, a DNS name over an HTTP Host, and "" means none of the three has one. */
  lemma HostnamePriority(ek: EkPacket, now: Time)
    requires ConvertToModel(ek, now).Some?
    ensures var h := ConvertToModel(ek, now).value.hostname; var l := ek.layers;
      (First(l.tlsSni) != [] ==> h == l.tlsSni[0]) &&
      (First(l.tlsSni) == [] && First(l.dnsQuery) != [] ==> h == l.dnsQuery[0]) &&
      (First(l.tlsSni) == [] && First(l.dnsQuery) == [] ==> h == First(l.httpHost)) &&
      (h == [] <==> First(l.tlsSni) == [] && First(l.dnsQuery) == [] && First(l.httpHost) == []) &&
      (h != [] ==> h in l.tlsSni + l.dnsQuery + l.httpHost)
  {
  }

  /** An EK record that carries the fields of a packet summary, one value per field, with the ports
      under the layer its protocol names. */
  function Render(p: PacketData): EkLayers {
    var tcp := p.protocol == "TCP";
    var udp := p.protocol == "UDP";
    EkLayers([Itoa(p.length)], [p.srcIP], [p.dstIP],
             if tcp then [Itoa(p.srcPort)] else [], if tcp then [Itoa(p.dstPort)] else [],
             if udp then [Itoa(p.srcPort)] else [], if udp then [Itoa(p.dstPort)] else [],
             [], [p.hostname], [], [p.ethDst])
  }

  /** Converting the rendering of a packet summary gives the summary back. */
  lemma ConvertRender(p: PacketData, ts: GoString)
    requires InInt64(p.length) && InInt64(p.srcPort) && InInt64(p.dstPort)
    requires p.protocol in {"TCP", "UDP", "OTHER"}
    requires p.protocol == "OTHER" ==> p.srcPort == 0 && p.dstPort == 0
    ensures ConvertToModel(EkPacket(ts, Render(p)), p.timestamp) == Some(p)
  {
    AtoiItoa(p.length);
    AtoiItoa(p.srcPort);
    AtoiItoa(p.dstPort);
  }

  /** The marker every packet line of tshark's EK output contains. */
  const LayersKey: GoString := "\"layers\""

  /** The line filter of the capture loop: skip blank lines and lines without the marker. */
  predicate LineSelected(line: GoString) {
    TrimSpace(line) != [] && HasSubstring(line, LayersKey)
  }

  /** The blank-line test is implied by the marker test: a line is selected exactly when it holds the marker. */
  lemma LineSelectedIffMarker(line: GoString)
    ensures LineSelected(line) <==> HasSubstring(line, LayersKey)
  {
    TrimSpaceEmptyIffAllSpace(line);
    if HasSubstring(line, LayersKey) {
      var i :| 0 <= i <= |line| && OccursAt(line, LayersKey, i);
      assert line[i] == LayersKey[0];
      assert !IsAsciiSpace(line[i]);
    }
  }
}
