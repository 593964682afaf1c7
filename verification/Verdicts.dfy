/** What xdp_packet_filter answers, records and reports on every packet of every
    run, in terms of the frame and the blocklists alone. */
module Verdicts {
  import opened Prelude
  import opened TunnelText
  import opened GtpuHeader
  import opened PacketFilter
  import opened FilterRuns
  import RW = RateWindow
  import PS = PortScan

  /** A T-PDU of the tunnel (source, teid) on the GTP-U port. */
  predicate OfBlockedTunnel(tunnels: set<TunnelKey>, v: View) {
    && v.Packet? && v.body.Datagram? && v.body.port == 2152
    && TeidField(v.body.payload) != 0 && (v.src, TeidField(v.body.payload)) in tunnels
  }

  predicate FromBlockedSource(sources: set<Addr>, v: View) {
    v.Packet? && v.src in sources
  }

  lemma TeidOfIsField(port: Port, payload: seq<byte>)
    ensures TeidOf(port, payload) == if port == 2152 then TeidField(payload) else 0
  {
    TeidIsField(payload);
  }

  lemma FilterVerdict(d: Drops, m: Maps, v: View, now: int)
    ensures Filter(d, m, v, now).verdict == Drop <==> FromBlockedSource(d.sources, v) || OfBlockedTunnel(d.tunnels, v)
  {
    if v.Packet? && v.body.Datagram? { TeidOfIsField(v.body.port, v.body.payload); }
  }

  /** The verdict law: whatever the maps hold and whatever came before, a packet is
      dropped if and only if its source is blocked, or it is a T-PDU whose source
      and nonzero TEID are a blocked tunnel. */
  lemma VerdictExact(d: Drops, m: Maps, trace: seq<Frame>, i: nat)
    requires i < |trace|
    ensures At(d, m, trace, i).verdict == Drop <==>
            var v := Decode(trace[i].bytes); FromBlockedSource(d.sources, v) || OfBlockedTunnel(d.tunnels, v)
  {
    FilterVerdict(d, RunMaps(d, m, trace[..i]), Decode(trace[i].bytes), trace[i].now);
  }

  /** A packet from a blocked source leaves no trace: no event, and all four maps as
      they were. One of a blocked tunnel leaves one, in its source's signaling
      rate. */
  lemma DroppedUntraced(d: Drops, m: Maps, trace: seq<Frame>, i: nat)
    requires i < |trace| && At(d, m, trace, i).verdict == Drop
    ensures var o, before, v := At(d, m, trace, i), RunMaps(d, m, trace[..i]), Decode(trace[i].bytes);
            && o.events == [] && v.Packet?
            && o.maps.scanRate == before.scanRate && o.maps.tunnelRate == before.tunnelRate
            && o.maps.portScan == before.portScan
            && o.maps.signalRate ==
               if FromBlockedSource(d.sources, v) then before.signalRate
               else before.signalRate[v.src := RW.Count(Get(before.signalRate, v.src), trace[i].now)]
  {
  }

  // ---------------------------------------------------------------- events

  /** A datagram that neither blocklist stops. */
  predicate LetThrough(d: Drops, v: View) {
    v.Packet? && v.body.Datagram? && !FromBlockedSource(d.sources, v) && !OfBlockedTunnel(d.tunnels, v)
  }

  lemma SignalingEventIs(d: Drops, m: Maps, v: View, now: int)
    requires LetThrough(d, v) && (v.body.port == 2152 || v.body.port == 5060)
    ensures var o, gtpu := Filter(d, m, v, now), v.body.port == 2152;
            && |o.events| == 1
            && o.events[0] == Event(v.src, v.dst, v.body.port, |v.body.payload| % 0x1_0000, if gtpu then GTPU else SIP,
                                    gtpu && !PathManagement(v.body.payload) && !InGrammar(v.body.payload), v.vlan,
                                    if gtpu then TeidField(v.body.payload) else 0, o.events[0].tunnelRate)
  {
    TeidOfIsField(v.body.port, v.body.payload);
    ParseExact(v.body.payload, ParseSpec(v.body.payload));
  }

  /** Every datagram on the GTP-U or the SIP port that is let through gives exactly
      one event, with its addresses, port, size, VLAN and protocol. The event is
      flagged malformed exactly if the payload is neither a path management message
      nor starts with a header of the grammar. */
  lemma SignalingReported(d: Drops, m: Maps, trace: seq<Frame>, i: nat)
    requires i < |trace|
    requires var v := Decode(trace[i].bytes); LetThrough(d, v) && (v.body.port == 2152 || v.body.port == 5060)
    ensures var o, v := At(d, m, trace, i), Decode(trace[i].bytes);
            var gtpu := v.body.port == 2152;
            && |o.events| == 1
            && o.events[0] == Event(v.src, v.dst, v.body.port, |v.body.payload| % 0x1_0000, if gtpu then GTPU else SIP,
                                    gtpu && !PathManagement(v.body.payload) && !InGrammar(v.body.payload), v.vlan,
                                    if gtpu then TeidField(v.body.payload) else 0, o.events[0].tunnelRate)
  {
    SignalingEventIs(d, RunMaps(d, m, trace[..i]), Decode(trace[i].bytes), trace[i].now);
  }

  /** A UDP packet too short for its header is reported as malformed, and what is
      not UDP not at all. */
  lemma OtherReported(d: Drops, m: Maps, trace: seq<Frame>, i: nat)
    requires i < |trace|
    requires var v := Decode(trace[i].bytes); v.NotIP? || (v.src !in d.sources && !v.body.Datagram?)
    ensures var o, v := At(d, m, trace, i), Decode(trace[i].bytes);
            && o.verdict == Pass && o.maps == RunMaps(d, m, trace[..i])
            && o.events == if v.Packet? && v.body.ShortUDP?
                           then [Event(v.src, v.dst, 0, 0, Unknown, true, v.vlan, 0, 0)] else []
  {
  }

  /** The two events an off-port datagram can give. */
  function FloodEvent(v: View): Event
    requires v.Packet? && v.body.Datagram?
  {
    Event(v.src, v.dst, v.body.port, |v.body.payload| % 0x1_0000, Unknown, false, v.vlan, 0, 0)
  }

  function ScanEvent(v: View): Event
    requires v.Packet? && v.body.Datagram?
  {
    Event(v.src, v.dst, v.body.port, 15, PortScanning, false, v.vlan, 0, 0)
  }

  /** Off the signaling ports: a flood event at precisely the tenth packet of a
      one-second window of its (source, port), then a scan event at precisely the
      packet that brings the fifteenth distinct port of a thirty-second window of
      its source, and nothing else. */
  lemma OffPortReported(d: Drops, trace: seq<Frame>, i: nat)
    requires Stamped(trace) && i < |trace| < RW.U32
    requires var v := Decode(trace[i].bytes); LetThrough(d, v) && v.body.port != 2152 && v.body.port != 5060
    ensures var v := Decode(trace[i].bytes);
            var packets := OwnUpTo(ScanOf(d), trace, i, (v.src, v.body.port));
            var ports := OwnUpTo(PortOf(d), trace, i, v.src);
            && |packets| > 0 && |ports| > 0
            && At(d, NO_MAPS, trace, i).events ==
               (if RW.Reported(packets, |packets| - 1) == 10 then [FloodEvent(v)] else []) +
               (if PS.CrossesThreshold(ports, |ports| - 1) then [ScanEvent(v)] else [])
  {
    FloodEdgeExact(d, trace, i);
    ScanEdgeExact(d, trace, i);
    OffPortEvents(d, RunMaps(d, NO_MAPS, trace[..i]), Decode(trace[i].bytes), trace[i].now);
  }
}
