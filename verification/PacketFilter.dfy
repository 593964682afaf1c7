/** xdp_packet_filter of bpf/packet_filter.c on raw Ethernet frames. The IPv4
    and IPv6 halves of the program differ only in their key type, so the two
    families' maps are one map over addresses; both observation maps and drop
    maps are assumed not full. */
module PacketFilter {
  import opened Prelude
  import opened TunnelText
  import opened GtpuHeader
  import RW = RateWindow
  import PS = PortScan

  const GTPU_PORT := 2152
  const SIP_PORT := 5060
  const SCAN_EMIT_THRESHOLD := 10

  type Port = int
  type TunnelKey = (Addr, TEID)
  type ScanKey = (Addr, Port)

  datatype Protocol = Unknown | GTPU | SIP | PortScanning

  /** struct signaling_event, without the timestamp. */
  datatype Event = Event(src: Addr, dst: Addr, port: Port, size: int, protocol: Protocol,
                         malformed: bool, vlan: int, teid: TEID, tunnelRate: int)

  datatype Verdict = Pass | Drop

  /** The operator's drop decisions. */
  datatype Drops = Drops(sources: set<Addr>, tunnels: set<TunnelKey>)

  /** The observation maps. */
  datatype Maps = Maps(
    signalRate: map<Addr, RW.RateEntry>,
    scanRate: map<ScanKey, RW.RateEntry>,
    tunnelRate: map<TunnelKey, RW.RateEntry>,
    portScan: map<Addr, PS.PortEntry>)

  const NO_MAPS := Maps(map[], map[], map[], map[])

  // ---------------------------------------------------------------- headers

  datatype Body = Opaque | ShortUDP | Datagram(port: Port, payload: seq<byte>)

  /** What the program makes of a frame before it consults any map. */
  datatype View = NotIP | Packet(src: Addr, dst: Addr, vlan: int, body: Body)

  function U16(f: seq<byte>, off: nat): int
    requires off + 2 <= |f|
  {
    f[off] as int * 256 + f[off + 1] as int
  }

  /** A UDP header at `off`, or too few bytes for one. */
  function UdpAt(f: seq<byte>, off: nat): Body {
    if off + 8 > |f| then ShortUDP else Datagram(U16(f, off + 2), f[off + 8..])
  }

  function IPv6At(f: seq<byte>, l3: nat, vlan: int): View {
    if l3 + 40 > |f| then NotIP
    else Packet(V6(f[l3 + 8..l3 + 24]), V6(f[l3 + 24..l3 + 40]), vlan,
                if f[l3 + 6] != 17 then Opaque else UdpAt(f, l3 + 40))
  }

  /** Options are skipped by the header length; a non-initial fragment has no UDP
      header to read. */
  function IPv4At(f: seq<byte>, l3: nat, vlan: int): View {
    if l3 + 20 > |f| || f[l3] % 16 < 5 then NotIP
    else Packet(V4(f[l3 + 12..l3 + 16]), V4(f[l3 + 16..l3 + 20]), vlan,
                if f[l3 + 9] != 17 || U16(f, l3 + 6) % 0x2000 != 0 then Opaque
                else UdpAt(f, l3 + f[l3] as int % 16 * 4))
  }

  /** Ethernet with at most one 802.1Q tag. */
  function Decode(f: seq<byte>): View {
    if 14 > |f| then NotIP
    else if U16(f, 12) == 0x8100 then
      if 18 > |f| then NotIP else Dispatch(f, U16(f, 16), 18, U16(f, 14) % 0x1000)
    else Dispatch(f, U16(f, 12), 14, 0)
  }

  function Dispatch(f: seq<byte>, proto: int, l3: nat, vlan: int): View {
    if proto == 0x86DD then IPv6At(f, l3, vlan) else if proto == 0x0800 then IPv4At(f, l3, vlan) else NotIP
  }

  // ---------------------------------------------------------------- one packet

  datatype Outcome = Outcome(verdict: Verdict, maps: Maps, events: seq<Event>)

  predicate SignalingPort(port: Port) {
    port == GTPU_PORT || port == SIP_PORT
  }

  /** The TEID parse_gtpu leaves behind, 0 for none, and the malformed flag. */
  function TeidOf(port: Port, payload: seq<byte>): TEID {
    if port != GTPU_PORT || ParseSpec(payload).OtherMessage? then 0 else ParseSpec(payload).teid
  }

  predicate MalformedAt(port: Port, payload: seq<byte>) {
    port == GTPU_PORT && ParseSpec(payload).Malformed?
  }

  /** A GTP-U or SIP datagram. */
  function Signaling(d: Drops, m: Maps, v: View, now: int): Outcome
    requires v.Packet? && v.body.Datagram?
  {
    var m1 := m.(signalRate := m.signalRate[v.src := RW.Count(Get(m.signalRate, v.src), now)]);
    var teid := TeidOf(v.body.port, v.body.payload);
    var key := (v.src, teid);
    if teid != 0 && key in d.tunnels then Outcome(Drop, m1, [])
    else
      var entry := RW.Count(Get(m.tunnelRate, key), now);
      var m2 := if teid == 0 then m1 else m1.(tunnelRate := m1.tunnelRate[key := entry]);
      Outcome(Pass, m2, [Event(v.src, v.dst, v.body.port, |v.body.payload| % 0x1_0000,
                               if v.body.port == GTPU_PORT then GTPU else SIP,
                               MalformedAt(v.body.port, v.body.payload), v.vlan, teid,
                               if teid == 0 then 0 else entry.count)])
  }

  /** The count track_scan_rate returns: packets of this window before this one. */
  function PriorCount(prior: Option<RW.RateEntry>, now: int): int {
    if prior.None? || (now - prior.value.start) % RW.U64 > RW.SIGNALING_RATE_WINDOW_NS then 0 else prior.value.count
  }

  /** Any other datagram: the flood and the port-scan detectors. */
  function OffPort(m: Maps, v: View, now: int): Outcome
    requires v.Packet? && v.body.Datagram?
  {
    var key := (v.src, v.body.port);
    var flood := (PriorCount(Get(m.scanRate, key), now) + 1) % RW.U32 == SCAN_EMIT_THRESHOLD;
    var touch := PS.Touch(v.body.port, now);
    var scan := PS.Fires(Get(m.portScan, v.src), touch);
    Outcome(Pass,
            m.(scanRate := m.scanRate[key := RW.Count(Get(m.scanRate, key), now)],
               portScan := m.portScan[v.src := PS.After(Get(m.portScan, v.src), touch)]),
            (if flood then [Event(v.src, v.dst, v.body.port, |v.body.payload| % 0x1_0000, Unknown, false, v.vlan, 0,
              0)] else []) +
            (if scan then [Event(v.src, v.dst, v.body.port, PS.MULTIPORT_SCAN_THRESHOLD, PortScanning, false, v.vlan,
              0, 0)] else []))
  }

  function Filter(d: Drops, m: Maps, v: View, now: int): Outcome {
    if v.NotIP? then Outcome(Pass, m, [])
    else if v.src in d.sources then Outcome(Drop, m, [])
    else
      match v.body
      case Opaque => Outcome(Pass, m, [])
      case ShortUDP => Outcome(Pass, m, [Event(v.src, v.dst, 0, 0, Unknown, true, v.vlan, 0, 0)])
      case Datagram(port, _) => if SignalingPort(port) then Signaling(d, m, v, now) else OffPort(m, v, now)
  }

  // ---------------------------------------------------------------- the program

  /** The maps as the program mutates them, with the records it submits. */
  class Xdp {
    var drops: Drops
    var signalRate: map<Addr, RW.RateEntry>
    var scanRate: map<ScanKey, RW.RateEntry>
    var tunnelRate: map<TunnelKey, RW.RateEntry>
    var portScan: map<Addr, PS.PortEntry>
    var events: seq<Event>

    ghost function Now(): Maps
      reads this
    {
      Maps(signalRate, scanRate, tunnelRate, portScan)
    }

    constructor (drops: Drops)
      ensures this.drops == drops && Now() == NO_MAPS && events == []
    {
      this.drops := drops;
      signalRate, scanRate, tunnelRate, portScan, events := map[], map[], map[], map[], [];
    }

    method TrackSignalRate(src: Addr, now: int)
      modifies this`signalRate
      ensures signalRate == old(signalRate)[src := RW.Count(Get(old(signalRate), src), now)]
    {
      if src !in signalRate {
        signalRate := signalRate[src := RW.RateEntry(now, 1)];
        return;
      }
      var entry := signalRate[src];
      if (now - entry.start) % RW.U64 > RW.SIGNALING_RATE_WINDOW_NS {
        entry := RW.RateEntry(now, 1);
      } else {
        entry := entry.(count := (entry.count + 1) % RW.U32);
      }
      signalRate := signalRate[src := entry];
    }

    method TrackScanRate(src: Addr, port: Port, now: int) returns (prior: int)
      modifies this`scanRate
      ensures prior == PriorCount(Get(old(scanRate), (src, port)), now)
      ensures scanRate == old(scanRate)[(src, port) := RW.Count(Get(old(scanRate), (src, port)), now)]
    {
      var key := (src, port);
      if key !in scanRate {
        scanRate := scanRate[key := RW.RateEntry(now, 1)];
        return 0;
      }
      var entry := scanRate[key];
      prior := entry.count;
      if (now - entry.start) % RW.U64 > RW.SIGNALING_RATE_WINDOW_NS {
        prior := 0;
        entry := RW.RateEntry(now, 1);
      } else {
        entry := entry.(count := (entry.count + 1) % RW.U32);
      }
      scanRate := scanRate[key := entry];
    }

    method TrackTunnelRate(src: Addr, teid: TEID, now: int) returns (count: int)
      modifies this`tunnelRate
      ensures tunnelRate == old(tunnelRate)[(src, teid) := RW.Count(Get(old(tunnelRate), (src, teid)), now)]
      ensures count == tunnelRate[(src, teid)].count
    {
      var key := (src, teid);
      if key !in tunnelRate {
        tunnelRate := tunnelRate[key := RW.RateEntry(now, 1)];
        return 1;
      }
      var entry := tunnelRate[key];
      if (now - entry.start) % RW.U64 > RW.SIGNALING_RATE_WINDOW_NS {
        tunnelRate := tunnelRate[key := RW.RateEntry(now, 1)];
        return 1;
      }
      entry := entry.(count := (entry.count + 1) % RW.U32);
      tunnelRate := tunnelRate[key := entry];
      return entry.count;
    }

    method TrackPortScan(src: Addr, port: Port, now: int) returns (fired: bool)
      modifies this`portScan
      ensures portScan == old(portScan)[src := PS.After(Get(old(portScan), src), PS.Touch(port, now))]
      ensures fired <==> PS.Fires(Get(old(portScan), src), PS.Touch(port, now))
    {
      if src !in portScan || (now - portScan[src].start) % RW.U64 > PS.MULTIPORT_SCAN_WINDOW_NS {
        portScan := portScan[src := PS.FreshEntry(PS.Touch(port, now))];
        return false;
      }
      var entry := portScan[src];
      assert portScan == portScan[src := entry];
      if entry.emitted { return false; }
      var seen := PS.Recorded(entry, port);
      if seen { return false; }
      if entry.distinct >= PS.MULTIPORT_SCAN_THRESHOLD { return false; }
      var distinct := entry.distinct + 1;
      fired := distinct == PS.MULTIPORT_SCAN_THRESHOLD;
      portScan := portScan[src := entry.(ports := entry.ports[entry.distinct := port], distinct := distinct,
        emitted := fired)];
    }

    /** The signaling branch, after the source blocklist. */
    method HandleSignaling(v: View, now: int) returns (verdict: Verdict)
      requires v.Packet? && v.body.Datagram?
      modifies this`signalRate, this`tunnelRate, this`events
      ensures Outcome(verdict, Now(), events) ==
              Signaling(drops, old(Now()), v, now).(events := old(events) + Signaling(drops, old(Now()), v, now).events)
    {
      TrackSignalRate(v.src, now);
      var teid, rate, malformed := 0, 0, false;
      if v.body.port == GTPU_PORT {
        var rc := ParseGtpu(v.body.payload);
        malformed := rc.Malformed?;
        teid := if rc.OtherMessage? then 0 else rc.teid;
        if teid != 0 {
          if (v.src, teid) in drops.tunnels { return Drop; }
          rate := TrackTunnelRate(v.src, teid, now);
        }
      }
      events := events + [Event(v.src, v.dst, v.body.port, |v.body.payload| % 0x1_0000,
                                if v.body.port == GTPU_PORT then GTPU else SIP, malformed, v.vlan, teid, rate)];
      return Pass;
    }

    method HandleOffPort(v: View, now: int)
      requires v.Packet? && v.body.Datagram?
      modifies this`scanRate, this`portScan, this`events
      ensures Outcome(Pass, Now(), events) ==
              OffPort(old(Now()), v, now).(events := old(events) + OffPort(old(Now()), v, now).events)
    {
      var prior := TrackScanRate(v.src, v.body.port, now);
      if (prior + 1) % RW.U32 == SCAN_EMIT_THRESHOLD {
        events := events + [Event(v.src, v.dst, v.body.port, |v.body.payload| % 0x1_0000, Unknown, false, v.vlan, 0,
          0)];
      }
      var fired := TrackPortScan(v.src, v.body.port, now);
      if fired {
        events := events + [Event(v.src, v.dst, v.body.port, PS.MULTIPORT_SCAN_THRESHOLD, PortScanning, false,
          v.vlan, 0, 0)];
      }
    }

    /** xdp_packet_filter: one frame, one verdict. */
    method Run(frame: seq<byte>, now: int) returns (verdict: Verdict)
      modifies this`signalRate, this`scanRate, this`tunnelRate, this`portScan, this`events
      ensures var o := Filter(drops, old(Now()), Decode(frame), now);
              verdict == o.verdict && Now() == o.maps && events == old(events) + o.events
    {
      var v := Decode(frame);
      if v.NotIP? { return Pass; }
      if v.src in drops.sources { return Drop; }
      match v.body
      case Opaque => return Pass;
      case ShortUDP =>
        events := events + [Event(v.src, v.dst, 0, 0, Unknown, true, v.vlan, 0, 0)];
        return Pass;
      case Datagram(port, _) =>
        if SignalingPort(port) {
          verdict := HandleSignaling(v, now);
        } else {
          HandleOffPort(v, now);
          return Pass;
        }
    }
  }
}
