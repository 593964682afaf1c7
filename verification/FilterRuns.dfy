/** xdp_packet_filter over whole packet sequences: what its counters and
    detectors report about the packets of one key, and what one more blocked
    tunnel can change. */
module FilterRuns {
  import opened Prelude
  import opened TunnelText
  import opened GtpuHeader
  import opened KeyedFold
  import opened PacketFilter
  import RW = RateWindow
  import PS = PortScan

  datatype Frame = Frame(bytes: seq<byte>, now: int)

  /** The maps after a trace. */
  function RunMaps(d: Drops, m: Maps, trace: seq<Frame>): Maps {
    if trace == [] then m
    else
      var last := trace[|trace| - 1];
      Filter(d, RunMaps(d, m, trace[..|trace| - 1]), Decode(last.bytes), last.now).maps
  }

  /** What the program does on packet `i`. */
  function At(d: Drops, m: Maps, trace: seq<Frame>, i: nat): Outcome
    requires i < |trace|
  {
    Filter(d, RunMaps(d, m, trace[..i]), Decode(trace[i].bytes), trace[i].now)
  }

  /** The clock the packets were stamped with. */
  ghost predicate Stamped(trace: seq<Frame>) {
    && (forall i :: 0 <= i < |trace| ==> 0 <= trace[i].now < RW.U64)
    && (forall i, j :: 0 <= i <= j < |trace| ==> trace[i].now <= trace[j].now)
  }

  // ---------------------------------------------------------------- which packets touch which key

  /** Datagrams that get past the source blocklist. */
  predicate Reaches(d: Drops, v: View) {
    v.Packet? && v.src !in d.sources && v.body.Datagram?
  }

  function TunnelTouch(d: Drops, v: View, now: int): Option<(TunnelKey, int)> {
    if !Reaches(d, v) || TeidOf(v.body.port, v.body.payload) == 0 then None
    else
      var key := (v.src, TeidOf(v.body.port, v.body.payload));
      if key in d.tunnels then None else Some((key, now))
  }

  /** Before the tunnel blocklist is asked. */
  function SignalTouch(d: Drops, v: View, now: int): Option<(Addr, int)> {
    if Reaches(d, v) && SignalingPort(v.body.port) then Some((v.src, now)) else None
  }

  function ScanTouch(d: Drops, v: View, now: int): Option<(ScanKey, int)> {
    if Reaches(d, v) && !SignalingPort(v.body.port) then Some(((v.src, v.body.port), now)) else None
  }

  function PortTouch(d: Drops, v: View, now: int): Option<(Addr, PS.Touch)> {
    if Reaches(d, v) && !SignalingPort(v.body.port) then Some((v.src, PS.Touch(v.body.port, now))) else None
  }

  function TunnelOf(d: Drops): Frame -> Option<(TunnelKey, int)> {
    (fr: Frame) => TunnelTouch(d, Decode(fr.bytes), fr.now)
  }

  function SignalOf(d: Drops): Frame -> Option<(Addr, int)> { (fr: Frame) => SignalTouch(d, Decode(fr.bytes), fr.now) }

  function ScanOf(d: Drops): Frame -> Option<(ScanKey, int)> { (fr: Frame) => ScanTouch(d, Decode(fr.bytes), fr.now) }

  function PortOf(d: Drops): Frame -> Option<(Addr, PS.Touch)> { (fr: Frame) => PortTouch(d, Decode(fr.bytes), fr.now) }

  /** The touches of a trace, in order. */
  function Touches<K, X>(sel: Frame -> Option<(K, X)>, trace: seq<Frame>): seq<(K, X)> {
    if trace == [] then []
    else
      var init, last := Touches(sel, trace[..|trace| - 1]), sel(trace[|trace| - 1]);
      match last
      case Some(x) => init + [x]
      case None => init
  }

  /** One key's own inputs up to and including packet `i`. */
  function OwnUpTo<K(==), X>(sel: Frame -> Option<(K, X)>, trace: seq<Frame>, i: nat, k: K): seq<X>
    requires i < |trace|
  {
    Own(Touches(sel, trace[..i + 1]), k)
  }

  lemma OwnUpToStep<K, X>(sel: Frame -> Option<(K, X)>, trace: seq<Frame>, i: nat, k: K, x: X)
    requires i < |trace| && sel(trace[i]) == Some((k, x))
    ensures var own := OwnUpTo(sel, trace, i, k);
            own == Own(Touches(sel, trace[..i]), k) + [x]
  {
    assert trace[..i + 1][..i] == trace[..i];
    var before := Touches(sel, trace[..i]);
    var ts := Touches(sel, trace[..i + 1]);
    assert ts == before + [(k, x)];
    assert ts[..|ts| - 1] == before;
  }

  /** The maps are tables over these touches. */
  lemma {:induction false} MapsAreTables(d: Drops, trace: seq<Frame>)
    ensures var m := RunMaps(d, NO_MAPS, trace);
            && m.signalRate == Table(RW.Count, Touches(SignalOf(d), trace))
            && m.tunnelRate == Table(RW.Count, Touches(TunnelOf(d), trace))
            && m.scanRate == Table(RW.Count, Touches(ScanOf(d), trace))
            && m.portScan == Table(PS.After, Touches(PortOf(d), trace))
  {
    if trace != [] {
      var init, last := trace[..|trace| - 1], trace[|trace| - 1];
      MapsAreTables(d, init);
      TableStep(RW.Count, TunnelOf(d), init, last);
      TableStep(RW.Count, SignalOf(d), init, last);
      TableStep(RW.Count, ScanOf(d), init, last);
      TableStep(PS.After, PortOf(d), init, last);
      assert trace == init + [last];
      FilterTouches(d, RunMaps(d, NO_MAPS, init), Decode(last.bytes), last.now);
    }
  }

  /** A table after one more packet. */
  function Bump<K, V, X>(f: (Option<V>, X) -> V, m: map<K, V>, touch: Option<(K, X)>): map<K, V> {
    if touch.None? then m else m[touch.value.0 := f(Get(m, touch.value.0), touch.value.1)]
  }

  lemma TableStep<K, V, X>(f: (Option<V>, X) -> V, sel: Frame -> Option<(K, X)>, init: seq<Frame>, last: Frame)
    ensures Table(f, Touches(sel, init + [last])) == Bump(f, Table(f, Touches(sel, init)), sel(last))
  {
    var trace := init + [last];
    assert trace[..|trace| - 1] == init;
    if sel(last).Some? {
      var ts := Touches(sel, trace);
      assert ts[..|ts| - 1] == Touches(sel, init);
    }
  }

  ghost predicate Bumped(d: Drops, m: Maps, v: View, now: int, m': Maps) {
    && m'.signalRate == Bump(RW.Count, m.signalRate, SignalTouch(d, v, now))
    && m'.tunnelRate == Bump(RW.Count, m.tunnelRate, TunnelTouch(d, v, now))
    && m'.scanRate == Bump(RW.Count, m.scanRate, ScanTouch(d, v, now))
    && m'.portScan == Bump(PS.After, m.portScan, PortTouch(d, v, now))
  }

  lemma SignalingTouches(d: Drops, m: Maps, v: View, now: int)
    requires Reaches(d, v) && SignalingPort(v.body.port)
    ensures Bumped(d, m, v, now, Signaling(d, m, v, now).maps)
  {
    var teid := TeidOf(v.body.port, v.body.payload);
    if teid == 0 || (v.src, teid) in d.tunnels { assert TunnelTouch(d, v, now) == None; }
  }

  lemma OffPortTouches(d: Drops, m: Maps, v: View, now: int)
    requires Reaches(d, v) && !SignalingPort(v.body.port)
    ensures Bumped(d, m, v, now, OffPort(m, v, now).maps)
  {
    assert TunnelTouch(d, v, now) == None;
  }

  /** One packet updates each table at the key it touches and nowhere else. */
  lemma FilterTouches(d: Drops, m: Maps, v: View, now: int)
    ensures Bumped(d, m, v, now, Filter(d, m, v, now).maps)
  {
    if Reaches(d, v) {
      if SignalingPort(v.body.port) { SignalingTouches(d, m, v, now); } else { OffPortTouches(d, m, v, now); }
    }
  }

  // Clocks of subsequences ---------------------------------------------------

  ghost predicate Sorted<X>(time: X -> int, xs: seq<X>) {
    && (forall i :: 0 <= i < |xs| ==> 0 <= time(xs[i]) < RW.U64)
    && (forall i, j :: 0 <= i <= j < |xs| ==> time(xs[i]) <= time(xs[j]))
  }

  lemma {:induction false} TouchesFrom<K, X>(sel: Frame -> Option<(K, X)>, trace: seq<Frame>, t: (K, X))
      returns (fr: Frame)
    requires t in Touches(sel, trace)
    ensures fr in trace && sel(fr) == Some(t)
  {
    var init, last := trace[..|trace| - 1], trace[|trace| - 1];
    if sel(last) == Some(t) { fr := last; } else { fr := TouchesFrom(sel, init, t); }
  }

  lemma OwnGrows<K, X>(sel: Frame -> Option<(K, X)>, trace: seq<Frame>, k: K)
    requires trace != []
    ensures var before, last := Own(Touches(sel, trace[..|trace| - 1]), k), sel(trace[|trace| - 1]);
            Own(Touches(sel, trace), k) ==
            if last.Some? && last.value.0 == k then before + [last.value.1] else before
  {
    if sel(trace[|trace| - 1]).Some? {
      var ts := Touches(sel, trace);
      assert ts[..|ts| - 1] == Touches(sel, trace[..|trace| - 1]);
    }
  }

  /** Two packets of one key. */
  lemma OwnTwo<K, X>(sel: Frame -> Option<(K, X)>, trace: seq<Frame>, k: K, x: X, y: X)
    requires |trace| == 2 && sel(trace[0]) == Some((k, x)) && sel(trace[1]) == Some((k, y))
    ensures OwnUpTo(sel, trace, 1, k) == [x, y]
  {
    assert trace[..1 + 1] == trace && trace[..1][..0] == [];
    OwnGrows(sel, trace, k);
    OwnGrows(sel, trace[..1], k);
    assert Own(Touches(sel, []), k) == [];
  }

  lemma SortedSnoc<X>(time: X -> int, xs: seq<X>, x: X)
    requires Sorted(time, xs) && 0 <= time(x) < RW.U64
    requires forall j :: 0 <= j < |xs| ==> time(xs[j]) <= time(x)
    ensures Sorted(time, xs + [x])
  {
  }

  /** A key's packets come no later than the frames they are among. */
  lemma OwnBefore<K, X>(sel: Frame -> Option<(K, X)>, time: X -> int, trace: seq<Frame>, k: K, j: nat, now: int)
    requires forall fr :: sel(fr).Some? ==> time(sel(fr).value.1) == fr.now
    requires j < |Own(Touches(sel, trace), k)| && forall fr :: fr in trace ==> fr.now <= now
    ensures time(Own(Touches(sel, trace), k)[j]) <= now
  {
    var own := Own(Touches(sel, trace), k);
    OwnFrom(Touches(sel, trace), k, own[j]);
    var fr := TouchesFrom(sel, trace, (k, own[j]));
    assert sel(fr).Some?;
  }

  lemma {:induction false} OwnSorted<K, X>(sel: Frame -> Option<(K, X)>, time: X -> int, trace: seq<Frame>, k: K)
    requires Stamped(trace)
    requires forall fr :: sel(fr).Some? ==> time(sel(fr).value.1) == fr.now
    ensures Sorted(time, Own(Touches(sel, trace), k))
  {
    if trace != [] {
      var init, last := trace[..|trace| - 1], trace[|trace| - 1];
      var before := Own(Touches(sel, init), k);
      OwnSorted(sel, time, init, k);
      OwnGrows(sel, trace, k);
      if sel(last).Some? && sel(last).value.0 == k {
        forall j | 0 <= j < |before| ensures time(before[j]) <= last.now { OwnBefore(sel, time, init, k, j, last.now); }
        SortedSnoc(time, before, sel(last).value.1);
      }
    }
  }

  // ---------------------------------------------------------------- what is reported

  lemma OwnClock<K>(sel: Frame -> Option<(K, int)>, trace: seq<Frame>, k: K)
    requires Stamped(trace)
    requires forall fr :: sel(fr).Some? ==> sel(fr).value.1 == fr.now
    ensures RW.Clock(Own(Touches(sel, trace), k))
  {
    var own, time := Own(Touches(sel, trace), k), (x: int) => x;
    OwnSorted(sel, time, trace, k);
    assert forall j :: 0 <= j < |own| ==> time(own[j]) == own[j];
  }

  /** The in-place counter of one key, read after packet `i`, is the fold over
      that key's own packets. */
  lemma OwnCounter<K>(sel: Frame -> Option<(K, int)>, trace: seq<Frame>, i: nat, k: K)
    requires Stamped(trace) && i < |trace| < RW.U32 && sel(trace[i]) == Some((k, trace[i].now))
    requires forall fr :: sel(fr).Some? ==> sel(fr).value.1 == fr.now
    ensures var own := OwnUpTo(sel, trace, i, k);
            && 0 < |own| < RW.U32 && RW.Clock(own) && own[|own| - 1] == trace[i].now
            && RW.Count(Get(Table(RW.Count, Touches(sel, trace[..i])), k), trace[i].now).count == RW.Reported(own,
              |own| - 1)
  {
    var past := trace[..i + 1];
    assert Stamped(past);
    OwnUpToStep(sel, trace, i, k, trace[i].now);
    OwnClock(sel, past, k);
    OwnLength(sel, past, k);
    TableIsFold(RW.Count, Touches(sel, trace[..i]), k);
    var before, own := Own(Touches(sel, trace[..i]), k), OwnUpTo(sel, trace, i, k);
    assert own[..|before|] == before;
    RW.CountOnArrival(own, |before|);
  }

  lemma {:induction false} OwnLength<K, X>(sel: Frame -> Option<(K, X)>, trace: seq<Frame>, k: K)
    ensures |Own(Touches(sel, trace), k)| <= |trace|
  {
    if trace != [] {
      OwnLength(sel, trace[..|trace| - 1], k);
      OwnGrows(sel, trace, k);
    }
  }

  /** The tunnel rate in a packet's event is what the window counter makes of
      that (source, TEID)'s own packets, and so never more than their number in
      the second up to it. Packets of other tunnels and sources do not matter. */
  lemma {:induction false} TunnelRateExact(d: Drops, trace: seq<Frame>, i: nat, k: TunnelKey)
    requires Stamped(trace) && i < |trace| < RW.U32
    requires TunnelTouch(d, Decode(trace[i].bytes), trace[i].now) == Some((k, trace[i].now))
    ensures var o, own := At(d, NO_MAPS, trace, i), OwnUpTo(TunnelOf(d), trace, i, k);
            && o.verdict == Pass && |o.events| == 1 && |own| > 0
            && o.events[0].src == k.0 && o.events[0].teid == k.1
            && o.events[0].tunnelRate == RW.Reported(own, |own| - 1)
            && o.events[0].tunnelRate <=
               |RW.Packets(own, trace[i].now - 1_000_000_000, trace[i].now)|
  {
    MapsAreTables(d, trace[..i]);
    OwnRate(TunnelOf(d), trace, i, k);
    SignalingEvent(d, RunMaps(d, NO_MAPS, trace[..i]), Decode(trace[i].bytes), trace[i].now, k);
  }

  lemma OwnRate<K>(sel: Frame -> Option<(K, int)>, trace: seq<Frame>, i: nat, k: K)
    requires Stamped(trace) && i < |trace| < RW.U32 && sel(trace[i]) == Some((k, trace[i].now))
    requires forall fr :: sel(fr).Some? ==> sel(fr).value.1 == fr.now
    ensures var own := OwnUpTo(sel, trace, i, k);
            var rate := RW.Count(Get(Table(RW.Count, Touches(sel, trace[..i])), k), trace[i].now).count;
            && |own| > 0 && rate == RW.Reported(own, |own| - 1)
            && rate <= |RW.Packets(own, trace[i].now - RW.SIGNALING_RATE_WINDOW_NS, trace[i].now)|
  {
    OwnCounter(sel, trace, i, k);
    var own := OwnUpTo(sel, trace, i, k);
    RW.ReportedAtMostSliding(own, |own| - 1);
  }

  /** The one event of a T-PDU that touches the tunnel counter. */
  lemma {:induction false} SignalingEvent(d: Drops, m: Maps, v: View, now: int, k: TunnelKey)
    requires TunnelTouch(d, v, now) == Some((k, now))
    ensures var o := Filter(d, m, v, now);
            && o.verdict == Pass && |o.events| == 1 && o.events[0].src == k.0 && o.events[0].teid == k.1
            && o.events[0].tunnelRate == RW.Count(Get(m.tunnelRate, k), now).count
  {
  }

  /** Where in the trace a key's j-th own packet is. */
  lemma {:induction false} OwnPosition<K, X>(sel: Frame -> Option<(K, X)>, trace: seq<Frame>, k: K, j: nat)
      returns (i: nat)
    requires j < |Own(Touches(sel, trace), k)|
    ensures var own := Own(Touches(sel, trace), k);
            i < |trace| && sel(trace[i]) == Some((k, own[j])) && OwnUpTo(sel, trace, i, k) == own[..j + 1]
  {
    var init := trace[..|trace| - 1];
    var before, own := Own(Touches(sel, init), k), Own(Touches(sel, trace), k);
    OwnGrows(sel, trace, k);
    if j < |before| {
      i := OwnPosition(sel, init, k, j);
      assert init[..i + 1] == trace[..i + 1] && init[i] == trace[i];
      assert before[..j + 1] == own[..j + 1] && before[j] == own[j];
    } else {
      i := |trace| - 1;
      assert trace[..i + 1] == trace;
      assert own[..j + 1] == own;
    }
  }

  /** The arrival times of a tunnel's counted packets. */
  function Arrivals(d: Drops, trace: seq<Frame>, k: TunnelKey): seq<int> {
    Own(Touches(TunnelOf(d), trace), k)
  }

  /** A dense tunnel is always seen: any second that holds at least n and at
      least 2n - 2 counted packets of one tunnel, however other traffic is mixed
      in, contains a packet whose event reports a rate of n or more. */
  lemma {:induction false} DenseTunnelSeen(d: Drops, trace: seq<Frame>, k: TunnelKey, from: int, n: nat)
      returns (i: nat)
    requires Stamped(trace) && |trace| < RW.U32 && n >= 1
    requires var inside := |RW.Packets(Arrivals(d, trace, k), from, from + RW.SIGNALING_RATE_WINDOW_NS)|;
             inside >= n && inside >= 2 * n - 2
    ensures i < |trace| && from <= trace[i].now <= from + RW.SIGNALING_RATE_WINDOW_NS
    ensures TunnelTouch(d, Decode(trace[i].bytes), trace[i].now) == Some((k, trace[i].now))
    ensures |At(d, NO_MAPS, trace, i).events| == 1 && At(d, NO_MAPS, trace, i).events[0].tunnelRate >= n
  {
    var own := Arrivals(d, trace, k);
    OwnClock(TunnelOf(d), trace, k);
    var j := RW.DenseIntervalReports(own, from, n);
    i := OwnPosition(TunnelOf(d), trace, k, j);
    assert TunnelOf(d)(trace[i]) == TunnelTouch(d, Decode(trace[i].bytes), trace[i].now);
    TunnelRateExact(d, trace, i, k);
    RW.ReportedOfPrefix(own, j);
  }

  /** Each source's signaling rate, after each of its packets on a signaling port,
      is the count of its window, dropped tunnels' packets included. */
  lemma SignalRateExact(d: Drops, trace: seq<Frame>, i: nat)
    requires Stamped(trace) && i < |trace| < RW.U32
    requires var v := Decode(trace[i].bytes); Reaches(d, v) && (v.body.port == 2152 || v.body.port == 5060)
    ensures var src := Decode(trace[i].bytes).src;
            var own, rates := OwnUpTo(SignalOf(d), trace, i, src), RunMaps(d, NO_MAPS, trace[..i + 1]).signalRate;
            && |own| > 0 && own[|own| - 1] == trace[i].now
            && src in rates && rates[src].count == RW.Reported(own, |own| - 1)
  {
    var v := Decode(trace[i].bytes);
    MapsAreTables(d, trace[..i]);
    OwnCounter(SignalOf(d), trace, i, v.src);
    FilterTouches(d, RunMaps(d, NO_MAPS, trace[..i]), v, trace[i].now);
    assert trace[..i + 1][..i] == trace[..i];
  }

  /** Without a tunnel identity the event reports no rate. */
  lemma NoTeidNoRate(d: Drops, m: Maps, v: View, now: int)
    requires Reaches(d, v) && TeidOf(v.body.port, v.body.payload) == 0
    ensures forall e :: e in Filter(d, m, v, now).events ==> e.teid == 0 && e.tunnelRate == 0
  {
  }

  predicate EmitsFlood(o: Outcome) {
    exists e :: e in o.events && e.protocol == Unknown
  }

  predicate EmitsScan(o: Outcome) {
    exists e :: e in o.events && e.protocol == PortScanning
  }

  /** An off-port datagram that reaches the detectors. */
  predicate OffSignaling(d: Drops, v: View) {
    Reaches(d, v) && !SignalingPort(v.body.port)
  }

  lemma OffPortEvents(d: Drops, m: Maps, v: View, now: int)
    requires OffSignaling(d, v)
    ensures var o := Filter(d, m, v, now);
            && (EmitsFlood(o) <==> RW.Count(Get(m.scanRate, (v.src, v.body.port)), now).count == SCAN_EMIT_THRESHOLD)
            && (EmitsScan(o) <==> PS.Fires(Get(m.portScan, v.src), PS.Touch(v.body.port, now)))
  {
    var o := Filter(d, m, v, now);
    var prior := Get(m.scanRate, (v.src, v.body.port));
    assert (PriorCount(prior, now) + 1) % RW.U32 == RW.Count(prior, now).count;
    if RW.Count(prior, now).count == SCAN_EMIT_THRESHOLD { assert o.events[0].protocol == Unknown; }
    if PS.Fires(Get(m.portScan, v.src), PS.Touch(v.body.port, now)) {
      assert o.events[|o.events| - 1].protocol == PortScanning;
    }
  }

  /** A flood event goes out at precisely the tenth packet of a window of its
      (source, port). */
  lemma FloodEdgeExact(d: Drops, trace: seq<Frame>, i: nat)
    requires Stamped(trace) && i < |trace| < RW.U32 && OffSignaling(d, Decode(trace[i].bytes))
    ensures var v := Decode(trace[i].bytes);
            var own := OwnUpTo(ScanOf(d), trace, i, (v.src, v.body.port));
            |own| > 0 &&
            (EmitsFlood(At(d, NO_MAPS, trace, i)) <==> RW.Reported(own, |own| - 1) == 10)
  {
    var v := Decode(trace[i].bytes);
    MapsAreTables(d, trace[..i]);
    OwnCounter(ScanOf(d), trace, i, (v.src, v.body.port));
    OffPortEvents(d, RunMaps(d, NO_MAPS, trace[..i]), v, trace[i].now);
  }

  /** The port-scan entry of one source, before packet `i`, is the fold over
      that source's own packets. */
  lemma OwnPorts<K>(sel: Frame -> Option<(K, PS.Touch)>, trace: seq<Frame>, i: nat, k: K, x: PS.Touch)
    requires Stamped(trace) && i < |trace| && sel(trace[i]) == Some((k, x))
    requires forall fr :: sel(fr).Some? ==> sel(fr).value.1.time == fr.now
    ensures var own := OwnUpTo(sel, trace, i, k);
            && |own| > 0 && RW.Clock(PS.Times(own)) && own[|own| - 1] == x
            && Get(Table(PS.After, Touches(sel, trace[..i])), k) == Fold(PS.After, own[..|own| - 1])
  {
    var own, before := OwnUpTo(sel, trace, i, k), Own(Touches(sel, trace[..i]), k);
    OwnUpToStep(sel, trace, i, k, x);
    OwnSorted(sel, TouchTime, trace[..i + 1], k);
    SortedIsClock(own);
    TableIsFold(PS.After, Touches(sel, trace[..i]), k);
    assert (before + [x])[..|before|] == before;
  }

  function TouchTime(x: PS.Touch): int { x.time }

  lemma SortedIsClock(own: seq<PS.Touch>)
    requires Sorted(TouchTime, own)
    ensures RW.Clock(PS.Times(own))
  {
    var ts := PS.Times(own);
    assert forall j :: 0 <= j < |own| ==> ts[j] == TouchTime(own[j]);
  }

  /** A port-scan event goes out at precisely the packet that brings the
      fifteenth distinct port of a window of its source. */
  lemma ScanEdgeExact(d: Drops, trace: seq<Frame>, i: nat)
    requires Stamped(trace) && i < |trace| && OffSignaling(d, Decode(trace[i].bytes))
    ensures var own := OwnUpTo(PortOf(d), trace, i, Decode(trace[i].bytes).src);
            |own| > 0 && (EmitsScan(At(d, NO_MAPS, trace, i)) <==> PS.CrossesThreshold(own, |own| - 1))
  {
    var v := Decode(trace[i].bytes);
    var own, touch := OwnUpTo(PortOf(d), trace, i, v.src), PS.Touch(v.body.port, trace[i].now);
    OwnPorts(PortOf(d), trace, i, v.src, touch);
    PS.PortScanExact(own, |own| - 1);
    MapsAreTables(d, trace[..i]);
    OffPortEvents(d, RunMaps(d, NO_MAPS, trace[..i]), v, trace[i].now);
  }
}
