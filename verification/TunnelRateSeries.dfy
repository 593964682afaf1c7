/** tunnel_rate_series of cmd/ai-engine/scripts/build_real_dataset.py, the
    offline reimplementation of the kernel's per-tunnel counter, and its
    agreement with the kernel. */
module TunnelRateSeries {
  import opened Prelude
  import opened TunnelText
  import opened GtpuHeader
  import opened KeyedFold
  import opened PacketFilter
  import opened FilterRuns
  import RW = RateWindow

  datatype Sample = Sample(source: Addr, teid: TEID, time: int)

  /** The samples with a tunnel identity, keyed by tunnel. */
  function Keyed(samples: seq<Sample>): seq<(TunnelKey, int)> {
    if samples == [] then []
    else
      var init, last := Keyed(samples[..|samples| - 1]), samples[|samples| - 1];
      if last.teid == 0 then init else init + [((last.source, last.teid), last.time)]
  }

  /** The count for sample `i`: the window tally over its tunnel's own samples. */
  function SeriesAt(samples: seq<Sample>, i: nat): int
    requires i < |samples|
  {
    var s := samples[i];
    if s.teid == 0 then 0
    else
      var state := Fold(RW.Tally, Own(Keyed(samples[..i + 1]), (s.source, s.teid)));
      if state.None? then 0 else state.value.count
  }

  /** The Python loop over the state dictionary. */
  method Series(samples: seq<Sample>) returns (counts: seq<int>)
    ensures |counts| == |samples|
    ensures forall i :: 0 <= i < |samples| ==> counts[i] == SeriesAt(samples, i)
  {
    var state: map<TunnelKey, RW.RateEntry> := map[];
    counts := [];
    for n := 0 to |samples|
      invariant |counts| == n && state == Table(RW.Tally, Keyed(samples[..n]))
      invariant forall i :: 0 <= i < n ==> counts[i] == SeriesAt(samples, i)
    {
      var s := samples[n];
      SeriesStep(samples, n);
      if s.teid == 0 {
        counts := counts + [0];
        continue;
      }
      var key := (s.source, s.teid);
      if key !in state || s.time - state[key].start > RW.SIGNALING_RATE_WINDOW_NS {
        state := state[key := RW.RateEntry(s.time, 1)];
        counts := counts + [1];
      } else {
        var count := state[key].count + 1;
        state := state[key := RW.RateEntry(state[key].start, count)];
        counts := counts + [count];
      }
    }
  }

  /** One turn of the loop: the state and the count after sample `n`. */
  lemma SeriesStep(samples: seq<Sample>, n: nat)
    requires n < |samples|
    ensures var s := samples[n];
            var key, before, after := (s.source, s.teid), Table(RW.Tally, Keyed(samples[..n])), Table(RW.Tally,
              Keyed(samples[..n + 1]));
            if s.teid == 0 then after == before && SeriesAt(samples, n) == 0
            else
              var entry := RW.Tally(Get(before, key), s.time);
              after == before[key := entry] && SeriesAt(samples, n) == entry.count
  {
    assert samples[..n + 1][..n] == samples[..n];
    var s, keyed := samples[n], Keyed(samples[..n + 1]);
    if s.teid != 0 {
      assert keyed[..|keyed| - 1] == Keyed(samples[..n]);
      TableIsFold(RW.Tally, keyed, (s.source, s.teid));
    }
  }

  // ---------------------------------------------------------------- the reader

  /** _ip_offset of pcap_gtpu.py, for Ethernet captures: only IPv4, with at most
      one 802.1Q tag. */
  function IpOffset(f: seq<byte>): Option<nat> {
    if |f| < 14 then None
    else if U16(f, 12) == 0x8100 then
      if |f| < 18 then None else if U16(f, 16) == 0x0800 then Some(18) else None
    else if U16(f, 12) == 0x0800 then Some(14) else None
  }

  /** What read_udp_packets makes of one record: the source and the TEID, or None
      for a record it skips. */
  function ReadRecord(f: seq<byte>): Option<TunnelKey> {
    match IpOffset(f)
    case None => None
    case Some(l3) => ReadAt(f, l3)
  }

  /** The record's IPv4 header. */
  function ReadAt(f: seq<byte>, l3: nat): Option<TunnelKey> {
    if |f| < l3 + 20 || f[l3] / 16 != 4 || f[l3] % 16 < 5 || f[l3 + 9] != 17 || U16(f, l3 + 6) % 0x2000 != 0 then None
    else Some((V4(f[l3 + 12..l3 + 16]), TeidAt(f, l3 + f[l3] as int % 16 * 4)))
  }

  /** A record too short for its UDP header has no TEID. */
  function TeidAt(f: seq<byte>, udp: nat): TEID {
    if |f| < udp + 8 then 0 else TeidOf(U16(f, udp + 2), f[udp + 8..])
  }

  function SampleAt(fr: Frame): Option<Sample> {
    match ReadRecord(fr.bytes)
    case None => None
    case Some((source, teid)) => Some(Sample(source, teid, fr.now))
  }

  /** The packets the reader keeps, in order. */
  function Read(trace: seq<Frame>): seq<Sample> {
    if trace == [] then []
    else
      var init, last := Read(trace[..|trace| - 1]), SampleAt(trace[|trace| - 1]);
      if last.None? then init else init + [last.value]
  }

  /** read_udp_packets over the records of a capture. */
  method ReadUdpPackets(trace: seq<Frame>) returns (packets: seq<Sample>)
    ensures packets == Read(trace)
  {
    packets := [];
    for n := 0 to |trace|
      invariant packets == Read(trace[..n])
    {
      var f := trace[n].bytes;
      assert trace[..n + 1][..n] == trace[..n];
      var offset := IpOffset(f);
      if offset.None? || |f| < offset.value + 20 { continue; }
      var l3 := offset.value;
      if f[l3] / 16 != 4 { continue; }
      var ihl := f[l3] as int % 16 * 4;
      if ihl < 20 || f[l3 + 9] != 17 { continue; }
      if U16(f, l3 + 6) % 0x2000 != 0 { continue; }
      var source, udp := V4(f[l3 + 12..l3 + 16]), l3 + ihl;
      var teid: TEID := 0;
      if |f| >= udp + 8 && U16(f, udp + 2) == GTPU_PORT {
        var malformed;
        teid, malformed := PyParseGtpu(f[udp + 8..]);
      }
      packets := packets + [Sample(source, teid, trace[n].now)];
    }
    assert trace[..|trace|] == trace;
  }

  // ---------------------------------------------------------------- agreement

  /** The frame is IPv4 by its version field too, which the kernel never looks at. */
  predicate VersionFour(f: seq<byte>) {
    var l3 := if |f| >= 14 && U16(f, 12) == 0x8100 then 18 else 14;
    Decode(f).Packet? && Decode(f).src.V4? && l3 < |f| && f[l3] / 16 == 4
  }

  /** A datagram of the tunnel `k`, as the kernel sees it. */
  predicate OfTunnel(f: seq<byte>, k: TunnelKey) {
    SeenAs(Decode(f), k)
  }

  predicate SeenAs(v: View, k: TunnelKey) {
    v.Packet? && v.body.Datagram? && (v.src, TeidOf(v.body.port, v.body.payload)) == k
  }

  /** Reader and kernel on one IPv4 header. */
  lemma {:induction false} HeaderKeeps(f: seq<byte>, l3: nat, vlan: int, k: TunnelKey)
    requires k.1 != 0
    ensures ReadAt(f, l3) == Some(k) <==> SeenAs(IPv4At(f, l3, vlan), k) && l3 < |f| && f[l3] / 16 == 4
    ensures SeenAs(IPv4At(f, l3, vlan), k) && ReadAt(f, l3).Some? ==> l3 < |f| && f[l3] / 16 == 4
  {
  }

  /** The reader and the kernel see the same tunnel on the frames the reader keeps,
      and it keeps exactly those of version 4. */
  lemma {:induction false} ReaderKeeps(f: seq<byte>, k: TunnelKey)
    requires k.1 != 0
    ensures ReadRecord(f) == Some(k) <==> OfTunnel(f, k) && VersionFour(f)
    ensures OfTunnel(f, k) && ReadRecord(f).Some? ==> VersionFour(f)
  {
    if |f| >= 18 && U16(f, 12) == 0x8100 && U16(f, 16) == 0x0800 {
      HeaderKeeps(f, 18, U16(f, 14) % 0x1000, k);
    } else if |f| >= 14 && U16(f, 12) == 0x0800 {
      HeaderKeeps(f, 14, 0, k);
    }
  }

  lemma HeaderReads(f: seq<byte>, l3: nat, vlan: int)
    ensures var v := IPv4At(f, l3, vlan);
            ReadAt(f, l3) ==
            if v.Packet? && f[l3] / 16 == 4 && !v.body.Opaque?
            then Some((v.src, if v.body.Datagram? then TeidOf(v.body.port, v.body.payload) else 0)) else None
  {
  }

  /** The reader keeps exactly the IPv4 packets of version 4 that the kernel takes for
      UDP, each under the kernel's source and TEID; one too short for its header, or
      to another port, under no TEID. */
  lemma ReaderExact(f: seq<byte>)
    ensures var v := Decode(f);
            ReadRecord(f) ==
            if v.Packet? && VersionFour(f) && !v.body.Opaque?
            then Some((v.src, if v.body.Datagram? then TeidOf(v.body.port, v.body.payload) else 0)) else None
  {
    if |f| >= 18 && U16(f, 12) == 0x8100 && U16(f, 16) == 0x0800 {
      HeaderReads(f, 18, U16(f, 14) % 0x1000);
    } else if |f| >= 14 && U16(f, 12) == 0x0800 {
      HeaderReads(f, 14, 0);
    }
  }

  /** The packet moves tunnel `k`'s counter in the kernel. */
  predicate Counted(d: Drops, fr: Frame, k: TunnelKey) {
    TunnelTouch(d, Decode(fr.bytes), fr.now) == Some((k, fr.now))
  }

  /** The same packets in both worlds. */
  lemma {:induction false} SameOwnPackets(d: Drops, trace: seq<Frame>, k: TunnelKey)
    requires k.0 !in d.sources && k !in d.tunnels && k.1 != 0
    requires forall i :: 0 <= i < |trace| && Counted(d, trace[i], k) ==> VersionFour(trace[i].bytes)
    ensures Own(Touches(TunnelOf(d), trace), k) == Own(Keyed(Read(trace)), k)
  {
    if trace != [] {
      var init, last := trace[..|trace| - 1], trace[|trace| - 1];
      forall i | 0 <= i < |init| && Counted(d, init[i], k)
        ensures VersionFour(init[i].bytes) { assert init[i] == trace[i]; }
      SameOwnPackets(d, init, k);
      OwnGrows(TunnelOf(d), trace, k);
      OwnRead(trace, k);
      ReaderKeeps(last.bytes, k);
      assert TunnelOf(d)(last) == TunnelTouch(d, Decode(last.bytes), last.now);
      assert Counted(d, last, k) <==> OfTunnel(last.bytes, k);
    }
  }

  lemma {:induction false} OwnRead(trace: seq<Frame>, k: TunnelKey)
    requires trace != [] && k.1 != 0
    ensures var before, last := Own(Keyed(Read(trace[..|trace| - 1])), k), trace[|trace| - 1];
            Own(Keyed(Read(trace)), k) == if ReadRecord(last.bytes) == Some(k) then before + [last.now] else before
  {
    var samples := Read(trace);
    if SampleAt(trace[|trace| - 1]).Some? {
      var init := Read(trace[..|trace| - 1]);
      assert samples[..|samples| - 1] == init;
      OwnOfKeyed(init, samples, k);
    }
  }

  lemma {:induction false} OwnOfKeyed(init: seq<Sample>, samples: seq<Sample>, k: TunnelKey)
    requires samples != [] && samples[..|samples| - 1] == init && k.1 != 0
    ensures var s := samples[|samples| - 1];
            Own(Keyed(samples), k) == Own(Keyed(init), k) + (if (s.source, s.teid) == k then [s.time] else [])
  {
    var s := samples[|samples| - 1];
    if s.teid != 0 {
      var keyed := Keyed(samples);
      assert keyed[..|keyed| - 1] == Keyed(init);
    }
  }

  lemma TallyIsReported(own: seq<int>)
    requires RW.Clock(own) && 0 < |own| < RW.U32
    ensures Fold(RW.Tally, own).Some? && Fold(RW.Tally, own).value.count == RW.Reported(own, |own| - 1)
  {
    assert own[..|own| - 1 + 1] == own;
    RW.CounterIsReported(own, |own| - 1);
  }

  /** The rate in the event of frame `i`. */
  function KernelRate(d: Drops, trace: seq<Frame>, i: nat): Option<int>
    requires i < |trace|
  {
    var o := At(d, NO_MAPS, trace, i);
    if |o.events| == 1 then Some(o.events[0].tunnelRate) else None
  }

  lemma {:induction false} KernelRateIs(d: Drops, trace: seq<Frame>, i: nat, k: TunnelKey)
    requires Stamped(trace) && i < |trace| < RW.U32 && Counted(d, trace[i], k)
    ensures var own := OwnUpTo(TunnelOf(d), trace, i, k);
            |own| > 0 && KernelRate(d, trace, i) == Some(RW.Reported(own, |own| - 1))
    ensures k.0 !in d.sources && k !in d.tunnels && k.1 != 0 && OfTunnel(trace[i].bytes, k)
  {
    TunnelRateExact(d, trace, i, k);
  }

  /** The count the script gives to frame `i`, None for a frame the reader skips. */
  function ScriptCount(trace: seq<Frame>, i: nat): Option<int>
    requires i < |trace|
  {
    var upTo := Read(trace[..i + 1]);
    if ReadRecord(trace[i].bytes).None? || upTo == [] then None else Some(SeriesAt(upTo, |upTo| - 1))
  }

  /** A later frame changes no earlier count: this is the entry of the series over
      the whole capture. */
  lemma {:induction false} ReadPrefix(trace: seq<Frame>, i: nat)
    requires i <= |trace|
    ensures Read(trace[..i]) <= Read(trace)
  {
    if i < |trace| {
      var init := trace[..|trace| - 1];
      ReadPrefix(init, i);
      assert init[..i] == trace[..i];
    } else {
      assert trace[..i] == trace;
    }
  }

  lemma ScriptCountIsSeries(trace: seq<Frame>, i: nat)
    requires i < |trace| && ReadRecord(trace[i].bytes).Some?
    ensures |Read(trace[..i])| < |Read(trace)|
    ensures ScriptCount(trace, i) == Some(SeriesAt(Read(trace), |Read(trace[..i])|))
  {
    var whole, upTo, at := Read(trace), Read(trace[..i + 1]), |Read(trace[..i])|;
    ReadPrefix(trace, i + 1);
    assert trace[..i + 1][..i] == trace[..i];
    assert |upTo| == at + 1;
    SeriesOfPrefix(upTo, whole, at);
  }

  lemma SeriesOfPrefix(a: seq<Sample>, b: seq<Sample>, i: nat)
    requires a <= b && i < |a|
    ensures SeriesAt(a, i) == SeriesAt(b, i)
  {
    assert a[..i + 1] == b[..i + 1];
  }

  /** One packet: where every earlier frame of the tunnel is of version 4, the
      kernel's rate is the script's count. */
  lemma {:induction false} RateIsCount(d: Drops, trace: seq<Frame>, i: nat, k: TunnelKey)
    requires Stamped(trace) && i < |trace| < RW.U32 && Counted(d, trace[i], k)
    requires forall j :: 0 <= j <= i && Counted(d, trace[j], k) ==> VersionFour(trace[j].bytes)
    ensures KernelRate(d, trace, i).Some? && ScriptCount(trace, i) == KernelRate(d, trace, i)
  {
    var own := OwnUpTo(TunnelOf(d), trace, i, k);
    KernelRateIs(d, trace, i, k);
    SameOwnUpTo(d, trace, i, k);
    OwnIsClock(d, trace, i, k);
    CountOfOwn(trace, i, k, own);
  }

  lemma {:induction false} SameOwnUpTo(d: Drops, trace: seq<Frame>, i: nat, k: TunnelKey)
    requires i < |trace| && k.0 !in d.sources && k !in d.tunnels && k.1 != 0
    requires forall j :: 0 <= j <= i && Counted(d, trace[j], k) ==> VersionFour(trace[j].bytes)
    ensures OwnUpTo(TunnelOf(d), trace, i, k) == Own(Keyed(Read(trace[..i + 1])), k)
  {
    var past := trace[..i + 1];
    forall j | 0 <= j < |past| && Counted(d, past[j], k) ensures VersionFour(past[j].bytes) {
      assert past[j] == trace[j];
    }
    SameOwnPackets(d, past, k);
  }

  lemma {:induction false} OwnIsClock(d: Drops, trace: seq<Frame>, i: nat, k: TunnelKey)
    requires Stamped(trace) && i < |trace| < RW.U32 && Counted(d, trace[i], k)
    ensures var own := OwnUpTo(TunnelOf(d), trace, i, k); RW.Clock(own) && 0 < |own| < RW.U32
  {
    OwnCounter(TunnelOf(d), trace, i, k);
  }

  lemma {:induction false} CountOfOwn(trace: seq<Frame>, i: nat, k: TunnelKey, own: seq<int>)
    requires i < |trace| && k.1 != 0 && OfTunnel(trace[i].bytes, k) && VersionFour(trace[i].bytes)
    requires own == Own(Keyed(Read(trace[..i + 1])), k) && RW.Clock(own) && 0 < |own| < RW.U32
    ensures ScriptCount(trace, i) == Some(RW.Reported(own, |own| - 1))
  {
    LastRead(trace, i, k);
    TallyIsReported(own);
  }

  lemma {:induction false} LastRead(trace: seq<Frame>, i: nat, k: TunnelKey)
    requires i < |trace| && k.1 != 0 && OfTunnel(trace[i].bytes, k) && VersionFour(trace[i].bytes)
    ensures var upTo := Read(trace[..i + 1]);
            upTo != [] && upTo[|upTo| - 1] == Sample(k.0, k.1, trace[i].now) && upTo[..|upTo| - 1 + 1] == upTo
    ensures ReadRecord(trace[i].bytes) == Some(k)
  {
    ReaderKeeps(trace[i].bytes, k);
    assert trace[..i + 1][|trace[..i + 1]| - 1] == trace[i];
  }

  /** The script reproduces the kernel's rates of a tunnel, packet by packet, on
      any frames and amid any other traffic, if and only if every packet of that
      tunnel is of version 4. */
  lemma {:induction false} KernelMatchesScript(d: Drops, trace: seq<Frame>, k: TunnelKey)
    requires Stamped(trace) && |trace| < RW.U32
    ensures (forall i :: 0 <= i < |trace| && Counted(d, trace[i], k) ==>
      ScriptCount(trace, i) == KernelRate(d, trace, i)) <==>
            (forall i :: 0 <= i < |trace| && Counted(d, trace[i], k) ==> VersionFour(trace[i].bytes))
  {
    if forall i :: 0 <= i < |trace| && Counted(d, trace[i], k) ==> VersionFour(trace[i].bytes) {
      forall i | 0 <= i < |trace| && Counted(d, trace[i], k) ensures ScriptCount(trace, i) == KernelRate(d, trace, i) {
        RateIsCount(d, trace, i, k);
      }
    } else {
      var i :| 0 <= i < |trace| && Counted(d, trace[i], k) && !VersionFour(trace[i].bytes);
      KernelRateIs(d, trace, i, k);
      ReaderKeeps(trace[i].bytes, k);
      assert ScriptCount(trace, i) == None;
    }
  }

  /** On a packet without a tunnel identity both report nothing: the script counts 0,
      and so does every event of the kernel, whatever it saw before. */
  lemma {:induction false} NoTeidNoCount(d: Drops, m: Maps, trace: seq<Frame>, i: nat)
    requires i < |trace| && ReadRecord(trace[i].bytes).Some? && ReadRecord(trace[i].bytes).value.1 == 0
    ensures ScriptCount(trace, i) == Some(0)
    ensures forall e :: e in At(d, m, trace, i).events ==> e.teid == 0 && e.tunnelRate == 0
  {
    assert trace[..i + 1][|trace[..i + 1]| - 1] == trace[i];
    ReaderExact(trace[i].bytes);
    var v := Decode(trace[i].bytes);
    if Reaches(d, v) { NoTeidNoRate(d, RunMaps(d, m, trace[..i]), v, trace[i].now); }
  }

  // ---------------------------------------------------------------- where they part

  const ETHERNET: seq<byte> := [0, 0, 0, 0, 0, 0, 0, 0, 0, 0, 0, 0, 0x08, 0x00]
  const UDP_HEADER: seq<byte> := [0, 0, 0x08, 0x68, 0, 16, 0, 0]
  const TPDU_SEVEN: seq<byte> := [0x30, 0xFF, 0, 0, 0, 0, 0, 7]

  function IPv4Header(version: byte): seq<byte>
    requires version < 16
  {
    [version as int * 16 + 5, 0, 0, 36, 0, 0, 0, 0, 64, 17, 0, 0, 10, 0, 0, 1, 10, 0, 0, 2]
  }

  /** A T-PDU of tunnel 7 from 10.0.0.1, with any version field. */
  function TunnelFrame(version: byte): seq<byte>
    requires version < 16
  {
    ETHERNET + IPv4Header(version) + UDP_HEADER + TPDU_SEVEN
  }

  const TUNNEL_SEVEN: TunnelKey := (V4([10, 0, 0, 1]), 7)

  lemma FrameBytes(version: byte)
    requires version < 16
    ensures var f := TunnelFrame(version);
            && |f| == 50 && U16(f, 12) == 0x0800 && f[14] as int == version as int * 16 + 5 && f[23] == 17
            && U16(f, 20) == 0 && f[26..30] == [10, 0, 0, 1] && U16(f, 36) == GTPU_PORT && f[42..] == TPDU_SEVEN
  {
    var f, ip := TunnelFrame(version), IPv4Header(version);
    FrameParts(ETHERNET, ip, UDP_HEADER, TPDU_SEVEN);
    assert f[12] == ETHERNET[12] && f[13] == ETHERNET[13];
    assert f[14] == ip[0] && f[23] == ip[9] && f[20] == ip[6] && f[21] == ip[7];
    assert f[26..30] == ip[12..16];
    assert f[36] == UDP_HEADER[2] && f[37] == UDP_HEADER[3];
  }

  lemma FrameParts(eth: seq<byte>, ip: seq<byte>, udp: seq<byte>, payload: seq<byte>)
    requires |eth| == 14 && |ip| == 20 && |udp| == 8
    ensures var f := eth + ip + udp + payload;
            && (forall i :: 0 <= i < 14 ==> f[i] == eth[i]) && (forall i :: 14 <= i < 34 ==> f[i] == ip[i - 14])
            && (forall i :: 34 <= i < 42 ==> f[i] == udp[i - 34]) && f[42..] == payload
  {
  }

  /** A plain IPv4 datagram, whatever its version field says. */
  lemma PlainDecodes(f: seq<byte>)
    requires |f| >= 42 && U16(f, 12) == 0x0800 && f[14] % 16 == 5 && f[23] == 17 && U16(f, 20) == 0
    ensures Decode(f) == Packet(V4(f[26..30]), V4(f[30..34]), 0, Datagram(U16(f, 36), f[42..]))
    ensures VersionFour(f) <==> f[14] / 16 == 4
  {
  }

  lemma FrameDecodes(version: byte)
    requires version < 16
    ensures OfTunnel(TunnelFrame(version), TUNNEL_SEVEN)
    ensures VersionFour(TunnelFrame(version)) <==> version == 4
  {
    FrameBytes(version);
    PlainDecodes(TunnelFrame(version));
    assert TPDU_SEVEN[4..8] == [0, 0, 0, 7];
    assert ParseSpec(TPDU_SEVEN) == TPDU(7);
  }

  /** After one frame whose version field is 6, the kernel's rate for the tunnel is
      one higher than the script's. */
  lemma OddVersionDiverges()
    ensures var trace := [Frame(TunnelFrame(6), 0), Frame(TunnelFrame(4), 1)];
            KernelRate(Drops({}, {}), trace, 1) == Some(2) && ScriptCount(trace, 1) == Some(1)
  {
    var d, trace, k := Drops({}, {}), [Frame(TunnelFrame(6), 0), Frame(TunnelFrame(4), 1)], TUNNEL_SEVEN;
    FrameDecodes(6);
    FrameDecodes(4);
    assert Counted(d, trace[0], k) && Counted(d, trace[1], k);
    OddKernel(d, trace);
    ReaderKeeps(trace[0].bytes, k);
    ReaderKeeps(trace[1].bytes, k);
    OddScript(trace);
  }

  lemma OddKernel(d: Drops, trace: seq<Frame>)
    requires |trace| == 2 && trace[0].now == 0 && trace[1].now == 1
    requires Counted(d, trace[0], TUNNEL_SEVEN) && Counted(d, trace[1], TUNNEL_SEVEN)
    ensures KernelRate(d, trace, 1) == Some(2)
  {
    KernelRateIs(d, trace, 1, TUNNEL_SEVEN);
    OddOwn(d, trace);
  }

  lemma OddOwn(d: Drops, trace: seq<Frame>)
    requires |trace| == 2 && trace[0].now == 0 && trace[1].now == 1
    requires Counted(d, trace[0], TUNNEL_SEVEN) && Counted(d, trace[1], TUNNEL_SEVEN)
    ensures var own := OwnUpTo(TunnelOf(d), trace, 1, TUNNEL_SEVEN); |own| == 2 && RW.Reported(own, 1) == 2
  {
    OwnTwo(TunnelOf(d), trace, TUNNEL_SEVEN, 0, 1);
    assert RW.Reported([0, 1], 1) == 2;
  }

  lemma OddScript(trace: seq<Frame>)
    requires |trace| == 2 && trace[1].now == 1
    requires ReadRecord(trace[0].bytes) == None && ReadRecord(trace[1].bytes) == Some(TUNNEL_SEVEN)
    ensures ScriptCount(trace, 1) == Some(1)
  {
    var k := TUNNEL_SEVEN;
    assert trace[..1 + 1] == trace && trace[..1][..0] == [];
    var samples := Read(trace);
    assert Read(trace[..1]) == [] by { assert Read([]) == []; assert SampleAt(trace[..1][0]) == None; }
    assert samples == [Sample(k.0, k.1, 1)];
    assert samples[..1] == samples;
    OwnRead(trace, k);
    OwnRead(trace[..1], k);
    assert Own(Keyed(samples), k) == [1];
    assert [1][..0] == [];
    assert Fold(RW.Tally, [1]) == Some(RW.RateEntry(1, 1));
  }
}
