/** One more blocked tunnel or source, two runs over the same packets: nothing
    changes but its own packets. */
module NonInterference {
  import opened Prelude
  import opened TunnelText
  import opened PacketFilter
  import opened FilterRuns
  import RW = RateWindow
  import PS = PortScan

  /** A packet of the tunnel (s, t) that gets as far as the tunnel blocklist. */
  predicate Hits(d: Drops, v: View, k: TunnelKey) {
    Reaches(d, v) && v.src == k.0 && TeidOf(v.body.port, v.body.payload) == k.1
  }

  function Blocking(d: Drops, k: TunnelKey): Drops {
    d.(tunnels := d.tunnels + {k})
  }

  /** The same maps but for the counter of `k`, which the blocked run leaves as
      it found it. */
  ghost predicate AgreeBut(m0: Maps, m: Maps, b: Maps, k: TunnelKey) {
    && b.signalRate == m.signalRate && b.scanRate == m.scanRate && b.portScan == m.portScan
    && b.tunnelRate - {k} == m.tunnelRate - {k}
    && Get(b.tunnelRate, k) == Get(m0.tunnelRate, k)
  }

  lemma {:induction false} SameButOne<V>(a: map<TunnelKey, V>, b: map<TunnelKey, V>, k: TunnelKey, j: TunnelKey)
    requires a - {k} == b - {k} && j != k
    ensures Get(a, j) == Get(b, j)
  {
    assert Get(a, j) == Get(a - {k}, j) && Get(b, j) == Get(b - {k}, j);
  }

  lemma {:induction false} UpdateButOne<V>(a: map<TunnelKey, V>, b: map<TunnelKey, V>, k: TunnelKey, j: TunnelKey, v: V)
    requires a - {k} == b - {k} && j != k
    ensures a[j := v] - {k} == b[j := v] - {k} && Get(b[j := v], k) == Get(b, k)
  {
    assert a[j := v] - {k} == (a - {k})[j := v];
    assert b[j := v] - {k} == (b - {k})[j := v];
  }

  /** One packet of the blocked tunnel: dropped without a trace, except that its
      source's signaling rate is counted as in the other run. */
  lemma {:induction false} HitStep(d: Drops, m0: Maps, m: Maps, b: Maps, v: View, now: int, k: TunnelKey)
    requires AgreeBut(m0, m, b, k) && Hits(d, v, k) && k.1 != 0 && k !in d.tunnels
    ensures var o := Filter(Blocking(d, k), b, v, now);
            o.verdict == Drop && o.events == [] && AgreeBut(m0, Filter(d, m, v, now).maps, o.maps, k)
  {
    assert SignalingPort(v.body.port);
    var o := Signaling(d, m, v, now);
    assert o.maps.tunnelRate - {k} == m.tunnelRate - {k};
  }

  lemma {:induction false} MissSignaling(d: Drops, m0: Maps, m: Maps, b: Maps, v: View, now: int, k: TunnelKey)
    requires AgreeBut(m0, m, b, k) && k.1 != 0
    requires Reaches(d, v) && SignalingPort(v.body.port) && (v.src, TeidOf(v.body.port, v.body.payload)) != k
    ensures var o, o' := Signaling(d, m, v, now), Signaling(Blocking(d, k), b, v, now);
            o'.verdict == o.verdict && o'.events == o.events && AgreeBut(m0, o.maps, o'.maps, k)
  {
    var key := (v.src, TeidOf(v.body.port, v.body.payload));
    if key.1 == 0 {
    } else if key in d.tunnels {
      assert key in Blocking(d, k).tunnels;
    } else {
      assert key !in Blocking(d, k).tunnels;
      SameButOne(m.tunnelRate, b.tunnelRate, k, key);
      UpdateButOne(m.tunnelRate, b.tunnelRate, k, key, RW.Count(Get(m.tunnelRate, key), now));
    }
  }

  /** Any other packet: the same verdict and events, and the maps still agree. */
  lemma {:induction false} MissStep(d: Drops, m0: Maps, m: Maps, b: Maps, v: View, now: int, k: TunnelKey)
    requires AgreeBut(m0, m, b, k) && !Hits(d, v, k) && k.1 != 0
    ensures var o, o' := Filter(d, m, v, now), Filter(Blocking(d, k), b, v, now);
            o'.verdict == o.verdict && o'.events == o.events && AgreeBut(m0, o.maps, o'.maps, k)
  {
    if Reaches(d, v) && SignalingPort(v.body.port) {
      MissSignaling(d, m0, m, b, v, now, k);
    }
  }

  /** What blocking `k` may change on one packet. */
  ghost predicate OnlyHitsChange(d: Drops, v: View, k: TunnelKey, o: Outcome, o': Outcome) {
    if Hits(d, v, k) then o'.verdict == Drop && o'.events == []
    else o'.verdict == o.verdict && o'.events == o.events
  }

  lemma {:induction false} Step(d: Drops, m0: Maps, m: Maps, b: Maps, v: View, now: int, k: TunnelKey)
    requires AgreeBut(m0, m, b, k) && k.1 != 0 && k !in d.tunnels
    ensures var o, o' := Filter(d, m, v, now), Filter(Blocking(d, k), b, v, now);
            OnlyHitsChange(d, v, k, o, o') && AgreeBut(m0, o.maps, o'.maps, k)
  {
    if Hits(d, v, k) { HitStep(d, m0, m, b, v, now, k); } else { MissStep(d, m0, m, b, v, now, k); }
  }

  lemma {:induction false} RunsAgree(d: Drops, m: Maps, trace: seq<Frame>, k: TunnelKey)
    requires k.1 != 0 && k !in d.tunnels
    ensures AgreeBut(m, RunMaps(d, m, trace), RunMaps(Blocking(d, k), m, trace), k)
  {
    if trace != [] {
      var init, last := trace[..|trace| - 1], trace[|trace| - 1];
      RunsAgree(d, m, init, k);
      Step(d, m, RunMaps(d, m, init), RunMaps(Blocking(d, k), m, init), Decode(last.bytes), last.now, k);
    }
  }

  /** Non-interference over whole runs: from any maps and on any packets,
      blocking the tunnel `k` changes the verdicts and events of that tunnel's
      packets and its own rate counter, and nothing else: after any number of
      packets every other entry of every map is the same in both runs. */
  lemma {:induction false} BlockedTunnelOnly(d: Drops, m: Maps, trace: seq<Frame>, i: nat, k: TunnelKey)
    requires i < |trace| && k.1 != 0 && k !in d.tunnels
    ensures OnlyHitsChange(d, Decode(trace[i].bytes), k, At(d, m, trace, i), At(Blocking(d, k), m, trace, i))
    ensures AgreeBut(m, RunMaps(d, m, trace[..i + 1]), RunMaps(Blocking(d, k), m, trace[..i + 1]), k)
  {
    RunsAgree(d, m, trace[..i], k);
    RunsAgree(d, m, trace[..i + 1], k);
    Step(d, m, RunMaps(d, m, trace[..i]), RunMaps(Blocking(d, k), m, trace[..i]), Decode(trace[i].bytes),
      trace[i].now, k);
  }

  // ---------------------------------------------------------------- one more blocked source

  function BlockingSource(d: Drops, s: Addr): Drops {
    d.(sources := d.sources + {s})
  }

  /** The blocked run has the other run's entries, except that the blocked source's
      own are as they were at first. */
  ghost predicate AgreeOff<K(!new), V>(m0: map<K, V>, m: map<K, V>, b: map<K, V>, mine: K -> bool) {
    forall k :: Get(b, k) == if mine(k) then Get(m0, k) else Get(m, k)
  }

  ghost predicate AgreeOffSource(m0: Maps, m: Maps, b: Maps, s: Addr) {
    && AgreeOff(m0.signalRate, m.signalRate, b.signalRate, (a: Addr) => a == s)
    && AgreeOff(m0.portScan, m.portScan, b.portScan, (a: Addr) => a == s)
    && AgreeOff(m0.scanRate, m.scanRate, b.scanRate, (k: ScanKey) => k.0 == s)
    && AgreeOff(m0.tunnelRate, m.tunnelRate, b.tunnelRate, (k: TunnelKey) => k.0 == s)
  }

  lemma BumpMine<K(!new), V, X>(f: (Option<V>, X) -> V, m0: map<K, V>, m: map<K, V>, b: map<K, V>, mine: K -> bool,
                                touch: Option<(K, X)>)
    requires AgreeOff(m0, m, b, mine) && (touch.Some? ==> mine(touch.value.0))
    ensures AgreeOff(m0, Bump(f, m, touch), b, mine)
  {
  }

  lemma BumpOther<K(!new), V, X>(f: (Option<V>, X) -> V, m0: map<K, V>, m: map<K, V>, b: map<K, V>, mine: K -> bool,
                                 touch: Option<(K, X)>)
    requires AgreeOff(m0, m, b, mine) && (touch.Some? ==> !mine(touch.value.0))
    ensures AgreeOff(m0, Bump(f, m, touch), Bump(f, b, touch), mine)
  {
  }

  /** A packet of the blocked source: dropped, and without a trace. */
  lemma SourceHit(d: Drops, m0: Maps, m: Maps, b: Maps, v: View, now: int, s: Addr)
    requires AgreeOffSource(m0, m, b, s) && v.Packet? && v.src == s
    ensures Filter(BlockingSource(d, s), b, v, now) == Outcome(Drop, b, [])
    ensures AgreeOffSource(m0, Filter(d, m, v, now).maps, b, s)
  {
    FilterTouches(d, m, v, now);
    BumpMine(RW.Count, m0.signalRate, m.signalRate, b.signalRate, (a: Addr) => a == s, SignalTouch(d, v, now));
    BumpMine(RW.Count, m0.tunnelRate, m.tunnelRate, b.tunnelRate, (k: TunnelKey) => k.0 == s, TunnelTouch(d, v, now));
    BumpMine(RW.Count, m0.scanRate, m.scanRate, b.scanRate, (k: ScanKey) => k.0 == s, ScanTouch(d, v, now));
    BumpMine(PS.After, m0.portScan, m.portScan, b.portScan, (a: Addr) => a == s, PortTouch(d, v, now));
  }

  lemma SourceMissMaps(d: Drops, m0: Maps, m: Maps, b: Maps, v: View, now: int, s: Addr)
    requires AgreeOffSource(m0, m, b, s) && (v.Packet? ==> v.src != s)
    ensures AgreeOffSource(m0, Filter(d, m, v, now).maps, Filter(BlockingSource(d, s), b, v, now).maps, s)
  {
    var d' := BlockingSource(d, s);
    FilterTouches(d, m, v, now);
    FilterTouches(d', b, v, now);
    assert Reaches(d, v) == Reaches(d', v);
    BumpOther(RW.Count, m0.signalRate, m.signalRate, b.signalRate, (a: Addr) => a == s, SignalTouch(d, v, now));
    BumpOther(RW.Count, m0.tunnelRate, m.tunnelRate, b.tunnelRate, (k: TunnelKey) => k.0 == s, TunnelTouch(d, v, now));
    BumpOther(RW.Count, m0.scanRate, m.scanRate, b.scanRate, (k: ScanKey) => k.0 == s, ScanTouch(d, v, now));
    BumpOther(PS.After, m0.portScan, m.portScan, b.portScan, (a: Addr) => a == s, PortTouch(d, v, now));
  }

  /** Any other packet: the same verdict and events. */
  lemma SourceMiss(d: Drops, m0: Maps, m: Maps, b: Maps, v: View, now: int, s: Addr)
    requires AgreeOffSource(m0, m, b, s) && (v.Packet? ==> v.src != s)
    ensures var o, o' := Filter(d, m, v, now), Filter(BlockingSource(d, s), b, v, now);
            o'.verdict == o.verdict && o'.events == o.events
  {
    if Reaches(d, v) {
      var teid := TeidOf(v.body.port, v.body.payload);
      assert Get(b.tunnelRate, (v.src, teid)) == Get(m.tunnelRate, (v.src, teid));
      assert Get(b.scanRate, (v.src, v.body.port)) == Get(m.scanRate, (v.src, v.body.port));
      assert Get(b.portScan, v.src) == Get(m.portScan, v.src);
    }
  }

  lemma {:induction false} SourceRunsAgree(d: Drops, m: Maps, trace: seq<Frame>, s: Addr)
    ensures AgreeOffSource(m, RunMaps(d, m, trace), RunMaps(BlockingSource(d, s), m, trace), s)
  {
    if trace != [] {
      var init, last := trace[..|trace| - 1], trace[|trace| - 1];
      SourceRunsAgree(d, m, init, s);
      var v, a, b := Decode(last.bytes), RunMaps(d, m, init), RunMaps(BlockingSource(d, s), m, init);
      if v.Packet? && v.src == s {
        SourceHit(d, m, a, b, v, last.now, s);
      } else {
        SourceMissMaps(d, m, a, b, v, last.now, s);
      }
    }
  }

  /** The same for a source: from any maps and on any packets, blocking `s` drops
      that source's packets unrecorded, leaves every other verdict and event alone,
      and after any number of packets every entry of another source is the same in
      both runs, while `s`'s own are as they were when the run began. */
  lemma BlockedSourceOnly(d: Drops, m: Maps, trace: seq<Frame>, i: nat, s: Addr)
    requires i < |trace|
    ensures var v, o, o' := Decode(trace[i].bytes), At(d, m, trace, i), At(BlockingSource(d, s), m, trace, i);
            if v.Packet? && v.src == s then o'.verdict == Drop && o'.events == []
            else o'.verdict == o.verdict && o'.events == o.events
    ensures AgreeOffSource(m, RunMaps(d, m, trace[..i + 1]), RunMaps(BlockingSource(d, s), m, trace[..i + 1]), s)
  {
    SourceRunsAgree(d, m, trace[..i], s);
    SourceRunsAgree(d, m, trace[..i + 1], s);
    var v, a, b := Decode(trace[i].bytes), RunMaps(d, m, trace[..i]), RunMaps(BlockingSource(d, s), m, trace[..i]);
    if v.Packet? && v.src == s {
      SourceHit(d, m, a, b, v, trace[i].now, s);
    } else {
      SourceMiss(d, m, a, b, v, trace[i].now, s);
    }
  }
}
