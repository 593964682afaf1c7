/** pkg/detect/gtpu_source_flood.go: the per-peer flood rule. Each source has a
    window with a packet count, a bounded set of TEIDs and a cooldown; the number
    of sources held at once is bounded by a ring. */
module SourceFlood {
  import opened Prelude
  import opened TunnelText
  import opened KeyedFold
  import opened FifoRing
  import RW = RateWindow

  datatype Config = Config(enabled: bool, packetsPerSecond: nat, distinctTunnels: int,
                           window: int, cooldown: int, maxSources: int, maxTunnels: int)

  predicate Sane(cfg: Config) {
    cfg.window > 0 && cfg.cooldown > 0 && cfg.maxSources > 0 && cfg.maxTunnels > 0
  }

  /** NewGTPUSourceFloodDetector's defaults. */
  function WithDefaults(cfg: Config): (r: Config)
    ensures Sane(r)
  {
    cfg.(window := if cfg.window <= 0 then 1_000_000_000 else cfg.window,
         cooldown := if cfg.cooldown <= 0 then 30_000_000_000 else cfg.cooldown,
         maxSources := if cfg.maxSources <= 0 then 1024 else cfg.maxSources,
         maxTunnels := if cfg.maxTunnels <= 0 then 4096 else cfg.maxTunnels)
  }

  /** sourceWindow; lastFired None is Go's zero time. */
  datatype SourceWindow = SourceWindow(start: int, packets: int, teids: set<TEID>, lastFired: Option<int>)

  datatype Packet = Packet(teid: TEID, now: int)
  datatype Observed = Observed(packets: int, distinct: int, emit: bool)

  predicate Report(cfg: Config, packets: int, distinct: int) {
    || (cfg.packetsPerSecond > 0 && packets >= cfg.packetsPerSecond)
    || (cfg.distinctTunnels > 0 && distinct >= cfg.distinctTunnels)
  }

  predicate Configured(cfg: Config) {
    cfg.enabled && (cfg.packetsPerSecond > 0 || cfg.distinctTunnels > 0)
  }

  /** The window a packet is counted in: a new one, a reset one or the current. */
  function Opened(cfg: Config, prior: Option<SourceWindow>, now: int): SourceWindow {
    match prior
    case None => SourceWindow(now, 0, {}, None)
    case Some(w) => if now - w.start >= cfg.window then SourceWindow(now, 0, {}, w.lastFired) else w
  }

  function Counted(cfg: Config, prior: Option<SourceWindow>, p: Packet): SourceWindow {
    var w := Opened(cfg, prior, p.now);
    w.(packets := (w.packets + 1) % RW.U32,
       teids := if |w.teids| < cfg.maxTunnels then w.teids + {p.teid} else w.teids)
  }

  predicate Emits(cfg: Config, prior: Option<SourceWindow>, p: Packet) {
    var w := Counted(cfg, prior, p);
    Report(cfg, w.packets, |w.teids|) && (w.lastFired.None? || p.now - w.lastFired.value >= cfg.cooldown)
  }

  /** One source's state after a packet. */
  function Folded(cfg: Config, prior: Option<SourceWindow>, p: Packet): SourceWindow {
    var w := Counted(cfg, prior, p);
    if Emits(cfg, prior, p) then w.(lastFired := Some(p.now)) else w
  }

  function Output(cfg: Config, prior: Option<SourceWindow>, p: Packet): Observed {
    var w := Counted(cfg, prior, p);
    Observed(w.packets, |w.teids|, Emits(cfg, prior, p))
  }

  function Folder(cfg: Config): (Option<SourceWindow>, Packet) -> SourceWindow {
    (prior, p) => Folded(cfg, prior, p)
  }

  // ---------------------------------------------------------------- the detector

  /** The sources held: admission order and windows. */
  datatype Held = Held(fifo: seq<string>, windows: map<string, SourceWindow>)

  const NOBODY := Held([], map[])

  function Observe(cfg: Config, h: Held, source: string, p: Packet): Held {
    if source in h.windows then h.(windows := h.windows[source := Folded(cfg, Some(h.windows[source]), p)])
    else
      Held(Admitted(h.fifo, cfg.maxSources, source),
           MakeRoom(h.fifo, h.windows, cfg.maxSources)[source := Folded(cfg, None, p)])
  }

  ghost predicate Consistent(h: Held, capacity: int) {
    InStep(h.fifo, h.windows, capacity)
  }

  lemma ObserveConsistent(cfg: Config, h: Held, source: string, p: Packet)
    requires Consistent(h, cfg.maxSources) && Sane(cfg)
    ensures Consistent(Observe(cfg, h, source, p), cfg.maxSources)
  {
    if source in h.windows {
      assert h.windows[source := Folded(cfg, Some(h.windows[source]), p)].Keys == h.windows.Keys;
    } else {
      AdmitInStep(h.fifo, h.windows, cfg.maxSources, source, Folded(cfg, None, p));
    }
  }

  class Detector {
    const cfg: Config
    var sources: map<string, SourceWindow>
    const order: array<string>
    var next: nat

    ghost predicate Valid()
      reads this, order
    {
      && Sane(cfg) && order.Length == cfg.maxSources && next < order.Length && |sources| <= order.Length
      && (|sources| < order.Length ==> next == |sources|)
      && Consistent(State(), order.Length)
    }

    ghost function State(): Held
      requires 0 < order.Length && next < order.Length && |sources| <= order.Length
      reads this, order
    {
      Held(Live(order[..], next, |sources|), sources)
    }

    constructor (cfg: Config)
      ensures Valid() && fresh(order) && State() == NOBODY
      ensures this.cfg == cfg.(window := if cfg.window > 0 then cfg.window else 1_000_000_000,
                               cooldown := if cfg.cooldown > 0 then cfg.cooldown else 30_000_000_000,
                               maxSources := if cfg.maxSources > 0 then cfg.maxSources else 1024,
                               maxTunnels := if cfg.maxTunnels > 0 then cfg.maxTunnels else 4096)
    {
      this.cfg := WithDefaults(cfg);
      sources := map[];
      order := new string[WithDefaults(cfg).maxSources](_ => "");
      next := 0;
    }

    /** The admission of a source not held: the oldest makes room. */
    method AdmitSource(source: string, fresh': SourceWindow)
      requires Valid() && source !in sources
      modifies this`sources, this`next, order
      ensures |sources| <= order.Length && next < order.Length
      ensures |sources| < order.Length ==> next == |sources|
      ensures State().fifo == Admitted(old(State()).fifo, order.Length, source)
      ensures sources == MakeRoom(old(State()).fifo, old(sources), order.Length)[source := fresh']
    {
      ghost var h, slots, held := State(), order[..], sources;
      InStepSize(h.fifo, held, order.Length);
      AdmitSize(h.fifo, held, order.Length, source, fresh');
      RingAdmits(slots, next, |held|, source);
      if |sources| >= order.Length {
        assert order[next] == h.fifo[0];
        sources := sources - {order[next]};
      }
      assert sources == MakeRoom(h.fifo, held, order.Length);
      order[next] := source;
      assert order[..] == slots[next := source];
      next := NextSlot(next, order.Length);
      sources := sources[source := fresh'];
    }

    /** observe: one packet folded into its source's window. */
    method ObservePacket(source: string, teid: TEID, now: int) returns (r: Observed)
      requires Valid()
      modifies this`sources, this`next, order
      ensures Valid()
      ensures State() == Observe(cfg, old(State()), source, Packet(teid, now))
      ensures r == Output(cfg, Get(old(sources), source), Packet(teid, now))
    {
      ghost var h, p := State(), Packet(teid, now);
      ObserveConsistent(cfg, h, source, p);
      var w;
      r, w := Advance(if source in sources then sources[source] else SourceWindow(now, 0, {}, None), teid, now,
                      Get(sources, source));
      if source in sources {
        InStepSize(h.fifo, h.windows, order.Length);
        sources := sources[source := w];
        InStepSize(h.fifo, sources, order.Length);
      } else {
        AdmitSource(source, w);
      }
    }

    /** The window itself: reset if it has run out, count, and decide. */
    method Advance(current: SourceWindow, teid: TEID, now: int, ghost prior: Option<SourceWindow>)
      returns (r: Observed, w: SourceWindow)
      requires Sane(cfg) && current == (if prior.Some? then prior.value else SourceWindow(now, 0, {}, None))
      ensures w == Folded(cfg, prior, Packet(teid, now)) && r == Output(cfg, prior, Packet(teid, now))
    {
      w := current;
      if now - w.start >= cfg.window {
        w := w.(start := now, packets := 0, teids := {});
      }
      w := w.(packets := (w.packets + 1) % RW.U32);
      if |w.teids| < cfg.maxTunnels {
        w := w.(teids := w.teids + {teid});
      }
      var emit := Report(cfg, w.packets, |w.teids|) && !(w.lastFired.Some? && now - w.lastFired.value < cfg.cooldown);
      r := Observed(w.packets, |w.teids|, emit);
      if emit { w := w.(lastFired := Some(now)); }
    }

    /** Evaluate: tunneled packets with a source, while a threshold is set. */
    method Evaluate(gtpu: bool, source: string, teid: TEID, now: int) returns (r: Observed)
      requires Valid()
      modifies this`sources, this`next, order
      ensures Valid()
      ensures var counted := && cfg.enabled && (cfg.packetsPerSecond > 0 || cfg.distinctTunnels > 0)
                             && gtpu && teid != 0 && source != "";
              && State() == (if counted then Observe(cfg, old(State()), source, Packet(teid, now)) else old(State()))
              && r == (if counted then Output(cfg, Get(old(sources), source), Packet(teid, now))
                else Observed(0, 0, false))
    {
      if !Configured(cfg) { return Observed(0, 0, false); }
      if !gtpu || teid == 0 || source == "" { return Observed(0, 0, false); }
      r := ObservePacket(source, teid, now);
    }
  }

  // ---------------------------------------------------------------- independence

  datatype Arrival = Arrival(source: string, packet: Packet)

  function Keyed(xs: seq<Arrival>): seq<(string, Packet)> {
    seq(|xs|, i requires 0 <= i < |xs| => (xs[i].source, xs[i].packet))
  }

  function After(cfg: Config, xs: seq<Arrival>): Held {
    if xs == [] then NOBODY
    else
      var last := xs[|xs| - 1];
      Observe(cfg, After(cfg, xs[..|xs| - 1]), last.source, last.packet)
  }

  function SourcesOf(xs: seq<Arrival>): set<string> {
    set x | x in xs :: x.source
  }

  lemma SourcesStep(xs: seq<Arrival>)
    requires xs != []
    ensures SourcesOf(xs) == SourcesOf(xs[..|xs| - 1]) + {xs[|xs| - 1].source}
  {
    assert xs == xs[..|xs| - 1] + [xs[|xs| - 1]];
  }

  /** With at most maxSources sources nobody is evicted, and the windows are a
      table with one independent fold per source. */
  lemma {:induction false} WindowsAreTable(cfg: Config, xs: seq<Arrival>)
    requires Sane(cfg) && |SourcesOf(xs)| <= cfg.maxSources
    ensures After(cfg, xs).windows == Table(Folder(cfg), Keyed(xs))
    ensures After(cfg, xs).windows.Keys <= SourcesOf(xs)
  {
    if xs != [] {
      var init, last := xs[..|xs| - 1], xs[|xs| - 1];
      SourcesStep(xs);
      SubsetSize(SourcesOf(init), SourcesOf(xs));
      WindowsAreTable(cfg, init);
      var h := After(cfg, init);
      HasRoom(h.windows, SourcesOf(xs), last.source);
      ObserveWithRoom(cfg, h, last.source, last.packet);
      assert Keyed(xs)[..|xs| - 1] == Keyed(init);
    }
  }

  lemma HasRoom<V>(m: map<string, V>, sources: set<string>, source: string)
    requires m.Keys <= sources && source in sources
    ensures source in m || |m| < |sources|
  {
    if source !in m {
      SubsetSize(m.Keys + {source}, sources);
      assert |m| == |m.Keys|;
    }
  }

  lemma ObserveWithRoom(cfg: Config, h: Held, source: string, p: Packet)
    requires source in h.windows || |h.windows| < cfg.maxSources
    ensures Observe(cfg, h, source, p).windows == h.windows[source := Folder(cfg)(Get(h.windows, source), p)]
  {
  }

  /** The arrivals of one source. */
  function From(xs: seq<Arrival>, source: string): (r: seq<Arrival>)
    ensures forall i :: 0 <= i < |r| ==> r[i].source == source
  {
    if xs == [] then []
    else
      var init, last := From(xs[..|xs| - 1], source), xs[|xs| - 1];
      if last.source == source then init + [last] else init
  }

  lemma {:induction false} SameOwn(xs: seq<Arrival>, source: string)
    ensures Own(Keyed(From(xs, source)), source) == Own(Keyed(xs), source)
  {
    if xs != [] {
      var init, last := xs[..|xs| - 1], xs[|xs| - 1];
      SameOwn(init, source);
      OwnSnoc(xs, source);
      if last.source == source {
        var mine := From(xs, source);
        assert mine[..|mine| - 1] == From(init, source);
        OwnSnoc(mine, source);
      }
    }
  }

  lemma OwnSnoc(xs: seq<Arrival>, source: string)
    requires xs != []
    ensures var before, last := Own(Keyed(xs[..|xs| - 1]), source), xs[|xs| - 1];
            Own(Keyed(xs), source) == if last.source == source then before + [last.packet] else before
  {
    assert Keyed(xs)[..|xs| - 1] == Keyed(xs[..|xs| - 1]);
  }

  lemma AloneFits(xs: seq<Arrival>, source: string)
    requires forall i :: 0 <= i < |xs| ==> xs[i].source == source
    ensures |SourcesOf(xs)| <= 1
  {
    assert SourcesOf(xs) <= {source};
    SubsetSize(SourcesOf(xs), {source});
  }

  /** Independence: in a run with at most maxSources sources, the counts and the
      emission for each packet are those of a detector fed only its source's
      packets. */
  lemma SourcesIndependent(cfg: Config, xs: seq<Arrival>, i: nat)
    requires Sane(cfg) && i < |xs| && |SourcesOf(xs[..i])| <= cfg.maxSources
    ensures var x := xs[i];
            Output(cfg, Get(After(cfg, xs[..i]).windows, x.source), x.packet) ==
            Output(cfg, Get(After(cfg, From(xs[..i], x.source)).windows, x.source), x.packet)
  {
    var source, past := xs[i].source, xs[..i];
    WindowIsFold(cfg, past, source);
    AloneFits(From(past, source), source);
    WindowIsFold(cfg, From(past, source), source);
    SameOwn(past, source);
  }

  /** One source's window is the fold over its own packets. */
  lemma WindowIsFold(cfg: Config, xs: seq<Arrival>, source: string)
    requires Sane(cfg) && |SourcesOf(xs)| <= cfg.maxSources
    ensures Get(After(cfg, xs).windows, source) == Fold(Folder(cfg), Own(Keyed(xs), source))
  {
    WindowsAreTable(cfg, xs);
    TableIsFold(Folder(cfg), Keyed(xs), source);
  }

  // ---------------------------------------------------------------- one source

  function Times(ps: seq<Packet>): seq<int> {
    seq(|ps|, i requires 0 <= i < |ps| => ps[i].now)
  }

  /** The packet that opened the window packet `i` is counted in. */
  function Opener(cfg: Config, ps: seq<Packet>, i: nat): (w: nat)
    requires i < |ps|
    ensures w <= i
  {
    RW.Opener(Times(ps), cfg.window - 1, i)
  }

  function SeenTeids(ps: seq<Packet>, w: nat, i: nat): set<TEID>
    requires i < |ps|
  {
    set j | w <= j <= i :: ps[j].teid
  }

  function StateAt(cfg: Config, ps: seq<Packet>, i: nat): Option<SourceWindow>
    requires i <= |ps|
  {
    Fold(Folder(cfg), ps[..i])
  }

  lemma StateStep(cfg: Config, ps: seq<Packet>, i: nat)
    requires i < |ps|
    ensures StateAt(cfg, ps, i + 1) == Some(Folded(cfg, StateAt(cfg, ps, i), ps[i]))
  {
    assert ps[..i + 1][..i] == ps[..i];
  }

  /** Firing changes nothing but the cooldown. */
  lemma FoldedCounts(cfg: Config, prior: Option<SourceWindow>, p: Packet)
    ensures Folded(cfg, prior, p) == Counted(cfg, prior, p).(lastFired := Folded(cfg, prior, p).lastFired)
  {
  }

  /** The window's counts: its packets, and its TEIDs up to the cap. */
  ghost predicate Describes(cfg: Config, s: SourceWindow, ps: seq<Packet>, w: nat, i: nat)
    requires w <= i < |ps|
  {
    var seen := SeenTeids(ps, w, i);
    && s.start == ps[w].now && s.packets == i - w + 1
    && s.teids <= seen && |s.teids| == (if |seen| < cfg.maxTunnels then |seen| else cfg.maxTunnels)
  }

  lemma OpenDescribes(cfg: Config, prior: Option<SourceWindow>, ps: seq<Packet>, i: nat)
    requires Sane(cfg) && i < |ps| && (prior.Some? ==> ps[i].now - prior.value.start >= cfg.window)
    ensures Describes(cfg, Counted(cfg, prior, ps[i]), ps, i, i)
  {
    assert SeenTeids(ps, i, i) == {ps[i].teid};
    assert {} + {ps[i].teid} == {ps[i].teid};
  }

  lemma StayDescribes(cfg: Config, prior: SourceWindow, ps: seq<Packet>, w: nat, i: nat)
    requires Sane(cfg) && w < i < |ps| < RW.U32 && ps[i].now - prior.start < cfg.window
    requires Describes(cfg, prior, ps, w, i - 1)
    ensures Describes(cfg, Counted(cfg, Some(prior), ps[i]), ps, w, i)
  {
    var before, now := SeenTeids(ps, w, i - 1), SeenTeids(ps, w, i);
    assert now == before + {ps[i].teid};
    if |prior.teids| < cfg.maxTunnels {
      SubsetSameSize(prior.teids, before);
    } else {
      SubsetSize(before, now);
    }
  }

  /** Exact counting: within a window the packet count is the number of its
      packets, and the distinct count is the number of TEIDs seen, capped. */
  lemma {:induction false} CountsExact(cfg: Config, ps: seq<Packet>, i: nat)
    requires Sane(cfg) && i < |ps| < RW.U32
    ensures Describes(cfg, Counted(cfg, StateAt(cfg, ps, i), ps[i]), ps, Opener(cfg, ps, i), i)
    ensures StateAt(cfg, ps, i + 1).Some? && Describes(cfg, StateAt(cfg, ps, i + 1).value, ps, Opener(cfg, ps, i), i)
  {
    StateStep(cfg, ps, i);
    FoldedCounts(cfg, StateAt(cfg, ps, i), ps[i]);
    if i == 0 {
      OpenDescribes(cfg, None, ps, 0);
    } else {
      CountsExact(cfg, ps, i - 1);
      StepDescribes(cfg, StateAt(cfg, ps, i).value, ps, i);
    }
  }

  lemma StepDescribes(cfg: Config, prior: SourceWindow, ps: seq<Packet>, i: nat)
    requires Sane(cfg) && 0 < i < |ps| < RW.U32 && Describes(cfg, prior, ps, Opener(cfg, ps, i - 1), i - 1)
    ensures Describes(cfg, Counted(cfg, Some(prior), ps[i]), ps, Opener(cfg, ps, i), i)
  {
    var w := Opener(cfg, ps, i - 1);
    assert Times(ps)[i] == ps[i].now && Times(ps)[w] == ps[w].now;
    if ps[i].now - prior.start >= cfg.window {
      OpenDescribes(cfg, Some(prior), ps, i);
    } else {
      StayDescribes(cfg, prior, ps, w, i);
    }
  }

  /** The cardinality half of the rule is exact if its threshold is within the
      cap, and can never fire otherwise. */
  lemma CardinalityExact(cfg: Config, ps: seq<Packet>, i: nat)
    requires Sane(cfg) && i < |ps| < RW.U32 && cfg.distinctTunnels > 0
    ensures |Counted(cfg, StateAt(cfg, ps, i), ps[i]).teids| >= cfg.distinctTunnels <==>
            cfg.distinctTunnels <= cfg.maxTunnels && |SeenTeids(ps, Opener(cfg, ps, i), i)| >= cfg.distinctTunnels
  {
    CountsExact(cfg, ps, i);
  }

  /** The detector emitted for packet `i`. */
  ghost predicate EmitsAt(cfg: Config, ps: seq<Packet>, i: nat)
    requires i < |ps|
  {
    Output(cfg, StateAt(cfg, ps, i), ps[i]).emit
  }

  /** Whatever the clock does, emissions only move forward. */
  lemma {:induction false} LastFiredIsEmission(cfg: Config, ps: seq<Packet>, i: nat, j: nat)
    requires Sane(cfg) && i < j <= |ps| && EmitsAt(cfg, ps, i)
    ensures StateAt(cfg, ps, j).Some? && StateAt(cfg, ps, j).value.lastFired.Some?
    ensures StateAt(cfg, ps, j).value.lastFired.value >= ps[i].now
    decreases j
  {
    StateStep(cfg, ps, j - 1);
    if i < j - 1 {
      LastFiredIsEmission(cfg, ps, i, j - 1);
    }
  }

  /** Two emissions for one source are at least the cooldown apart, whatever
      windows lie between them and however the packet times jump. */
  lemma EmissionsSpaced(cfg: Config, ps: seq<Packet>, i: nat, j: nat)
    requires Sane(cfg) && i < j < |ps| && EmitsAt(cfg, ps, i) && EmitsAt(cfg, ps, j)
    ensures ps[j].now - ps[i].now >= cfg.cooldown
  {
    LastFiredIsEmission(cfg, ps, i, j);
  }

  /** A recorded firing was an emission. */
  lemma {:induction false} FiredFrom(cfg: Config, ps: seq<Packet>, n: nat) returns (j: nat)
    requires n <= |ps| && StateAt(cfg, ps, n).Some? && StateAt(cfg, ps, n).value.lastFired.Some?
    ensures j < n && EmitsAt(cfg, ps, j) && ps[j].now == StateAt(cfg, ps, n).value.lastFired.value
  {
    StateStep(cfg, ps, n - 1);
    if EmitsAt(cfg, ps, n - 1) {
      j := n - 1;
    } else {
      j := FiredFrom(cfg, ps, n - 1);
    }
  }

  /** Some threshold that is set is reached in the window that packet `w` opened: by
      its packets, or by its TEIDs, if so many are kept. */
  ghost predicate Flooding(cfg: Config, ps: seq<Packet>, w: nat, i: nat)
    requires w <= i < |ps|
  {
    || (cfg.packetsPerSecond > 0 && i - w + 1 >= cfg.packetsPerSecond)
    || (0 < cfg.distinctTunnels <= cfg.maxTunnels && |SeenTeids(ps, w, i)| >= cfg.distinctTunnels)
  }

  ghost predicate CooledDown(cfg: Config, ps: seq<Packet>, i: nat)
    requires i < |ps|
  {
    forall j :: 0 <= j < i && EmitsAt(cfg, ps, j) ==> ps[i].now - ps[j].now >= cfg.cooldown
  }

  /** The recorded firing is cold exactly if every emission is. */
  lemma CooldownExact(cfg: Config, ps: seq<Packet>, i: nat)
    requires Sane(cfg) && i < |ps|
    ensures var s := StateAt(cfg, ps, i);
            (s.None? || s.value.lastFired.None? || ps[i].now - s.value.lastFired.value >= cfg.cooldown) <==>
            CooledDown(cfg, ps, i)
  {
    if !CooledDown(cfg, ps, i) {
      var j :| 0 <= j < i && EmitsAt(cfg, ps, j) && ps[i].now - ps[j].now < cfg.cooldown;
      LastFiredIsEmission(cfg, ps, j, i);
    } else if StateAt(cfg, ps, i).Some? && StateAt(cfg, ps, i).value.lastFired.Some? {
      var j := FiredFrom(cfg, ps, i);
    }
  }

  /** What the detector answers, from the window and the firing before the packet. */
  lemma AnswerExact(cfg: Config, prior: Option<SourceWindow>, ps: seq<Packet>, w: nat, i: nat)
    requires w <= i < |ps| && Describes(cfg, Counted(cfg, prior, ps[i]), ps, w, i)
    ensures var r, seen := Output(cfg, prior, ps[i]), |SeenTeids(ps, w, i)|;
            && (r.emit <==>
                  Flooding(cfg, ps, w, i) &&
                  (|| prior.None? || prior.value.lastFired.None?
                   || ps[i].now - prior.value.lastFired.value >= cfg.cooldown))
            && r.packets == i - w + 1 && r.distinct == if seen < cfg.maxTunnels then seen else cfg.maxTunnels
  {
  }

  /** When the detector fires for a source: a packet emits if and only if its window
      is flooding with it and every earlier emission is at least the cooldown
      before it. The observation has the window's packets, and its TEIDs up to the
      cap. */
  lemma EmissionExact(cfg: Config, ps: seq<Packet>, i: nat)
    requires Sane(cfg) && i < |ps| < RW.U32
    ensures var w, r := Opener(cfg, ps, i), Output(cfg, StateAt(cfg, ps, i), ps[i]);
            && (r.emit <==> Flooding(cfg, ps, w, i) && CooledDown(cfg, ps, i))
            && r.packets == i - w + 1
            && r.distinct == if |SeenTeids(ps, w, i)| < cfg.maxTunnels then |SeenTeids(ps, w, i)| else cfg.maxTunnels
  {
    CountsExact(cfg, ps, i);
    CooldownExact(cfg, ps, i);
    AnswerExact(cfg, StateAt(cfg, ps, i), ps, Opener(cfg, ps, i), i);
  }

  /** The same for the whole detector: amid any other sources, as long as all fit,
      each packet is judged by the history of its own source. */
  lemma DetectorEmitsExact(cfg: Config, xs: seq<Arrival>, i: nat)
    requires Sane(cfg) && i < |xs| < RW.U32 && |SourcesOf(xs[..i])| <= cfg.maxSources
    ensures var x := xs[i];
            var ps, r := Own(Keyed(xs[..i + 1]), x.source),
                         Output(cfg, Get(After(cfg, xs[..i]).windows, x.source), x.packet);
            && 0 < |ps| < RW.U32 && ps[|ps| - 1] == x.packet
            && var last := |ps| - 1;
               (r.emit <==> Flooding(cfg, ps, Opener(cfg, ps, last), last) && CooledDown(cfg, ps, last))
  {
    var source, upTo := xs[i].source, xs[..i + 1];
    var before, ps := Own(Keyed(xs[..i]), source), Own(Keyed(upTo), source);
    assert upTo[..i] == xs[..i];
    OwnSnoc(upTo, source);
    assert ps == before + [xs[i].packet] && ps[..|before|] == before;
    OwnFewer(xs[..i], source);
    WindowIsFold(cfg, xs[..i], source);
    EmissionExact(cfg, ps, |before|);
  }

  lemma {:induction false} OwnFewer(xs: seq<Arrival>, source: string)
    ensures |Own(Keyed(xs), source)| <= |xs|
  {
    if xs != [] {
      OwnFewer(xs[..|xs| - 1], source);
      OwnSnoc(xs, source);
    }
  }
}
