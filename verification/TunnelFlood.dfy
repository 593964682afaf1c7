/** pkg/detect/gtpu_flood.go: the per-tunnel flood rule, and its cooldown table
    of fixed capacity. */
module TunnelFlood {
  import opened Prelude
  import opened FifoRing

  type TunnelId = (string, nat)  // source IP, TEID

  const DEFAULT_TRACKED_TUNNELS: nat := 4096
  const DEFAULT_COOLDOWN: int := 30_000_000_000

  /** The cooldown table: ids in admission order, and when each last fired. */
  datatype Cooldowns = Cooldowns(fifo: seq<TunnelId>, last: map<TunnelId, int>)

  const NONE := Cooldowns([], map[])

  datatype Claimed = Claimed(table: Cooldowns, fired: bool)

  function Claim(t: Cooldowns, capacity: nat, cooldown: int, id: TunnelId, now: int): Claimed {
    if id in t.last then
      if now - t.last[id] < cooldown then Claimed(t, false) else Claimed(t.(last := t.last[id := now]), true)
    else
      Claimed(Cooldowns(Admitted(t.fifo, capacity, id), MakeRoom(t.fifo, t.last, capacity)[id := now]), true)
  }

  /** The live ring slots and the map's keys are the same repeat-free set of at
      most `capacity` tunnels. */
  ghost predicate Consistent(t: Cooldowns, capacity: nat) {
    InStep(t.fifo, t.last, capacity)
  }

  lemma ClaimConsistent(t: Cooldowns, capacity: nat, cooldown: int, id: TunnelId, now: int)
    requires Consistent(t, capacity) && capacity > 0
    ensures Consistent(Claim(t, capacity, cooldown, id, now).table, capacity)
  {
    if id in t.last {
      assert t.last[id := now].Keys == t.last.Keys;
    } else {
      AdmitInStep(t.fifo, t.last, capacity, id, now);
    }
  }

  // ---------------------------------------------------------------- the detector

  /** GTPUFloodConfig, with the event fields Evaluate looks at. */
  datatype Config = Config(enabled: bool, packetsPerSecond: nat, cooldown: int, maxTrackedTunnels: int)
  datatype Packet = Packet(gtpu: bool, source: string, teid: nat, tunnelRate: int)

  predicate Qualifies(cfg: Config, p: Packet) {
    cfg.enabled && cfg.packetsPerSecond > 0 && p.gtpu && p.teid != 0 && p.tunnelRate >= cfg.packetsPerSecond
  }

  function IdOf(p: Packet): TunnelId { (p.source, p.teid) }

  /** Evaluate on one packet. */
  function Evaluated(cfg: Config, capacity: nat, t: Cooldowns, p: Packet, now: int): Claimed {
    if Qualifies(cfg, p) then Claim(t, capacity, cfg.cooldown, IdOf(p), now) else Claimed(t, false)
  }

  class Detector {
    const cfg: Config
    var lastFired: map<TunnelId, int>
    const order: array<TunnelId>
    var next: nat

    ghost predicate Valid()
      reads this, order
    {
      && cfg.cooldown > 0 && 0 < order.Length && next < order.Length && |lastFired| <= order.Length
      && (|lastFired| < order.Length ==> next == |lastFired|)
      && Consistent(Table(), order.Length)
    }

    ghost function Table(): Cooldowns
      requires 0 < order.Length && next < order.Length && |lastFired| <= order.Length
      reads this, order
    {
      Cooldowns(Live(order[..], next, |lastFired|), lastFired)
    }

    constructor (cfg: Config)
      ensures Valid() && fresh(order) && Table() == NONE
      ensures order.Length == if cfg.maxTrackedTunnels > 0 then cfg.maxTrackedTunnels else 4096
      ensures this.cfg == cfg.(cooldown := if cfg.cooldown > 0 then cfg.cooldown else 30_000_000_000)
    {
      var capacity := cfg.maxTrackedTunnels;
      if capacity <= 0 { capacity := DEFAULT_TRACKED_TUNNELS; }
      this.cfg := if cfg.cooldown <= 0 then cfg.(cooldown := DEFAULT_COOLDOWN) else cfg;
      lastFired := map[];
      order := new TunnelId[capacity];
      next := 0;
    }

    /** claim: the ring and the map together are the queue. */
    method ClaimTunnel(id: TunnelId, now: int) returns (fired: bool)
      requires Valid()
      modifies this, order
      ensures Valid()
      ensures Claimed(Table(), fired) == Claim(old(Table()), order.Length, cfg.cooldown, id, now)
    {
      ghost var t := Table();
      InStepSize(t.fifo, t.last, order.Length);
      ClaimConsistent(t, order.Length, cfg.cooldown, id, now);
      if id in lastFired {
        if now - lastFired[id] < cfg.cooldown { return false; }
        lastFired := lastFired[id := now];
        assert lastFired.Keys == t.last.Keys;
        assert |lastFired| == |lastFired.Keys| == |t.last.Keys|;
        return true;
      }
      Admit(id, now);
      return true;
    }

    /** The admission of a tunnel not in the table: the oldest makes room. */
    method Admit(id: TunnelId, now: int)
      requires Valid() && id !in lastFired
      modifies this, order
      ensures |lastFired| <= order.Length && next < order.Length
      ensures |lastFired| < order.Length ==> next == |lastFired|
      ensures Table().fifo == Admitted(old(Table()).fifo, order.Length, id)
      ensures lastFired == MakeRoom(old(Table()).fifo, old(lastFired), order.Length)[id := now]
    {
      ghost var t, slots, held := Table(), order[..], lastFired;
      InStepSize(t.fifo, held, order.Length);
      AdmitSize(t.fifo, held, order.Length, id, now);
      RingAdmits(slots, next, |held|, id);
      if |lastFired| >= order.Length {
        assert order[next] == t.fifo[0];
        lastFired := lastFired - {order[next]};
      }
      assert lastFired == MakeRoom(t.fifo, held, order.Length);
      order[next] := id;
      assert order[..] == slots[next := id];
      next := NextSlot(next, order.Length);
      lastFired := lastFired[id := now];
    }

    method Evaluate(p: Packet, now: int) returns (fired: bool)
      requires Valid()
      modifies this, order
      ensures Valid()
      ensures Claimed(Table(), fired) == Evaluated(cfg, order.Length, old(Table()), p, now)
    {
      if !cfg.enabled || cfg.packetsPerSecond == 0 { return false; }
      if !p.gtpu || p.teid == 0 { return false; }
      if p.tunnelRate < cfg.packetsPerSecond { return false; }
      fired := ClaimTunnel((p.source, p.teid), now);
    }
  }

  // ---------------------------------------------------------------- whole runs

  datatype Call = Call(id: TunnelId, now: int)

  /** A run: the table, who fired, when each tunnel last fired, and the ids in
      the order they were admitted to the table. */
  datatype Run = Run(table: Cooldowns, fired: seq<bool>, lastFire: map<TunnelId, int>, admissions: seq<TunnelId>)

  function Step(r: Run, capacity: nat, cooldown: int, c: Call): Run {
    var claimed := Claim(r.table, capacity, cooldown, c.id, c.now);
    Run(claimed.table, r.fired + [claimed.fired],
        if claimed.fired then r.lastFire[c.id := c.now] else r.lastFire,
        if c.id in r.table.last then r.admissions else r.admissions + [c.id])
  }

  function After(capacity: nat, cooldown: int, calls: seq<Call>): Run {
    if calls == [] then Run(NONE, [], map[], [])
    else Step(After(capacity, cooldown, calls[..|calls| - 1]), capacity, cooldown, calls[|calls| - 1])
  }

  /** Its times are the true ones, and a tunnel has fired if and only if it was
      ever admitted. */
  ghost predicate TrueTimes(r: Run) {
    && r.lastFire.Keys == Elements(r.admissions)
    && forall id :: id in r.table.last ==> id in r.lastFire && r.table.last[id] == r.lastFire[id]
  }

  ghost predicate Faithful(r: Run, capacity: nat) {
    Consistent(r.table, capacity) && Latest(r.admissions, r.table.fifo, capacity) && TrueTimes(r)
  }

  lemma StepLatest(r: Run, capacity: nat, cooldown: int, c: Call)
    requires Latest(r.admissions, r.table.fifo, capacity) && capacity > 0
    ensures var r' := Step(r, capacity, cooldown, c); Latest(r'.admissions, r'.table.fifo, capacity)
  {
    var r' := Step(r, capacity, cooldown, c);
    if c.id in r.table.last {
      assert r'.table.fifo == r.table.fifo && r'.admissions == r.admissions;
    } else {
      AdmittedLatest(r.admissions, r.table.fifo, capacity, c.id);
      assert r'.table.fifo == Admitted(r.table.fifo, capacity, c.id) && r'.admissions == r.admissions + [c.id];
    }
  }

  lemma StepTrueTimes(r: Run, capacity: nat, cooldown: int, c: Call)
    requires TrueTimes(r)
    ensures TrueTimes(Step(r, capacity, cooldown, c))
  {
    assert r.lastFire[c.id := c.now].Keys == r.lastFire.Keys + {c.id};
    ElementsSnoc(r.admissions, c.id);
    if c.id in r.table.last {
      assert c.id in Elements(r.admissions);
    } else {
      RoomKeepsTimes(r.table.fifo, r.table.last, capacity);
    }
  }

  lemma RoomKeepsTimes(fifo: seq<TunnelId>, last: map<TunnelId, int>, capacity: nat)
    ensures forall id :: id in MakeRoom(fifo, last, capacity) ==>
      id in last && MakeRoom(fifo, last, capacity)[id] == last[id]
  {
  }

  lemma {:induction false} RunFaithful(capacity: nat, cooldown: int, calls: seq<Call>)
    requires capacity > 0
    ensures Faithful(After(capacity, cooldown, calls), capacity)
  {
    if calls != [] {
      var init, c := calls[..|calls| - 1], calls[|calls| - 1];
      RunFaithful(capacity, cooldown, init);
      var r := After(capacity, cooldown, init);
      ClaimConsistent(r.table, capacity, cooldown, c.id, c.now);
      StepLatest(r, capacity, cooldown, c);
      StepTrueTimes(r, capacity, cooldown, c);
    }
  }

  /** A tunnel fires again within its cooldown if and only if `capacity` other
      tunnels, pairwise distinct, have been admitted since its own last
      admission. */
  lemma EarlyRefireExact(capacity: nat, cooldown: int, calls: seq<Call>, c: Call)
    requires capacity > 0
    requires var last := After(capacity, cooldown, calls).lastFire;
             c.id in last && c.now - last[c.id] < cooldown
    ensures var r := After(capacity, cooldown, calls);
            var adm := r.admissions;
            && c.id in adm
            && (Claim(r.table, capacity, cooldown, c.id, c.now).fired <==>
                  |adm| >= capacity && c.id !in adm[|adm| - capacity..])
            && (|adm| >= capacity ==> Distinct(adm[|adm| - capacity..]))
  {
    RunFaithful(capacity, cooldown, calls);
  }

  /** So a claim fires exactly if its tunnel never fired, or not within the cooldown,
      or has been pushed out of the table since. */
  lemma FiresExact(capacity: nat, cooldown: int, calls: seq<Call>, c: Call)
    requires capacity > 0
    ensures var r := After(capacity, cooldown, calls);
            Claim(r.table, capacity, cooldown, c.id, c.now).fired <==>
            || c.id !in r.lastFire || c.now - r.lastFire[c.id] >= cooldown
            || (|r.admissions| >= capacity && c.id !in r.admissions[|r.admissions| - capacity..])
  {
    RunFaithful(capacity, cooldown, calls);
  }

  // ---------------------------------------------------------------- an unbounded table

  /** The rule without a capacity: one time per tunnel, forever. */
  datatype Times = Times(last: map<TunnelId, int>, fired: seq<bool>)

  function Cool(t: Times, cooldown: int, c: Call): Times {
    if c.id in t.last && c.now - t.last[c.id] < cooldown then t.(fired := t.fired + [false])
    else Times(t.last[c.id := c.now], t.fired + [true])
  }

  function Unbounded(cooldown: int, calls: seq<Call>): Times {
    if calls == [] then Times(map[], [])
    else Cool(Unbounded(cooldown, calls[..|calls| - 1]), cooldown, calls[|calls| - 1])
  }

  function Ids(calls: seq<Call>): set<TunnelId> {
    set c | c in calls :: c.id
  }

  lemma IdsStep(calls: seq<Call>)
    requires calls != []
    ensures Ids(calls) == Ids(calls[..|calls| - 1]) + {calls[|calls| - 1].id}
  {
    var init := calls[..|calls| - 1];
    assert calls == init + [calls[|calls| - 1]];
  }

  /** With at most `capacity` tunnels the bounded detector is the unbounded one:
      same firings, same times. */
  lemma {:induction false} EnoughCapacity(capacity: nat, cooldown: int, calls: seq<Call>)
    requires capacity > 0 && |Ids(calls)| <= capacity
    ensures var r := After(capacity, cooldown, calls);
            Times(r.table.last, r.fired) == Unbounded(cooldown, calls) && r.table.last.Keys <= Ids(calls)
  {
    if calls != [] {
      var init, c := calls[..|calls| - 1], calls[|calls| - 1];
      IdsStep(calls);
      SubsetSize(Ids(init), Ids(calls));
      EnoughCapacity(capacity, cooldown, init);
      var t := After(capacity, cooldown, init).table;
      if c.id !in t.last {
        SubsetSize(t.last.Keys + {c.id}, Ids(calls));
        assert |t.last| == |t.last.Keys| < capacity;
      }
    }
  }

  // ---------------------------------------------------------------- over packets

  datatype Arrival = Arrival(packet: Packet, now: int)

  function TableAt(cfg: Config, capacity: nat, xs: seq<Arrival>, n: nat): Cooldowns
    requires n <= |xs|
  {
    if n == 0 then NONE
    else Evaluated(cfg, capacity, TableAt(cfg, capacity, xs, n - 1), xs[n - 1].packet, xs[n - 1].now).table
  }

  predicate FiresAt(cfg: Config, capacity: nat, xs: seq<Arrival>, i: nat)
    requires i < |xs|
  {
    Evaluated(cfg, capacity, TableAt(cfg, capacity, xs, i), xs[i].packet, xs[i].now).fired
  }

  function Tunnels(xs: seq<Arrival>): set<TunnelId> {
    set x | x in xs :: IdOf(x.packet)
  }

  /** The packets among the first `n` that fired. */
  function Firings(cfg: Config, capacity: nat, xs: seq<Arrival>, n: nat): set<nat>
    requires n <= |xs|
  {
    set j: nat | j < n && FiresAt(cfg, capacity, xs, j)
  }

  /** A tunnel is in the table if it has fired, with the time of a firing that no
      other is after. */
  ghost predicate Timed(last: map<TunnelId, int>, xs: seq<Arrival>, firings: set<nat>)
    requires forall j :: j in firings ==> j < |xs|
  {
    && (forall j :: j in firings ==> IdOf(xs[j].packet) in last && xs[j].now <= last[IdOf(xs[j].packet)])
    && (forall id :: id in last ==> exists j :: j in firings && IdOf(xs[j].packet) == id && xs[j].now == last[id])
  }

  lemma TimedStep(last: map<TunnelId, int>, xs: seq<Arrival>, firings: set<nat>, n: nat)
    requires n < |xs| && (forall j :: j in firings ==> j < n) && Timed(last, xs, firings)
    requires IdOf(xs[n].packet) in last ==> last[IdOf(xs[n].packet)] <= xs[n].now
    ensures Timed(last[IdOf(xs[n].packet) := xs[n].now], xs, firings + {n})
  {
    var id := IdOf(xs[n].packet);
    var next, more := last[id := xs[n].now], firings + {n};
    forall k | k in next ensures exists j :: j in more && IdOf(xs[j].packet) == k && xs[j].now == next[k] {
      if k == id {
        assert n in more;
      } else {
        var j :| j in firings && IdOf(xs[j].packet) == k && xs[j].now == last[k];
        assert j in more;
      }
    }
  }

  lemma {:induction false} TableFits(cfg: Config, capacity: nat, xs: seq<Arrival>, n: nat)
    requires n <= |xs| && |Tunnels(xs)| <= capacity && capacity > 0
    ensures TableAt(cfg, capacity, xs, n).last.Keys <= Tunnels(xs)
  {
    if n > 0 {
      TableFits(cfg, capacity, xs, n - 1);
      assert xs[n - 1] in xs;
    }
  }

  /** A tunnel is in the table or finds a free slot. */
  lemma Room(cfg: Config, capacity: nat, xs: seq<Arrival>, n: nat)
    requires n < |xs| && |Tunnels(xs)| <= capacity && capacity > 0
    ensures var last := TableAt(cfg, capacity, xs, n).last; IdOf(xs[n].packet) in last || |last| < capacity
  {
    var last, id := TableAt(cfg, capacity, xs, n).last, IdOf(xs[n].packet);
    TableFits(cfg, capacity, xs, n);
    assert xs[n] in xs;
    SubsetSize(last.Keys + {id}, Tunnels(xs));
    assert |last| == |last.Keys|;
  }

  /** With room for its tunnel, a packet that fires puts its time in the table. */
  lemma TableNext(cfg: Config, capacity: nat, xs: seq<Arrival>, n: nat)
    requires n < |xs|
    requires var last := TableAt(cfg, capacity, xs, n).last; IdOf(xs[n].packet) in last || |last| < capacity
    ensures var id, last := IdOf(xs[n].packet), TableAt(cfg, capacity, xs, n).last;
            && TableAt(cfg, capacity, xs, n + 1).last ==
               (if FiresAt(cfg, capacity, xs, n) then last[id := xs[n].now] else last)
            && (FiresAt(cfg, capacity, xs, n) && id in last ==> xs[n].now - last[id] >= cfg.cooldown)
    ensures Firings(cfg, capacity, xs, n + 1) ==
            Firings(cfg, capacity, xs, n) + (if FiresAt(cfg, capacity, xs, n) then {n} else {})
  {
  }

  /** The table's times after `n` packets are those of the firings among them. */
  ghost predicate TimedAt(cfg: Config, capacity: nat, xs: seq<Arrival>, n: nat)
    requires n <= |xs|
  {
    Timed(TableAt(cfg, capacity, xs, n).last, xs, Firings(cfg, capacity, xs, n))
  }

  lemma TimedFirst(cfg: Config, capacity: nat, xs: seq<Arrival>)
    ensures TimedAt(cfg, capacity, xs, 0)
  {
    assert Firings(cfg, capacity, xs, 0) == {} && TableAt(cfg, capacity, xs, 0).last == map[];
  }

  lemma TimedNext(cfg: Config, capacity: nat, xs: seq<Arrival>, n: nat)
    requires n < |xs| && cfg.cooldown > 0 && TimedAt(cfg, capacity, xs, n)
    requires var last := TableAt(cfg, capacity, xs, n).last; IdOf(xs[n].packet) in last || |last| < capacity
    ensures TimedAt(cfg, capacity, xs, n + 1)
  {
    var last, firings := TableAt(cfg, capacity, xs, n).last, Firings(cfg, capacity, xs, n);
    TableNext(cfg, capacity, xs, n);
    if FiresAt(cfg, capacity, xs, n) {
      TimedStep(last, xs, firings, n);
    } else {
      assert firings + {} == firings;
    }
  }

  lemma {:induction false} TimesKept(cfg: Config, capacity: nat, xs: seq<Arrival>, n: nat)
    requires n <= |xs| && |Tunnels(xs)| <= capacity && capacity > 0 && cfg.cooldown > 0
    ensures TimedAt(cfg, capacity, xs, n)
  {
    if n == 0 {
      TimedFirst(cfg, capacity, xs);
    } else {
      TimesKept(cfg, capacity, xs, n - 1);
      Room(cfg, capacity, xs, n - 1);
      TimedNext(cfg, capacity, xs, n - 1);
    }
  }

  lemma CooledExact(last: map<TunnelId, int>, xs: seq<Arrival>, firings: set<nat>, i: nat, cooldown: int)
    requires i < |xs| && (forall j :: j in firings ==> j < i) && Timed(last, xs, firings)
    ensures var id := IdOf(xs[i].packet);
            (id !in last || xs[i].now - last[id] >= cooldown) <==>
            forall j :: j in firings && IdOf(xs[j].packet) == id ==> xs[i].now - xs[j].now >= cooldown
  {
  }

  /** Every earlier firing of its tunnel is at least the cooldown before packet `i`. */
  ghost predicate Cooled(cfg: Config, capacity: nat, xs: seq<Arrival>, i: nat)
    requires i < |xs|
  {
    forall j :: 0 <= j < i && FiresAt(cfg, capacity, xs, j) && IdOf(xs[j].packet) == IdOf(xs[i].packet) ==>
      xs[i].now - xs[j].now >= cfg.cooldown
  }

  lemma FiringsExact(cfg: Config, capacity: nat, xs: seq<Arrival>, i: nat)
    requires i < |xs|
    ensures (forall j :: j in Firings(cfg, capacity, xs, i) && IdOf(xs[j].packet) == IdOf(xs[i].packet) ==>
               xs[i].now - xs[j].now >= cfg.cooldown) <==> Cooled(cfg, capacity, xs, i)
  {
    var firings := Firings(cfg, capacity, xs, i);
    assert forall j :: 0 <= j < i && FiresAt(cfg, capacity, xs, j) <==> j in firings;
  }

  lemma QualifiedClaim(cfg: Config, capacity: nat, t: Cooldowns, p: Packet, now: int)
    ensures Evaluated(cfg, capacity, t, p, now).fired <==>
            && cfg.enabled && cfg.packetsPerSecond > 0
            && p.gtpu && p.teid != 0 && p.tunnelRate >= cfg.packetsPerSecond
            && (IdOf(p) !in t.last || now - t.last[IdOf(p)] >= cfg.cooldown)
  {
  }

  /** When the detector fires, over any packets of at most `capacity` tunnels: it is
      on with a threshold, the packet is a T-PDU with a TEID whose rate reaches the
      threshold, and its tunnel fired no later than a cooldown before. */
  lemma FloodFiresExact(cfg: Config, capacity: nat, xs: seq<Arrival>, i: nat)
    requires i < |xs| && |Tunnels(xs)| <= capacity && capacity > 0 && cfg.cooldown > 0
    ensures var p := xs[i].packet;
            FiresAt(cfg, capacity, xs, i) <==>
            && cfg.enabled && cfg.packetsPerSecond > 0
            && p.gtpu && p.teid != 0 && p.tunnelRate >= cfg.packetsPerSecond
            && Cooled(cfg, capacity, xs, i)
  {
    TimesKept(cfg, capacity, xs, i);
    CooledExact(TableAt(cfg, capacity, xs, i).last, xs, Firings(cfg, capacity, xs, i), i, cfg.cooldown);
    FiringsExact(cfg, capacity, xs, i);
    QualifiedClaim(cfg, capacity, TableAt(cfg, capacity, xs, i), xs[i].packet, xs[i].now);
  }
}
