/** pkg/controller/threat_score_watcher.go: a threat score becomes a status
    write and then, once the intent is persisted, kernel drops. */
module ThreatScoreWatcher {
  import opened Prelude
  import opened TunnelText
  import opened Enforcement
  import opened Policies
  import opened ClusterState

  datatype Score = Score(source: string, teid: TEID, value: real, now: int)

  /** What the environment answers during one call: the kill switch, the status
      write limiter, and injected failures. */
  datatype Oracle = Oracle(killed: bool, allowed: bool, apiFails: bool, kernelFaults: set<Entry>, meshFails: bool)

  // ---------------------------------------------------------------- status lists

  function AppendUnique(list: seq<string>, s: string): seq<string> {
    if s in list then list else list + [s]
  }

  /** appendUnique's scan. */
  method AppendUniqueScan(list: seq<string>, s: string) returns (r: seq<string>)
    ensures r == AppendUnique(list, s)
  {
    for i := 0 to |list|
      invariant s !in list[..i]
    {
      if list[i] == s { return list; }
    }
    return list + [s];
  }

  /** equalStringSet as it answers: same length, and the second list's members
      all in the first. */
  predicate SameStrings(a: seq<string>, b: seq<string>) {
    |a| == |b| && forall s :: s in b ==> s in a
  }

  method EqualStringSet(a: seq<string>, b: seq<string>) returns (same: bool)
    ensures same <==> SameStrings(a, b)
  {
    if |a| != |b| { return false; }
    var seen: set<string> := {};
    for i := 0 to |a|
      invariant seen == Elements(a[..i])
    {
      seen := seen + {a[i]};
      assert a[..i + 1] == a[..i] + [a[i]];
    }
    assert a[..|a|] == a;
    for i := 0 to |b|
      invariant forall s :: s in b[..i] ==> s in a
    {
      if b[i] !in seen { return false; }
      assert b[..i + 1] == b[..i] + [b[i]];
    }
    assert b[..|b|] == b;
    return true;
  }

  /** On lists kept repeat-free it is set equality, in both directions. */
  lemma SameStringsIsSetEquality(a: seq<string>, b: seq<string>)
    requires Distinct(a) && Distinct(b)
    ensures SameStrings(a, b) <==> Elements(a) == Elements(b)
  {
    DistinctSize(a);
    DistinctSize(b);
    if SameStrings(a, b) {
      SubsetSameSize(Elements(b), Elements(a));
    }
    if Elements(a) == Elements(b) {
      assert forall s :: s in b ==> s in Elements(a);
    }
  }

  /** With a repeat it is not: it then accepts lists that differ as sets, and
      even depends on the order of its arguments. */
  lemma SameStringsNeedsDistinct()
    ensures exists a, b :: SameStrings(a, b) && !SameStrings(b, a) && Elements(a) != Elements(b)
  {
    var a, b := ["x", "y"], ["x", "x"];
    assert "y" in a && "y" !in b;
    assert SameStrings(a, b) && !SameStrings(b, a) && "y" in Elements(a);
  }

  // ---------------------------------------------------------------- decision

  function Multiplier(s: Sensitivity): real {
    match s
    case High => 0.8
    case Low => 1.2
    case _ => 1.0
  }

  function Threshold(env: Env, s: Sensitivity): real {
    var t := env.baseThreshold * Multiplier(s);
    if t > 1.0 then 1.0 else t
  }

  datatype Decision = Decision(status: Status, actions: seq<Entry>)

  predicate Crosses(env: Env, policy: Policy, ev: Score) {
    ev.value >= Threshold(env, policy.spec.sensitivity)
  }

  /** The drops a mitigating score asks for, in the order they are executed. */
  function Actions(env: Env, spec: Spec, ev: Score): seq<Entry> {
    match env.parse(ev.source)
    case None => []
    case Some(addr) =>
      (if spec.ebpfBlockTunnel && ev.teid != 0 then [Tunnel(addr, ev.teid)] else []) +
      (if spec.ebpfBlock then [Source(addr)] else [])
  }

  /** The status applyPolicy wants to persist, and what it does afterwards. */
  function Decide(env: Env, policy: Policy, ev: Score, killed: bool): Decision {
    var status := policy.status.(observedScore := ev.value);
    if !Crosses(env, policy, ev) then
      Decision(if status.phase == Mitigating then status else status.(phase := Monitoring), [])
    else if !policy.spec.autoMitigate || killed then
      Decision(status.(phase := Alerting), [])
    else
      Decision(Mitigate(env, policy.spec, status, ev), Actions(env, policy.spec, ev))
  }

  /** The status that records a mitigation. */
  function Mitigate(env: Env, spec: Spec, status: Status, ev: Score): Status {
    var known := env.parse(ev.source).Some?;
    status.(
      blockedTunnels := if spec.ebpfBlockTunnel && known && ev.teid != 0
                        then AppendUnique(status.blockedTunnels, FormatTunnel(ev.source, ev.teid))
                        else status.blockedTunnels,
      blockedIPs := if spec.ebpfBlock && known then AppendUnique(status.blockedIPs, ev.source) else status.blockedIPs,
      phase := Mitigating,
      lastMitigation := Some(ev.now))
  }

  predicate DecisionChanged(prev: Status, next: Status) {
    || prev.phase != next.phase
    || !SameStrings(prev.blockedIPs, next.blockedIPs)
    || !SameStrings(prev.blockedTunnels, next.blockedTunnels)
  }

  /** writeStatus skips the write: nothing decided, and no token. */
  predicate Throttled(prev: Status, next: Status, allowed: bool) {
    !DecisionChanged(prev, next) && !allowed
  }

  /** writeStatus followed by updateStatus; true when the caller may go on. */
  function WriteStatus(w: World, id: Id, prev: Policy, next: Status, o: Oracle): (World, bool) {
    if Throttled(prev.status, next, o.allowed) then (w, true)
    else
      var copy := prev.(status := next);
      var w' := StatusWrite(w, id, copy, o.apiFails);
      if WriteOutcome(w, id, copy, o.apiFails) != Done then (w', false)
      else (IndexPut(w', id, w'.store[id]), true)
  }

  /** applyPolicy on a copy of policy `id`; the flag is its error. */
  function ApplyTo(env: Env, w: World, id: Id, policy: Policy, ev: Score, o: Oracle): (World, bool) {
    var d := Decide(env, policy, ev, o.killed);
    var (w1, written) := WriteStatus(w, id, policy, d.status, o);
    if !written then (w1, true)
    else
      var (kernel, blocked) := BlockAll(env.cap, w1.kernel, d.actions, o.kernelFaults);
      (w1.(kernel := kernel),
       !blocked || (MitigatesNow(env, policy, ev, o) && policy.spec.isolatePod && policy.spec.hasSelector
         && o.meshFails))
  }

  /** On the copy the index holds now. */
  function Apply(env: Env, w: World, id: Id, ev: Score, o: Oracle): (World, bool)
    requires id in w.index
  {
    ApplyTo(env, w, id, w.index[id], ev, o)
  }

  predicate MitigatesNow(env: Env, policy: Policy, ev: Score, o: Oracle) {
    Crosses(env, policy, ev) && policy.spec.autoMitigate && !o.killed
  }

  // ---------------------------------------------------------------- the running watcher

  method WriteStatusThrough(c: Cluster, id: Id, prev: Policy, next: Policy, o: Oracle) returns (ok: bool)
    requires next == prev.(status := next.status)
    modifies c
    ensures (c.State(), ok) == WriteStatus(old(c.State()), id, prev, next.status, o)
  {
    var sameIPs := EqualStringSet(prev.status.blockedIPs, next.status.blockedIPs);
    var sameTunnels := EqualStringSet(prev.status.blockedTunnels, next.status.blockedTunnels);
    if prev.status.phase == next.status.phase && sameIPs && sameTunnels && !o.allowed {
      return true;
    }
    var outcome, refreshed := c.UpdateStatus(id, next, o.apiFails);
    if outcome != Done { return false; }
    c.Put(id, refreshed);
    return true;
  }

  /** The write-ahead record: what is about to be blocked, decided with the same
      guards the execution uses. */
  method RecordIntent(env: Env, spec: Spec, status: Status, ev: Score) returns (next: Status)
    ensures next == Mitigate(env, spec, status, ev)
  {
    next := status;
    var ip := env.parse(ev.source);
    if spec.ebpfBlockTunnel && ip.Some? && ev.teid != 0 {
      var tunnels := AppendUniqueScan(next.blockedTunnels, FormatTunnel(ev.source, ev.teid));
      next := next.(blockedTunnels := tunnels);
    }
    if spec.ebpfBlock && ip.Some? {
      var ips := AppendUniqueScan(next.blockedIPs, ev.source);
      next := next.(blockedIPs := ips);
    }
    next := next.(phase := Mitigating, lastMitigation := Some(ev.now));
  }

  method ApplyPolicy(c: Cluster, id: Id, policy: Policy, ev: Score, o: Oracle) returns (failed: bool)
    requires c.Valid()
    modifies c, c.maps
    ensures c.Valid()
    ensures (c.State(), failed) == ApplyTo(c.env, old(c.State()), id, policy, ev, o)
  {
    var latest := policy.(status := policy.status.(observedScore := ev.value));

    ghost var d := Decide(c.env, policy, ev, o.killed);

    if ev.value < Threshold(c.env, policy.spec.sensitivity) {
      if latest.status.phase != Mitigating {
        latest := latest.(status := latest.status.(phase := Monitoring));
      }
      assert d == Decision(latest.status, []);
      var ok := WriteStatusThrough(c, id, policy, latest, o);
      return !ok;
    }
    if !policy.spec.autoMitigate || o.killed {
      latest := latest.(status := latest.status.(phase := Alerting));
      assert d == Decision(latest.status, []);
      var ok := WriteStatusThrough(c, id, policy, latest, o);
      return !ok;
    }

    var intent := RecordIntent(c.env, policy.spec, latest.status, ev);
    latest := latest.(status := intent);
    assert d == Decision(latest.status, Actions(c.env, policy.spec, ev));
    var ok := WriteStatusThrough(c, id, policy, latest, o);
    if !ok { return true; }
    failed := Execute(c, policy.spec, ev, o);
  }

  /** The actions, with the intent already persisted. */
  method Execute(c: Cluster, spec: Spec, ev: Score, o: Oracle) returns (failed: bool)
    requires c.Valid()
    modifies c.maps
    ensures c.State() == old(c.State()).(kernel := c.maps.entries)
    ensures var (kernel, blocked) := BlockAll(c.env.cap, old(c.maps.entries), Actions(c.env, spec, ev), o.kernelFaults);
            && c.maps.entries == kernel
            && failed == (!blocked || (spec.isolatePod && spec.hasSelector && o.meshFails))
  {
    var ip := c.env.parse(ev.source);
    var blockTunnel := spec.ebpfBlockTunnel && ip.Some? && ev.teid != 0;
    var blockSource := spec.ebpfBlock && ip.Some?;
    ghost var kernel := c.maps.entries;
    ghost var rest := if blockSource then [Source(ip.value)] else [];
    if blockTunnel {
      var t := Tunnel(ip.value, ev.teid);
      assert Actions(c.env, spec, ev) == [t] + rest;
      BlockAllStep(c.env.cap, kernel, t, rest, o.kernelFaults);
      var ok := c.maps.Block(t, t in o.kernelFaults);
      if !ok { return true; }
    } else {
      assert Actions(c.env, spec, ev) == rest;
    }
    if blockSource {
      var s := Source(ip.value);
      assert rest == [s] + [];
      BlockAllStep(c.env.cap, c.maps.entries, s, [], o.kernelFaults);
      BlockAllStep(c.env.cap, c.maps.entries + {s}, s, [], o.kernelFaults);
      var ok := c.maps.Block(s, s in o.kernelFaults);
      if !ok { return true; }
    }
    return spec.isolatePod && spec.hasSelector && o.meshFails;
  }
}
