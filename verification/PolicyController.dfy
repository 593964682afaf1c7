/** pkg/controller/telecomsecuritypolicy_controller.go: Reconcile keeps the
    finalizer, the index and the phase, and reverses mitigations: after a quiet
    period (tryDeEscalate) or on deletion (finalize). */
module PolicyController {
  import opened Prelude
  import opened TunnelText
  import opened Enforcement
  import opened Policies
  import opened ClusterState
  import opened BlocklistReconciler

  const SECOND: int := 1_000_000_000

  /** Which read or write of the call fails, and which kernel deletes. */
  datatype Faults = Faults(
    get: bool, finalizerWrite: bool, phaseWrite: bool, scoringWrite: bool, clearWrite: bool,
    mesh: bool, kernel: set<Entry>)

  const NO_FAULTS := Faults(false, false, false, false, false, false, {})

  /** The scoring-pipeline tracker's answer: whether its condition has to be
      written, and when the answer could change. */
  datatype Scoring = Untracked | Tracked(changed: bool, retryAfter: int)

  /** One Reconcile request: what Get answered (`view`, None for not found, unless
      Get itself failed), the clock, and so on. */
  datatype Visit = Visit(view: Option<Policy>, now: int, scoring: Scoring, faults: Faults)

  /** ctrl.Result with its error: requeueAfter 0 asks for no wake-up. */
  datatype Result = Result(failed: bool, requeueAfter: int)

  const FAILED := Result(true, 0)

  // ---------------------------------------------------------------- specification

  function WithSoonerRequeue(r: Result, after: int): Result {
    if after <= 0 then r
    else if r.requeueAfter == 0 || after < r.requeueAfter then r.(requeueAfter := after)
    else r
  }

  /** The clock still holds de-escalation back. */
  predicate Dwelling(env: Env, status: Status, now: int) {
    status.lastMitigation.Some? && env.dwell - (now - status.lastMitigation.value) > 0
  }

  function Cleared(status: Status): Status {
    status.(blockedIPs := [], blockedTunnels := [], phase := Monitoring)
  }

  function TryDeEscalate(env: Env, w: World, id: Id, policy: Policy, now: int, f: Faults): (World, Result) {
    if policy.status.lastMitigation.None? then (w, Result(false, 0))
    else if Dwelling(env, policy.status, now) then
      (w, Result(false, env.dwell - (now - policy.status.lastMitigation.value)))
    else
      var (kernel, released) := Release(w.kernel, Claims(env.parse, policy.status), f.kernel);
      var w1 := w.(kernel := kernel);
      if !released || (policy.spec.isolatePod && policy.spec.hasSelector && f.mesh) then (w1, FAILED)
      else
        var copy := policy.(status := Cleared(policy.status));
        var w2 := StatusWrite(w1, id, copy, f.clearWrite);
        if WriteOutcome(w1, id, copy, f.clearWrite) != Done then (w2, FAILED)
        else (IndexPut(w2, id, w2.store[id]), Result(false, 0))
  }

  function Finalize(env: Env, w: World, id: Id, policy: Policy, f: Faults): (World, Result) {
    if !policy.finalizer then (w, Result(false, 0))
    else if policy.spec.hasSelector && f.mesh then (w, FAILED)
    else
      var (kernel, released) := Release(w.kernel, Claims(env.parse, policy.status), f.kernel);
      var w1 := w.(kernel := kernel);
      if !released then (w1, FAILED)
      else
        var copy := policy.(finalizer := false);
        var w2 := FinalizerWrite(w1, id, copy, f.finalizerWrite);
        if WriteOutcome(w1, id, copy, f.finalizerWrite) != Done then (w2, FAILED)
        else (IndexRemove(w2, id), Result(false, 0))
  }

  /** Adding the finalizer to a policy seen for the first time. */
  function EnsureFinalizer(w: World, id: Id, policy: Policy, f: Faults): (World, Option<Policy>) {
    if policy.finalizer then (w, Some(policy))
    else
      var copy := policy.(finalizer := true);
      var w' := FinalizerWrite(w, id, copy, f.finalizerWrite);
      if WriteOutcome(w, id, copy, f.finalizerWrite) != Done then (w', None)
      else (w', Some(w'.store[id]))
  }

  /** A new policy goes under active monitoring. */
  function Activate(w: World, id: Id, policy: Policy, f: Faults): (World, Option<Policy>) {
    if policy.status.phase != Unset && policy.status.phase != Pending then (w, Some(policy))
    else
      var copy := policy.(status := policy.status.(phase := Monitoring));
      var w' := StatusWrite(w, id, copy, f.phaseWrite);
      if WriteOutcome(w, id, copy, f.phaseWrite) != Done then (w', None)
      else (IndexPut(w', id, w'.store[id]), Some(w'.store[id]))
  }

  /** reportScoringPipeline: a conflict is not an error but a quick retry. */
  function ReportScoring(w: World, id: Id, policy: Policy, s: Scoring, f: Faults): (World, Option<(Policy, int)>) {
    match s
    case Untracked => (w, Some((policy, 0)))
    case Tracked(changed, retryAfter) =>
      if !changed then (w, Some((policy, retryAfter)))
      else
        var w' := StatusWrite(w, id, policy, f.scoringWrite);
        match WriteOutcome(w, id, policy, f.scoringWrite)
        case Failed => (w', None)
        case Conflict => (w', Some((policy, SECOND)))
        case Done => (IndexPut(w', id, w'.store[id]), Some((w'.store[id], retryAfter)))
  }

  /** Everything Reconcile does to a live policy before it looks at the phase. */
  function Prepare(w: World, id: Id, policy: Policy, v: Visit): (World, Option<(Policy, int)>) {
    var (w1, finalized) := EnsureFinalizer(w, id, policy, v.faults);
    if finalized.None? then (w1, None)
    else
      var (w2, active) := Activate(IndexPut(w1, id, finalized.value), id, finalized.value, v.faults);
      if active.None? then (w2, None)
      else ReportScoring(w2, id, active.value, v.scoring, v.faults)
  }

  function Reconcile(env: Env, w: World, id: Id, v: Visit): (World, Result) {
    if v.faults.get then (w, FAILED) else
    match v.view
    case None => (IndexRemove(w, id), Result(false, 0))
    case Some(policy) =>
      if policy.deleting then Finalize(env, w, id, policy, v.faults)
      else
        var (w1, prepared) := Prepare(w, id, policy, v);
        if prepared.None? then (w1, FAILED)
        else
          var (live, retry) := prepared.value;
          if live.status.phase == Mitigating then
            var (w2, r) := TryDeEscalate(env, w1, id, live, v.now, v.faults);
            (w2, WithSoonerRequeue(r, retry))
          else (w1, WithSoonerRequeue(Result(false, 0), retry))
  }

  // ---------------------------------------------------------------- the running controller

  /** The two unblocking loops tryDeEscalate and finalize share. */
  method ReleaseSources(maps: KernelMaps, parse: string -> Option<Addr>, texts: seq<string>,
                        faults: set<Entry>) returns (ok: bool)
    modifies maps
    ensures (maps.entries, ok) == Release(old(maps.entries), SourceClaims(parse, texts), faults)
  {
    for i := 0 to |texts|
      invariant Release(maps.entries, SourceClaims(parse, texts[i..]), faults) ==
                old(Release(maps.entries, SourceClaims(parse, texts), faults))
    {
      ghost var rest := SourceClaims(parse, texts[i + 1..]);
      assert texts[i..][1..] == texts[i + 1..];
      var parsed := parse(texts[i]);
      if parsed.None? {
        assert SourceClaim(parse, texts[i]) + rest == rest;
        continue;
      }
      var e := Source(parsed.value);
      ReleaseStep(maps.entries, e, rest, faults);
      ok := maps.Unblock(e, e in faults);
      if !ok { return; }
    }
    return true;
  }

  method ReleaseTunnels(maps: KernelMaps, parse: string -> Option<Addr>, texts: seq<string>,
                        faults: set<Entry>) returns (ok: bool)
    modifies maps
    ensures (maps.entries, ok) == Release(old(maps.entries), TunnelClaims(parse, texts), faults)
  {
    for i := 0 to |texts|
      invariant Release(maps.entries, TunnelClaims(parse, texts[i..]), faults) ==
                old(Release(maps.entries, TunnelClaims(parse, texts), faults))
    {
      ghost var rest := TunnelClaims(parse, texts[i + 1..]);
      assert texts[i..][1..] == texts[i + 1..];
      var parsed := ParseTunnel(parse, texts[i]);
      if parsed.None? {
        assert TunnelClaim(parse, texts[i]) + rest == rest;
        continue;
      }
      var e := Tunnel(parsed.value.0, parsed.value.1);
      ReleaseStep(maps.entries, e, rest, faults);
      ok := maps.Unblock(e, e in faults);
      if !ok { return; }
    }
    return true;
  }

  method ReleaseAll(c: Cluster, status: Status, faults: set<Entry>) returns (ok: bool)
    modifies c.maps
    ensures c.State() == old(c.State()).(kernel := c.maps.entries)
    ensures (c.maps.entries, ok) == Release(old(c.maps.entries), Claims(c.env.parse, status), faults)
  {
    ReleaseAppend(c.maps.entries, SourceClaims(c.env.parse, status.blockedIPs),
                  TunnelClaims(c.env.parse, status.blockedTunnels), faults);
    ok := ReleaseSources(c.maps, c.env.parse, status.blockedIPs, faults);
    if ok { ok := ReleaseTunnels(c.maps, c.env.parse, status.blockedTunnels, faults); }
  }

  lemma ReleaseStep(kernel: set<Entry>, e: Entry, rest: seq<Entry>, faults: set<Entry>)
    ensures Release(kernel, [e] + rest, faults) ==
            if e in faults || !Enforceable(e) then (kernel, false) else Release(kernel - {e}, rest, faults)
  {
    assert ([e] + rest)[1..] == rest;
  }

  method DeEscalate(c: Cluster, id: Id, policy: Policy, now: int, f: Faults) returns (r: Result)
    modifies c, c.maps
    ensures (c.State(), r) == TryDeEscalate(c.env, old(c.State()), id, policy, now, f)
  {
    if policy.status.lastMitigation.None? { return Result(false, 0); }
    var elapsed := now - policy.status.lastMitigation.value;
    var remaining := c.env.dwell - elapsed;
    if remaining > 0 { return Result(false, remaining); }
    var released := ReleaseAll(c, policy.status, f.kernel);
    if !released || (policy.spec.isolatePod && policy.spec.hasSelector && f.mesh) { return FAILED; }
    var outcome, refreshed := c.UpdateStatus(id, policy.(status := Cleared(policy.status)), f.clearWrite);
    if outcome != Done { return FAILED; }
    c.Put(id, refreshed);
    return Result(false, 0);
  }

  method FinalizePolicy(c: Cluster, id: Id, policy: Policy, f: Faults) returns (r: Result)
    modifies c, c.maps
    ensures (c.State(), r) == Finalize(c.env, old(c.State()), id, policy, f)
  {
    if !policy.finalizer { return Result(false, 0); }
    if policy.spec.hasSelector && f.mesh { return FAILED; }
    var released := ReleaseAll(c, policy.status, f.kernel);
    if !released { return FAILED; }
    var outcome, _ := c.UpdateFinalizer(id, policy.(finalizer := false), f.finalizerWrite);
    if outcome != Done { return FAILED; }
    c.Remove(id);
    return Result(false, 0);
  }

  /** Finalizer, index, phase and scoring condition of a live policy. */
  method PreparePolicy(c: Cluster, id: Id, view: Policy, v: Visit) returns (prepared: Option<(Policy, int)>)
    modifies c
    ensures (c.State(), prepared) == Prepare(old(c.State()), id, view, v)
  {
    var policy := view;
    if !policy.finalizer {
      var outcome, refreshed := c.UpdateFinalizer(id, policy.(finalizer := true), v.faults.finalizerWrite);
      if outcome != Done { return None; }
      policy := refreshed;
    }
    c.Put(id, policy);
    if policy.status.phase == Unset || policy.status.phase == Pending {
      var copy := policy.(status := policy.status.(phase := Monitoring));
      var outcome, refreshed := c.UpdateStatus(id, copy, v.faults.phaseWrite);
      if outcome != Done { return None; }
      policy := refreshed;
      c.Put(id, policy);
    }
    match v.scoring
    case Untracked => return Some((policy, 0));
    case Tracked(changed, retryAfter) =>
      if !changed { return Some((policy, retryAfter)); }
      var outcome, refreshed := c.UpdateStatus(id, policy, v.faults.scoringWrite);
      match outcome
      case Failed => return None;
      case Conflict => return Some((policy, SECOND));
      case Done =>
        c.Put(id, refreshed);
        return Some((refreshed, retryAfter));
  }

  method ReconcilePolicy(c: Cluster, id: Id, v: Visit) returns (r: Result)
    modifies c, c.maps
    ensures (c.State(), r) == Reconcile(c.env, old(c.State()), id, v)
  {
    if v.faults.get { return FAILED; }
    match v.view
    case None =>
      c.Remove(id);
      return Result(false, 0);
    case Some(policy) =>
      if policy.deleting {
        r := FinalizePolicy(c, id, policy, v.faults);
        return;
      }
      var prepared := PreparePolicy(c, id, policy, v);
      if prepared.None? { return FAILED; }
      var (live, retry) := prepared.value;
      if live.status.phase == Mitigating {
        var result := DeEscalate(c, id, live, v.now, v.faults);
        return WithSoonerRequeue(result, retry);
      }
      return WithSoonerRequeue(Result(false, 0), retry);
  }
}
