/** What one reconciliation of a policy leaves behind, field by field (Reconcile,
    tryDeEscalate and finalize of
    pkg/controller/telecomsecuritypolicy_controller.go). */
module VisitOutcomes {
  import opened Prelude
  import opened TunnelText
  import opened Enforcement
  import opened Policies
  import opened ClusterState
  import opened PolicyController

  /** The visit reads the policy as it is stored. */
  predicate ReadsCurrent(w: World, id: Id, v: Visit) {
    id in w.store && v.view == Some(w.store[id])
  }

  predicate IsNew(phase: Phase) {
    phase == Unset || phase == Pending
  }

  /** Every policy but `id` is as it was. */
  ghost predicate OthersKept(w: World, id: Id, w': World) {
    && (forall k :: k != id ==> Get(w'.store, k) == Get(w.store, k))
    && (forall k :: k != id ==> Get(w'.index, k) == Get(w.index, k))
  }

  // ---------------------------------------------------------------- a live policy

  /** None of the writes that the visit makes before it looks at the phase fails. */
  predicate Prepares(policy: Policy, v: Visit) {
    && (policy.finalizer || !v.faults.finalizerWrite)
    && (IsNew(policy.status.phase) ==> !v.faults.phaseWrite)
    && (v.scoring.Tracked? && v.scoring.changed ==> !v.faults.scoringWrite)
  }

  function Retry(v: Visit): int {
    if v.scoring.Tracked? then v.scoring.retryAfter else 0
  }

  ghost predicate Prepared(w: World, id: Id, w': World)
    requires id in w.store
  {
    var was := w.store[id];
    && id in w'.store && Get(w'.index, id) == Some(w'.store[id])
    && w'.store[id].spec == was.spec && w'.store[id].deleting == was.deleting && w'.store[id].finalizer
    && w'.store[id].status == was.status.(phase := if IsNew(was.status.phase) then Monitoring else was.status.phase)
  }

  /** The three writes in turn, each through the stored copy. */
  lemma FinalizerStep(w: World, id: Id, f: Faults)
    requires id in w.store && !w.store[id].deleting
    ensures var (w', r) := EnsureFinalizer(w, id, w.store[id], f);
            && (r.Some? <==> w.store[id].finalizer || !f.finalizerWrite)
            && (r.Some? ==> id in w'.store && r.value == w'.store[id] == w.store[id].(finalizer := true,
                                                                                      version := r.value.version))
            && w'.kernel == w.kernel && OthersKept(w, id, w')
  {
  }

  lemma PhaseStep(w: World, id: Id, f: Faults)
    requires id in w.store && Get(w.index, id) == Some(w.store[id])
    ensures var (w', r) := Activate(w, id, w.store[id], f);
            var was := w.store[id].status;
            && (r.Some? <==> (IsNew(was.phase) ==> !f.phaseWrite))
            && (r.Some? ==>
                  && id in w'.store && r.value == w'.store[id] && Get(w'.index, id) == Some(w'.store[id])
                  && r.value == w.store[id].(
                       version := r.value.version,
                       status := was.(phase := if IsNew(was.phase) then Monitoring else was.phase)))
            && w'.kernel == w.kernel && OthersKept(w, id, w')
  {
  }

  lemma ScoringStep(w: World, id: Id, s: Scoring, f: Faults)
    requires id in w.store && Get(w.index, id) == Some(w.store[id])
    ensures var (w', r) := ReportScoring(w, id, w.store[id], s, f);
            && (r.Some? <==> (s.Tracked? && s.changed ==> !f.scoringWrite))
            && (r.Some? ==>
                  && id in w'.store && r.value == (w'.store[id], if s.Tracked? then s.retryAfter else 0)
                  && Get(w'.index, id) == Some(w'.store[id])
                  && w'.store[id] == w.store[id].(version := w'.store[id].version))
            && w'.kernel == w.kernel && OthersKept(w, id, w')
  {
  }

  lemma OthersKeptThen(w: World, id: Id, w1: World, w2: World)
    requires OthersKept(w, id, w1) && OthersKept(w1, id, w2)
    ensures OthersKept(w, id, w2)
  {
    forall k | k != id ensures Get(w2.store, k) == Get(w.store, k) && Get(w2.index, k) == Get(w.index, k) {
      assert Get(w2.store, k) == Get(w1.store, k) && Get(w2.index, k) == Get(w1.index, k);
    }
  }

  lemma PrepareOutcome(w: World, id: Id, v: Visit)
    requires ReadsCurrent(w, id, v) && !w.store[id].deleting
    ensures var (w', r) := Prepare(w, id, w.store[id], v);
            && (r.Some? <==> Prepares(w.store[id], v))
            && (r.Some? ==> Prepared(w, id, w') && r.value == (w'.store[id], Retry(v)))
            && w'.kernel == w.kernel && OthersKept(w, id, w')
  {
    FinalizerStep(w, id, v.faults);
    var (w1, finalized) := EnsureFinalizer(w, id, w.store[id], v.faults);
    if finalized.Some? {
      var w2 := IndexPut(w1, id, finalized.value);
      OthersKeptThen(w, id, w1, w2);
      PhaseStep(w2, id, v.faults);
      var (w3, active) := Activate(w2, id, finalized.value, v.faults);
      OthersKeptThen(w, id, w2, w3);
      if active.Some? {
        ScoringStep(w3, id, v.scoring, v.faults);
        OthersKeptThen(w, id, w3, ReportScoring(w3, id, active.value, v.scoring, v.faults).0);
      }
    }
  }

  /** The quiet period of a running mitigation is over. */
  predicate Quiet(env: Env, status: Status, now: int) {
    status.phase == Mitigating && status.lastMitigation.Some? && now >= status.lastMitigation.value + env.dwell
  }

  /** None of the steps that reverse the mitigation fails. */
  ghost predicate Reverses(env: Env, policy: Policy, f: Faults) {
    && (forall e :: e in Claims(env.parse, policy.status) ==> e !in f.kernel && Enforceable(e))
    && !(policy.spec.isolatePod && policy.spec.hasSelector && f.mesh) && !f.clearWrite
  }

  /** The sooner of two wake-ups, of which one that is not positive asks for none. */
  function Sooner(a: int, b: int): int {
    if a <= 0 && b <= 0 then 0 else if a <= 0 || (0 < b <= a) then b else a
  }

  lemma DeEscalateOutcome(env: Env, w: World, id: Id, now: int, f: Faults)
    requires id in w.store && w.store[id].status.phase == Mitigating
    ensures var (w', r) := TryDeEscalate(env, w, id, w.store[id], now, f);
            var policy, status := w.store[id], w.store[id].status;
            && (r.failed <==> Quiet(env, status, now) && !Reverses(env, policy, f))
            && (!Quiet(env, status, now) ==> w' == w)
            && r.requeueAfter == (if !Quiet(env, status, now) && status.lastMitigation.Some?
                                  then status.lastMitigation.value + env.dwell - now else 0)
            && (Quiet(env, status, now) && !r.failed ==>
                  && id in w'.store && Get(w'.index, id) == Some(w'.store[id]) && OthersKept(w, id, w')
                  && w'.store[id] == policy.(
                       version := w'.store[id].version,
                       status := status.(phase := Monitoring, blockedIPs := [], blockedTunnels := []))
                  && w'.kernel == w.kernel - Elements(Claims(env.parse, status)))
  {
    ReleaseEffect(w.kernel, Claims(env.parse, w.store[id].status), f.kernel);
  }

  /** A visit of a live policy, on a current read. It fails exactly if one of its own
      writes or releases does. Otherwise the policy has its finalizer and is indexed
      as stored; a new one is under monitoring; one whose quiet period is over is
      back to monitoring, with both lists empty and exactly its own entries out of
      the kernel, and any other keeps its phase and blocks; the score, the mitigation
      time, the spec and every other policy are as before; and the controller is
      woken at the end of a running quiet period, or sooner if the scoring condition
      asks for it. */
  lemma VisitOutcome(env: Env, w: World, id: Id, v: Visit)
    requires ReadsCurrent(w, id, v) && !w.store[id].deleting && !v.faults.get
    ensures var (w', r) := Reconcile(env, w, id, v);
            var policy, status := w.store[id], w.store[id].status;
            var quiet := Quiet(env, status, v.now);
            && (r.failed <==> !Prepares(policy, v) || (quiet && !Reverses(env, policy, v.faults)))
            && (!r.failed ==>
                  && id in w'.store && Get(w'.index, id) == Some(w'.store[id]) && OthersKept(w, id, w')
                  && w'.store[id].spec == policy.spec && !w'.store[id].deleting && w'.store[id].finalizer
                  && w'.store[id].status == Status(
                       if quiet || IsNew(status.phase) then Monitoring else status.phase,
                       status.observedScore, status.lastMitigation,
                       if quiet then [] else status.blockedIPs, if quiet then [] else status.blockedTunnels)
                  && w'.kernel == (if quiet then w.kernel - Elements(Claims(env.parse, status)) else w.kernel)
                  && r.requeueAfter == Sooner(
                       if status.phase == Mitigating && !quiet && status.lastMitigation.Some?
                       then status.lastMitigation.value + env.dwell - v.now else 0, Retry(v)))
  {
    PrepareOutcome(w, id, v);
    var (w1, prepared) := Prepare(w, id, w.store[id], v);
    if prepared.Some? && w1.store[id].status.phase == Mitigating { DeEscalateOutcome(env, w1, id, v.now, v.faults); }
  }

  lemma ClaimKinds(env: Env, status: Status)
    ensures forall e :: e in SourceClaims(env.parse, status.blockedIPs) ==> e.Source?
    ensures forall e :: e in TunnelClaims(env.parse, status.blockedTunnels) ==> e.Tunnel?
  {
    forall e | e in SourceClaims(env.parse, status.blockedIPs) ensures e.Source? {
      var text := SourceClaimFrom(env.parse, status.blockedIPs, e);
    }
    forall e | e in TunnelClaims(env.parse, status.blockedTunnels) ensures e.Tunnel? {
      var text := TunnelClaimFrom(env.parse, status.blockedTunnels, e);
    }
  }

  /** Sources are released before tunnels: a source that cannot be released leaves
      every tunnel blocked, and otherwise every source is out of the kernel, even if
      a tunnel cannot be. */
  lemma SourcesReleasedFirst(env: Env, kernel: set<Entry>, status: Status, faults: set<Entry>)
    ensures var after, sources := Release(kernel, Claims(env.parse, status), faults).0,
                                  SourceClaims(env.parse, status.blockedIPs);
            if exists e :: e in sources && e in faults
            then forall e :: e in kernel && e.Tunnel? ==> e in after
            else forall e :: e in sources ==> e !in after
  {
    var sources, tunnels := SourceClaims(env.parse, status.blockedIPs), TunnelClaims(env.parse, status.blockedTunnels);
    ClaimKinds(env, status);
    ReleaseAppend(kernel, sources, tunnels, faults);
    ReleaseEffect(kernel, sources, faults);
    var (after, ok) := Release(kernel, sources, faults);
    ReleaseEffect(after, tunnels, faults);
  }

  // ---------------------------------------------------------------- the other branches

  /** A visit that cannot read changes nothing; one that finds no policy drops it from
      the index. */
  lemma UnreadOutcome(env: Env, w: World, id: Id, v: Visit)
    requires v.faults.get || v.view.None?
    ensures var (w', r) := Reconcile(env, w, id, v);
            && w'.store == w.store && w'.kernel == w.kernel && r.requeueAfter == 0 && (r.failed <==> v.faults.get)
            && w'.index == if v.faults.get then w.index else w.index - {id}
  {
  }

  /** A visit of a policy being deleted, on a current read. One without the finalizer
      is left to the API server. One with it goes away, from the store and from the
      index, with exactly its own entries out of the kernel, unless a release or the
      write fails; and then it stays, with every claim still named. */
  lemma DeletionOutcome(env: Env, w: World, id: Id, v: Visit)
    requires ReadsCurrent(w, id, v) && w.store[id].deleting && !v.faults.get
    ensures var (w', r) := Reconcile(env, w, id, v);
            var policy := w.store[id];
            && r.requeueAfter == 0 && OthersKept(w, id, w')
            && (!policy.finalizer ==> w' == w && !r.failed)
            && (policy.finalizer ==>
                  && (r.failed <==>
                        || (policy.spec.hasSelector && v.faults.mesh) || v.faults.finalizerWrite
                        || exists e :: e in Claims(env.parse, policy.status) &&
                                       (e in v.faults.kernel || !Enforceable(e)))
                  && (r.failed ==> w'.store == w.store && w'.index == w.index && w'.kernel <= w.kernel)
                  && (!r.failed ==>
                        && id !in w'.store && id !in w'.index
                        && w'.kernel == w.kernel - Elements(Claims(env.parse, policy.status))))
  {
    ReleaseEffect(w.kernel, Claims(env.parse, w.store[id].status), v.faults.kernel);
  }

  /** A scoring condition that conflicts with another writer is retried after a
      second, and is no error. */
  lemma ConflictRetries(env: Env, w: World, id: Id, v: Visit)
    requires v.view.Some? && !v.faults.get && id in w.store && w.store[id].version != v.view.value.version
    requires !v.view.value.deleting && v.view.value.finalizer && v.view.value.status.phase in {Monitoring, Alerting}
    requires v.scoring.Tracked? && v.scoring.changed && !v.faults.scoringWrite
    ensures var (w', r) := Reconcile(env, w, id, v);
            r == Result(false, 1_000_000_000) && w' == w.(index := w.index[id := v.view.value])
  {
  }
}
