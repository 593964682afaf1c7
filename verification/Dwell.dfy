/** De-escalation: a block is never stranded, never released early, and is
    released by the first error-free reconciliation after its quiet period; and
    what reads that lag can do to this. */
module Dwell {
  import opened Prelude
  import opened TunnelText
  import opened Enforcement
  import opened Policies
  import opened ClusterState
  import opened PolicyController
  import opened VisitOutcomes
  import opened ClosedLoop
  import W = ThreatScoreWatcher

  /** A status that de-escalation can find: blocks only while Mitigating, and
      Mitigating only with a recorded time. */
  predicate Anchored(status: Status) {
    && (HoldsBlocks(status) ==> status.phase == Mitigating)
    && (status.phase == Mitigating ==> status.lastMitigation.Some?)
  }

  ghost predicate AllAnchored(w: World) {
    && (forall id :: id in w.store ==> Anchored(w.store[id].status))
    && (forall id :: id in w.index ==> Anchored(w.index[id].status))
  }

  ghost predicate AllArmed(w: World) {
    && (forall id :: id in w.store ==> w.store[id].spec.autoMitigate)
    && (forall id :: id in w.index ==> w.index[id].spec.autoMitigate)
  }

  ghost predicate Sound(w: World) {
    AllAnchored(w) && AllArmed(w)
  }

  /** AutoMitigate stays on and the kill switch stays disengaged. */
  predicate ArmedStep(step: Step) {
    match step
    case ApplyScore(_, _, _, o) => !o.killed
    case Create(_, spec) => spec.autoMitigate
    case Edit(_, spec) => spec.autoMitigate
    case _ => true
  }

  // ---------------------------------------------------------------- never stranded

  /** An armed decision is anchored. */
  lemma DecideAnchored(env: Env, policy: Policy, ev: W.Score)
    requires Anchored(policy.status) && policy.spec.autoMitigate
    ensures Anchored(W.Decide(env, policy, ev, false).status)
  {
  }

  lemma WriteKeepsSound(w: World, id: Id, next: Status, o: W.Oracle)
    requires id in w.store && Sound(w) && Anchored(next)
    ensures Sound(W.WriteStatus(w, id, w.store[id], next, o).0)
  {
  }

  lemma ApplyKeepsSound(env: Env, w: World, id: Id, copy: Policy, ev: W.Score, o: W.Oracle)
    requires Known(w, id, copy) && Sound(w) && !o.killed
    ensures Sound(W.ApplyTo(env, w, id, copy, ev, o).0)
  {
    var d := W.Decide(env, copy, ev, false);
    if Outdated(w, id, copy) {
      OutdatedWrite(w, id, copy, d.status, o);
    } else {
      DecideAnchored(env, copy, ev);
      WriteKeepsSound(w, id, d.status, o);
    }
  }

  lemma PreparedKeepsSound(w: World, id: Id, w': World)
    requires Sound(w) && OnlyPrepared(w, id, w') && Reindexed(w, id, w')
    ensures Sound(w')
  {
  }

  lemma TryDeEscalateKeepsSound(env: Env, w: World, id: Id, now: int, f: Faults)
    requires Sound(w) && id in w.store
    ensures Sound(TryDeEscalate(env, w, id, w.store[id], now, f).0)
  {
  }

  lemma FinalizeKeepsSound(env: Env, w: World, id: Id, policy: Policy, f: Faults)
    requires Sound(w)
    ensures Sound(Finalize(env, w, id, policy, f).0)
  {
  }

  /** Whatever the age of the view, if it was anchored and armed when it was read. */
  lemma ReconcileKeepsSound(env: Env, w: World, id: Id, v: Visit)
    requires Sound(w) && (v.view.Some? ==> Known(w, id, v.view.value))
    requires v.view.Some? ==> Anchored(v.view.value.status) && v.view.value.spec.autoMitigate
    ensures Sound(Reconcile(env, w, id, v).0)
  {
    if v.view.Some? {
      if Outdated(w, id, v.view.value) {
        OutdatedVisit(env, w, id, v);
      } else if v.view.value.deleting {
        FinalizeKeepsSound(env, w, id, v.view.value, v.faults);
      } else {
        PrepareOnly(w, id, v.view.value, v);
        var (w1, prepared) := Prepare(w, id, v.view.value, v);
        PreparedKeepsSound(w, id, w1);
        if prepared.Some? { TryDeEscalateKeepsSound(env, w1, id, v.now, v.faults); }
      }
    }
  }

  lemma StepKeepsSound(env: Env, s: System, step: Step, s': System, read: World)
    requires Sound(s.world) && Next(env, s, step, s') && ArmedStep(step)
    requires ReadsFrom(read, step) && Sound(read) && ReadsKnown(s.world, step)
    ensures Sound(s'.world)
  {
    match step
    case ApplyScore(id, copy, ev, o) => ApplyKeepsSound(env, s.world, id, copy, ev, o);
    case Visiting(id, visit) => ReconcileKeepsSound(env, s.world, id, visit);
    case Pass(_, _, _, _) =>
    case FailedPass =>
    case KernelLost =>
    case Restart =>
    case WarmIndex(_) =>
    case Create(_, _) =>
    case Edit(_, _) =>
    case Delete(_) =>
  }

  /** While mitigation stays armed, every reachable status with a non-empty
      block list is Mitigating with its time set. */
  lemma {:induction false} NothingStranded(env: Env, states: seq<System>, steps: seq<Step>, i: nat)
    requires Run(env, states, steps) && i < |states|
    requires forall k :: 0 <= k < i ==> ArmedStep(steps[k])
    ensures Sound(states[i].world)
    decreases i, 1
  {
    if i > 0 {
      assert StepAt(env, states, steps, i - 1);
      NothingStranded(env, states, steps, i - 1);
      var j := SoundRead(env, states, steps, i - 1);
      RunReadsKnown(env, states, steps, i - 1);
      StepKeepsSound(env, states[i - 1], steps[i - 1], states[i], states[j].world);
    }
  }

  lemma {:induction false} SoundRead(env: Env, states: seq<System>, steps: seq<Step>, i: nat) returns (j: nat)
    requires Run(env, states, steps) && i < |steps|
    requires forall k :: 0 <= k < i ==> ArmedStep(steps[k])
    ensures j <= i && ReadsFrom(states[j].world, steps[i]) && Sound(states[j].world)
    decreases i, 2
  {
    assert StepAt(env, states, steps, i);
    j :| 0 <= j <= i && ReadsFrom(states[j].world, steps[i]);
    NothingStranded(env, states, steps, j);
  }

  /** The hypothesis is needed, and this is exactly where: a score keeps every
      status anchored unless it crosses on a policy that already holds blocks,
      the action is withheld, and the Alerting phase gets written. */
  lemma WithheldCrossingExact(env: Env, w: World, id: Id, ev: W.Score, o: W.Oracle)
    requires id in w.index && AllAnchored(w)
    ensures AllAnchored(W.Apply(env, w, id, ev, o).0) <==>
            !(&& W.Crosses(env, w.index[id], ev)
              && (!w.index[id].spec.autoMitigate || o.killed)
              && HoldsBlocks(w.index[id].status)
              && WriteOutcome(w, id, w.index[id], o.apiFails) == Done)
  {
    var w' := W.Apply(env, w, id, ev, o).0;
    if W.Crosses(env, w.index[id], ev) && (!w.index[id].spec.autoMitigate || o.killed) &&
       HoldsBlocks(w.index[id].status) && WriteOutcome(w, id, w.index[id], o.apiFails) == Done {
      assert w'.store[id].status.phase == Alerting;
    }
  }

  /** A run that strands a block: an armed score places it, and a second one finds
      the kill switch engaged. */
  lemma KillSwitchStrands(env: Env, id: Id, ev: W.Score, addr: Addr) returns (states: seq<System>, steps: seq<Step>)
    requires ev.value >= 1.0 && ev.teid == 0 && env.parse(ev.source) == Some(addr)
    requires env.cap(MapOf(Source(addr))) > 0
    ensures Run(env, states, steps) && |steps| == 4 && forall k :: 0 <= k < 4 ==> (ArmedStep(steps[k]) <==> k < 3)
    ensures AllAnchored(states[3].world)
    ensures var w := states[4].world;
            && id in w.store && w.kernel == {Source(addr)} && w.store[id].status.blockedIPs == [ev.source]
            && w.store[id].status.phase == Alerting && !Anchored(w.store[id].status)
  {
    states, steps := WarmedBlock(env, id, ev, addr);
    var o := PLAIN.(killed := true);
    var w := states[3].world;
    TopScoreCrosses(env, w.index[id], ev);
    var s := System(W.Apply(env, w, id, ev, o).0, {});
    states, steps := Extended(env, states, steps, ApplyScore(id, w.index[id], ev, o), s);
  }

  /** What a stranded policy costs: outside Mitigating no reconciliation releases
      its blocks, and none asks to be woken for them. */
  lemma StrandedStaysBlocked(env: Env, w: World, id: Id, v: Visit)
    requires v.view == Get(w.store, id) && id in w.store && !w.store[id].deleting
    requires w.store[id].status.phase in {Monitoring, Alerting}
    ensures var (w', r) := Reconcile(env, w, id, v);
            && w'.kernel == w.kernel
            && id in w'.store && w'.store[id].status == w.store[id].status
            && (v.scoring.Untracked? ==> r.requeueAfter == 0)
  {
    PrepareOnly(w, id, w.store[id], v);
  }

  /** What brings it back: a score ends a stranded policy's exile from Mitigating
      if and only if it crosses, armed, and its write goes through. From then on
      QuietVisitReleases applies. */
  lemma StrandedRecoversExact(env: Env, w: World, id: Id, ev: W.Score, o: W.Oracle)
    requires id in w.index && id in w.store && w.index[id] == w.store[id] && w.store[id].status.phase != Mitigating
    ensures var status := W.Apply(env, w, id, ev, o).0.store[id].status;
            status.phase == Mitigating <==> W.MitigatesNow(env, w.index[id], ev, o) && !o.apiFails
    ensures var status := W.Apply(env, w, id, ev, o).0.store[id].status;
            status.phase == Mitigating ==> status.lastMitigation == Some(ev.now)
  {
  }

  // ---------------------------------------------------------------- never early, then at once

  /** Before T + dwell no reconciliation of a live policy touches the kernel or
      a block list, and each one that succeeds on a Mitigating policy asks to be
      woken, no later than T + dwell. */
  lemma NoEarlyRelease(env: Env, w: World, id: Id, v: Visit)
    requires v.view == Get(w.store, id) && id in w.store && !w.store[id].deleting
    requires Dwelling(env, w.store[id].status, v.now)
    ensures var (w', r) := Reconcile(env, w, id, v);
            && w'.kernel == w.kernel
            && id in w'.store && SameLists(w'.store[id].status, w.store[id].status)
            && (w.store[id].status.phase == Mitigating && !r.failed ==>
                  0 < r.requeueAfter && v.now + r.requeueAfter <= w.store[id].status.lastMitigation.value + env.dwell)
  {
    PrepareOnly(w, id, w.store[id], v);
  }

  /** `next` is the status of a policy whose threat is over: under monitoring, with
      both lists empty and the rest as it was. */
  predicate Released(status: Status, next: Status) {
    && next.phase == Monitoring && next.blockedIPs == [] && next.blockedTunnels == []
    && next.observedScore == status.observedScore && next.lastMitigation == status.lastMitigation
  }

  /** The first error-free reconciliation at or after T + dwell puts the policy back
      under monitoring, empties both lists, takes exactly the policy's own entries
      out of the kernel, and touches nothing else but a missing finalizer. */
  lemma QuietVisitReleases(env: Env, w: World, id: Id, v: Visit)
    requires v.view == Get(w.store, id) && id in w.store && !w.store[id].deleting
    requires w.store[id].status.phase == Mitigating && w.store[id].status.lastMitigation.Some?
    requires !Dwelling(env, w.store[id].status, v.now)
    requires !Reconcile(env, w, id, v).1.failed
    ensures var w' := Reconcile(env, w, id, v).0;
            && id in w'.store && Released(w.store[id].status, w'.store[id].status)
            && w'.store[id].spec == w.store[id].spec && !w'.store[id].deleting && w'.store[id].finalizer
            && id in w'.index && w'.index[id] == w'.store[id] && OthersKept(w, id, w')
            && w'.kernel == w.kernel - Elements(Claims(env.parse, w.store[id].status))
  {
    VisitOutcome(env, w, id, v);
  }

  /** Both together: what a successful visit makes of a Mitigating policy. */
  lemma MitigatingVisit(env: Env, w: World, id: Id, v: Visit)
    requires v.view == Get(w.store, id) && id in w.store && !w.store[id].deleting
    requires w.store[id].status.phase == Mitigating && w.store[id].status.lastMitigation.Some?
    requires !Reconcile(env, w, id, v).1.failed
    ensures var w', status := Reconcile(env, w, id, v).0, w.store[id].status;
            id in w'.store &&
            if v.now < status.lastMitigation.value + env.dwell then w'.store[id].status == status
            else Released(status, w'.store[id].status)
  {
    if Dwelling(env, w.store[id].status, v.now) {
      PrepareOnly(w, id, w.store[id], v);
    } else {
      QuietVisitReleases(env, w, id, v);
    }
  }

  // ---------------------------------------------------------------- reads of any age

  /** A visit of a live policy goes by the copy it read: it changes the kernel only
      for a copy that is Mitigating, and only once that copy's quiet period is
      over. */
  lemma KernelChangeIsQuiet(env: Env, w: World, id: Id, v: Visit)
    requires v.view.Some? && Known(w, id, v.view.value) && !v.view.value.deleting
    requires Reconcile(env, w, id, v).0.kernel != w.kernel
    ensures var status := v.view.value.status;
            status.phase == Mitigating && status.lastMitigation.Some? && !Dwelling(env, status, v.now)
  {
    var p := v.view.value;
    if Outdated(w, id, p) { OutdatedPrepare(w, id, p, v); } else { PrepareOnly(w, id, p, v); }
  }

  /** Over every run: a reconciliation that took a drop out of the kernel for a live
      policy did so no earlier than the mitigation time of the copy it read, plus
      the quiet period. If the read was current that is the persisted time. */
  lemma ReleasesAreQuiet(env: Env, states: seq<System>, steps: seq<Step>, i: nat)
    requires Run(env, states, steps) && i < |steps| && steps[i].Visiting?
    requires steps[i].visit.view.Some? && !steps[i].visit.view.value.deleting
    requires states[i + 1].world.kernel != states[i].world.kernel
    ensures var status := steps[i].visit.view.value.status;
            && status.phase == Mitigating && status.lastMitigation.Some?
            && steps[i].visit.now >= status.lastMitigation.value + env.dwell
  {
    assert StepAt(env, states, steps, i);
    RunReadsKnown(env, states, steps, i);
    KernelChangeIsQuiet(env, states[i].world, steps[i].id, steps[i].visit);
  }

  /** The visit gets as far as the release with the copy it read. */
  predicate ReachesRelease(w: World, id: Id, v: Visit) {
    && Indexes(v) && v.view.value.status.phase == Mitigating && v.view.value.status.lastMitigation.Some?
    && !(v.scoring.Tracked? && v.scoring.changed && (v.faults.scoringWrite || id !in w.store))
  }

  /** Some entry of the list is in the kernel, and no failure comes before it. */
  ghost predicate Hits(kernel: set<Entry>, entries: seq<Entry>, faults: set<Entry>) {
    exists k :: 0 <= k < |entries| && entries[k] in kernel && AllPass(entries, k, faults)
  }

  ghost predicate AllPass(entries: seq<Entry>, last: nat, faults: set<Entry>)
    requires last < |entries|
  {
    forall j :: 0 <= j <= last ==> entries[j] !in faults && Enforceable(entries[j])
  }

  lemma {:induction false} ReleaseChangesExact(kernel: set<Entry>, entries: seq<Entry>, faults: set<Entry>)
    ensures Release(kernel, entries, faults).0 != kernel <==> Hits(kernel, entries, faults)
    decreases |entries|
  {
    if entries != [] {
      var head, rest := entries[0], entries[1..];
      if head in faults || !Enforceable(head) {
        assert forall k :: 0 <= k < |entries| ==> !AllPass(entries, k, faults);
      } else if head in kernel {
        ReleaseEffect(kernel - {head}, rest, faults);
        assert entries[0] in kernel && AllPass(entries, 0, faults);
      } else {
        assert kernel - {head} == kernel;
        ReleaseChangesExact(kernel, rest, faults);
        HitsTail(kernel, entries, faults);
      }
    }
  }

  lemma HitsTail(kernel: set<Entry>, entries: seq<Entry>, faults: set<Entry>)
    requires entries != [] && entries[0] !in kernel && entries[0] !in faults && Enforceable(entries[0])
    ensures Hits(kernel, entries, faults) <==> Hits(kernel, entries[1..], faults)
  {
    var rest := entries[1..];
    if k :| 0 <= k < |entries| && entries[k] in kernel && AllPass(entries, k, faults) {
      assert rest[k - 1] in kernel && AllPass(rest, k - 1, faults);
    }
    if k :| 0 <= k < |rest| && rest[k] in kernel && AllPass(rest, k, faults) {
      forall j | 0 <= j <= k + 1 ensures entries[j] !in faults && Enforceable(entries[j]) {
        if j > 0 { assert entries[j] == rest[j - 1]; }
      }
      assert entries[k + 1] in kernel && AllPass(entries, k + 1, faults);
    }
  }

  /** While the persisted status still dwells, a visit of a live policy takes a drop
      out of the kernel if and only if the copy it read is outdated, gets as far as
      the release, has dwelt itself, and claims an entry that is there. */
  lemma EarlyReleaseExact(env: Env, w: World, id: Id, v: Visit)
    requires id in w.store && Dwelling(env, w.store[id].status, v.now)
    requires v.view.Some? && Known(w, id, v.view.value) && !v.view.value.deleting
    ensures var p := v.view.value;
            Reconcile(env, w, id, v).0.kernel != w.kernel <==>
            && Outdated(w, id, p) && ReachesRelease(w, id, v) && !Dwelling(env, p.status, v.now)
            && Hits(w.kernel, Claims(env.parse, p.status), v.faults.kernel)
  {
    var p := v.view.value;
    if Outdated(w, id, p) {
      OutdatedReachesRelease(env, w, id, v);
      ReleaseChangesExact(w.kernel, Claims(env.parse, p.status), v.faults.kernel);
    } else if Reconcile(env, w, id, v).0.kernel != w.kernel {
      KernelChangeIsQuiet(env, w, id, v);
    }
  }

  lemma OutdatedReachesRelease(env: Env, w: World, id: Id, v: Visit)
    requires v.view.Some? && !v.view.value.deleting && Outdated(w, id, v.view.value)
    ensures var p := v.view.value;
            Reconcile(env, w, id, v).0.kernel ==
            if ReachesRelease(w, id, v) && !Dwelling(env, p.status, v.now)
            then Release(w.kernel, Claims(env.parse, p.status), v.faults.kernel).0 else w.kernel
  {
    OutdatedPrepare(w, id, v.view.value, v);
  }

  /** A written repeat of the block, at the end of the first quiet period. */
  lemma RepeatRefreshes(env: Env, s: System, id: Id, ev: W.Score, addr: Addr) returns (again: W.Score, s': System)
    requires ev.value >= 1.0 && ev.teid == 0 && env.parse(ev.source) == Some(addr)
    requires env.cap(MapOf(Source(addr))) > 0
    requires var p := Policy(BLOCK_SOURCE, BlockedStatus(FRESH_STATUS, ev), false, true, 3);
             s == System(World(map[id := p], map[id := p], {Source(addr)}, 3), {})
    ensures again == ev.(now := ev.now + env.dwell)
    ensures Next(env, s, ApplyScore(id, s.world.index[id], again, PLAIN.(allowed := true)), s')
    ensures s'.world.store == map[id := Policy(BLOCK_SOURCE, BlockedStatus(FRESH_STATUS, again), false, true, 4)]
    ensures s'.world.kernel == {Source(addr)}
  {
    again := ev.(now := ev.now + env.dwell);
    TopScoreCrosses(env, s.world.index[id], again);
    OneBlock(env, s.world.kernel, again, addr);
    var d := W.Decide(env, s.world.index[id], again, false);
    assert d.status == BlockedStatus(FRESH_STATUS, again);
    s' := s.(world := W.Apply(env, s.world, id, again, PLAIN.(allowed := true)).0);
  }

  lemma StaleRelease(env: Env, s: System, id: Id, stale: Policy, ev: W.Score, addr: Addr) returns (v: Visit, s': System)
    requires env.parse(ev.source) == Some(addr) && s.world.kernel == {Source(addr)}
    requires stale == Policy(BLOCK_SOURCE, BlockedStatus(FRESH_STATUS, ev), false, true, 3)
    requires Outdated(s.world, id, stale)
    ensures v == Visit(Some(stale), ev.now + env.dwell, Untracked, NO_FAULTS) && Next(env, s, Visiting(id, v), s')
    ensures s'.world.kernel == {} && s'.world.store == s.world.store
  {
    v := Visit(Some(stale), ev.now + env.dwell, Untracked, NO_FAULTS);
    s' := s.(world := Reconcile(env, s.world, id, v).0);
    OutdatedVisit(env, s.world, id, v);
    OutdatedReachesRelease(env, s.world, id, v);
    assert [ev.source][1..] == [];
    assert SourceClaims(env.parse, [ev.source]) == [Source(addr)];
    assert Claims(env.parse, stale.status) == [Source(addr)];
    ReleaseEffect(s.world.kernel, [Source(addr)], {});
  }

  /** A visit that lags releases early: it goes by the time of the copy it read,
      while a later score has already started a new quiet period. */
  lemma StaleVisitReleasesEarly(env: Env, id: Id, ev: W.Score, addr: Addr)
      returns (states: seq<System>, steps: seq<Step>)
    requires ev.value >= 1.0 && ev.teid == 0 && env.parse(ev.source) == Some(addr)
    requires env.cap(MapOf(Source(addr))) > 0 && env.dwell > 0
    ensures Run(env, states, steps) && |steps| == 6 && steps[5].Visiting? && steps[5].id == id
    ensures id in states[5].world.store && Dwelling(env, states[5].world.store[id].status, steps[5].visit.now)
    ensures states[5].world.kernel == {Source(addr)} && states[6].world.kernel == {}
    ensures states[6].world.store == states[5].world.store && HoldsBlocks(states[6].world.store[id].status)
  {
    states, steps := FinalizedBlock(env, id, ev, addr);
    var again, s5 := RepeatRefreshes(env, states[4], id, ev, addr);
    var score := ApplyScore(id, states[4].world.index[id], again, PLAIN.(allowed := true));
    states, steps := Extended(env, states, steps, score, s5);
    var stale := states[4].world.store[id];
    var v, s6 := StaleRelease(env, s5, id, stale, ev, addr);
    assert ReadsPast(states, 5, Visiting(id, v)) by { assert ReadsFrom(states[4].world, Visiting(id, v)); }
    RunSnoc(env, states, steps, Visiting(id, v), s6);
    states, steps := states + [s6], steps + [Visiting(id, v)];
  }
}
