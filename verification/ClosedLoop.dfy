/** The closed mitigation loop over whole runs: threat scores, policy
    reconciliations, blocklist passes, users editing policies, kernels losing
    their maps and operators restarting, one call at a time, each call free to
    stop at any API or kernel failure. Reads of the API server go through a cache
    and may be of any age, and so may the indexed copy a score was handed. */
module ClosedLoop {
  import opened Prelude
  import opened TunnelText
  import opened Enforcement
  import opened Policies
  import opened BlocklistReconciler
  import opened ClusterState
  import opened PolicyController
  import W = ThreatScoreWatcher

  datatype System = System(world: World, unclaimed: set<Entry>)

  const EMPTY := System(World(map[], map[], {}, 0), {})

  datatype Step =
    | ApplyScore(id: Id, copy: Policy, ev: W.Score, o: W.Oracle)
    | Visiting(id: Id, visit: Visit)
    | Pass(list: map<Id, Policy>, desired: set<Entry>, faults: set<Entry>, added: set<Entry>)
    | FailedPass
    | KernelLost                  // maps recreated empty
    | Restart                     // index and two-pass memory are in memory only
    | WarmIndex(list: map<Id, Policy>)
    | Create(id: Id, spec: Spec)
    | Edit(id: Id, spec: Spec)
    | Delete(id: Id)

  /** Desired enforcement as the API server has it. */
  ghost predicate DesiredIn(env: Env, store: map<Id, Policy>, e: Entry) {
    Enforceable(e) &&
    exists id :: id in store && !store[id].deleting && e in Claims(env.parse, store[id].status)
  }

  /** Listing the store is what Sync's desiredEnforcement sees. */
  lemma ListedStore(env: Env, store: map<Id, Policy>, listed: seq<Policy>, e: Entry)
    requires forall p :: p in listed <==> p in store.Values
    ensures Desires(env.parse, listed, e) <==> DesiredIn(env, store, e)
  {
    if DesiredIn(env, store, e) {
      var id :| id in store && !store[id].deleting && e in Claims(env.parse, store[id].status);
      assert store[id] in store.Values;
      assert store[id] in listed;
    }
    if Desires(env.parse, listed, e) {
      var p :| p in listed && !p.deleting && e in Claims(env.parse, p.status);
      assert p in store.Values;
    }
  }

  function Warmed(w: World, list: map<Id, Policy>): World {
    w.(index := w.index + map id | id in list && !list[id].deleting :: list[id])
  }

  /** warmIndex: every listed policy that is not being deleted is indexed. */
  method WarmFrom(c: Cluster, listed: seq<(Id, Policy)>, ghost list: map<Id, Policy>)
    requires forall x :: x in listed <==> x.0 in list && list[x.0] == x.1
    modifies c
    ensures c.State() == Warmed(old(c.State()), list)
  {
    ghost var w := c.State();
    for i := 0 to |listed|
      invariant c.State() == w.(index := c.index)
      invariant forall id :: Get(c.index, id) ==
                  if (exists j :: 0 <= j < i && listed[j].0 == id && !listed[j].1.deleting) then Get(list, id)
                  else Get(w.index, id)
    {
      var (id, policy) := listed[i];
      assert listed[i] in listed;
      if !policy.deleting { c.Put(id, policy); }
    }
    forall id ensures Get(c.index, id) == Get(Warmed(w, list).index, id) {
      if id in list && !list[id].deleting {
        assert (id, list[id]) in listed;
      }
      if j :| 0 <= j < |listed| && listed[j].0 == id && !listed[j].1.deleting {
        assert listed[j] in listed;
      }
    }
    SameLookups(c.index, Warmed(w, list).index);
  }

  lemma SameLookups<V>(a: map<Id, V>, b: map<Id, V>)
    requires forall id :: Get(a, id) == Get(b, id)
    ensures a == b
  {
    forall id ensures (id in a <==> id in b) && (id in a ==> a[id] == b[id]) {
      assert Get(a, id) == Get(b, id);
    }
  }

  function Created(w: World, id: Id, spec: Spec): World {
    w.(store := w.store[id := Policy(spec, FRESH_STATUS, false, false, w.rev + 1)], rev := w.rev + 1)
  }

  function Edited(w: World, id: Id, spec: Spec): World
    requires id in w.store
  {
    w.(store := w.store[id := w.store[id].(spec := spec, version := w.rev + 1)], rev := w.rev + 1)
  }

  /** Without a finalizer an object is gone at once. */
  function Deleted(w: World, id: Id): World
    requires id in w.store
  {
    if w.store[id].finalizer
    then w.(store := w.store[id := w.store[id].(deleting := true, version := w.rev + 1)], rev := w.rev + 1)
    else w.(store := w.store - {id}, rev := w.rev + 1)
  }

  ghost predicate Next(env: Env, s: System, step: Step, s': System) {
    match step
    case ApplyScore(id, copy, ev, o) => s' == s.(world := W.ApplyTo(env, s.world, id, copy, ev, o).0)
    case Visiting(id, visit) => s' == s.(world := Reconcile(env, s.world, id, visit).0)
    case Pass(list, desired, faults, added) =>
      && (forall e :: e in desired <==> DesiredIn(env, list, e))
      && SyncPass(env.cap, desired, s.unclaimed, faults, s.world.kernel, added, s'.world.kernel)
      && s' == System(s.world.(kernel := s'.world.kernel), s.world.kernel - desired)
    case FailedPass => s' == s
    case KernelLost => s' == s.(world := s.world.(kernel := {}))
    case Restart => s' == System(s.world.(index := map[]), {})
    case WarmIndex(list) => s' == s.(world := Warmed(s.world, list))
    case Create(id, spec) => id !in s.world.store && s' == s.(world := Created(s.world, id, spec))
    case Edit(id, spec) => id in s.world.store && s' == s.(world := Edited(s.world, id, spec))
    case Delete(id) => id in s.world.store && s' == s.(world := Deleted(s.world, id))
  }

  /** What the step reads of the API server, or a score of the index, is what this
      world holds. */
  predicate ReadsFrom(w: World, step: Step) {
    match step
    case ApplyScore(id, copy, _, _) => Get(w.index, id) == Some(copy)
    case Visiting(id, visit) => visit.view == Get(w.store, id)
    case Pass(list, _, _, _) => list == w.store
    case WarmIndex(list) => list == w.store
    case _ => true
  }

  /** It reads some earlier world, or the present one. */
  ghost predicate ReadsPast(states: seq<System>, i: nat, step: Step)
    requires i < |states|
  {
    exists j :: 0 <= j <= i && ReadsFrom(states[j].world, step)
  }

  ghost predicate StepAt(env: Env, states: seq<System>, steps: seq<Step>, i: nat)
    requires i < |steps| && |states| == |steps| + 1
  {
    Next(env, states[i], steps[i], states[i + 1]) && ReadsPast(states, i, steps[i])
  }

  /** A run: `states` has one element more than `steps`. */
  ghost predicate Run(env: Env, states: seq<System>, steps: seq<Step>) {
    |states| == |steps| + 1 && states[0] == EMPTY && forall i :: 0 <= i < |steps| ==> StepAt(env, states, steps, i)
  }

  // ---------------------------------------------------------------- statuses

  predicate SameLists(a: Status, b: Status) {
    a.blockedIPs == b.blockedIPs && a.blockedTunnels == b.blockedTunnels
  }

  predicate HoldsBlocks(status: Status) {
    status.blockedIPs != [] || status.blockedTunnels != []
  }

  lemma NoClaims(env: Env, status: Status)
    requires !HoldsBlocks(status)
    ensures Claims(env.parse, status) == []
  {
  }

  /** A score only ever adds to the lists. */
  lemma DecisionGrows(env: Env, policy: Policy, ev: W.Score, killed: bool)
    ensures var next := W.Decide(env, policy, ev, killed).status;
            policy.status.blockedIPs <= next.blockedIPs && policy.status.blockedTunnels <= next.blockedTunnels
  {
  }

  /** A throttled write had nothing to record. */
  lemma ThrottledKeepsLists(env: Env, policy: Policy, ev: W.Score, killed: bool, allowed: bool)
    requires W.Throttled(policy.status, W.Decide(env, policy, ev, killed).status, allowed)
    ensures SameLists(policy.status, W.Decide(env, policy, ev, killed).status)
    ensures policy.status.phase == W.Decide(env, policy, ev, killed).status.phase
  {
    DecisionGrows(env, policy, ev, killed);
  }

  // ---------------------------------------------------------------- visits

  /** Of the store and the kernel nothing but policy `id` changed, and of its status
      at most the phase of a policy not yet monitored. */
  ghost predicate OnlyPrepared(w: World, id: Id, w': World) {
    && id in w.store && id in w'.store && w'.kernel == w.kernel
    && w'.store == w.store[id := w'.store[id]]
    && w'.store[id].spec == w.store[id].spec && w'.store[id].deleting == w.store[id].deleting
    && (w'.store[id].status == w.store[id].status ||
        (w.store[id].status.phase in {Unset, Pending} &&
         w'.store[id].status == w.store[id].status.(phase := Monitoring)))
  }

  /** If the index changed, it has the stored policy. */
  ghost predicate Reindexed(w: World, id: Id, w': World) {
    w'.index == w.index || (id in w'.store && w'.index == w.index[id := w'.store[id]])
  }

  lemma PreparedThen(w: World, id: Id, w1: World, w2: World)
    requires OnlyPrepared(w, id, w1) && OnlyPrepared(w1, id, w2)
    ensures OnlyPrepared(w, id, w2)
  {
  }

  lemma EnsureFinalizerPrepares(w: World, id: Id, policy: Policy, f: Faults)
    requires id in w.store && w.store[id] == policy && !policy.deleting
    ensures var (w', r) := EnsureFinalizer(w, id, policy, f);
            OnlyPrepared(w, id, w') && w'.index == w.index && w'.store[id].status == policy.status &&
            (r.Some? ==> r.value == w'.store[id]) &&
            (r.None? <==> !policy.finalizer && f.finalizerWrite)
  {
  }

  lemma ActivatePrepares(w: World, id: Id, policy: Policy, f: Faults)
    requires id in w.store && w.store[id] == policy && !policy.deleting
    ensures var (w', r) := Activate(w, id, policy, f);
            OnlyPrepared(w, id, w') && (r.Some? ==> r.value == w'.store[id]) &&
            (w' == w || w'.index == w.index[id := w'.store[id]])
  {
  }

  lemma ReportScoringPrepares(w: World, id: Id, policy: Policy, s: Scoring, f: Faults)
    requires id in w.store && w.store[id] == policy && !policy.deleting
    ensures var (w', r) := ReportScoring(w, id, policy, s, f);
            OnlyPrepared(w, id, w') && w'.store[id].status == policy.status &&
            (r.Some? ==> r.value.0 == w'.store[id]) && (w' == w || w'.index == w.index[id := w'.store[id]])
  {
  }

  /** With a current view, whatever happens before the phase is looked at keeps
      every list, every other policy and the kernel, and ends on the persisted
      policy. */
  lemma PrepareOnly(w: World, id: Id, policy: Policy, v: Visit)
    requires id in w.store && w.store[id] == policy && !policy.deleting
    ensures var (w', r) := Prepare(w, id, policy, v);
            OnlyPrepared(w, id, w') && Reindexed(w, id, w') && (r.Some? ==> r.value.0 == w'.store[id])
  {
    EnsureFinalizerPrepares(w, id, policy, v.faults);
    var (w1, finalized) := EnsureFinalizer(w, id, policy, v.faults);
    if finalized.Some? {
      var p1 := finalized.value;
      var w2 := IndexPut(w1, id, p1);
      PreparedThen(w, id, w1, w2);
      ActivatePrepares(w2, id, p1, v.faults);
      var (w3, active) := Activate(w2, id, p1, v.faults);
      PreparedThen(w, id, w2, w3);
      if active.Some? {
        ReportScoringPrepares(w3, id, active.value, v.scoring, v.faults);
        PreparedThen(w, id, w3, ReportScoring(w3, id, active.value, v.scoring, v.faults).0);
      }
    }
  }

  /** The view is of a version the API server has moved past, or of an object it no
      longer has. */
  predicate Outdated(w: World, id: Id, p: Policy) {
    id !in w.store || w.store[id].version != p.version
  }

  /** A copy of an object as it is or was: equal versions are equal objects. */
  predicate Known(w: World, id: Id, p: Policy) {
    p.version <= w.rev && (Outdated(w, id, p) || p == w.store[id])
  }

  /** The visit puts the copy it read into the index as it is. */
  predicate Indexes(v: Visit) {
    v.view.Some? && !v.faults.get && !v.view.value.deleting && v.view.value.finalizer
  }

  /** What a visit through the current view can do to the index. */
  lemma CurrentVisitIndex(env: Env, w: World, id: Id, v: Visit)
    requires v.view == Get(w.store, id)
    ensures var w' := Reconcile(env, w, id, v).0;
            w'.index == w.index || w'.index == w.index - {id} ||
            (id in w'.store && w'.index == w.index[id := w'.store[id]])
  {
    if v.view.Some? && !v.faults.get && !v.view.value.deleting {
      PrepareOnly(w, id, v.view.value, v);
      var (w1, prepared) := Prepare(w, id, v.view.value, v);
      if prepared.Some? {
        ReleaseIndex(env, w1, id, v.now, v.faults);
        ReindexedThen(w, id, w1, TryDeEscalate(env, w1, id, w1.store[id], v.now, v.faults).0);
      }
    }
  }

  lemma ReleaseIndex(env: Env, w: World, id: Id, now: int, f: Faults)
    requires id in w.store
    ensures var w' := TryDeEscalate(env, w, id, w.store[id], now, f).0;
            && Reindexed(w, id, w') && id in w'.store
            && (w'.store == w.store || w'.index == w.index[id := w'.store[id]])
  {
  }

  lemma ReindexedThen(w: World, id: Id, w1: World, w2: World)
    requires Reindexed(w, id, w1) && Reindexed(w1, id, w2)
    requires w2.store == w1.store || (id in w2.store && w2.index == w1.index[id := w2.store[id]])
    ensures Reindexed(w, id, w2)
  {
  }

  lemma OutdatedPrepare(w: World, id: Id, p: Policy, v: Visit)
    requires Outdated(w, id, p)
    ensures var (w', r) := Prepare(w, id, p, v);
            w' == (if p.finalizer then IndexPut(w, id, p) else w) && (r.Some? ==> r.value.0 == p)
  {
  }

  lemma OutdatedRelease(env: Env, w: World, id: Id, p: Policy, now: int, f: Faults)
    requires Outdated(w, id, p)
    ensures var w' := TryDeEscalate(env, w, id, p, now, f).0;
            w' == w.(kernel := w'.kernel) && w'.kernel <= w.kernel
  {
    ReleaseEffect(w.kernel, Claims(env.parse, p.status), f.kernel);
  }

  lemma OutdatedFinalize(env: Env, w: World, id: Id, p: Policy, f: Faults)
    requires Outdated(w, id, p)
    ensures var w' := Finalize(env, w, id, p, f).0;
            w' == w.(kernel := w'.kernel) && w'.kernel <= w.kernel
  {
    ReleaseEffect(w.kernel, Claims(env.parse, p.status), f.kernel);
  }

  /** A visit through an outdated view writes nothing, indexes the view or nothing,
      and at most unblocks. */
  lemma OutdatedVisit(env: Env, w: World, id: Id, v: Visit)
    requires v.view.Some? && Outdated(w, id, v.view.value)
    ensures var w' := Reconcile(env, w, id, v).0;
            && w'.store == w.store && w'.rev == w.rev && w'.kernel <= w.kernel
            && w'.index == if Indexes(v) then w.index[id := v.view.value] else w.index
  {
    var p := v.view.value;
    if p.deleting {
      OutdatedFinalize(env, w, id, p, v.faults);
    } else {
      OutdatedPrepare(w, id, p, v);
      var (w1, prepared) := Prepare(w, id, p, v);
      OutdatedRelease(env, w1, id, p, v.now, v.faults);
    }
  }

  /** A score through an outdated copy writes nothing; only where the limiter lets it
      skip the write does it go on to its drops. */
  lemma OutdatedWrite(w: World, id: Id, copy: Policy, next: Status, o: W.Oracle)
    requires Outdated(w, id, copy)
    ensures W.WriteStatus(w, id, copy, next, o) == (w, W.Throttled(copy.status, next, o.allowed))
  {
  }

  // ---------------------------------------------------------------- versions

  /** Every object of the later store is the same as before or of a version that
      was not there before. */
  ghost predicate Advances(w: World, w': World) {
    && w.rev <= w'.rev
    && forall id :: id in w'.store ==>
         (id in w.store && w'.store[id] == w.store[id]) || w.rev < w'.store[id].version <= w'.rev
  }

  ghost predicate Bounded(w: World) {
    forall id :: id in w.store ==> w.store[id].version <= w.rev
  }

  /** Versions never repeat, in the store or in the index. */
  ghost predicate Versioned(w: World) {
    Bounded(w) && forall id :: id in w.index ==> Known(w, id, w.index[id])
  }

  lemma KnownKept(w: World, w': World, id: Id, p: Policy)
    requires Advances(w, w') && Known(w, id, p)
    ensures Known(w', id, p)
  {
  }

  lemma StoredIsKnown(w: World, id: Id)
    requires Bounded(w) && id in w.store
    ensures Known(w, id, w.store[id])
  {
  }

  lemma AdvancesThen(w: World, w1: World, w2: World)
    requires Advances(w, w1) && Advances(w1, w2)
    ensures Advances(w, w2)
  {
  }

  lemma ApplyAdvances(env: Env, w: World, id: Id, copy: Policy, ev: W.Score, o: W.Oracle)
    ensures Advances(w, W.ApplyTo(env, w, id, copy, ev, o).0)
  {
  }

  lemma EnsureFinalizerAdvances(w: World, id: Id, policy: Policy, f: Faults)
    ensures Advances(w, EnsureFinalizer(w, id, policy, f).0)
  {
  }

  lemma ActivateAdvances(w: World, id: Id, policy: Policy, f: Faults)
    ensures Advances(w, Activate(IndexPut(w, id, policy), id, policy, f).0)
  {
  }

  lemma ReportScoringAdvances(w: World, id: Id, policy: Policy, s: Scoring, f: Faults)
    ensures Advances(w, ReportScoring(w, id, policy, s, f).0)
  {
  }

  lemma PrepareAdvances(w: World, id: Id, policy: Policy, v: Visit)
    ensures Advances(w, Prepare(w, id, policy, v).0)
  {
    var (w1, finalized) := EnsureFinalizer(w, id, policy, v.faults);
    EnsureFinalizerAdvances(w, id, policy, v.faults);
    if finalized.Some? {
      var (w2, active) := Activate(IndexPut(w1, id, finalized.value), id, finalized.value, v.faults);
      ActivateAdvances(w1, id, finalized.value, v.faults);
      AdvancesThen(w, w1, w2);
      if active.Some? {
        var w3 := ReportScoring(w2, id, active.value, v.scoring, v.faults).0;
        ReportScoringAdvances(w2, id, active.value, v.scoring, v.faults);
        AdvancesThen(w, w2, w3);
      }
    }
  }

  lemma TryDeEscalateAdvances(env: Env, w: World, id: Id, policy: Policy, now: int, f: Faults)
    ensures Advances(w, TryDeEscalate(env, w, id, policy, now, f).0)
  {
  }

  lemma FinalizeAdvances(env: Env, w: World, id: Id, policy: Policy, f: Faults)
    ensures Advances(w, Finalize(env, w, id, policy, f).0)
  {
  }

  lemma ReconcileAdvances(env: Env, w: World, id: Id, v: Visit)
    ensures Advances(w, Reconcile(env, w, id, v).0)
  {
    if !v.faults.get && v.view.Some? {
      var policy := v.view.value;
      if policy.deleting {
        FinalizeAdvances(env, w, id, policy, v.faults);
      } else {
        PrepareAdvances(w, id, policy, v);
        var (w1, prepared) := Prepare(w, id, policy, v);
        if prepared.Some? {
          var live := prepared.value.0;
          TryDeEscalateAdvances(env, w1, id, live, v.now, v.faults);
          AdvancesThen(w, w1, TryDeEscalate(env, w1, id, live, v.now, v.faults).0);
        }
      }
    }
  }

  lemma StepAdvances(env: Env, s: System, step: Step, s': System)
    requires Next(env, s, step, s')
    ensures Advances(s.world, s'.world)
  {
    match step
    case ApplyScore(id, copy, ev, o) => ApplyAdvances(env, s.world, id, copy, ev, o);
    case Visiting(id, visit) => ReconcileAdvances(env, s.world, id, visit);
    case _ =>
  }

  /** What the step reads are copies of objects as they are or were. */
  ghost predicate ReadsKnown(w: World, step: Step) {
    match step
    case ApplyScore(id, copy, _, _) => Known(w, id, copy)
    case Visiting(id, visit) => visit.view.Some? ==> Known(w, id, visit.view.value)
    case WarmIndex(list) => forall id :: id in list ==> Known(w, id, list[id])
    case _ => true
  }

  /** What is in the index after a visit was there before, was read, or is stored. */
  lemma VisitIndexes(env: Env, w: World, id: Id, v: Visit, k: Id)
    requires v.view.Some? ==> Known(w, id, v.view.value)
    requires k in Reconcile(env, w, id, v).0.index
    ensures var w', p := Reconcile(env, w, id, v).0, Reconcile(env, w, id, v).0.index[k];
            (k in w.index && p == w.index[k]) || (k == id && v.view == Some(p)) || (k in w'.store && p == w'.store[k])
  {
    if v.view.Some? && Outdated(w, id, v.view.value) {
      OutdatedVisit(env, w, id, v);
    } else if v.view.Some? {
      CurrentVisitIndex(env, w, id, v);
    }
  }

  lemma StepVersioned(env: Env, s: System, step: Step, s': System)
    requires Versioned(s.world) && Next(env, s, step, s') && ReadsKnown(s.world, step)
    ensures Versioned(s'.world)
  {
    var w, w' := s.world, s'.world;
    StepAdvances(env, s, step, s');
    forall id | id in w'.index ensures Known(w', id, w'.index[id]) {
      if step.Visiting? { VisitIndexes(env, w, step.id, step.visit, id); }
      if id in w.index && w'.index[id] == w.index[id] { KnownKept(w, w', id, w.index[id]); }
      if step.Visiting? && step.id == id
        && step.visit.view == Some(w'.index[id]) { KnownKept(w, w', id, w'.index[id]); }
      if step.WarmIndex? && id in step.list { KnownKept(w, w', id, step.list[id]); }
    }
  }

  lemma {:induction false} RunAdvances(env: Env, states: seq<System>, steps: seq<Step>, j: nat, i: nat)
    requires Run(env, states, steps) && j <= i < |states|
    ensures Advances(states[j].world, states[i].world)
    decreases i
  {
    if j < i {
      assert StepAt(env, states, steps, i - 1);
      StepAdvances(env, states[i - 1], steps[i - 1], states[i]);
      RunAdvances(env, states, steps, j, i - 1);
      AdvancesThen(states[j].world, states[i - 1].world, states[i].world);
    }
  }

  /** So in every run, whatever is read is current, or of a version gone by. */
  lemma {:induction false} RunReadsKnown(env: Env, states: seq<System>, steps: seq<Step>, i: nat)
    requires Run(env, states, steps) && i < |steps|
    ensures ReadsKnown(states[i].world, steps[i])
    decreases i, 1
  {
    assert StepAt(env, states, steps, i);
    var j :| 0 <= j <= i && ReadsFrom(states[j].world, steps[i]);
    RunVersioned(env, states, steps, j);
    RunAdvances(env, states, steps, j, i);
    ReadsStayKnown(states[j].world, states[i].world, steps[i]);
  }

  lemma ReadsStayKnown(w: World, w': World, step: Step)
    requires Versioned(w) && Advances(w, w') && ReadsFrom(w, step)
    ensures ReadsKnown(w', step)
  {
    match step
    case ApplyScore(id, copy, _, _) => KnownKept(w, w', id, copy);
    case Visiting(id, visit) =>
      if visit.view.Some? {
        StoredIsKnown(w, id);
        KnownKept(w, w', id, visit.view.value);
      }
    case WarmIndex(list) =>
      forall id | id in list ensures Known(w', id, list[id]) {
        StoredIsKnown(w, id);
        KnownKept(w, w', id, list[id]);
      }
    case _ =>
  }

  lemma {:induction false} RunVersioned(env: Env, states: seq<System>, steps: seq<Step>, i: nat)
    requires Run(env, states, steps) && i < |states|
    ensures Versioned(states[i].world)
    decreases i, 0
  {
    if i > 0 {
      assert StepAt(env, states, steps, i - 1);
      RunVersioned(env, states, steps, i - 1);
      RunReadsKnown(env, states, steps, i - 1);
      StepVersioned(env, states[i - 1], steps[i - 1], states[i]);
    }
  }

  // ---------------------------------------------------------------- building runs

  /** A step of a run, and a world that it read from. */
  lemma StepReads(env: Env, states: seq<System>, steps: seq<Step>, i: nat) returns (j: nat)
    requires Run(env, states, steps) && i < |steps|
    ensures j <= i && ReadsFrom(states[j].world, steps[i]) && Next(env, states[i], steps[i], states[i + 1])
  {
    assert StepAt(env, states, steps, i);
    j :| 0 <= j <= i && ReadsFrom(states[j].world, steps[i]);
  }

  lemma RunSnoc(env: Env, states: seq<System>, steps: seq<Step>, step: Step, s: System)
    requires Run(env, states, steps) && Next(env, states[|steps|], step, s) && ReadsPast(states, |steps|, step)
    ensures Run(env, states + [s], steps + [step])
  {
    var longer, more := states + [s], steps + [step];
    forall i | 0 <= i < |more| ensures StepAt(env, longer, more, i) {
      if i < |steps| { assert StepAt(env, states, steps, i); }
      var j :| 0 <= j <= i && ReadsFrom(states[j].world, more[i]);
      assert longer[j] == states[j];
    }
  }

  /** No read lags. */
  ghost predicate AllCurrent(states: seq<System>, steps: seq<Step>) {
    |states| == |steps| + 1 && forall k :: 0 <= k < |steps| ==> ReadsFrom(states[k].world, steps[k])
  }

  /** A step on a current view. */
  lemma Extended(env: Env, states: seq<System>, steps: seq<Step>, step: Step, s: System)
    returns (states': seq<System>, steps': seq<Step>)
    requires Run(env, states, steps) && Next(env, states[|steps|], step, s)
    requires ReadsFrom(states[|steps|].world, step)
    ensures states' == states + [s] && steps' == steps + [step] && Run(env, states', steps')
    ensures AllCurrent(states, steps) ==> AllCurrent(states', steps')
  {
    states', steps' := states + [s], steps + [step];
    assert ReadsPast(states, |steps|, step);
    RunSnoc(env, states, steps, step, s);
    CurrentSnoc(states, steps, step, s);
  }

  lemma CurrentSnoc(states: seq<System>, steps: seq<Step>, step: Step, s: System)
    requires |states| == |steps| + 1 && ReadsFrom(states[|steps|].world, step)
    ensures AllCurrent(states, steps) ==> AllCurrent(states + [s], steps + [step])
  {
  }

  const BLOCK_SOURCE := Spec(Medium, true, true, false, false, false)

  /** No failure, no kill switch, no token of the limiter. */
  const PLAIN := W.Oracle(false, false, false, {}, false)

  /** Score 1.0 crosses every threshold. */
  lemma TopScoreCrosses(env: Env, policy: Policy, ev: W.Score)
    requires ev.value >= 1.0
    ensures W.Crosses(env, policy, ev)
  {
  }

  /** The status after a first block. */
  function BlockedStatus(status: Status, ev: W.Score): Status {
    status.(observedScore := ev.value, blockedIPs := [ev.source], phase := Mitigating, lastMitigation := Some(ev.now))
  }

  lemma OneBlock(env: Env, kernel: set<Entry>, ev: W.Score, addr: Addr)
    requires ev.teid == 0 && env.parse(ev.source) == Some(addr)
    requires kernel <= {Source(addr)} && env.cap(MapOf(Source(addr))) > 0
    ensures BlockAll(env.cap, kernel, W.Actions(env, BLOCK_SOURCE, ev), {}) == ({Source(addr)}, true)
  {
    var e := Source(addr);
    assert W.Actions(env, BLOCK_SOURCE, ev) == [e] + [];
    assert kernel == {} ==> Within(kernel, MapOf(e)) == {};
    BlockAllStep(env.cap, kernel, e, [], {});
    BlockAllStep(env.cap, kernel + {e}, e, [], {});
    assert kernel + {e} == {e};
  }

  /** A first crossing score on a current, idle, source-blocking policy. */
  lemma SingleBlock(env: Env, w: World, id: Id, ev: W.Score, addr: Addr)
    requires id in w.index && id in w.store && w.index[id] == w.store[id] && w.index[id].spec == BLOCK_SOURCE
    requires w.index[id].status.phase != Mitigating && w.index[id].status.blockedIPs == []
    requires ev.value >= 1.0 && ev.teid == 0 && env.parse(ev.source) == Some(addr)
    requires w.kernel <= {Source(addr)} && env.cap(MapOf(Source(addr))) > 0
    ensures var policy := w.store[id].(status := BlockedStatus(w.store[id].status, ev), version := w.rev + 1);
            W.Apply(env, w, id, ev, PLAIN).0 ==
            World(w.store[id := policy], w.index[id := policy], {Source(addr)}, w.rev + 1)
  {
    TopScoreCrosses(env, w.index[id], ev);
    OneBlock(env, w.kernel, ev, addr);
    var d := W.Decide(env, w.index[id], ev, false);
    assert d.status == BlockedStatus(w.store[id].status, ev);
    assert !W.Throttled(w.index[id].status, d.status, false);
  }

  /** A policy warmed into the index before its first reconciliation: it has no
      finalizer yet. */
  lemma WarmedPolicy(env: Env, id: Id) returns (states: seq<System>, steps: seq<Step>)
    ensures |steps| == 2 && steps[0] == Create(id, BLOCK_SOURCE) && steps[1].WarmIndex? && Run(env, states, steps)
    ensures var p := Policy(BLOCK_SOURCE, FRESH_STATUS, false, false, 1);
            states[2] == System(World(map[id := p], map[id := p], {}, 1), {})
    ensures AllCurrent(states, steps)
  {
    var w1 := Created(EMPTY.world, id, BLOCK_SOURCE);
    var w2, warm := Warmed(w1, w1.store), WarmIndex(w1.store);
    states, steps := Extended(env, [EMPTY], [], Create(id, BLOCK_SOURCE), System(w1, {}));
    states, steps := Extended(env, states, steps, warm, System(w2, {}));
    assert w2.index == map[id := w1.store[id]];
  }

  lemma FirstBlock(env: Env, s: System, id: Id, ev: W.Score, addr: Addr) returns (s': System)
    requires ev.value >= 1.0 && ev.teid == 0 && env.parse(ev.source) == Some(addr)
    requires env.cap(MapOf(Source(addr))) > 0
    requires var p := Policy(BLOCK_SOURCE, FRESH_STATUS, false, false, 1);
             s == System(World(map[id := p], map[id := p], {}, 1), {})
    ensures Next(env, s, ApplyScore(id, s.world.index[id], ev, PLAIN), s')
    ensures var p := Policy(BLOCK_SOURCE, BlockedStatus(FRESH_STATUS, ev), false, false, 2);
            s' == System(World(map[id := p], map[id := p], {Source(addr)}, 2), {})
  {
    SingleBlock(env, s.world, id, ev, addr);
    s' := System(W.Apply(env, s.world, id, ev, PLAIN).0, {});
  }

  /** And its first block. */
  lemma WarmedBlock(env: Env, id: Id, ev: W.Score, addr: Addr) returns (states: seq<System>, steps: seq<Step>)
    requires ev.value >= 1.0 && ev.teid == 0 && env.parse(ev.source) == Some(addr)
    requires env.cap(MapOf(Source(addr))) > 0
    ensures |steps| == 3 && steps[0] == Create(id, BLOCK_SOURCE) && steps[1].WarmIndex?
    ensures |states| == 4 && id in states[2].world.index
    ensures steps[2] == ApplyScore(id, states[2].world.index[id], ev, PLAIN) && Run(env, states, steps)
    ensures AllCurrent(states, steps)
    ensures var p := Policy(BLOCK_SOURCE, BlockedStatus(FRESH_STATUS, ev), false, false, 2);
            states[3] == System(World(map[id := p], map[id := p], {Source(addr)}, 2), {})
  {
    states, steps := WarmedPolicy(env, id);
    var s := FirstBlock(env, states[2], id, ev, addr);
    states, steps := Extended(env, states, steps, ApplyScore(id, states[2].world.index[id], ev, PLAIN), s);
  }

  /** Its first reconciliation, still within the quiet period, adds the finalizer
      and leaves the rest. */
  lemma FirstVisit(env: Env, s: System, id: Id, ev: W.Score, addr: Addr) returns (v: Visit, s': System)
    requires env.dwell > 0
    requires var p := Policy(BLOCK_SOURCE, BlockedStatus(FRESH_STATUS, ev), false, false, 2);
             s == System(World(map[id := p], map[id := p], {Source(addr)}, 2), {})
    ensures v == Visit(Get(s.world.store, id), ev.now, Untracked, NO_FAULTS) && Next(env, s, Visiting(id, v), s')
    ensures var p := Policy(BLOCK_SOURCE, BlockedStatus(FRESH_STATUS, ev), false, true, 3);
            s' == System(World(map[id := p], map[id := p], {Source(addr)}, 3), {})
  {
    v := Visit(Get(s.world.store, id), ev.now, Untracked, NO_FAULTS);
    s' := s.(world := Reconcile(env, s.world, id, v).0);
  }

  lemma FinalizedBlock(env: Env, id: Id, ev: W.Score, addr: Addr) returns (states: seq<System>, steps: seq<Step>)
    requires ev.value >= 1.0 && ev.teid == 0 && env.parse(ev.source) == Some(addr)
    requires env.cap(MapOf(Source(addr))) > 0 && env.dwell > 0
    ensures Run(env, states, steps) && AllCurrent(states, steps) && |steps| == 4
    ensures forall k :: 0 <= k < 4 ==> !steps[k].Delete?
    ensures var p := Policy(BLOCK_SOURCE, BlockedStatus(FRESH_STATUS, ev), false, true, 3);
            states[4] == System(World(map[id := p], map[id := p], {Source(addr)}, 3), {})
  {
    states, steps := WarmedBlock(env, id, ev, addr);
    var v, s := FirstVisit(env, states[3], id, ev, addr);
    states, steps := Extended(env, states, steps, Visiting(id, v), s);
  }
}
