/** Where write-ahead needs its guards: runs that end with an unnamed drop, for
    deletions without a finalizer and for reads that lag, and exactly what an
    indexed copy that the API server has moved past can do. */
module WriteAheadLimits {
  import opened Prelude
  import opened TunnelText
  import opened Enforcement
  import opened Policies
  import opened BlocklistReconciler
  import opened ClusterState
  import opened PolicyController
  import opened ClosedLoop
  import opened WriteAheadRuns
  import Dwell
  import W = ThreatScoreWatcher

  // ---------------------------------------------------------------- deletion

  /** The kernel half of SafeToDelete is needed: a policy that reached the index
      before its first reconciliation can block a source and then, the operator
      just restarted, be deleted outright, leaving the drop with no name. */
  lemma FinalizerlessDeleteOrphans(env: Env, id: Id, ev: W.Score, addr: Addr)
    returns (states: seq<System>, steps: seq<Step>)
    requires ev.value >= 1.0 && ev.teid == 0 && env.parse(ev.source) == Some(addr)
    requires env.cap(MapOf(Source(addr))) > 0
    ensures Run(env, states, steps) && AllCurrent(states, steps) && |steps| == 5 && steps[4] == Delete(id)
    ensures states[4].world.index == map[]
    ensures states[5].world.store == map[] && states[5].world.kernel == {Source(addr)}
    ensures !WriteAhead(env, states[5].world)
  {
    states, steps := WarmedBlock(env, id, ev, addr);
    var s4 := System(states[3].world.(index := map[]), {});
    states, steps := Extended(env, states, steps, Restart, s4);
    var s5 := System(Deleted(s4.world, id), {});
    states, steps := Extended(env, states, steps, Delete(id), s5);
    assert Source(addr) in s5.world.kernel && !Named(env, s5.world.store, Source(addr));
  }

  /** A quiet visit without failures, on a policy all of whose claims the loader
      accepts, goes through. */
  lemma QuietVisitSucceeds(env: Env, w: World, id: Id, v: Visit)
    requires v.view == Get(w.store, id) && id in w.store && !w.store[id].deleting
    requires w.store[id].status.phase == Mitigating && w.store[id].status.lastMitigation.Some?
    requires !Dwelling(env, w.store[id].status, v.now) && v.scoring == Untracked && v.faults == NO_FAULTS
    requires forall e :: e in Claims(env.parse, w.store[id].status) ==> Enforceable(e)
    ensures !Reconcile(env, w, id, v).1.failed
    ensures var w' := Reconcile(env, w, id, v).0;
            id in w'.store && w'.store == w.store[id := w'.store[id]] && w'.index == w.index[id := w'.store[id]]
  {
    ReleaseEffect(w.kernel, Claims(env.parse, w.store[id].status), {});
  }

  /** Two policies that block the same source, neither with its finalizer. */
  function TwoBlocked(a: Id, b: Id, ev: W.Score, addr: Addr): World {
    var status := BlockedStatus(FRESH_STATUS, ev);
    var store := map[a := Policy(BLOCK_SOURCE, status, false, false, 2), b := Policy(BLOCK_SOURCE, status, false,
      false, 4)];
    World(store, store, {Source(addr)}, 4)
  }

  lemma TwoBlockers(env: Env, a: Id, b: Id, ev: W.Score, addr: Addr) returns (states: seq<System>, steps: seq<Step>)
    requires a != b && ev.value >= 1.0 && ev.teid == 0 && env.parse(ev.source) == Some(addr)
    requires env.cap(MapOf(Source(addr))) > 0
    ensures Run(env, states, steps) && |steps| == 6 && states[6] == System(TwoBlocked(a, b, ev, addr), {})
    ensures AllCurrent(states, steps) && forall k :: 0 <= k < 6 ==> !steps[k].Delete?
  {
    states, steps := WarmedBlock(env, a, ev, addr);
    var w4 := Created(states[3].world, b, BLOCK_SOURCE);
    var w5, s6 := SecondBlock(env, w4, a, b, ev, addr);
    states, steps := ThreeMore(env, states, steps, Create(b, BLOCK_SOURCE), System(w4, {}),
                               WarmIndex(w4.store), System(w5, {}), ApplyScore(b, w5.index[b], ev, PLAIN), s6);
  }

  lemma ThreeMore(env: Env, states: seq<System>, steps: seq<Step>,
                  step1: Step, s1: System, step2: Step, s2: System, step3: Step, s3: System)
    returns (states': seq<System>, steps': seq<Step>)
    requires Run(env, states, steps) && AllCurrent(states, steps)
    requires Next(env, states[|steps|], step1, s1) && ReadsFrom(states[|steps|].world, step1)
    requires Next(env, s1, step2, s2) && ReadsFrom(s1.world, step2)
    requires Next(env, s2, step3, s3) && ReadsFrom(s2.world, step3)
    ensures states' == states + [s1, s2, s3] && steps' == steps + [step1, step2, step3]
    ensures Run(env, states', steps') && AllCurrent(states', steps')
  {
    states', steps' := Extended(env, states, steps, step1, s1);
    states', steps' := Extended(env, states', steps', step2, s2);
    states', steps' := Extended(env, states', steps', step3, s3);
  }

  lemma SecondBlock(env: Env, w: World, a: Id, b: Id, ev: W.Score, addr: Addr) returns (w': World, s: System)
    requires a != b && ev.value >= 1.0 && ev.teid == 0 && env.parse(ev.source) == Some(addr)
    requires env.cap(MapOf(Source(addr))) > 0
    requires var p := Policy(BLOCK_SOURCE, BlockedStatus(FRESH_STATUS, ev), false, false, 2);
             w == Created(World(map[a := p], map[a := p], {Source(addr)}, 2), b, BLOCK_SOURCE)
    ensures w' == Warmed(w, w.store) && b in w'.index
    ensures Next(env, System(w', {}), ApplyScore(b, w'.index[b], ev, PLAIN), s)
    ensures s == System(TwoBlocked(a, b, ev, addr), {})
  {
    w' := Warmed(w, w.store);
    assert w'.index == w'.store;
    SingleBlock(env, w', b, ev, addr);
    s := System(W.Apply(env, w', b, ev, PLAIN).0, {});
  }

  /** Deleting one of them leaves every drop named, and yet is not safe. */
  lemma DeleteLooksHarmless(env: Env, a: Id, b: Id, ev: W.Score, addr: Addr)
    requires a != b && env.parse(ev.source) == Some(addr)
    ensures var w := TwoBlocked(a, b, ev, addr);
            Inv(env, w) && WriteAhead(env, Deleted(w, a)) && !SafeToDelete(env, w, a)
  {
    var w := TwoBlocked(a, b, ev, addr);
    SourceClaimOf(env.parse, [ev.source], ev.source);
    assert Source(addr) in Claims(env.parse, w.store[b].status);
    assert Deleted(w, a).store[b] == w.store[b];
    assert CanDrop(env, w.index[a], ev.source, 0, Source(addr));
  }

  /** A quiet visit then releases the other. */
  lemma OtherReleased(env: Env, s: System, b: Id, ev: W.Score, addr: Addr) returns (v: Visit, s': System)
    requires env.parse(ev.source) == Some(addr) && s.world.store.Keys == {b} && s.world.kernel == {Source(addr)}
    requires !s.world.store[b].deleting && s.world.store[b].status == BlockedStatus(FRESH_STATUS, ev)
    ensures ReadsFrom(s.world, Visiting(b, v)) && Next(env, s, Visiting(b, v), s') && s'.unclaimed == s.unclaimed
    ensures s'.world.kernel == {} && s'.world.store.Keys == {b} && !HoldsBlocks(s'.world.store[b].status)
    ensures s'.world.store[b].version > s.world.rev
    ensures forall a :: a in s.world.index && a != b ==> a in s'.world.index && s'.world.index[a] == s.world.index[a]
  {
    var w := s.world;
    v := Visit(Get(w.store, b), ev.now + (if env.dwell > 0 then env.dwell else 0), Untracked, NO_FAULTS);
    assert [ev.source][1..] == [];
    assert SourceClaims(env.parse, [ev.source]) == [Source(addr)];
    assert Claims(env.parse, w.store[b].status) == [Source(addr)];
    QuietVisitSucceeds(env, w, b, v);
    Dwell.QuietVisitReleases(env, w, b, v);
    ReconcileAdvances(env, w, b, v);
    s' := s.(world := Reconcile(env, w, b, v).0);
  }

  /** The index half is needed too: the deletion of one of two policies leaves
      every drop named, a quiet visit then releases the other, and a repeated
      score through the copy the deletion left in the index puts the drop back
      under no name. No further deletion, no stale read, no failure. */
  lemma LeftoverCopyOrphans(env: Env, a: Id, b: Id, ev: W.Score, addr: Addr)
    returns (states: seq<System>, steps: seq<Step>)
    requires a != b && ev.value >= 1.0 && ev.teid == 0 && env.parse(ev.source) == Some(addr)
    requires env.cap(MapOf(Source(addr))) > 0
    ensures Run(env, states, steps) && AllCurrent(states, steps)
    ensures |steps| == 9 && forall k :: 0 <= k < 9 ==> (steps[k].Delete? <==> k == 6)
    ensures steps[6].id == a && a in states[6].world.store && !SafeToDelete(env, states[6].world, a)
    ensures Inv(env, states[6].world) && WriteAhead(env, states[7].world) && !WriteAhead(env, states[9].world)
  {
    states, steps := TwoBlockers(env, a, b, ev, addr);
    DeleteLooksHarmless(env, a, b, ev, addr);
    var s7 := states[6].(world := Deleted(states[6].world, a));
    var v, s8, s9 := LeftoverTail(env, s7, a, b, ev, addr);
    states, steps := ThreeMore(env, states, steps, Delete(a), s7, Visiting(b, v), s8,
                               ApplyScore(a, s8.world.index[a], ev, PLAIN), s9);
  }

  lemma LeftoverTail(env: Env, s: System, a: Id, b: Id, ev: W.Score, addr: Addr)
    returns (v: Visit, s': System, s'': System)
    requires a != b && ev.value >= 1.0 && ev.teid == 0 && env.parse(ev.source) == Some(addr)
    requires env.cap(MapOf(Source(addr))) > 0 && s.world == Deleted(TwoBlocked(a, b, ev, addr), a)
    ensures v.view == Get(s.world.store, b) && Next(env, s, Visiting(b, v), s')
    ensures a in s'.world.index && Next(env, s', ApplyScore(a, s'.world.index[a], ev, PLAIN), s'')
    ensures !WriteAhead(env, s''.world)
  {
    v, s' := OtherReleased(env, s, b, ev, addr);
    RepeatThroughLeftover(env, s'.world, a, b, ev, addr);
    s'' := s'.(world := W.Apply(env, s'.world, a, ev, PLAIN).0);
  }

  /** A throttled repeat through a copy that records a block nobody names. */
  lemma RepeatOfCopy(env: Env, w: World, b: Id, copy: Policy, ev: W.Score, addr: Addr)
    requires ev.value >= 1.0 && ev.teid == 0 && env.parse(ev.source) == Some(addr)
    requires env.cap(MapOf(Source(addr))) > 0 && w.kernel == {}
    requires copy.spec == BLOCK_SOURCE && copy.status == BlockedStatus(FRESH_STATUS, ev)
    requires w.store.Keys == {b} && !HoldsBlocks(w.store[b].status)
    ensures forall id :: !WriteAhead(env, W.ApplyTo(env, w, id, copy, ev, PLAIN).0)
  {
    TopScoreCrosses(env, copy, ev);
    OneBlock(env, {}, ev, addr);
    var d := W.Decide(env, copy, ev, false);
    assert d.status.blockedIPs == [ev.source];
    assert W.Throttled(copy.status, d.status, false);
    NoClaims(env, w.store[b].status);
    forall id ensures !WriteAhead(env, W.ApplyTo(env, w, id, copy, ev, PLAIN).0) {
      var w' := W.ApplyTo(env, w, id, copy, ev, PLAIN).0;
      assert Source(addr) in w'.kernel && w'.store == w.store;
    }
  }

  lemma RepeatThroughLeftover(env: Env, w: World, a: Id, b: Id, ev: W.Score, addr: Addr)
    requires ev.value >= 1.0 && ev.teid == 0 && env.parse(ev.source) == Some(addr)
    requires env.cap(MapOf(Source(addr))) > 0 && w.kernel == {}
    requires a in w.index && w.index[a].spec == BLOCK_SOURCE && w.index[a].status == BlockedStatus(FRESH_STATUS, ev)
    requires w.store.Keys == {b} && !HoldsBlocks(w.store[b].status)
    ensures !WriteAhead(env, W.Apply(env, w, a, ev, PLAIN).0)
  {
    RepeatOfCopy(env, w, b, w.index[a], ev, addr);
  }

  // ---------------------------------------------------------------- superseded copies

  /** The API server would refuse a write through the indexed copy: the policy has
      moved on, or is gone. */
  ghost predicate Superseded(w: World, id: Id) {
    id in w.index && Outdated(w, id, w.index[id])
  }

  lemma RepeatIsThrottled(env: Env, policy: Policy, ev: W.Score)
    requires Repeatable(env, policy, ev.source, ev.teid) && ev.value >= 1.0
    ensures W.Throttled(policy.status, W.Decide(env, policy, ev, false).status, false)
    ensures W.Decide(env, policy, ev, false).actions == DropsOf(env, policy.spec, ev.source, ev.teid)
  {
    TopScoreCrosses(env, policy, ev);
    var d := W.Decide(env, policy, ev, false);
    assert SameLists(policy.status, d.status);
  }

  /** What a score does through a superseded copy: it writes nothing, and what it
      adds to the kernel are drops of a repeat. */
  lemma StaleApplyEffect(env: Env, w: World, id: Id, ev: W.Score, o: W.Oracle)
    requires Superseded(w, id)
    ensures var w' := W.Apply(env, w, id, ev, o).0;
            && w'.store == w.store && w'.index == w.index && w.kernel <= w'.kernel
            && forall e :: e in w'.kernel && e !in w.kernel ==>
                 CanDrop(env, w.index[id], ev.source, ev.teid, e)
  {
    var policy := w.index[id];
    var d := W.Decide(env, policy, ev, o.killed);
    BlockAllEffect(env.cap, w.kernel, d.actions, o.kernelFaults);
    OutdatedApply(env, w, id, policy, ev, o);
    if W.Throttled(policy.status, d.status, o.allowed) && d.actions != [] {
      ThrottledIsRepeat(env, policy, ev, o);
    }
  }

  /** With room in every map all drops of a score go in. */
  lemma RoomForDrops(env: Env, kernel: set<Entry>, spec: Spec, source: string, teid: TEID)
    requires forall m :: |Within(kernel, m)| < env.cap(m)
    ensures var drops := DropsOf(env, spec, source, teid);
            BlockAll(env.cap, kernel, drops, {}) == (kernel + Elements(drops), true)
  {
    var drops := DropsOf(env, spec, source, teid);
    if |drops| == 1 {
      assert drops == [drops[0]] + [];
      BlockAllStep(env.cap, kernel, drops[0], [], {});
    } else if |drops| == 2 {
      assert drops == [drops[0]] + [drops[1]] && [drops[1]] == [drops[1]] + [];
      BlockAllStep(env.cap, kernel, drops[0], [drops[1]], {});
      assert Within(kernel + {drops[0]}, MapOf(drops[1])) == Within(kernel, MapOf(drops[1]));
      BlockAllStep(env.cap, kernel + {drops[0]}, drops[1], [], {});
    }
    BlockAllStep(env.cap, kernel + Elements(drops), Source(V4([])), [], {});
    BlockAllEffect(env.cap, kernel, drops, {});
  }

  /** Every drop a repeat could place through the copy is named. */
  ghost predicate RepeatsNamed(env: Env, w: World, id: Id)
    requires id in w.index
  {
    forall source, teid: TEID, e :: CanDrop(env, w.index[id], source, teid, e) ==> Named(env, w.store, e)
  }

  lemma RepeatsNamedIsHarmless(env: Env, w: World, id: Id, ev: W.Score, o: W.Oracle)
    requires WriteAhead(env, w) && Superseded(w, id) && RepeatsNamed(env, w, id)
    ensures WriteAhead(env, W.Apply(env, w, id, ev, o).0)
  {
    StaleApplyEffect(env, w, id, ev, o);
  }

  lemma UnnamedRepeatBreaks(env: Env, w: World, id: Id, source: string, teid: TEID, e: Entry)
    requires Superseded(w, id) && forall m :: |Within(w.kernel, m)| < env.cap(m)
    requires CanDrop(env, w.index[id], source, teid, e) && !Named(env, w.store, e)
    ensures !WriteAhead(env, W.Apply(env, w, id, W.Score(source, teid, 1.0, 0), PLAIN).0)
  {
    var ev := W.Score(source, teid, 1.0, 0);
    RepeatIsThrottled(env, w.index[id], ev);
    RoomForDrops(env, w.kernel, w.index[id].spec, source, teid);
    var w' := W.Apply(env, w, id, ev, PLAIN).0;
    assert e in w'.kernel && w'.store == w.store;
  }

  /** Exactly when a superseded copy, of any policy in any phase, is harmless to
      every score: all drops a repeat could place are still named. Room in the
      maps is needed in one direction only; see RepeatsNamedIsHarmless. */
  lemma StaleCopyExact(env: Env, w: World, id: Id)
    requires WriteAhead(env, w) && Superseded(w, id)
    requires forall m :: |Within(w.kernel, m)| < env.cap(m)
    ensures (forall ev, o :: WriteAhead(env, W.Apply(env, w, id, ev, o).0)) <==> RepeatsNamed(env, w, id)
  {
    if RepeatsNamed(env, w, id) {
      forall ev, o ensures WriteAhead(env, W.Apply(env, w, id, ev, o).0) {
        RepeatsNamedIsHarmless(env, w, id, ev, o);
      }
    } else {
      var source, teid: TEID, e :| CanDrop(env, w.index[id], source, teid, e) && !Named(env, w.store, e);
      UnnamedRepeatBreaks(env, w, id, source, teid, e);
    }
  }

  // ---------------------------------------------------------------- reads that lag

  /** A stale read makes a superseded copy: the index is overwritten with an old
      copy that still records a block, and a repeated score then has nothing to
      record, its write is throttled away, and the drop goes in under no
      persisted name. */
  lemma StaleReadBreaksWriteAhead(env: Env, w: World, id: Id, v: Visit, source: string, teid: TEID, e: Entry)
    requires Indexes(v) && Outdated(w, id, v.view.value)
    requires CanDrop(env, v.view.value, source, teid, e)
    requires !Named(env, w.store, e) && forall m :: |Within(w.kernel, m)| < env.cap(m)
    ensures var w1 := Reconcile(env, w, id, v).0;
            id in w1.index && !WriteAhead(env, W.Apply(env, w1, id, W.Score(source, teid, 1.0, 0), PLAIN).0)
  {
    var w1 := Reconcile(env, w, id, v).0;
    OutdatedVisit(env, w, id, v);
    forall m ensures |Within(w1.kernel, m)| < env.cap(m) {
      SubsetSize(Within(w1.kernel, m), Within(w.kernel, m));
    }
    UnnamedRepeatBreaks(env, w1, id, source, teid, e);
  }

  /** The same as a run: a block, its quiet release, a visit that still reads the copy
      from before the release, and a throttled repeat. */
  lemma StaleGetOrphans(env: Env, id: Id, ev: W.Score, addr: Addr) returns (states: seq<System>, steps: seq<Step>)
    requires ev.value >= 1.0 && ev.teid == 0 && env.parse(ev.source) == Some(addr)
    requires env.cap(MapOf(Source(addr))) > 0 && env.dwell > 0
    ensures Run(env, states, steps) && |steps| == 7 && steps[5].Visiting?
    ensures forall k :: 0 <= k < 7 && k != 5 ==> !steps[k].Delete? && ReadsFrom(states[k].world, steps[k])
    ensures steps[5].visit.faults == NO_FAULTS && !WriteAhead(env, states[7].world)
  {
    states, steps := FinalizedBlock(env, id, ev, addr);
    states, steps := ThenReleased(env, states, steps, id, ev, addr);
    states, steps := StaleGetRun(env, states, steps, id, ev, addr);
  }

  lemma StaleGetRun(env: Env, states: seq<System>, steps: seq<Step>, id: Id, ev: W.Score, addr: Addr)
    returns (states': seq<System>, steps': seq<Step>)
    requires ev.value >= 1.0 && ev.teid == 0 && env.parse(ev.source) == Some(addr)
    requires env.cap(MapOf(Source(addr))) > 0
    requires Run(env, states, steps) && |steps| == 5
    requires states[4].world.store == map[id := Policy(BLOCK_SOURCE, BlockedStatus(FRESH_STATUS, ev), false, true, 3)]
    requires states[5].world.kernel == {} && states[5].world.store.Keys == {id}
    requires !HoldsBlocks(states[5].world.store[id].status) && states[5].world.store[id].version > 3
    ensures Run(env, states', steps') && |steps'| == 7 && states <= states' && steps <= steps'
    ensures ReadsFrom(states'[6].world, steps'[6])
    ensures steps'[5].Visiting? && steps'[5].visit.faults == NO_FAULTS && steps'[6].ApplyScore?
    ensures !WriteAhead(env, states'[7].world)
  {
    var v, s6, s7 := StaleGetTail(env, states[4], states[5], id, ev, addr);
    assert ReadsPast(states, 5, Visiting(id, v)) by { assert ReadsFrom(states[4].world, Visiting(id, v)); }
    RunSnoc(env, states, steps, Visiting(id, v), s6);
    states', steps' := Extended(env, states + [s6], steps + [Visiting(id, v)],
                                ApplyScore(id, s6.world.index[id], ev, PLAIN), s7);
  }

  lemma StaleGetTail(env: Env, s4: System, s: System, id: Id, ev: W.Score, addr: Addr)
    returns (v: Visit, s': System, s'': System)
    requires ev.value >= 1.0 && ev.teid == 0 && env.parse(ev.source) == Some(addr)
    requires env.cap(MapOf(Source(addr))) > 0
    requires s4.world.store == map[id := Policy(BLOCK_SOURCE, BlockedStatus(FRESH_STATUS, ev), false, true, 3)]
    requires s.world.kernel == {} && s.world.store.Keys == {id} && !HoldsBlocks(s.world.store[id].status)
    requires s.world.store[id].version > 3
    ensures v.view == Get(s4.world.store, id) && v.faults == NO_FAULTS
    ensures Next(env, s, Visiting(id, v), s')
    ensures id in s'.world.index && Next(env, s', ApplyScore(id, s'.world.index[id], ev, PLAIN), s'')
    ensures !WriteAhead(env, s''.world)
  {
    v := Visit(Get(s4.world.store, id), ev.now, Untracked, NO_FAULTS);
    OutdatedVisit(env, s.world, id, v);
    s' := s.(world := Reconcile(env, s.world, id, v).0);
    RepeatThroughLeftover(env, s'.world, id, id, ev, addr);
    s'' := s'.(world := W.Apply(env, s'.world, id, ev, PLAIN).0);
  }

  /** One block and its quiet, current, fault-free release. */
  lemma BlockThenRelease(env: Env, id: Id, ev: W.Score, addr: Addr) returns (states: seq<System>, steps: seq<Step>)
    requires ev.value >= 1.0 && ev.teid == 0 && env.parse(ev.source) == Some(addr)
    requires env.cap(MapOf(Source(addr))) > 0
    ensures Run(env, states, steps) && AllCurrent(states, steps) && |steps| == 4
    ensures forall k :: 0 <= k < 4 ==> !steps[k].Delete? && !steps[k].Pass?
    ensures states[3].world.store == map[id := Policy(BLOCK_SOURCE, BlockedStatus(FRESH_STATUS, ev), false, false, 2)]
    ensures states[3].world.index == states[3].world.store
    ensures states[4].unclaimed == {} && states[4].world.kernel == {}
    ensures states[4].world.store.Keys == {id} && !HoldsBlocks(states[4].world.store[id].status)
  {
    states, steps := WarmedBlock(env, id, ev, addr);
    states, steps := ThenReleased(env, states, steps, id, ev, addr);
  }

  /** A run goes on with the quiet release of its only policy. */
  lemma ThenReleased(env: Env, states: seq<System>, steps: seq<Step>, b: Id, ev: W.Score, addr: Addr)
    returns (states': seq<System>, steps': seq<Step>)
    requires Run(env, states, steps) && AllCurrent(states, steps) && env.parse(ev.source) == Some(addr)
    requires var w := states[|steps|].world;
             && w.store.Keys == {b} && w.kernel == {Source(addr)}
             && !w.store[b].deleting && w.store[b].status == BlockedStatus(FRESH_STATUS, ev)
    ensures |states'| == |states| + 1 && |steps'| == |steps| + 1 && states <= states' && steps <= steps'
    ensures Run(env, states', steps') && AllCurrent(states', steps') && steps'[|steps|].Visiting?
    ensures var s, w := states'[|steps'|], states'[|steps'|].world;
            && s.unclaimed == states[|steps|].unclaimed && w.kernel == {} && w.store.Keys == {b}
            && !HoldsBlocks(w.store[b].status) && w.store[b].version > states[|steps|].world.rev
  {
    var v, s := OtherReleased(env, states[|steps|], b, ev, addr);
    states', steps' := Extended(env, states, steps, Visiting(b, v), s);
  }

  /** What the list from before the release still asks for. */
  lemma OldListDesires(env: Env, store: map<Id, Policy>, id: Id, ev: W.Score, addr: Addr)
    requires env.parse(ev.source) == Some(addr)
    requires store == map[id := Policy(BLOCK_SOURCE, BlockedStatus(FRESH_STATUS, ev), false, false, 2)]
    ensures forall e :: e in {Source(addr)} <==> DesiredIn(env, store, e)
  {
    assert [ev.source][1..] == [];
    assert SourceClaims(env.parse, [ev.source]) == [Source(addr)];
    assert Claims(env.parse, store[id].status) == [Source(addr)];
    assert id in store && Source(addr) in Claims(env.parse, store[id].status);
  }

  /** A pass over a list that lags breaks write-ahead with nothing else amiss: the
      block is placed, released after its quiet period, and put back by an
      error-free pass that still sees the status from before the release. No
      deletion, no throttling, no other stale read, no fault. */
  lemma StalePassOrphans(env: Env, id: Id, ev: W.Score, addr: Addr) returns (states: seq<System>, steps: seq<Step>)
    requires ev.value >= 1.0 && ev.teid == 0 && env.parse(ev.source) == Some(addr)
    requires env.cap(MapOf(Source(addr))) > 0
    ensures Run(env, states, steps) && |steps| == 5 && steps[4].Pass? && steps[4].faults == {}
    ensures forall k :: 0 <= k < 4 ==> !steps[k].Delete? && ReadsFrom(states[k].world, steps[k])
    ensures steps[4].list == states[3].world.store
    ensures ErrorFree(steps[4].desired, {}, {}, states[4].world.kernel, steps[4].added)
    ensures states[5].world.kernel == {Source(addr)} && !WriteAhead(env, states[5].world)
  {
    states, steps := BlockThenRelease(env, id, ev, addr);
    OldListDesires(env, states[3].world.store, id, ev, addr);
    var step := Pass(states[3].world.store, {Source(addr)}, {}, {Source(addr)});
    var s := System(states[4].world.(kernel := {Source(addr)}), {});
    StalePassStep(env, states[4], step, s, id, addr);
    assert ReadsPast(states, 4, step) by { assert ReadsFrom(states[3].world, step); }
    RunSnoc(env, states, steps, step, s);
    states, steps := states + [s], steps + [step];
  }

  lemma StalePassStep(env: Env, s: System, step: Step, s': System, id: Id, addr: Addr)
    requires step.Pass? && step.desired == {Source(addr)} == step.added && step.faults == {}
    requires forall e :: e in {Source(addr)} <==> DesiredIn(env, step.list, e)
    requires s.unclaimed == {} && s.world.kernel == {} && env.cap(MapOf(Source(addr))) > 0
    requires s.world.store.Keys == {id} && !HoldsBlocks(s.world.store[id].status)
    requires s' == System(s.world.(kernel := {Source(addr)}), {})
    ensures Next(env, s, step, s') && ErrorFree(step.desired, {}, {}, {}, step.added) && !WriteAhead(env, s'.world)
  {
    var e := Source(addr);
    assert Missing({e}, {}) == {e} && Expired({e}, {}, {}) == {} && Removable({}, {}) == {};
    assert Within({e}, MapOf(e)) == {e} && {} + {e} == {e};
    assert {} - {e} == s.unclaimed;
    NoClaims(env, s.world.store[id].status);
    assert e in s'.world.kernel && !Named(env, s'.world.store, e);
  }

  /** The same with a warm-up: after a restart the index is filled from a list that
      still shows the released block. */
  lemma StaleWarmOrphans(env: Env, id: Id, ev: W.Score, addr: Addr) returns (states: seq<System>, steps: seq<Step>)
    requires ev.value >= 1.0 && ev.teid == 0 && env.parse(ev.source) == Some(addr)
    requires env.cap(MapOf(Source(addr))) > 0
    ensures Run(env, states, steps) && |steps| == 7 && steps[5].WarmIndex? && steps[5].list == states[3].world.store
    ensures forall k :: 0 <= k < 7 && k != 5 ==> !steps[k].Delete? && ReadsFrom(states[k].world, steps[k])
    ensures !WriteAhead(env, states[7].world)
  {
    states, steps := BlockThenRelease(env, id, ev, addr);
    var list := states[3].world.store;
    var s5 := System(states[4].world.(index := map[]), {});
    var s6 := s5.(world := Warmed(s5.world, list));
    states, steps := Extended(env, states, steps, Restart, s5);
    RepeatThroughLeftover(env, s6.world, id, id, ev, addr);
    assert ReadsPast(states, 5, WarmIndex(list)) by { assert ReadsFrom(states[3].world, WarmIndex(list)); }
    RunSnoc(env, states, steps, WarmIndex(list), s6);
    var s7 := s6.(world := W.Apply(env, s6.world, id, ev, PLAIN).0);
    states, steps := Extended(env, states + [s6], steps + [WarmIndex(list)],
                              ApplyScore(id, s6.world.index[id], ev, PLAIN), s7);
  }

  /** And with a score alone: it was handed its copy before the release and is
      applied after it. */
  lemma StaleScoreOrphans(env: Env, id: Id, ev: W.Score, addr: Addr) returns (states: seq<System>, steps: seq<Step>)
    requires ev.value >= 1.0 && ev.teid == 0 && env.parse(ev.source) == Some(addr)
    requires env.cap(MapOf(Source(addr))) > 0
    ensures Run(env, states, steps) && |steps| == 5 && steps[4].ApplyScore? && ReadsFrom(states[3].world, steps[4])
    ensures forall k :: 0 <= k < 4 ==> !steps[k].Delete? && ReadsFrom(states[k].world, steps[k])
    ensures !WriteAhead(env, states[5].world)
  {
    states, steps := BlockThenRelease(env, id, ev, addr);
    var step := ApplyScore(id, states[3].world.index[id], ev, PLAIN);
    var s := states[4].(world := W.ApplyTo(env, states[4].world, id, step.copy, ev, PLAIN).0);
    RepeatOfCopy(env, states[4].world, id, step.copy, ev, addr);
    assert ReadsPast(states, 4, step) by { assert ReadsFrom(states[3].world, step); }
    RunSnoc(env, states, steps, step, s);
    states, steps := states + [s], steps + [step];
  }
}
