/** The write-ahead invariant is the weakest there is: a state that violates it can
    be driven, by current reads, without failures and without an unsafe deletion,
    to a drop that nobody names. */
module WriteAheadWeakest {
  import opened Prelude
  import opened TunnelText
  import opened Enforcement
  import opened Policies
  import opened ClusterState
  import opened PolicyController
  import opened ClosedLoop
  import opened WriteAheadRuns
  import opened WriteAheadLimits
  import W = ThreatScoreWatcher

  // ---------------------------------------------------------------- what every run keeps

  /** The loader accepts all claims, and what is being deleted has its finalizer. */
  ghost predicate Proper(env: Env, store: map<Id, Policy>) {
    forall id :: id in store ==> ProperPolicy(env, store[id])
  }

  ghost predicate ProperPolicy(env: Env, p: Policy) {
    AllAccepted(env, p.status) && (p.deleting ==> p.finalizer)
  }

  ghost predicate AllAccepted(env: Env, status: Status) {
    forall e :: e in Claims(env.parse, status) ==> Enforceable(e)
  }

  lemma AppendAccepted(env: Env, status: Status, source: string, teid: TEID)
    requires LawfulParse(env.parse) && AllAccepted(env, status) && teid != 0 && env.parse(source).Some?
    ensures AllAccepted(env, status.(blockedTunnels := W.AppendUnique(status.blockedTunnels, FormatTunnel(source,
      teid))))
  {
    var text := FormatTunnel(source, teid);
    TunnelTextRoundTrip(env.parse, source, teid);
    TunnelClaimsAppend(env.parse, status.blockedTunnels, [text]);
    assert [text][1..] == [];
    assert TunnelClaims(env.parse, [text]) == TunnelClaim(env.parse, text);
  }

  lemma SourceAccepted(env: Env, status: Status, source: string)
    requires AllAccepted(env, status)
    ensures AllAccepted(env, status.(blockedIPs := W.AppendUnique(status.blockedIPs, source)))
  {
    SourceClaimsAppend(env.parse, status.blockedIPs, [source]);
    assert [source][1..] == [];
    assert SourceClaims(env.parse, [source]) == SourceClaim(env.parse, source);
  }

  lemma SameListsAccepted(env: Env, a: Status, b: Status)
    requires AllAccepted(env, a) && SameLists(a, b)
    ensures AllAccepted(env, b)
  {
  }

  lemma DecideAccepted(env: Env, policy: Policy, ev: W.Score, killed: bool)
    requires LawfulParse(env.parse) && AllAccepted(env, policy.status)
    ensures AllAccepted(env, W.Decide(env, policy, ev, killed).status)
  {
    var next := W.Decide(env, policy, ev, killed).status;
    var status := policy.status;
    if policy.spec.ebpfBlockTunnel && env.parse(ev.source).Some? && ev.teid != 0 {
      AppendAccepted(env, status, ev.source, ev.teid);
      var tunnels := W.AppendUnique(status.blockedTunnels, FormatTunnel(ev.source, ev.teid));
      SourceAccepted(env, status.(blockedTunnels := tunnels), ev.source);
      DecidedLists(env, policy, ev, killed, status.(blockedTunnels := tunnels));
    } else {
      SourceAccepted(env, status, ev.source);
      DecidedLists(env, policy, ev, killed, status);
    }
  }

  /** A decision's lists are the old ones, or those with the tunnel, or with the source
      besides. */
  lemma DecidedLists(env: Env, policy: Policy, ev: W.Score, killed: bool, tunnels: Status)
    requires AllAccepted(env, policy.status) && AllAccepted(env, tunnels)
    requires AllAccepted(env, tunnels.(blockedIPs := W.AppendUnique(tunnels.blockedIPs, ev.source)))
    requires tunnels.blockedIPs == policy.status.blockedIPs
    requires tunnels.blockedTunnels ==
             if policy.spec.ebpfBlockTunnel && env.parse(ev.source).Some? && ev.teid != 0
             then W.AppendUnique(policy.status.blockedTunnels, FormatTunnel(ev.source, ev.teid))
             else policy.status.blockedTunnels
    ensures AllAccepted(env, W.Decide(env, policy, ev, killed).status)
  {
    var next := W.Decide(env, policy, ev, killed).status;
    var both := tunnels.(blockedIPs := W.AppendUnique(tunnels.blockedIPs, ev.source));
    if SameLists(policy.status, next) {
      SameListsAccepted(env, policy.status, next);
    } else if SameLists(tunnels, next) {
      SameListsAccepted(env, tunnels, next);
    } else {
      SameListsAccepted(env, both, next);
    }
  }

  lemma WriteKeepsProper(env: Env, w: World, id: Id, copy: Policy, next: Status, o: W.Oracle)
    requires Proper(env, w.store) && AllAccepted(env, next)
    ensures Proper(env, W.WriteStatus(w, id, copy, next, o).0.store)
  {
  }

  lemma ScoreKeepsProper(env: Env, w: World, id: Id, copy: Policy, ev: W.Score, o: W.Oracle)
    requires LawfulParse(env.parse) && Proper(env, w.store) && Known(w, id, copy)
    ensures Proper(env, W.ApplyTo(env, w, id, copy, ev, o).0.store)
  {
    var d := W.Decide(env, copy, ev, o.killed);
    if Outdated(w, id, copy) {
      OutdatedWrite(w, id, copy, d.status, o);
    } else {
      DecideAccepted(env, copy, ev, o.killed);
      WriteKeepsProper(env, w, id, copy, d.status, o);
    }
  }

  lemma PreparedKeepsProper(env: Env, w: World, id: Id, w': World)
    requires Proper(env, w.store) && OnlyPrepared(w, id, w') && !w.store[id].deleting
    ensures Proper(env, w'.store)
  {
    SameListsAccepted(env, w.store[id].status, w'.store[id].status);
  }

  lemma ReleaseKeepsProper(env: Env, w: World, id: Id, now: int, f: Faults)
    requires Proper(env, w.store) && id in w.store
    ensures Proper(env, TryDeEscalate(env, w, id, w.store[id], now, f).0.store)
  {
    NoClaims(env, Cleared(w.store[id].status));
  }

  lemma VisitKeepsProper(env: Env, w: World, id: Id, v: Visit)
    requires Proper(env, w.store) && (v.view.Some? ==> Known(w, id, v.view.value))
    ensures Proper(env, Reconcile(env, w, id, v).0.store)
  {
    if v.view.Some? && Outdated(w, id, v.view.value) {
      OutdatedVisit(env, w, id, v);
    } else if v.view.Some? && !v.view.value.deleting {
      PrepareOnly(w, id, v.view.value, v);
      var (w1, prepared) := Prepare(w, id, v.view.value, v);
      PreparedKeepsProper(env, w, id, w1);
      if prepared.Some? { ReleaseKeepsProper(env, w1, id, v.now, v.faults); }
    }
  }

  lemma StepKeepsProper(env: Env, s: System, step: Step, s': System)
    requires LawfulParse(env.parse) && Proper(env, s.world.store) && Next(env, s, step, s') && ReadsKnown(s.world, step)
    ensures Proper(env, s'.world.store)
  {
    match step
    case ApplyScore(id, copy, ev, o) => ScoreKeepsProper(env, s.world, id, copy, ev, o);
    case Visiting(id, visit) => VisitKeepsProper(env, s.world, id, visit);
    case Create(_, _) => NoClaims(env, FRESH_STATUS);
    case _ =>
  }

  lemma RunStepProper(env: Env, states: seq<System>, steps: seq<Step>, i: nat)
    requires LawfulParse(env.parse) && Run(env, states, steps) && i < |steps| && Proper(env, states[i].world.store)
    ensures Proper(env, states[i + 1].world.store)
  {
    assert StepAt(env, states, steps, i);
    RunReadsKnown(env, states, steps, i);
    StepKeepsProper(env, states[i], steps[i], states[i + 1]);
  }

  lemma {:induction false} RunProper(env: Env, states: seq<System>, steps: seq<Step>, i: nat)
    requires LawfulParse(env.parse) && Run(env, states, steps) && i < |states|
    ensures Proper(env, states[i].world.store)
  {
    if i > 0 {
      RunProper(env, states, steps, i - 1);
      RunStepProper(env, states, steps, i - 1);
    }
  }

  // ---------------------------------------------------------------- continuations

  /** A step on a current view that deletes nothing without its finalizer. */
  ghost predicate Careful(env: Env, s: System, step: Step, s': System) {
    && Next(env, s, step, s') && ReadsFrom(s.world, step)
    && (step.Delete? ==> step.id in s.world.store && s.world.store[step.id].finalizer)
  }

  /** Careful steps lead from one state to the other. */
  ghost predicate Reaches(env: Env, s: System, states: seq<System>, steps: seq<Step>, s': System)
    decreases |steps|
  {
    |states| == |steps| &&
    if steps == [] then s' == s
    else Careful(env, s, steps[0], states[0]) && Reaches(env, states[0], states[1..], steps[1..], s')
  }

  lemma ReachesFrom(env: Env, s: System, step: Step, s1: System, states: seq<System>, steps: seq<Step>, s': System)
    requires Careful(env, s, step, s1) && Reaches(env, s1, states, steps, s')
    ensures Reaches(env, s, [s1] + states, [step] + steps, s')
  {
    assert ([s1] + states)[1..] == states && ([step] + steps)[1..] == steps;
  }

  /** The invariant carries write-ahead through every careful continuation. */
  lemma {:induction false} InvSurvives(env: Env, s: System, states: seq<System>, steps: seq<Step>, s': System)
    requires LawfulParse(env.parse) && Versioned(s.world) && Inv(env, s.world) && Reaches(env, s, states, steps, s')
    ensures Inv(env, s'.world)
    decreases |steps|
  {
    if steps != [] {
      var step, s1 := steps[0], states[0];
      ReadsStayKnown(s.world, s.world, step);
      if !step.Delete? { CurrentReadsAreOrderly(env, s, step, s1); }
      StepExact(env, s, step, s1);
      StepVersioned(env, s, step, s1);
      InvSurvives(env, s1, states[1..], steps[1..], s');
    }
  }

  // ---------------------------------------------------------------- taking a policy away

  lemma PrepareFinalizes(w: World, k: Id, v: Visit)
    requires k in w.store && !w.store[k].deleting && v == Visit(Get(w.store, k), 0, Untracked, NO_FAULTS)
    ensures var (w', r) := Prepare(w, k, w.store[k], v);
            && k in w'.store && w'.store == w.store[k := w'.store[k]] && w'.index == w.index[k := w'.store[k]]
            && w'.store[k].finalizer && !w'.store[k].deleting && r == Some((w'.store[k], 0))
  {
  }

  lemma ReleaseKeepsFinalizer(env: Env, w: World, k: Id, now: int)
    requires k in w.store && w.store[k].finalizer && !w.store[k].deleting && w.index == w.index[k := w.store[k]]
    ensures var w' := TryDeEscalate(env, w, k, w.store[k], now, NO_FAULTS).0;
            && k in w'.store && w'.store == w.store[k := w'.store[k]] && w'.index == w.index[k := w'.store[k]]
            && w'.store[k].finalizer && !w'.store[k].deleting
  {
  }

  /** A visit of a live policy is its preparation, and a release if it is Mitigating. */
  lemma LiveVisit(env: Env, w: World, k: Id, v: Visit, w1: World)
    requires v.view.Some? && !v.view.value.deleting && !v.faults.get && k in w1.store
    requires Prepare(w, k, v.view.value, v) == (w1, Some((w1.store[k], 0)))
    ensures Reconcile(env, w, k, v).0 ==
            if w1.store[k].status.phase == Mitigating then TryDeEscalate(env, w1, k, w1.store[k], v.now,
              v.faults).0 else w1
  {
  }

  /** A fault-free visit of a live policy gives it its finalizer. */
  lemma VisitFinalizes(env: Env, w: World, k: Id, v: Visit)
    requires k in w.store && !w.store[k].deleting && Proper(env, w.store)
    requires v == Visit(Get(w.store, k), 0, Untracked, NO_FAULTS)
    ensures var w' := Reconcile(env, w, k, v).0;
            && k in w'.store && w'.store == w.store[k := w'.store[k]] && w'.index == w.index[k := w'.store[k]]
            && w'.store[k].finalizer && !w'.store[k].deleting
  {
    PrepareFinalizes(w, k, v);
    var w1 := Prepare(w, k, w.store[k], v).0;
    ReleaseKeepsFinalizer(env, w1, k, 0);
    LiveVisit(env, w, k, v, w1);
  }

  /** A fault-free visit of a policy that is being deleted takes it away. */
  lemma VisitRemoves(env: Env, w: World, k: Id, v: Visit)
    requires k in w.store && w.store[k].deleting && w.store[k].finalizer && AllAccepted(env, w.store[k].status)
    requires v == Visit(Get(w.store, k), 0, Untracked, NO_FAULTS)
    ensures var w' := Reconcile(env, w, k, v).0; w'.store == w.store - {k} && w'.index == w.index - {k}
  {
    ReleaseEffect(w.kernel, Claims(env.parse, w.store[k].status), {});
  }

  /** Only policy `k` is gone. */
  ghost predicate Without(s: System, k: Id, s': System) {
    s'.world.store == s.world.store - {k} && s'.world.index - {k} == s.world.index - {k}
  }

  lemma DeletingGoes(env: Env, s: System, k: Id) returns (states: seq<System>, steps: seq<Step>, s': System)
    requires k in s.world.store && s.world.store[k].deleting && Proper(env, s.world.store)
    ensures Reaches(env, s, states, steps, s') && Without(s, k, s')
  {
    var v := Visit(Get(s.world.store, k), 0, Untracked, NO_FAULTS);
    assert ProperPolicy(env, s.world.store[k]);
    VisitRemoves(env, s.world, k, v);
    s' := s.(world := Reconcile(env, s.world, k, v).0);
    ReachesFrom(env, s, Visiting(k, v), s', [], [], s');
    states, steps := [s'] + [], [Visiting(k, v)] + [];
  }

  lemma DeleteThenGoes(env: Env, s: System, k: Id) returns (states: seq<System>, steps: seq<Step>, s': System)
    requires k in s.world.store && !s.world.store[k].deleting && s.world.store[k].finalizer
      && Proper(env, s.world.store)
    ensures Reaches(env, s, states, steps, s') && Without(s, k, s')
  {
    var s1 := s.(world := Deleted(s.world, k));
    states, steps, s' := DeletingGoes(env, s1, k);
    ReachesFrom(env, s, Delete(k), s1, states, steps, s');
    states, steps := [s1] + states, [Delete(k)] + steps;
    assert s1.world.store - {k} == s.world.store - {k};
  }

  /** Any policy can be made to go, carefully. */
  lemma PolicyGoes(env: Env, s: System, k: Id) returns (states: seq<System>, steps: seq<Step>, s': System)
    requires k in s.world.store && Proper(env, s.world.store)
    ensures Reaches(env, s, states, steps, s') && Without(s, k, s')
  {
    if s.world.store[k].deleting {
      states, steps, s' := DeletingGoes(env, s, k);
    } else {
      var v := Visit(Get(s.world.store, k), 0, Untracked, NO_FAULTS);
      VisitFinalizes(env, s.world, k, v);
      var s1 := s.(world := Reconcile(env, s.world, k, v).0);
      StoredIsCurrent(s.world, k, v);
      VisitKeepsProperNow(env, s.world, k, v);
      states, steps, s' := DeleteThenGoes(env, s1, k);
      ReachesFrom(env, s, Visiting(k, v), s1, states, steps, s');
      states, steps := [s1] + states, [Visiting(k, v)] + steps;
      assert s1.world.store - {k} == s.world.store - {k} && s1.world.index - {k} == s.world.index - {k};
    }
  }

  lemma StoredIsCurrent(w: World, k: Id, v: Visit)
    requires k in w.store && v.view == Get(w.store, k)
    ensures !Outdated(w, k, v.view.value)
  {
  }

  lemma VisitKeepsProperNow(env: Env, w: World, k: Id, v: Visit)
    requires k in w.store && !w.store[k].deleting && Proper(env, w.store) && v.view == Get(w.store, k)
    ensures Proper(env, Reconcile(env, w, k, v).0.store)
  {
    PrepareOnly(w, k, w.store[k], v);
    var (w1, prepared) := Prepare(w, k, w.store[k], v);
    PreparedKeepsProper(env, w, k, w1);
    if prepared.Some? { ReleaseKeepsProper(env, w1, k, v.now, v.faults); }
  }

  // ---------------------------------------------------------------- the theorem

  /** Those who name the drop. */
  function Namers(env: Env, store: map<Id, Policy>, e: Entry): set<Id> {
    set k | k in store && e in Claims(env.parse, store[k].status)
  }

  lemma NamerGone(env: Env, store: map<Id, Policy>, e: Entry, k: Id)
    ensures Namers(env, store - {k}, e) == Namers(env, store, e) - {k}
  {
  }

  lemma NamedHasNamer(env: Env, store: map<Id, Policy>, e: Entry)
    ensures Named(env, store, e) <==> Namers(env, store, e) != {}
  {
    if Named(env, store, e) {
      var k :| k in store && e in Claims(env.parse, store[k].status);
      assert k in Namers(env, store, e);
    }
  }

  /** Once nobody names the drop, losing the maps makes room and a repeat through the
      copy places it. */
  lemma UnnamedIsPlaced(env: Env, s: System, id: Id, source: string, teid: TEID, e: Entry)
    returns (states: seq<System>, steps: seq<Step>, s': System)
    requires id in s.world.index && Outdated(s.world, id, s.world.index[id])
    requires CanDrop(env, s.world.index[id], source, teid, e) && Namers(env, s.world.store, e) == {}
    requires forall m :: env.cap(m) > 0
    ensures Reaches(env, s, states, steps, s') && !WriteAhead(env, s'.world)
  {
    var s1 := s.(world := s.world.(kernel := {}));
    var ev := W.Score(source, teid, 1.0, 0);
    var step := ApplyScore(id, s.world.index[id], ev, PLAIN);
    assert forall m :: Within({}, m) == {};
    NamedHasNamer(env, s.world.store, e);
    UnnamedRepeatBreaks(env, s1.world, id, source, teid, e);
    s' := s1.(world := W.Apply(env, s1.world, id, ev, PLAIN).0);
    ReachesFrom(env, s1, step, s', [], [], s');
    ReachesFrom(env, s, KernelLost, s1, [s'] + [], [step] + [], s');
    states, steps := [s1] + ([s'] + []), [KernelLost] + ([step] + []);
  }

  /** An indexed copy that could place a drop its policy does not claim: those who
      still name the drop can be made to go, and then it is placed unnamed. */
  lemma {:induction false} UncoveredBreaks(env: Env, s: System, id: Id, source: string, teid: TEID, e: Entry)
    returns (states: seq<System>, steps: seq<Step>, s': System)
    requires LawfulParse(env.parse) && Proper(env, s.world.store) && forall m :: env.cap(m) > 0
    requires id in s.world.index && Outdated(s.world, id, s.world.index[id])
    requires CanDrop(env, s.world.index[id], source, teid, e) && id !in Namers(env, s.world.store, e)
    ensures Reaches(env, s, states, steps, s') && !WriteAhead(env, s'.world)
    decreases |Namers(env, s.world.store, e)|
  {
    var namers := Namers(env, s.world.store, e);
    if namers == {} {
      states, steps, s' := UnnamedIsPlaced(env, s, id, source, teid, e);
    } else {
      var k :| k in namers;
      var states1, steps1, s1 := PolicyGoes(env, s, k);
      NamerGone(env, s.world.store, e, k);
      WithoutKeeps(env, s, k, s1, id);
      var states2, steps2;
      states2, steps2, s' := UncoveredBreaks(env, s1, id, source, teid, e);
      ReachesThen(env, s, states1, steps1, s1, states2, steps2, s');
      states, steps := states1 + states2, steps1 + steps2;
    }
  }

  lemma WithoutKeeps(env: Env, s: System, k: Id, s': System, id: Id)
    requires Without(s, k, s') && id != k && id in s.world.index && Outdated(s.world, id, s.world.index[id])
    requires Proper(env, s.world.store)
    ensures id in s'.world.index && s'.world.index[id] == s.world.index[id]
    ensures Outdated(s'.world, id, s'.world.index[id]) && Proper(env, s'.world.store)
  {
    assert id in s.world.index - {k} && (s.world.index - {k})[id] == s.world.index[id];
    assert id in s'.world.index - {k};
  }

  lemma Glue<T>(a: seq<T>, b: seq<T>)
    ensures a == [] ==> a + b == b
    ensures a != [] ==> [a[0]] + (a[1..] + b) == a + b
  {
  }

  lemma {:induction false} ReachesThen(env: Env, s: System, states1: seq<System>, steps1: seq<Step>, s1: System,
                                       states2: seq<System>, steps2: seq<Step>, s2: System)
    requires Reaches(env, s, states1, steps1, s1) && Reaches(env, s1, states2, steps2, s2)
    ensures Reaches(env, s, states1 + states2, steps1 + steps2, s2)
    decreases |steps1|
  {
    Glue(states1, states2);
    Glue(steps1, steps2);
    if steps1 != [] {
      ReachesThen(env, states1[0], states1[1..], steps1[1..], s1, states2, steps2, s2);
      ReachesFrom(env, s, steps1[0], states1[0], states1[1..] + states2, steps1[1..] + steps2, s2);
    }
  }

  /** Write-ahead holds here and after every careful continuation. */
  ghost predicate Survives(env: Env, s: System) {
    forall states, steps, s' :: Reaches(env, s, states, steps, s') ==> WriteAhead(env, s'.world)
  }

  lemma BrokenDoesNotSurvive(env: Env, s: System, states: seq<System>, steps: seq<Step>, s': System)
    requires Reaches(env, s, states, steps, s') && !WriteAhead(env, s'.world)
    ensures !Survives(env, s)
  {
  }

  lemma ViolationBreaks(env: Env, s: System) returns (states: seq<System>, steps: seq<Step>, s': System)
    requires LawfulParse(env.parse) && Versioned(s.world) && Proper(env, s.world.store) && forall m :: env.cap(m) > 0
    requires !Inv(env, s.world)
    ensures Reaches(env, s, states, steps, s') && !WriteAhead(env, s'.world)
  {
    if !WriteAhead(env, s.world) {
      states, steps, s' := [], [], s;
    } else {
      var id :| id in s.world.index && !Covers(env, s.world.store, id, s.world.index[id]);
      var copy := s.world.index[id];
      if !Outdated(s.world, id, copy) {
        ListedCovers(env, s.world.store, id, copy);
        assert false;
      }
      var source, teid: TEID, e :| CanDrop(env, copy, source, teid, e) &&
        !(id in s.world.store && e in Claims(env.parse, s.world.store[id].status));
      states, steps, s' := UncoveredBreaks(env, s, id, source, teid, e);
    }
  }

  /** In every run: a state satisfies the invariant if and only if write-ahead holds
      there and after every careful continuation, one that reads nothing old and
      deletes nothing without its finalizer. The guards that keep the invariant are
      therefore as weak as they can be. */
  lemma InvIsWeakest(env: Env, states: seq<System>, steps: seq<Step>, i: nat)
    requires LawfulParse(env.parse) && Run(env, states, steps) && i < |states| && forall m :: env.cap(m) > 0
    ensures Inv(env, states[i].world) <==> Survives(env, states[i])
  {
    var s := states[i];
    RunVersioned(env, states, steps, i);
    if Inv(env, s.world) {
      forall later, more, s' | Reaches(env, s, later, more, s') ensures WriteAhead(env, s'.world) {
        InvSurvives(env, s, later, more, s');
      }
    } else {
      RunProper(env, states, steps, i);
      var later, more, s' := ViolationBreaks(env, s);
      BrokenDoesNotSurvive(env, s, later, more, s');
    }
  }

  /** So the guards are exact for write-ahead itself: where it would survive, a step
      lets it survive if and only if the step is orderly. */
  lemma OrderlyIsExact(env: Env, states: seq<System>, steps: seq<Step>, i: nat)
    requires LawfulParse(env.parse) && Run(env, states, steps) && i < |steps| && forall m :: env.cap(m) > 0
    requires Survives(env, states[i])
    ensures Survives(env, states[i + 1]) <==> Orderly(env, states[i], steps[i])
  {
    InvIsWeakest(env, states, steps, i);
    InvIsWeakest(env, states, steps, i + 1);
    RunStepExact(env, states, steps, i);
  }
}
