/** The status-write limiter: whatever it answers, decisions and drops are the
    same; only the de-escalation clock can tell. */
module Throttling {
  import opened Prelude
  import opened TunnelText
  import opened Enforcement
  import opened Policies
  import opened ClusterState
  import opened PolicyController
  import opened ClosedLoop
  import Dwell
  import W = ThreatScoreWatcher

  /** One score handed to one policy, with everything but the limiter's answer. */
  datatype Call = Call(id: Id, ev: W.Score, killed: bool, kernelFaults: set<Entry>, meshFails: bool)

  function OracleOf(c: Call, allowed: bool): W.Oracle {
    W.Oracle(c.killed, allowed, false, c.kernelFaults, c.meshFails)
  }

  /** What one call does to the kernel: the drops it attempts and its error. */
  datatype Deed = Deed(attempted: seq<Entry>, failed: bool)

  function Handle(env: Env, w: World, c: Call, allowed: bool): (World, Deed) {
    if c.id !in w.index then (w, Deed([], false))
    else
      var o := OracleOf(c, allowed);
      var policy := w.index[c.id];
      var d := W.Decide(env, policy, c.ev, c.killed);
      var (w', failed) := W.Apply(env, w, c.id, c.ev, o);
      (w', Deed(if W.WriteStatus(w, c.id, policy, d.status, o).1 then d.actions else [], failed))
  }

  /** A sequence of calls under a sequence of limiter answers. */
  function HandleAll(env: Env, w: World, calls: seq<Call>, allowed: seq<bool>): (World, seq<Deed>)
    requires |allowed| == |calls|
    decreases |calls|
  {
    if calls == [] then (w, [])
    else
      var (w1, deed) := Handle(env, w, calls[0], allowed[0]);
      var (w2, deeds) := HandleAll(env, w1, calls[1..], allowed[1..]);
      (w2, [deed] + deeds)
  }

  /** No write is pending and none conflicts: indexed copies are current. */
  ghost predicate Current(w: World) {
    forall id :: id in w.index ==> id in w.store && w.index[id] == w.store[id]
  }

  /** The same policy up to the observed score, the mitigation time and the
      resource version. */
  predicate SameDecision(a: Policy, b: Policy) {
    && a.spec == b.spec && a.deleting == b.deleting && a.finalizer == b.finalizer
    && a.status.phase == b.status.phase && SameLists(a.status, b.status)
  }

  ghost predicate SameDecisions(a: map<Id, Policy>, b: map<Id, Policy>) {
    a.Keys == b.Keys && forall id :: id in a ==> SameDecision(a[id], b[id])
  }

  ghost predicate Agree(a: World, b: World) {
    && a.kernel == b.kernel
    && SameDecisions(a.store, b.store) && SameDecisions(a.index, b.index)
    && Current(a) && Current(b)
  }

  lemma DecideAgrees(env: Env, a: Policy, b: Policy, ev: W.Score, killed: bool)
    requires SameDecision(a, b)
    ensures var d, d' := W.Decide(env, a, ev, killed), W.Decide(env, b, ev, killed);
            && d.actions == d'.actions && d.status.phase == d'.status.phase && SameLists(d.status, d'.status)
  {
  }

  /** A call's status write ends on the decided phase and lists, written or
      throttled. */
  lemma WriteEndsOnDecision(env: Env, w: World, id: Id, ev: W.Score, o: W.Oracle)
    requires id in w.index && Current(w) && !o.apiFails
    ensures var policy := w.index[id];
            var d := W.Decide(env, policy, ev, o.killed);
            var (w', ok) := W.WriteStatus(w, id, policy, d.status, o);
            && ok && w'.kernel == w.kernel && Current(w')
            && id in w'.store && SameDecision(w'.store[id], policy.(status := d.status))
            && w'.store == w.store[id := w'.store[id]] && w'.index == w.index[id := w'.store[id]]
  {
    var policy := w.index[id];
    var d := W.Decide(env, policy, ev, o.killed);
    if W.Throttled(policy.status, d.status, o.allowed) {
      ThrottledKeepsLists(env, policy, ev, o.killed, o.allowed);
      assert w.store == w.store[id := w.store[id]] && w.index == w.index[id := w.store[id]];
    }
  }

  /** One call, whatever the limiter says: the decided policy, written through
      to the index, and the decided drops. */
  lemma HandleEffect(env: Env, w: World, c: Call, allowed: bool)
    requires c.id in w.index && Current(w)
    ensures var policy := w.index[c.id];
            var d := W.Decide(env, policy, c.ev, c.killed);
            var (kernel, blocked) := BlockAll(env.cap, w.kernel, d.actions, c.kernelFaults);
            var (w', deed) := Handle(env, w, c, allowed);
            && c.id in w'.store && SameDecision(w'.store[c.id], policy.(status := d.status))
            && w'.store == w.store[c.id := w'.store[c.id]] && w'.index == w.index[c.id := w'.store[c.id]]
            && w'.kernel == kernel
            && deed == Deed(d.actions, !blocked || (W.MitigatesNow(env, policy, c.ev, OracleOf(c, allowed)) &&
                                                    policy.spec.isolatePod && policy.spec.hasSelector && c.meshFails))
  {
    WriteEndsOnDecision(env, w, c.id, c.ev, OracleOf(c, allowed));
  }

  lemma UpdateAgrees(a: map<Id, Policy>, b: map<Id, Policy>, id: Id, p: Policy, q: Policy)
    requires SameDecisions(a, b) && SameDecision(p, q)
    ensures SameDecisions(a[id := p], b[id := q])
  {
  }

  lemma UpdateCurrent(w: World, w': World, id: Id, p: Policy)
    requires Current(w) && w'.store == w.store[id := p] && w'.index == w.index[id := p]
    ensures Current(w')
  {
  }

  lemma HandleAgrees(env: Env, a: World, b: World, c: Call, p: bool, q: bool)
    requires Agree(a, b)
    ensures Agree(Handle(env, a, c, p).0, Handle(env, b, c, q).0)
    ensures Handle(env, a, c, p).1 == Handle(env, b, c, q).1
  {
    if c.id in a.index {
      var a', b' := Handle(env, a, c, p).0, Handle(env, b, c, q).0;
      DecideAgrees(env, a.index[c.id], b.index[c.id], c.ev, c.killed);
      HandleEffect(env, a, c, p);
      HandleEffect(env, b, c, q);
      UpdateAgrees(a.store, b.store, c.id, a'.store[c.id], b'.store[c.id]);
      UpdateAgrees(a.index, b.index, c.id, a'.store[c.id], b'.store[c.id]);
      UpdateCurrent(a, a', c.id, a'.store[c.id]);
      UpdateCurrent(b, b', c.id, b'.store[c.id]);
    }
  }

  /** Throttling is transparent: for every sequence of scores and any two
      behaviours of the limiter, with writes succeeding, the persisted phases and
      block lists, the index, the kernel, every attempted drop and every error
      are the same. */
  lemma {:induction false} ThrottlingTransparent(env: Env, a: World, b: World, calls: seq<Call>, p: seq<bool>,
                                                 q: seq<bool>)
    requires Agree(a, b) && |p| == |q| == |calls|
    ensures Agree(HandleAll(env, a, calls, p).0, HandleAll(env, b, calls, q).0)
    ensures HandleAll(env, a, calls, p).1 == HandleAll(env, b, calls, q).1
    decreases |calls|
  {
    if calls != [] {
      HandleAgrees(env, a, b, calls[0], p[0], q[0]);
      ThrottlingTransparent(env, Handle(env, a, calls[0], p[0]).0, Handle(env, b, calls[0], q[0]).0,
                            calls[1..], p[1..], q[1..]);
    }
  }

  // ---------------------------------------------------------------- repeat-free lists

  lemma AppendUniqueDistinct(list: seq<string>, s: string)
    requires Distinct(list)
    ensures Distinct(W.AppendUnique(list, s))
  {
  }

  /** Scores keep both lists repeat-free, so the limiter's comparison is set
      equality throughout. */
  lemma DecideKeepsDistinct(env: Env, policy: Policy, ev: W.Score, killed: bool)
    requires Distinct(policy.status.blockedIPs) && Distinct(policy.status.blockedTunnels)
    ensures var next := W.Decide(env, policy, ev, killed).status;
            && Distinct(next.blockedIPs) && Distinct(next.blockedTunnels)
            && (!W.DecisionChanged(policy.status, next) <==>
                  policy.status.phase == next.phase &&
                  Elements(policy.status.blockedIPs) == Elements(next.blockedIPs) &&
                  Elements(policy.status.blockedTunnels) == Elements(next.blockedTunnels))
  {
    var next := W.Decide(env, policy, ev, killed).status;
    AppendUniqueDistinct(policy.status.blockedIPs, ev.source);
    AppendUniqueDistinct(policy.status.blockedTunnels, FormatTunnel(ev.source, ev.teid));
    W.SameStringsIsSetEquality(policy.status.blockedIPs, next.blockedIPs);
    W.SameStringsIsSetEquality(policy.status.blockedTunnels, next.blockedTunnels);
  }

  /** Both lists of a status are repeat-free. */
  ghost predicate Tidy(status: Status) {
    Distinct(status.blockedIPs) && Distinct(status.blockedTunnels)
  }

  ghost predicate AllTidy(w: World) {
    && (forall id :: id in w.store ==> Tidy(w.store[id].status))
    && (forall id :: id in w.index ==> Tidy(w.index[id].status))
  }

  lemma ApplyKeepsTidy(env: Env, w: World, id: Id, copy: Policy, ev: W.Score, o: W.Oracle)
    requires AllTidy(w) && Tidy(copy.status)
    ensures AllTidy(W.ApplyTo(env, w, id, copy, ev, o).0)
  {
    DecideKeepsDistinct(env, copy, ev, o.killed);
    var next := W.Decide(env, copy, ev, o.killed).status;
    assert Tidy(next);
    WriteKeepsTidy(w, id, copy, next, o);
  }

  lemma WriteKeepsTidy(w: World, id: Id, prev: Policy, next: Status, o: W.Oracle)
    requires AllTidy(w) && Tidy(next)
    ensures AllTidy(W.WriteStatus(w, id, prev, next, o).0)
  {
  }

  lemma TryDeEscalateKeepsTidy(env: Env, w: World, id: Id, now: int, f: Faults)
    requires id in w.store && AllTidy(w)
    ensures AllTidy(TryDeEscalate(env, w, id, w.store[id], now, f).0)
  {
    assert Tidy(Cleared(w.store[id].status));
  }

  lemma ReconcileKeepsTidy(env: Env, w: World, id: Id, v: Visit)
    requires AllTidy(w) && (v.view.Some? ==> Known(w, id, v.view.value) && Tidy(v.view.value.status))
    ensures AllTidy(Reconcile(env, w, id, v).0)
  {
    if v.view.Some? && Outdated(w, id, v.view.value) {
      OutdatedVisit(env, w, id, v);
    } else if v.view.Some? && !v.faults.get && !v.view.value.deleting {
      PrepareOnly(w, id, v.view.value, v);
      var (w1, prepared) := Prepare(w, id, v.view.value, v);
      if prepared.Some? { TryDeEscalateKeepsTidy(env, w1, id, v.now, v.faults); }
    }
  }

  lemma StepKeepsTidy(env: Env, s: System, step: Step, s': System, read: World)
    requires Next(env, s, step, s') && AllTidy(s.world)
    requires ReadsFrom(read, step) && AllTidy(read) && ReadsKnown(s.world, step)
    ensures AllTidy(s'.world)
  {
    match step
    case ApplyScore(id, copy, ev, o) => ApplyKeepsTidy(env, s.world, id, copy, ev, o);
    case Visiting(id, visit) => ReconcileKeepsTidy(env, s.world, id, visit);
    case _ =>
  }

  /** In every run both lists of every persisted and every indexed status stay
      repeat-free, so equalStringSet is set equality whenever it is asked. */
  lemma {:induction false} ListsStayDistinct(env: Env, states: seq<System>, steps: seq<Step>, i: nat)
    requires Run(env, states, steps) && i < |states|
    ensures AllTidy(states[i].world)
    decreases i
  {
    if i > 0 {
      var j := StepReads(env, states, steps, i - 1);
      ListsStayDistinct(env, states, steps, j);
      ListsStayDistinct(env, states, steps, i - 1);
      RunReadsKnown(env, states, steps, i - 1);
      StepKeepsTidy(env, states[i - 1], steps[i - 1], states[i], states[j].world);
    }
  }

  // ---------------------------------------------------------------- the clock

  /** A crossing, armed score that decides nothing new. */
  predicate Repeat(env: Env, policy: Policy, ev: W.Score) {
    && policy.spec.autoMitigate && W.Crosses(env, policy, ev)
    && !W.DecisionChanged(policy.status, W.Decide(env, policy, ev, false).status)
  }

  /** The persisted policy after a repeat: untouched if its write was throttled,
      with a new clock if it was let through. */
  lemma RepeatEffect(env: Env, w: World, id: Id, ev: W.Score, o: W.Oracle)
    requires Current(w) && id in w.index && Repeat(env, w.store[id], ev) && !o.killed && !o.apiFails
    ensures var w', status := W.Apply(env, w, id, ev, o).0, w.store[id].status;
            && status.phase == Mitigating && id in w'.store && w'.store[id].deleting == w.store[id].deleting
            && w'.store[id].status ==
               if o.allowed then status.(observedScore := ev.value, lastMitigation := Some(ev.now)) else status
  {
    var policy := w.store[id];
    var d := W.Decide(env, policy, ev, false);
    assert W.Throttled(policy.status, d.status, false);
    ThrottledKeepsLists(env, policy, ev, false, false);
  }

  predicate SameOutcome(a: Status, b: Status) {
    a.phase == b.phase && SameLists(a, b)
  }

  /** The visit that follows a repeat, in a run that throttled it or wrote it. */
  function VisitAfter(env: Env, w: World, id: Id, ev: W.Score, o: W.Oracle, v: Visit): (World, Result)
    requires id in w.index
  {
    var w' := W.Apply(env, w, id, ev, o).0;
    Reconcile(env, w', id, v.(view := Get(w'.store, id)))
  }

  /** The transparency stops at the clock, exactly here: a repeated score
      refreshes the mitigation time only when its write is let through, so after
      it, at a visit that goes through in both runs, the throttled and the
      written run still agree on phase and lists if and only if the visit falls
      on the same side of both quiet periods. For every mitigating policy. */
  lemma ThrottlingClockExact(env: Env, w: World, id: Id, ev: W.Score, o: W.Oracle, v: Visit)
    requires Current(w) && id in w.index && Repeat(env, w.store[id], ev) && !o.killed && !o.apiFails
    requires !w.store[id].deleting && w.store[id].status.lastMitigation.Some?
    requires !VisitAfter(env, w, id, ev, o.(allowed := false), v).1.failed
    requires !VisitAfter(env, w, id, ev, o.(allowed := true), v).1.failed
    ensures var throttled := VisitAfter(env, w, id, ev, o.(allowed := false), v).0;
            var written := VisitAfter(env, w, id, ev, o.(allowed := true), v).0;
            var T := w.store[id].status.lastMitigation.value;
            && id in throttled.store && id in written.store
            && (SameOutcome(throttled.store[id].status, written.store[id].status) <==>
                (v.now < T + env.dwell <==> v.now < ev.now + env.dwell))
            && (if v.now < T + env.dwell then throttled.store[id].status == w.store[id].status
                else Dwell.Released(w.store[id].status, throttled.store[id].status))
            && (v.now < ev.now + env.dwell ==> SameOutcome(written.store[id].status, w.store[id].status))
  {
    forall allowed: bool ensures RepeatVisited(env, w, id, ev, o.(allowed := allowed), v) {
      RepeatVisit(env, w, id, ev, o.(allowed := allowed), v);
    }
    assert RepeatVisited(env, w, id, ev, o.(allowed := false), v);
    assert RepeatVisited(env, w, id, ev, o.(allowed := true), v);
  }

  ghost predicate RepeatVisited(env: Env, w: World, id: Id, ev: W.Score, o: W.Oracle, v: Visit)
    requires id in w.index && id in w.store && w.store[id].status.lastMitigation.Some?
  {
    var w', status := VisitAfter(env, w, id, ev, o, v).0, w.store[id].status;
    var kept := if o.allowed then status.(observedScore := ev.value, lastMitigation := Some(ev.now)) else status;
    && status.phase == Mitigating && id in w'.store
    && if v.now < (if o.allowed then ev.now else status.lastMitigation.value) + env.dwell
       then w'.store[id].status == kept
       else Dwell.Released(kept, w'.store[id].status)
  }

  lemma RepeatVisit(env: Env, w: World, id: Id, ev: W.Score, o: W.Oracle, v: Visit)
    requires Current(w) && id in w.index && Repeat(env, w.store[id], ev) && !o.killed && !o.apiFails
    requires !w.store[id].deleting && w.store[id].status.lastMitigation.Some?
    requires !VisitAfter(env, w, id, ev, o, v).1.failed
    ensures RepeatVisited(env, w, id, ev, o, v)
  {
    RepeatEffect(env, w, id, ev, o);
    var w' := W.Apply(env, w, id, ev, o).0;
    Dwell.MitigatingVisit(env, w', id, v.(view := Get(w'.store, id)));
  }

  /** The case that matters: a throttled repeat is followed by a release that the
      written one would still hold back. */
  lemma ThrottlingShortensDwell(env: Env, w: World, id: Id, ev: W.Score, o: W.Oracle, v: Visit)
    requires Current(w) && id in w.index && Repeat(env, w.store[id], ev) && !o.killed && !o.apiFails
    requires !w.store[id].deleting && w.store[id].status.lastMitigation.Some? && HoldsBlocks(w.store[id].status)
    requires !VisitAfter(env, w, id, ev, o.(allowed := false), v).1.failed
    requires !VisitAfter(env, w, id, ev, o.(allowed := true), v).1.failed
    requires w.store[id].status.lastMitigation.value + env.dwell <= v.now < ev.now + env.dwell
    ensures id in VisitAfter(env, w, id, ev, o.(allowed := false), v).0.store
    ensures id in VisitAfter(env, w, id, ev, o.(allowed := true), v).0.store
    ensures !HoldsBlocks(VisitAfter(env, w, id, ev, o.(allowed := false), v).0.store[id].status)
    ensures HoldsBlocks(VisitAfter(env, w, id, ev, o.(allowed := true), v).0.store[id].status)
  {
    ThrottlingClockExact(env, w, id, ev, o, v);
  }
}
