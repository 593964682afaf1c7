/** Write-ahead: every drop in the kernel is named in some persisted status. What
    it takes, step by step and exactly, and over whole runs. */
module WriteAheadRuns {
  import opened Prelude
  import opened TunnelText
  import opened Enforcement
  import opened Policies
  import opened BlocklistReconciler
  import opened ClusterState
  import opened PolicyController
  import opened ClosedLoop
  import W = ThreatScoreWatcher

  /** Some persisted status names the drop. */
  ghost predicate Named(env: Env, store: map<Id, Policy>, e: Entry) {
    exists id :: id in store && e in Claims(env.parse, store[id].status)
  }

  ghost predicate WriteAhead(env: Env, w: World) {
    forall e :: e in w.kernel ==> Named(env, w.store, e)
  }

  // ---------------------------------------------------------------- what a copy can do

  /** A score from this source with this TEID repeats what the copy records, so
      there is nothing to write and the limiter may skip it. */
  predicate Repeatable(env: Env, copy: Policy, source: string, teid: TEID) {
    && copy.spec.autoMitigate && copy.status.phase == Mitigating && env.parse(source).Some?
    && (copy.spec.ebpfBlock ==> source in copy.status.blockedIPs)
    && (copy.spec.ebpfBlockTunnel && teid != 0 ==> FormatTunnel(source, teid) in copy.status.blockedTunnels)
  }

  /** The drops such a score executes. */
  function DropsOf(env: Env, spec: Spec, source: string, teid: TEID): seq<Entry> {
    W.Actions(env, spec, W.Score(source, teid, 1.0, 0))
  }

  /** Such a repeat would place this drop. */
  predicate CanDrop(env: Env, copy: Policy, source: string, teid: TEID, e: Entry) {
    Repeatable(env, copy, source, teid) && e in DropsOf(env, copy.spec, source, teid)
  }

  /** Every drop that a repeat through the copy could place is claimed by the policy
      as it is persisted. */
  ghost predicate Covers(env: Env, store: map<Id, Policy>, id: Id, copy: Policy) {
    forall source, teid: TEID, e ::
      CanDrop(env, copy, source, teid, e) ==> id in store && e in Claims(env.parse, store[id].status)
  }

  /** No repeat through the copy drops anything. */
  ghost predicate Inert(env: Env, copy: Policy) {
    forall source, teid: TEID, e :: !CanDrop(env, copy, source, teid, e)
  }

  lemma ThrottledIsRepeat(env: Env, copy: Policy, ev: W.Score, o: W.Oracle)
    requires W.Throttled(copy.status, W.Decide(env, copy, ev, o.killed).status, o.allowed)
    requires W.Decide(env, copy, ev, o.killed).actions != []
    ensures Repeatable(env, copy, ev.source, ev.teid)
    ensures W.Decide(env, copy, ev, o.killed).actions == DropsOf(env, copy.spec, ev.source, ev.teid)
  {
    ThrottledKeepsLists(env, copy, ev, o.killed, o.allowed);
  }

  /** A copy all of whose texts the persisted status still lists is covered: one that
      is current, and one that only misses later blocks. */
  lemma ListedCovers(env: Env, store: map<Id, Policy>, id: Id, copy: Policy)
    requires LawfulParse(env.parse) && id in store
    requires forall s :: s in copy.status.blockedIPs ==> s in store[id].status.blockedIPs
    requires forall s :: s in copy.status.blockedTunnels ==> s in store[id].status.blockedTunnels
    ensures Covers(env, store, id, copy)
  {
    var status := store[id].status;
    forall source, teid: TEID, e | CanDrop(env, copy, source, teid, e)
      ensures e in Claims(env.parse, status)
    {
      if e.Tunnel? {
        TunnelTextRoundTrip(env.parse, source, teid);
        TunnelClaimOf(env.parse, status.blockedTunnels, FormatTunnel(source, teid));
      } else {
        SourceClaimOf(env.parse, status.blockedIPs, source);
      }
    }
  }

  // ---------------------------------------------------------------- the invariant

  ghost predicate Inv(env: Env, w: World) {
    WriteAhead(env, w) && forall id :: id in w.index ==> Covers(env, w.store, id, w.index[id])
  }

  /** Claims are only added. */
  ghost predicate KeepsNames(env: Env, w: World, w': World) {
    forall id, e :: id in w.store && e in Claims(env.parse, w.store[id].status) ==>
      id in w'.store && e in Claims(env.parse, w'.store[id].status)
  }

  lemma NamesKept(env: Env, w: World, w': World, e: Entry)
    requires KeepsNames(env, w, w') && Named(env, w.store, e)
    ensures Named(env, w'.store, e)
  {
    var id :| id in w.store && e in Claims(env.parse, w.store[id].status);
    assert id in w'.store;
  }

  lemma CoversKept(env: Env, w: World, w': World, id: Id, copy: Policy)
    requires KeepsNames(env, w, w') && Covers(env, w.store, id, copy)
    ensures Covers(env, w'.store, id, copy)
  {
  }

  lemma SameListsKeepNames(env: Env, w: World, w': World)
    requires forall id :: id in w.store ==> id in w'.store && SameLists(w'.store[id].status, w.store[id].status)
    ensures KeepsNames(env, w, w')
  {
  }

  lemma AppendKeepsClaims(env: Env, a: Status, b: Status, e: Entry)
    requires a.blockedIPs <= b.blockedIPs && a.blockedTunnels <= b.blockedTunnels
    requires e in Claims(env.parse, a)
    ensures e in Claims(env.parse, b)
  {
    var n, m := |a.blockedIPs|, |a.blockedTunnels|;
    assert b.blockedIPs == a.blockedIPs + b.blockedIPs[n..];
    assert b.blockedTunnels == a.blockedTunnels + b.blockedTunnels[m..];
    SourceClaimsAppend(env.parse, a.blockedIPs, b.blockedIPs[n..]);
    TunnelClaimsAppend(env.parse, a.blockedTunnels, b.blockedTunnels[m..]);
  }

  lemma GrownKeepsNames(env: Env, w: World, id: Id, w': World)
    requires id in w.store && id in w'.store && w'.store == w.store[id := w'.store[id]]
    requires w.store[id].status.blockedIPs <= w'.store[id].status.blockedIPs
    requires w.store[id].status.blockedTunnels <= w'.store[id].status.blockedTunnels
    ensures KeepsNames(env, w, w')
  {
    forall k, e | k in w.store && e in Claims(env.parse, w.store[k].status)
      ensures k in w'.store && e in Claims(env.parse, w'.store[k].status)
    {
      if k == id { AppendKeepsClaims(env, w.store[id].status, w'.store[id].status, e); }
    }
  }

  /** Where claims are only added, the kernel does not grow, and the index gets at
      most a stored policy, the invariant stays. */
  lemma InvKept(env: Env, w: World, id: Id, w': World)
    requires LawfulParse(env.parse) && Inv(env, w) && KeepsNames(env, w, w') && w'.kernel <= w.kernel
    requires Reindexed(w, id, w')
    ensures Inv(env, w')
  {
    forall e | e in w'.kernel ensures Named(env, w'.store, e) { NamesKept(env, w, w', e); }
    forall k | k in w'.index ensures Covers(env, w'.store, k, w'.index[k]) {
      if k in w.index && w'.index[k] == w.index[k] {
        CoversKept(env, w, w', k, w.index[k]);
      } else {
        ListedCovers(env, w'.store, k, w'.index[k]);
      }
    }
  }

  // ---------------------------------------------------------------- the guards

  /** What a user can look at before deleting: the policy has its finalizer; or no
      repeat through its indexed copy drops anything and every drop it claims is
      claimed by another policy too. */
  ghost predicate SafeToDelete(env: Env, w: World, id: Id)
    requires id in w.store
  {
    || w.store[id].finalizer
    || (&& (id in w.index ==> Inert(env, w.index[id]))
        && forall e :: e in w.kernel && e in Claims(env.parse, w.store[id].status) ==> Named(env, w.store - {id}, e))
  }

  /** What a score through an outdated copy adds to the kernel. */
  function Landing(env: Env, w: World, copy: Policy, ev: W.Score, o: W.Oracle): set<Entry> {
    var d := W.Decide(env, copy, ev, o.killed);
    if W.Throttled(copy.status, d.status, o.allowed)
    then BlockAll(env.cap, w.kernel, d.actions, o.kernelFaults).0 - w.kernel
    else {}
  }

  /** The guards, for steps taken on an old view of things: a deletion is safe, a pass
      and a score add only what is still named, and no copy goes into the index
      that could place a drop its policy has stopped claiming. */
  ghost predicate Orderly(env: Env, s: System, step: Step) {
    match step
    case ApplyScore(id, copy, ev, o) =>
      Outdated(s.world, id, copy) ==> forall e :: e in Landing(env, s.world, copy, ev, o) ==>
        Named(env, s.world.store, e)
    case Visiting(id, visit) => Indexes(visit) ==> Covers(env, s.world.store, id, visit.view.value)
    case Pass(_, _, _, added) => forall e :: e in added ==> Named(env, s.world.store, e)
    case WarmIndex(list) => forall id :: id in list && !list[id].deleting ==> Covers(env, s.world.store, id, list[id])
    case Delete(id) => id in s.world.store ==> SafeToDelete(env, s.world, id)
    case _ => true
  }

  // ---------------------------------------------------------------- scores

  /** Recording a mitigation names every drop it is about to place. */
  lemma MitigationNamesActions(env: Env, spec: Spec, status: Status, ev: W.Score, e: Entry)
    requires LawfulParse(env.parse) && e in W.Actions(env, spec, ev)
    ensures e in Claims(env.parse, W.Mitigate(env, spec, status, ev))
  {
    var next := W.Mitigate(env, spec, status, ev);
    if e.Tunnel? {
      TunnelTextRoundTrip(env.parse, ev.source, ev.teid);
      TunnelClaimOf(env.parse, next.blockedTunnels, FormatTunnel(ev.source, ev.teid));
    } else {
      SourceClaimOf(env.parse, next.blockedIPs, ev.source);
    }
  }

  /** Every drop a score is about to place is named by the status it decided on. */
  lemma DecisionNamesActions(env: Env, policy: Policy, ev: W.Score, killed: bool, e: Entry)
    requires LawfulParse(env.parse) && e in W.Decide(env, policy, ev, killed).actions
    ensures e in Claims(env.parse, W.Decide(env, policy, ev, killed).status)
  {
    MitigationNamesActions(env, policy.spec, policy.status.(observedScore := ev.value), ev, e);
  }

  /** The status write of a score through the current copy: names are only added, and
      a score that may go on has named its drops. */
  lemma CurrentWrite(env: Env, w: World, id: Id, ev: W.Score, o: W.Oracle)
    requires LawfulParse(env.parse) && id in w.store && Inv(env, w)
    ensures var d := W.Decide(env, w.store[id], ev, o.killed);
            var (w', go) := W.WriteStatus(w, id, w.store[id], d.status, o);
            && Inv(env, w') && KeepsNames(env, w, w') && w'.kernel == w.kernel && id in w'.store
            && (w' == w || (w'.rev == w.rev + 1 && w'.store == w.store[id := w'.store[id]] &&
                            w'.store[id].version == w'.rev))
            && (go ==> forall e :: e in d.actions ==> e in Claims(env.parse, w'.store[id].status))
  {
    var policy := w.store[id];
    var d := W.Decide(env, policy, ev, o.killed);
    var (w', go) := W.WriteStatus(w, id, policy, d.status, o);
    DecisionGrows(env, policy, ev, o.killed);
    if w' != w { GrownKeepsNames(env, w, id, w'); }
    InvKept(env, w, id, w');
    if W.Throttled(policy.status, d.status, o.allowed) { ThrottledKeepsLists(env, policy, ev, o.killed, o.allowed); }
    if go {
      forall e | e in d.actions ensures e in Claims(env.parse, w'.store[id].status) {
        DecisionNamesActions(env, policy, ev, o.killed, e);
      }
    }
  }

  lemma MoreKernelNamed(env: Env, w: World, kernel: set<Entry>)
    requires Inv(env, w) && forall e :: e in kernel && e !in w.kernel ==> Named(env, w.store, e)
    ensures Inv(env, w.(kernel := kernel))
  {
  }

  lemma CurrentApplyKeepsInv(env: Env, w: World, id: Id, ev: W.Score, o: W.Oracle)
    requires LawfulParse(env.parse) && id in w.store && Inv(env, w)
    ensures Inv(env, W.ApplyTo(env, w, id, w.store[id], ev, o).0)
  {
    var d := W.Decide(env, w.store[id], ev, o.killed);
    var (w1, go) := W.WriteStatus(w, id, w.store[id], d.status, o);
    CurrentWrite(env, w, id, ev, o);
    if go {
      BlockAllEffect(env.cap, w1.kernel, d.actions, o.kernelFaults);
      MoreKernelNamed(env, w1, BlockAll(env.cap, w1.kernel, d.actions, o.kernelFaults).0);
    }
  }

  /** A score through an outdated copy changes the kernel only. */
  lemma OutdatedApply(env: Env, w: World, id: Id, copy: Policy, ev: W.Score, o: W.Oracle)
    requires Outdated(w, id, copy)
    ensures W.ApplyTo(env, w, id, copy, ev, o).0 == w.(kernel := w.kernel + Landing(env, w, copy, ev, o))
  {
    var d := W.Decide(env, copy, ev, o.killed);
    OutdatedWrite(w, id, copy, d.status, o);
    BlockAllEffect(env.cap, w.kernel, d.actions, o.kernelFaults);
  }

  /** A score through a copy of any age keeps the invariant if and only if what it
      adds through an outdated one is still named. */
  lemma ScoreExact(env: Env, w: World, id: Id, copy: Policy, ev: W.Score, o: W.Oracle)
    requires LawfulParse(env.parse) && Inv(env, w) && Known(w, id, copy)
    ensures Inv(env, W.ApplyTo(env, w, id, copy, ev, o).0) <==>
            (Outdated(w, id, copy) ==> forall e :: e in Landing(env, w, copy, ev, o) ==> Named(env, w.store, e))
  {
    if Outdated(w, id, copy) {
      OutdatedApply(env, w, id, copy, ev, o);
      var w' := W.ApplyTo(env, w, id, copy, ev, o).0;
      if forall e :: e in Landing(env, w, copy, ev, o) ==> Named(env, w.store, e) {
        MoreKernelNamed(env, w, w'.kernel);
      } else {
        var e :| e in Landing(env, w, copy, ev, o) && !Named(env, w.store, e);
        assert e in w'.kernel;
      }
    } else {
      CurrentApplyKeepsInv(env, w, id, ev, o);
    }
  }

  /** Through the copy the index holds it always does. */
  lemma IndexedScoreIsOrderly(env: Env, w: World, id: Id, ev: W.Score, o: W.Oracle)
    requires Inv(env, w) && id in w.index
    ensures forall e :: e in Landing(env, w, w.index[id], ev, o) ==> Named(env, w.store, e)
  {
    var copy := w.index[id];
    var d := W.Decide(env, copy, ev, o.killed);
    BlockAllEffect(env.cap, w.kernel, d.actions, o.kernelFaults);
    forall e | e in Landing(env, w, copy, ev, o) ensures Named(env, w.store, e) {
      ThrottledIsRepeat(env, copy, ev, o);
      assert Covers(env, w.store, id, copy) && CanDrop(env, copy, ev.source, ev.teid, e);
      assert id in w.store && e in Claims(env.parse, w.store[id].status);
    }
  }

  // ---------------------------------------------------------------- reconciliations

  /** Taking a policy's lists away after releasing all of them leaves every
      remaining drop named by someone else. */
  lemma ReleasedStaysNamed(env: Env, w: World, id: Id, kernel: set<Entry>, store': map<Id, Policy>)
    requires id in w.store && WriteAhead(env, w)
    requires kernel == w.kernel - Elements(Claims(env.parse, w.store[id].status))
    requires forall k :: k in w.store && k != id ==> k in store' && store'[k] == w.store[k]
    ensures forall e :: e in kernel ==> Named(env, store', e)
  {
    forall e | e in kernel ensures Named(env, store', e) {
      var owner :| owner in w.store && e in Claims(env.parse, w.store[owner].status);
      assert owner != id;
    }
  }

  /** What holds of the other policies' copies is not touched. */
  lemma OthersCovered(env: Env, w: World, id: Id, w': World)
    requires LawfulParse(env.parse) && Inv(env, w)
    requires forall k :: k != id ==> Get(w'.store, k) == Get(w.store, k) && Get(w'.index, k) == Get(w.index, k)
    requires id in w'.index ==> id in w'.store && w'.index[id] == w'.store[id]
    ensures forall k :: k in w'.index ==> Covers(env, w'.store, k, w'.index[k])
  {
    forall k | k in w'.index ensures Covers(env, w'.store, k, w'.index[k]) {
      if k == id {
        ListedCovers(env, w'.store, id, w'.index[id]);
      } else {
        assert Get(w'.index, k) == Get(w.index, k) && Get(w'.store, k) == Get(w.store, k);
        assert Covers(env, w.store, k, w.index[k]);
      }
    }
  }

  lemma TryDeEscalateKeepsInv(env: Env, w: World, id: Id, now: int, f: Faults)
    requires LawfulParse(env.parse) && id in w.store && Inv(env, w)
    ensures Inv(env, TryDeEscalate(env, w, id, w.store[id], now, f).0)
  {
    var policy := w.store[id];
    ReleaseEffect(w.kernel, Claims(env.parse, policy.status), f.kernel);
    var (kernel, released) := Release(w.kernel, Claims(env.parse, policy.status), f.kernel);
    var w' := TryDeEscalate(env, w, id, policy, now, f).0;
    if w'.store != w.store {
      ReleasedStaysNamed(env, w, id, kernel, w'.store);
      OthersCovered(env, w, id, w');
    }
  }

  lemma FinalizeKeepsInv(env: Env, w: World, id: Id, f: Faults)
    requires LawfulParse(env.parse) && id in w.store && w.store[id].deleting && Inv(env, w)
    ensures Inv(env, Finalize(env, w, id, w.store[id], f).0)
  {
    var policy := w.store[id];
    ReleaseEffect(w.kernel, Claims(env.parse, policy.status), f.kernel);
    var (kernel, released) := Release(w.kernel, Claims(env.parse, policy.status), f.kernel);
    var w' := Finalize(env, w, id, policy, f).0;
    if w'.store != w.store {
      ReleasedStaysNamed(env, w, id, kernel, w'.store);
      OthersCovered(env, w, id, w');
    }
  }

  lemma CurrentVisitKeepsInv(env: Env, w: World, id: Id, v: Visit)
    requires LawfulParse(env.parse) && v.view == Get(w.store, id) && Inv(env, w)
    ensures Inv(env, Reconcile(env, w, id, v).0)
  {
    if v.view.Some? {
      var policy := v.view.value;
      if policy.deleting {
        FinalizeKeepsInv(env, w, id, v.faults);
      } else {
        PrepareOnly(w, id, policy, v);
        var (w1, prepared) := Prepare(w, id, policy, v);
        SameListsKeepNames(env, w, w1);
        InvKept(env, w, id, w1);
        if prepared.Some? { TryDeEscalateKeepsInv(env, w1, id, v.now, v.faults); }
      }
    }
  }

  lemma OutdatedVisitExact(env: Env, w: World, id: Id, v: Visit)
    requires Inv(env, w) && v.view.Some? && Outdated(w, id, v.view.value)
    ensures Inv(env, Reconcile(env, w, id, v).0) <==> (Indexes(v) ==> Covers(env, w.store, id, v.view.value))
  {
    OutdatedVisit(env, w, id, v);
    var w' := Reconcile(env, w, id, v).0;
    if Indexes(v) {
      assert id in w'.index && w'.index[id] == v.view.value;
      if Covers(env, w.store, id, v.view.value) {
        forall k | k in w'.index ensures Covers(env, w'.store, k, w'.index[k]) {
          if k != id { assert k in w.index && w'.index[k] == w.index[k]; }
        }
      }
    }
  }

  /** A visit through a view of any age keeps the invariant if and only if it indexes
      no copy that could place a drop its policy has stopped claiming. */
  lemma VisitExact(env: Env, w: World, id: Id, v: Visit)
    requires LawfulParse(env.parse) && Inv(env, w) && (v.view.Some? ==> Known(w, id, v.view.value))
    ensures Inv(env, Reconcile(env, w, id, v).0) <==> (Indexes(v) ==> Covers(env, w.store, id, v.view.value))
  {
    if v.view.Some? && Outdated(w, id, v.view.value) {
      OutdatedVisitExact(env, w, id, v);
    } else if v.view.Some? {
      CurrentVisitKeepsInv(env, w, id, v);
      ListedCovers(env, w.store, id, v.view.value);
    }
  }

  // ---------------------------------------------------------------- the other steps

  /** A pass over a list of any age keeps the invariant if and only if everything it
      adds is still named. */
  lemma PassExact(env: Env, s: System, step: Step, s': System)
    requires Inv(env, s.world) && step.Pass? && Next(env, s, step, s')
    ensures Inv(env, s'.world) <==> forall e :: e in step.added ==> Named(env, s.world.store, e)
  {
    if Inv(env, s'.world) {
      forall e | e in step.added ensures Named(env, s.world.store, e) {
        assert e in step.desired && e !in s.world.kernel;
        assert e in s'.world.kernel;
      }
    }
  }

  lemma WarmExact(env: Env, w: World, list: map<Id, Policy>)
    requires Inv(env, w)
    ensures Inv(env, Warmed(w, list)) <==>
            forall id :: id in list && !list[id].deleting ==> Covers(env, w.store, id, list[id])
  {
    var w' := Warmed(w, list);
    if Inv(env, w') {
      forall id | id in list && !list[id].deleting ensures Covers(env, w.store, id, list[id]) {
        assert id in w'.index && w'.index[id] == list[id];
      }
    }
  }

  lemma NamedByOthers(env: Env, w: World, id: Id, e: Entry)
    requires id in w.store && WriteAhead(env, w) && e in w.kernel && e !in Claims(env.parse, w.store[id].status)
    ensures Named(env, w.store - {id}, e)
  {
    var owner :| owner in w.store && e in Claims(env.parse, w.store[owner].status);
    assert owner in w.store - {id} && (w.store - {id})[owner] == w.store[owner];
  }

  /** Without its policy a copy is covered exactly if it is inert. */
  lemma GoneCoversExact(env: Env, store: map<Id, Policy>, id: Id, copy: Policy)
    requires id !in store
    ensures Covers(env, store, id, copy) <==> Inert(env, copy)
  {
  }

  lemma VanishExact(env: Env, w: World, id: Id, w': World)
    requires Inv(env, w) && id in w.store && w' == w.(store := w.store - {id}, rev := w'.rev)
    ensures Inv(env, w') <==>
            && (id in w.index ==> Inert(env, w.index[id]))
            && forall e :: e in w.kernel && e in Claims(env.parse, w.store[id].status) ==> Named(env, w'.store, e)
  {
    forall k | k in w.index ensures k != id ==> Covers(env, w'.store, k, w.index[k]) {
      assert Covers(env, w.store, k, w.index[k]);
      if k != id { assert Get(w'.store, k) == Get(w.store, k); }
    }
    if id in w.index { GoneCoversExact(env, w'.store, id, w.index[id]); }
    forall e | e in w.kernel && e !in Claims(env.parse, w.store[id].status) ensures Named(env, w'.store, e) {
      NamedByOthers(env, w, id, e);
    }
  }

  /** Deleting a policy keeps the invariant if and only if it is safe to delete. */
  lemma DeleteExact(env: Env, w: World, id: Id)
    requires LawfulParse(env.parse) && Inv(env, w) && id in w.store
    ensures Inv(env, Deleted(w, id)) <==> SafeToDelete(env, w, id)
  {
    var w' := Deleted(w, id);
    if w.store[id].finalizer {
      SameListsKeepNames(env, w, w');
      InvKept(env, w, id, w');
    } else {
      VanishExact(env, w, id, w');
    }
  }

  lemma UserStepKeepsInv(env: Env, s: System, id: Id, s': System)
    requires LawfulParse(env.parse) && Inv(env, s.world) && s'.world.kernel == s.world.kernel
    requires s'.world.index == s.world.index
    requires forall k :: k in s.world.store ==>
               k in s'.world.store && SameLists(s'.world.store[k].status, s.world.store[k].status)
    ensures Inv(env, s'.world)
  {
    SameListsKeepNames(env, s.world, s'.world);
    InvKept(env, s.world, id, s'.world);
  }

  /** Exactly when a step keeps the invariant, whatever the age of what it reads. */
  lemma StepExact(env: Env, s: System, step: Step, s': System)
    requires LawfulParse(env.parse) && Inv(env, s.world) && Next(env, s, step, s') && ReadsKnown(s.world, step)
    ensures Inv(env, s'.world) <==> Orderly(env, s, step)
  {
    match step
    case ApplyScore(id, copy, ev, o) => ScoreExact(env, s.world, id, copy, ev, o);
    case Visiting(id, visit) => VisitExact(env, s.world, id, visit);
    case Pass(_, _, _, _) => PassExact(env, s, step, s');
    case FailedPass =>
    case KernelLost =>
    case Restart =>
    case WarmIndex(list) => WarmExact(env, s.world, list);
    case Create(id, _) => UserStepKeepsInv(env, s, id, s');
    case Edit(id, _) => UserStepKeepsInv(env, s, id, s');
    case Delete(id) => DeleteExact(env, s.world, id);
  }

  // ---------------------------------------------------------------- runs

  /** In a run the guards are exact: a step breaks the invariant if and only if it
      is not orderly. */
  lemma RunStepExact(env: Env, states: seq<System>, steps: seq<Step>, i: nat)
    requires LawfulParse(env.parse) && Run(env, states, steps) && i < |steps| && Inv(env, states[i].world)
    ensures Inv(env, states[i + 1].world) <==> Orderly(env, states[i], steps[i])
  {
    assert StepAt(env, states, steps, i);
    RunReadsKnown(env, states, steps, i);
    StepExact(env, states[i], steps[i], states[i + 1]);
  }

  /** Write-ahead over every run of orderly steps: at every point, every drop in the
      kernel is named in some persisted policy status. */
  lemma {:induction false} WriteAheadAlways(env: Env, states: seq<System>, steps: seq<Step>, i: nat)
    requires LawfulParse(env.parse) && Run(env, states, steps) && i < |states|
    requires forall k :: 0 <= k < i ==> Orderly(env, states[k], steps[k])
    ensures Inv(env, states[i].world)
  {
    if i > 0 {
      WriteAheadAlways(env, states, steps, i - 1);
      RunStepExact(env, states, steps, i - 1);
    }
  }

  /** On a current list everything a pass adds is named. */
  lemma CurrentPassIsOrderly(env: Env, s: System, step: Step, s': System)
    requires step.Pass? && Next(env, s, step, s') && step.list == s.world.store
    ensures Orderly(env, s, step)
  {
    forall e | e in step.added ensures Named(env, s.world.store, e) {
      assert e in step.desired;
    }
  }

  /** With current reads only deletions can be disorderly. */
  lemma CurrentReadsAreOrderly(env: Env, s: System, step: Step, s': System)
    requires LawfulParse(env.parse) && Inv(env, s.world) && Next(env, s, step, s')
    requires ReadsFrom(s.world, step) && !step.Delete?
    ensures Orderly(env, s, step)
  {
    match step
    case ApplyScore(id, _, ev, o) => IndexedScoreIsOrderly(env, s.world, id, ev, o);
    case Visiting(id, visit) => if Indexes(visit) { ListedCovers(env, s.world.store, id, visit.view.value); }
    case Pass(_, _, _, _) => CurrentPassIsOrderly(env, s, step, s');
    case WarmIndex(list) =>
      forall id | id in list ensures Covers(env, s.world.store, id, list[id]) {
        ListedCovers(env, s.world.store, id, list[id]);
      }
    case _ =>
  }

  /** So with current reads, safe deletions are all it takes. */
  lemma {:induction false} WriteAheadWhenCurrent(env: Env, states: seq<System>, steps: seq<Step>, i: nat)
    requires LawfulParse(env.parse) && Run(env, states, steps) && AllCurrent(states, steps) && i < |states|
    requires forall k :: 0 <= k < i && steps[k].Delete? ==> Orderly(env, states[k], steps[k])
    ensures Inv(env, states[i].world)
  {
    if i > 0 {
      WriteAheadWhenCurrent(env, states, steps, i - 1);
      assert StepAt(env, states, steps, i - 1);
      if !steps[i - 1].Delete? { CurrentReadsAreOrderly(env, states[i - 1], steps[i - 1], states[i]); }
      RunStepExact(env, states, steps, i - 1);
    }
  }

  /** From any state, one error-free pass over a current list makes the kernel hold
      every claim of every policy that is not being deleted, including entries that
      another policy's release had taken out. */
  lemma ErrorFreePassRestores(env: Env, s: System, step: Step, s': System, e: Entry)
    requires step.Pass? && Next(env, s, step, s') && step.list == s.world.store
    requires ErrorFree(step.desired, s.unclaimed, step.faults, s.world.kernel, step.added)
    ensures DesiredIn(env, s.world.store, e) ==> e in s'.world.kernel
  {
    ErrorFreePassHoldsDesired(env.cap, step.desired, s.unclaimed, step.faults, s.world.kernel, step.added,
      s'.world.kernel);
  }

  /** And after an orderly run nothing that no status names. */
  lemma CurrentPassNamed(env: Env, states: seq<System>, steps: seq<Step>, i: nat, step: Step, s': System, e: Entry)
    requires LawfulParse(env.parse) && Run(env, states, steps) && i < |states|
    requires forall k :: 0 <= k < i ==> Orderly(env, states[k], steps[k])
    requires step.Pass? && Next(env, states[i], step, s') && step.list == states[i].world.store
    ensures e in s'.world.kernel ==> Named(env, s'.world.store, e)
  {
    WriteAheadAlways(env, states, steps, i);
    CurrentPassIsOrderly(env, states[i], step, s');
    PassExact(env, states[i], step, s');
  }
}
