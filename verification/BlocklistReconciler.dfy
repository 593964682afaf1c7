/** pkg/controller/blocklist_reconciler.go: Sync drives the kernel maps towards
    the union of every policy's status. It adds at once and removes only what
    the previous completed pass already found unclaimed. */
module BlocklistReconciler {
  import opened Prelude
  import opened TunnelText
  import opened Enforcement
  import opened Policies

  /** The kernel maps with the loader's two operations. `fault` injects any
      error of the map write itself. */
  class KernelMaps {
    var entries: set<Entry>
    const cap: MapName -> nat

    constructor (cap: MapName -> nat)
      ensures entries == {} && this.cap == cap
    {
      entries := {};
      this.cap := cap;
    }

    method Block(e: Entry, fault: bool) returns (ok: bool)
      modifies this
      ensures ok <==> !fault && Accepts(old(entries), cap, e)
      ensures entries == if ok then old(entries) + {e} else old(entries)
    {
      ok := !fault && Accepts(entries, cap, e);
      if ok { entries := entries + {e}; }
    }

    method Unblock(e: Entry, fault: bool) returns (ok: bool)
      modifies this
      ensures ok <==> !fault && Enforceable(e)
      ensures entries == if ok then old(entries) - {e} else old(entries)
    {
      ok := !fault && Enforceable(e);
      if ok { entries := entries - {e}; }
    }
  }

  // ---------------------------------------------------------------- desired state

  /** An entry some policy that is not being deleted asks for. */
  ghost predicate Desires(parse: string -> Option<Addr>, policies: seq<Policy>, e: Entry) {
    Enforceable(e) &&
    exists p :: p in policies && !p.deleting && e in Claims(parse, p.status)
  }

  /** desiredEnforcement, with the two result maps as one set of entries. */
  method DesiredEnforcement(parse: string -> Option<Addr>, policies: seq<Policy>) returns (desired: set<Entry>)
    ensures forall e :: e in desired <==> Desires(parse, policies, e)
  {
    desired := {};
    for i := 0 to |policies|
      invariant forall e :: e in desired <==> Desires(parse, policies[..i], e)
    {
      var policy := policies[i];
      ghost var before := desired;
      if !policy.deleting {
        var claims := Claims(parse, policy.status);
        desired := desired + (set e | e in claims && Enforceable(e));
      }
      assert policies[..i + 1] == policies[..i] + [policy];
      forall e ensures e in desired <==> Desires(parse, policies[..i + 1], e) {
        if Desires(parse, policies[..i + 1], e) {
          var p :| p in policies[..i + 1] && !p.deleting && e in Claims(parse, p.status);
          assert p in policies[..i] || p == policy;
        }
        if e in before {
          var p :| p in policies[..i] && !p.deleting && e in Claims(parse, p.status);
          assert p in policies[..i + 1];
        } else if e in desired {
          assert policy in policies[..i + 1];
        }
      }
    }
    assert policies[..|policies|] == policies;
  }

  // ---------------------------------------------------------------- one pass

  function Missing(desired: set<Entry>, before: set<Entry>): set<Entry> {
    desired - before
  }

  /** What the two-pass rule lets this pass take out of the kernel. */
  function Expired(desired: set<Entry>, before: set<Entry>, unclaimed: set<Entry>): set<Entry> {
    (before - desired) * unclaimed
  }

  function Removable(entries: set<Entry>, faults: set<Entry>): set<Entry> {
    set e | e in entries && e !in faults && Enforceable(e)
  }

  /** The outcome of one pass over a kernel holding `before`, in any order of
      keys: `added` went in without overfilling a map, everything else missing
      either failed or found its map full, and exactly the expired entries
      left. */
  ghost predicate SyncPass(cap: MapName -> nat, desired: set<Entry>, unclaimed: set<Entry>, faults: set<Entry>,
                           before: set<Entry>, added: set<Entry>, after: set<Entry>) {
    && added <= Missing(desired, before) - faults
    && AllWithin(before + added, cap, added)
    && AllFull(before + added, cap, Missing(desired, before) - faults - added)
    && after == before + added - Removable(Expired(desired, before, unclaimed), faults)
  }

  /** Every correction the pass attempted went through. */
  ghost predicate ErrorFree(desired: set<Entry>, unclaimed: set<Entry>, faults: set<Entry>,
                            before: set<Entry>, added: set<Entry>) {
    && added == Missing(desired, before)
    && Removable(Expired(desired, before, unclaimed), faults) == Expired(desired, before, unclaimed)
  }

  datatype DriftReport = DriftReport(missing: nat, extra: nat, pending: nat)

  class Reconciler {
    var unclaimed: set<Entry>

    constructor ()
      ensures unclaimed == {}
    {
      unclaimed := {};
    }

    /** One addition. `added` went in so far, and `refused` found its map full. */
    method TryAdd(kernel: KernelMaps, e: Entry, fault: bool, ghost added: set<Entry>, ghost refused: set<Entry>)
      returns (ok: bool)
      requires Enforceable(e) && e !in kernel.entries
      requires AllWithin(kernel.entries, kernel.cap, added) && AllFull(kernel.entries, kernel.cap, refused)
      modifies kernel
      ensures (ok ==> !fault) && kernel.entries == old(kernel.entries) + (if ok then {e} else {})
      ensures AllWithin(kernel.entries, kernel.cap, if ok then added + {e} else added)
      ensures AllFull(kernel.entries, kernel.cap, if ok || fault then refused else refused + {e})
    {
      ghost var was := kernel.entries;
      ok := kernel.Block(e, fault);
      AllFullGrows(was, kernel.entries, kernel.cap, refused);
      if ok { AllWithinInsert(was, kernel.cap, added, e); }
    }

    /** The two addition loops. */
    method AddMissing(kernel: KernelMaps, missing: set<Entry>, faults: set<Entry>) returns (added: set<Entry>)
      requires forall e :: e in missing ==> Enforceable(e)
      requires missing !! kernel.entries
      modifies kernel
      ensures added <= missing - faults
      ensures kernel.entries == old(kernel.entries) + added
      ensures AllWithin(kernel.entries, kernel.cap, added)
      ensures AllFull(kernel.entries, kernel.cap, missing - faults - added)
    {
      added := {};
      var todo := missing;
      while todo != {}
        invariant todo <= missing && added <= missing - faults - todo
        invariant kernel.entries == old(kernel.entries) + added
        invariant AllWithin(kernel.entries, kernel.cap, added)
        invariant AllFull(kernel.entries, kernel.cap, missing - faults - added - todo)
        decreases todo
      {
        var e :| e in todo;
        ghost var refused := missing - faults - added - todo;
        var ok := TryAdd(kernel, e, e in faults, added, refused);
        todo := todo - {e};
        if ok { added := added + {e}; }
        assert missing - faults - added - todo == if ok || e in faults then refused else refused + {e};
      }
      assert missing - faults - added - todo == missing - faults - added;
    }

    /** The two removal loops over keys present and not desired: a key unclaimed
        for the first time is left alone. */
    method RemoveExpired(kernel: KernelMaps, extras: set<Entry>, faults: set<Entry>)
      returns (removed: set<Entry>)
      modifies kernel
      ensures removed == Removable(extras * unclaimed, faults)
      ensures kernel.entries == old(kernel.entries) - removed
    {
      removed := {};
      var todo := extras;
      while todo != {}
        invariant todo <= extras
        invariant removed == Removable((extras - todo) * unclaimed, faults)
        invariant kernel.entries == old(kernel.entries) - removed
        decreases todo
      {
        var e :| e in todo;
        todo := todo - {e};
        if e in unclaimed {
          var ok := kernel.Unblock(e, e in faults);
          if ok { removed := removed + {e}; }
        }
      }
      assert extras - todo == extras;
    }

    /** One comparison and correction pass. A failed list or a failed map read
        changes nothing, not even the two-pass memory. */
    method Sync(parse: string -> Option<Addr>, kernel: KernelMaps,
                listed: Option<seq<Policy>>, readFails: bool, faults: set<Entry>)
      returns (report: DriftReport, failed: bool, ghost desired: set<Entry>, ghost added: set<Entry>)
      modifies this, kernel
      ensures listed.None? || readFails ==>
                failed && kernel.entries == old(kernel.entries) && unclaimed == old(unclaimed)
      ensures listed.Some? && !readFails ==>
                && (forall e :: e in desired <==> Desires(parse, listed.value, e))
                && SyncPass(kernel.cap, desired, old(unclaimed), faults, old(kernel.entries), added, kernel.entries)
                && unclaimed == old(kernel.entries) - desired
                && (!failed <==> ErrorFree(desired, old(unclaimed), faults, old(kernel.entries), added))
                && report == Drift(desired, old(kernel.entries), old(unclaimed))
    {
      report, failed, desired, added := DriftReport(0, 0, 0), true, {}, {};
      if listed.None? || readFails { return; }
      var wanted := DesiredEnforcement(parse, listed.value);
      var actual := kernel.entries;
      var missing, extras := wanted - actual, actual - wanted;

      var addedIPs := AddMissing(kernel, Sources(missing), faults);
      ghost var s1 := kernel.entries;
      var removedIPs := RemoveExpired(kernel, Sources(extras), faults);
      ghost var s2 := kernel.entries;
      var addedTunnels := AddMissing(kernel, Tunnels(missing), faults);
      ghost var s3 := kernel.entries;
      var removedTunnels := RemoveExpired(kernel, Tunnels(extras), faults);

      PassFromPhases(kernel.cap, wanted, unclaimed, faults, actual, addedIPs, addedTunnels, s1, s2, s3, kernel.entries);
      desired, added := wanted, addedIPs + addedTunnels;
      report := Drift(wanted, actual, unclaimed);
      failed := addedIPs + addedTunnels != missing || removedIPs + removedTunnels != extras * unclaimed;
      unclaimed := extras;
    }
  }

  /** The counters of one pass: what was missing, what was removed as expired,
      and what was unclaimed for the first time. */
  function Drift(desired: set<Entry>, before: set<Entry>, unclaimed: set<Entry>): DriftReport {
    DriftReport(|Missing(desired, before)|, |Expired(desired, before, unclaimed)|, |before - desired - unclaimed|)
  }

  function Sources(entries: set<Entry>): set<Entry> { set e | e in entries && e.Source? }

  function Tunnels(entries: set<Entry>): set<Entry> { set e | e in entries && e.Tunnel? }

  ghost predicate AllFull(kernel: set<Entry>, cap: MapName -> nat, refused: set<Entry>) {
    forall e :: e in refused ==> |Within(kernel, MapOf(e))| >= cap(MapOf(e))
  }

  lemma AllFullGrows(small: set<Entry>, big: set<Entry>, cap: MapName -> nat, refused: set<Entry>)
    requires small <= big && AllFull(small, cap, refused)
    ensures AllFull(big, cap, refused)
  {
    forall e | e in refused ensures |Within(big, MapOf(e))| >= cap(MapOf(e)) {
      SubsetSize(Within(small, MapOf(e)), Within(big, MapOf(e)));
    }
  }

  ghost predicate AllWithin(kernel: set<Entry>, cap: MapName -> nat, added: set<Entry>) {
    forall e :: e in added ==> |Within(kernel, MapOf(e))| <= cap(MapOf(e))
  }

  lemma AllWithinInsert(kernel: set<Entry>, cap: MapName -> nat, added: set<Entry>, e: Entry)
    requires AllWithin(kernel, cap, added) && Accepts(kernel, cap, e) && e !in kernel
    ensures AllWithin(kernel + {e}, cap, added + {e})
  {
    forall x | x in added + {e} ensures |Within(kernel + {e}, MapOf(x))| <= cap(MapOf(x)) {
      if MapOf(x) == MapOf(e) {
        assert Within(kernel + {e}, MapOf(x)) == Within(kernel, MapOf(e)) + {e};
      } else {
        assert Within(kernel + {e}, MapOf(x)) == Within(kernel, MapOf(x));
      }
    }
  }

  /** No pass ever pushes a map past its capacity. */
  lemma PassKeepsCapacity(cap: MapName -> nat, desired: set<Entry>, unclaimed: set<Entry>, faults: set<Entry>,
                          before: set<Entry>, added: set<Entry>, after: set<Entry>)
    requires SyncPass(cap, desired, unclaimed, faults, before, added, after) && Fits(before, cap)
    ensures Fits(after, cap)
  {
    forall m ensures |Within(before + added, m)| <= cap(m) {
      if e :| e in added && MapOf(e) == m {
      } else {
        assert Within(before + added, m) == Within(before, m);
      }
    }
    SubsetFits(after, before + added, cap);
  }

  /** The address maps and the tunnel maps are disjoint, so the four phases
      compose into one pass over all of them. */
  lemma PassFromPhases(cap: MapName -> nat, desired: set<Entry>, unclaimed: set<Entry>, faults: set<Entry>,
                       actual: set<Entry>, addedIPs: set<Entry>, addedTunnels: set<Entry>,
                       s1: set<Entry>, s2: set<Entry>, s3: set<Entry>, s4: set<Entry>)
    requires addedIPs <= Sources(desired - actual) - faults
    requires addedTunnels <= Tunnels(desired - actual) - faults
    requires s1 == actual + addedIPs
    requires s2 == s1 - Removable(Sources(actual - desired) * unclaimed, faults)
    requires s3 == s2 + addedTunnels
    requires s4 == s3 - Removable(Tunnels(actual - desired) * unclaimed, faults)
    requires AllWithin(s1, cap, addedIPs) && AllWithin(s3, cap, addedTunnels)
    requires AllFull(s1, cap, Sources(desired - actual) - faults - addedIPs)
    requires AllFull(s3, cap, Tunnels(desired - actual) - faults - addedTunnels)
    ensures SyncPass(cap, desired, unclaimed, faults, actual, addedIPs + addedTunnels, s4)
    ensures Removable(Expired(desired, actual, unclaimed), faults) ==
            Removable(Sources(actual - desired) * unclaimed, faults) +
            Removable(Tunnels(actual - desired) * unclaimed, faults)
  {
    var added := addedIPs + addedTunnels;
    forall e ensures Within(actual + added, MapOf(e)) == Within(if e.Source? then s1 else s3, MapOf(e)) {
      if e.Source? {
        assert Within(actual + added, MapOf(e)) == Within(s1, MapOf(e));
      } else {
        assert Within(actual + added, MapOf(e)) == Within(s3, MapOf(e));
      }
    }
  }

  // ---------------------------------------------------------------- convergence

  /** Once every missing insert was accepted, the kernel holds all that is
      desired, whatever other writers had taken out. */
  lemma ErrorFreePassHoldsDesired(cap: MapName -> nat, desired: set<Entry>, unclaimed: set<Entry>, faults: set<Entry>,
                                  before: set<Entry>, added: set<Entry>, after: set<Entry>)
    requires SyncPass(cap, desired, unclaimed, faults, before, added, after)
    requires ErrorFree(desired, unclaimed, faults, before, added)
    ensures desired <= after
  {
  }

  /** What success means: a pass reports no error exactly if the kernel ends with all
      that is desired and, of the rest, with what was claimed until now. In
      particular no expired entry is left behind. */
  lemma ErrorFreeExact(cap: MapName -> nat, desired: set<Entry>, unclaimed: set<Entry>, faults: set<Entry>,
                       before: set<Entry>, added: set<Entry>, after: set<Entry>)
    requires SyncPass(cap, desired, unclaimed, faults, before, added, after)
    ensures ErrorFree(desired, unclaimed, faults, before, added) <==> after == desired + (before - unclaimed)
  {
    if after == desired + (before - unclaimed) {
      assert forall e :: e in Missing(desired, before) ==> e in after;
      assert added == Missing(desired, before);
      assert forall e :: e in Expired(desired, before, unclaimed) ==> e !in after;
    }
  }

  lemma KernelBalances<T>(desired: set<T>, before: set<T>, unclaimed: set<T>, after: set<T>)
    requires after == desired + (before - unclaimed)
    ensures |after| == |before| + |desired - before| - |(before - desired) * unclaimed|
  {
    var missing, expired := desired - before, (before - desired) * unclaimed;
    assert before + missing == after + expired;
    assert |before + missing| == |before| + |missing| && |after + expired| == |after| + |expired|;
  }

  lemma NextDrift<T>(desired: set<T>, before: set<T>, unclaimed: set<T>, after: set<T>)
    requires after == desired + (before - unclaimed)
    ensures desired - after == {} && (after - desired) * (before - desired) == before - desired - unclaimed
    ensures after - desired - (before - desired) == {}
  {
  }

  lemma NoDrift<T>(desired: set<T>, before: set<T>, unclaimed: set<T>)
    ensures before == desired <==>
            |desired - before| == 0 && |(before - desired) * unclaimed| == 0 && |before - desired - unclaimed| == 0
  {
    assert before - desired == (before - desired) * unclaimed + (before - desired - unclaimed);
  }

  /** The counters of a pass without errors balance: the kernel grows by what was
      missing and shrinks by what was extra; if no policy changes meanwhile, what was
      pending is the next pass's extra; and all three are zero exactly if the
      kernel was as desired. */
  lemma DriftBalances(cap: MapName -> nat, desired: set<Entry>, unclaimed: set<Entry>, faults: set<Entry>,
                      before: set<Entry>, added: set<Entry>, after: set<Entry>)
    requires SyncPass(cap, desired, unclaimed, faults, before, added, after)
    requires ErrorFree(desired, unclaimed, faults, before, added)
    ensures var report := Drift(desired, before, unclaimed);
            && |after| == |before| + report.missing - report.extra
            && Drift(desired, after, before - desired) == DriftReport(0, report.pending, 0)
            && (report == DriftReport(0, 0, 0) <==> before == desired)
  {
    ErrorFreeExact(cap, desired, unclaimed, faults, before, added, after);
    KernelBalances(desired, before, unclaimed, after);
    NextDrift(desired, before, unclaimed, after);
    NoDrift(desired, before, unclaimed);
  }

  /** A fault-free pass over a kernel that holds only desired entries fills it
      up, provided the desired set fits. */
  lemma FillPass(cap: MapName -> nat, desired: set<Entry>, unclaimed: set<Entry>,
                 before: set<Entry>, added: set<Entry>, after: set<Entry>)
    requires SyncPass(cap, desired, unclaimed, {}, before, added, after)
    requires before <= desired && Fits(desired, cap)
    ensures after == desired
  {
    forall e | e in Missing(desired, before) ensures e in added {
      if e !in added {
        RoomFor(cap, desired, before + added, e);
        assert false;
      }
    }
    assert added == Missing(desired, before);
    assert Removable(Expired(desired, before, unclaimed), {}) == {};
  }

  /** A desired entry that is missing always has room, provided the desired set
      fits. */
  lemma RoomFor(cap: MapName -> nat, desired: set<Entry>, held: set<Entry>, e: Entry)
    requires Fits(desired, cap) && held <= desired && e in desired && e !in held
    ensures |Within(held, MapOf(e))| < cap(MapOf(e))
  {
    var mine := Within(held, MapOf(e));
    assert mine + {e} <= Within(desired, MapOf(e));
    SubsetSize(mine + {e}, Within(desired, MapOf(e)));
  }

  /** Two fault-free passes clear everything no policy claims. */
  lemma TwoPassesClear(cap: MapName -> nat, desired: set<Entry>, u0: set<Entry>,
                       k0: set<Entry>, a1: set<Entry>, k1: set<Entry>, a2: set<Entry>, k2: set<Entry>)
    requires forall e :: e in k0 ==> Enforceable(e)
    requires SyncPass(cap, desired, u0, {}, k0, a1, k1)
    requires SyncPass(cap, desired, k0 - desired, {}, k1, a2, k2)
    ensures k2 <= desired
  {
  }

  /** From any kernel contents and any two-pass memory, with a stable desired
      set and full maps as the only failure, the kernel equals the desired set
      after three passes if and only if the desired set fits its maps, and after
      two exactly when, besides, the second pass had no insert refused. */
  lemma ConvergesInThreePasses(cap: MapName -> nat, desired: set<Entry>, u0: set<Entry>, k0: set<Entry>,
                               a1: set<Entry>, k1: set<Entry>, a2: set<Entry>, k2: set<Entry>,
                               a3: set<Entry>, k3: set<Entry>)
    requires forall e :: e in k0 ==> Enforceable(e)
    requires Fits(k0, cap)
    requires SyncPass(cap, desired, u0, {}, k0, a1, k1)
    requires SyncPass(cap, desired, k0 - desired, {}, k1, a2, k2)
    requires SyncPass(cap, desired, k1 - desired, {}, k2, a3, k3)
    ensures k3 == desired <==> Fits(desired, cap)
    ensures k2 == desired <==> a2 == Missing(desired, k1)
    ensures a1 == Missing(desired, k0) ==> k2 == desired
  {
    TwoPassesClear(cap, desired, u0, k0, a1, k1, a2, k2);
    PassKeepsCapacity(cap, desired, u0, {}, k0, a1, k1);
    PassKeepsCapacity(cap, desired, k0 - desired, {}, k1, a2, k2);
    PassKeepsCapacity(cap, desired, k1 - desired, {}, k2, a3, k3);
    if Fits(desired, cap) {
      FillPass(cap, desired, k1 - desired, k2, a3, k3);
    }
  }

  /** A settled kernel stays settled. */
  lemma SettledStaysSettled(cap: MapName -> nat, desired: set<Entry>, unclaimed: set<Entry>, faults: set<Entry>,
                            added: set<Entry>, after: set<Entry>)
    requires SyncPass(cap, desired, unclaimed, faults, desired, added, after)
    ensures after == desired
  {
    assert Expired(desired, desired, unclaimed) == {};
  }

  lemma OneSlotRefuses(cap: MapName -> nat, stale: Entry, wanted: Entry, added: set<Entry>)
    requires stale != wanted && MapOf(stale) == MapOf(wanted) && cap(MapOf(wanted)) == 1
    requires added <= {wanted} && AllWithin({stale} + added, cap, added)
    ensures added == {}
  {
    assert Within({stale} + {wanted}, MapOf(wanted)) == {stale, wanted};
    assert added == {} || added == {wanted};
  }

  /** Three passes are needed: with one slot held by an unclaimed entry the
      desired one is refused twice, and after two passes the map is empty. */
  lemma ThreePassesNeeded(cap: MapName -> nat, stale: Entry, wanted: Entry,
                          a1: set<Entry>, k1: set<Entry>, a2: set<Entry>, k2: set<Entry>)
    requires stale != wanted && MapOf(stale) == MapOf(wanted) && cap(MapOf(wanted)) == 1
    requires Enforceable(stale) && Enforceable(wanted)
    requires SyncPass(cap, {wanted}, {}, {}, {stale}, a1, k1)
    requires SyncPass(cap, {wanted}, {stale}, {}, k1, a2, k2)
    ensures k1 == {stale} && k2 == {}
  {
    assert Removable(Expired({wanted}, {stale}, {}), {}) == {};
    OneSlotRefuses(cap, stale, wanted, a1);
    OneSlotRefuses(cap, stale, wanted, a2);
    assert Removable(Expired({wanted}, {stale}, {}), {}) == {};
    assert Removable(Expired({wanted}, {stale}, {stale}), {}) == {stale};
  }
}
