/** The two-pass rule under interference. A blocklist pass is cut into its
    atomic reads and corrections (blocklist_reconciler.go, Sync), and between
    any two of them the rest of the system may change the statuses and the
    kernel in any way. The policy list may be stale.

    States are numbered from 0 along a run, and the number is the time. */
module TwoPass {
  import opened Enforcement
  import BR = BlocklistReconciler

  datatype Pass =
    | Idle
    | Listed(desired: set<Entry>, listTime: nat)
    | HalfRead(desired: set<Entry>, listTime: nat, actualIPs: set<Entry>, ipsRead: nat)
    | Correcting(desired: set<Entry>, listTime: nat, actual: set<Entry>, ipsRead: nat, tunnelsRead: nat)

  /** `claims` is what all policies not being deleted claim together. The last
      two fields are when the previous completed pass read the kernel. */
  datatype State = State(claims: set<Entry>, kernel: set<Entry>, unclaimed: set<Entry>,
                         pass: Pass, ipsBefore: nat, tunnelsBefore: nat)

  datatype Step =
    | Outside            // claims, blocks, releases, deletions, kernel resets
    | List(time: nat)    // the list shows the claims of that time
    | ReadIPs
    | ReadTunnels
    | Add(e: Entry)
    | Drop(e: Entry)
    | Commit
    | Abort
    | Restart

  /** When the previous completed pass read the map `e` belongs to. */
  function ReadBefore(s: State, e: Entry): nat {
    if e.Source? then s.ipsBefore else s.tunnelsBefore
  }

  ghost predicate Next(run: seq<State>, i: nat, step: Step)
    requires i + 1 < |run|
  {
    var s, s' := run[i], run[i + 1];
    match step
    case Outside => s' == s.(claims := s'.claims, kernel := s'.kernel)
    case List(t) => s.pass.Idle? && t <= i && s' == s.(pass := Listed(run[t].claims, t))
    case ReadIPs =>
      s.pass.Listed? && s' == s.(pass := HalfRead(s.pass.desired, s.pass.listTime, BR.Sources(s.kernel), i))
    case ReadTunnels =>
      s.pass.HalfRead? &&
      s' == s.(pass := Correcting(s.pass.desired, s.pass.listTime, s.pass.actualIPs +
        BR.Tunnels(s.kernel), s.pass.ipsRead, i))
    case Add(e) =>
      s.pass.Correcting? && e in BR.Missing(s.pass.desired, s.pass.actual) && s' == s.(kernel := s.kernel + {e})
    case Drop(e) =>
      s.pass.Correcting? && e in BR.Expired(s.pass.desired, s.pass.actual, s.unclaimed)
        && s' == s.(kernel := s.kernel - {e})
    case Commit =>
      s.pass.Correcting? &&
      s' == s.(unclaimed := s.pass.actual - s.pass.desired, pass := Idle,
               ipsBefore := s.pass.ipsRead, tunnelsBefore := s.pass.tunnelsRead)
    case Abort => (s.pass.Listed? || s.pass.HalfRead?) && s' == s.(pass := Idle)
    case Restart => s' == s.(unclaimed := {}, pass := Idle)
  }

  /** The list of a pass is no older than the previous completed pass's reads. */
  ghost predicate FreshList(run: seq<State>, i: nat, step: Step)
    requires i < |run|
  {
    step.List? ==> run[i].ipsBefore <= step.time && run[i].tunnelsBefore <= step.time
  }

  /** A run that starts idle with nothing remembered. */
  ghost predicate Run(run: seq<State>, steps: seq<Step>) {
    && |run| == |steps| + 1
    && run[0] == State(run[0].claims, run[0].kernel, {}, Idle, 0, 0)
    && forall i :: 0 <= i < |steps| ==> Next(run, i, steps[i])
  }

  /** What the reconciler believes is what was so when it looked. */
  ghost predicate Inv(run: seq<State>, i: nat)
    requires i < |run|
  {
    var s := run[i];
    && (forall e :: e in s.unclaimed ==> ReadBefore(s, e) <= i && e in run[ReadBefore(s, e)].kernel)
    && (!s.pass.Idle? ==> s.pass.listTime <= i && s.ipsBefore <= s.pass.listTime && s.tunnelsBefore <= s.pass.listTime)
    && (s.pass.HalfRead? ==> s.pass.ipsRead <= i && s.pass.actualIPs == BR.Sources(run[s.pass.ipsRead].kernel))
    && (s.pass.Correcting? ==>
          s.pass.ipsRead <= i && s.pass.tunnelsRead <= i &&
          s.pass.actual == BR.Sources(run[s.pass.ipsRead].kernel) + BR.Tunnels(run[s.pass.tunnelsRead].kernel))
  }

  /** A list, however stale, shows what was claimed at its time. */
  ghost predicate ListedThen(run: seq<State>, i: nat)
    requires i < |run|
  {
    var s := run[i];
    !s.pass.Idle? ==> s.pass.listTime <= i && s.pass.desired == run[s.pass.listTime].claims
  }

  lemma {:induction false} ListsWereTrue(run: seq<State>, steps: seq<Step>, i: nat)
    requires Run(run, steps) && i < |run|
    ensures ListedThen(run, i)
  {
    if i > 0 {
      ListsWereTrue(run, steps, i - 1);
      assert Next(run, i - 1, steps[i - 1]);
    }
  }

  lemma {:induction false} InvHolds(run: seq<State>, steps: seq<Step>, i: nat)
    requires Run(run, steps) && i < |run|
    requires forall k :: 0 <= k < i ==> FreshList(run, k, steps[k])
    ensures Inv(run, i)
  {
    if i > 0 {
      InvHolds(run, steps, i - 1);
      assert Next(run, i - 1, steps[i - 1]);
    }
  }

  /** No pass is completed from `r` to `i`. */
  ghost predicate NoCommit(steps: seq<Step>, r: nat, i: nat)
    requires i <= |steps|
  {
    forall k :: r <= k < i ==> !steps[k].Commit?
  }

  /** The memory is lost with the process: until the first pass since the start, or
      since a restart, is completed, nothing is dropped, whatever the lists show. */
  lemma {:induction false} RestartForgets(run: seq<State>, steps: seq<Step>, r: nat, i: nat)
    requires Run(run, steps) && r <= i < |steps| && NoCommit(steps, r, i)
    requires r == 0 || steps[r - 1].Restart?
    ensures run[i].unclaimed == {} && !steps[i].Drop?
  {
    if i > r {
      RestartForgets(run, steps, r, i - 1);
      assert Next(run, i - 1, steps[i - 1]);
    } else if r > 0 {
      assert Next(run, r - 1, steps[r - 1]);
    }
    assert Next(run, i, steps[i]);
  }

  // ---------------------------------------------------------------- the theorem

  /** Some policy claimed `e` at every time from `c` to `i`. */
  ghost predicate ClaimedSince(run: seq<State>, e: Entry, c: nat, i: nat)
    requires i < |run|
  {
    c <= i && forall t :: c <= t <= i ==> e in run[t].claims
  }

  /** `e` entered the kernel at time `p` and stayed. */
  ghost predicate PlacedAt(run: seq<State>, e: Entry, p: nat, i: nat)
    requires i < |run|
  {
    && p <= i && (forall t :: p <= t <= i ==> e in run[t].kernel)
    && (p > 0 ==> e !in run[p - 1].kernel)
  }

  /** In every interleaving, with fresh lists: if a pass drops an entry whose
      claim has been held since before the entry was placed, then that entry had
      been in the kernel when the previous pass read it, was taken out, and was
      claimed and placed again, both after this pass's list. */
  lemma DroppedWasReplaced(run: seq<State>, steps: seq<Step>, i: nat, e: Entry, c: nat, p: nat)
    requires Run(run, steps) && i < |steps| && steps[i] == Drop(e)
    requires forall k :: 0 <= k < i ==> FreshList(run, k, steps[k])
    requires ClaimedSince(run, e, c, i) && PlacedAt(run, e, p, i) && c <= p
    ensures var before := ReadBefore(run[i], e);
            && before <= run[i].pass.listTime < c
            && before < p - 1 && e in run[before].kernel && e !in run[p - 1].kernel
  {
    InvHolds(run, steps, i);
    ListsWereTrue(run, steps, i);
    assert Next(run, i, steps[i]);
  }

  /** Two-pass safety: with fresh lists, no pass ever drops an entry whose claim
      has been held since before it was placed, provided the entry has not been
      taken out and put back since the previous pass read the kernel. */
  lemma TwoPassSafety(run: seq<State>, steps: seq<Step>, i: nat, e: Entry, c: nat, p: nat)
    requires Run(run, steps) && i < |steps|
    requires forall k :: 0 <= k < i ==> FreshList(run, k, steps[k])
    requires ClaimedSince(run, e, c, i) && PlacedAt(run, e, p, i) && c <= p
    requires p <= ReadBefore(run[i], e) || e !in run[ReadBefore(run[i], e)].kernel
    ensures steps[i] != Drop(e)
  {
    if steps[i] == Drop(e) {
      DroppedWasReplaced(run, steps, i, e, c, p);
    }
  }

  /** Exactly when a pass may drop a protected entry it saw, in every run and with
      lists of any age: the key was left over from the previous pass and the list
      predates the claim. Here the claim held from `c` on is not the one that was
      held at the list, if one was. */
  lemma DropExact(run: seq<State>, steps: seq<Step>, i: nat, e: Entry, c: nat)
    requires Run(run, steps) && i < |run|
    requires run[i].pass.Correcting? && e in run[i].pass.actual
    requires ClaimedSince(run, e, c, i)
    requires run[i].pass.listTime < c ==> e !in run[run[i].pass.listTime].claims
    ensures e in BR.Expired(run[i].pass.desired, run[i].pass.actual, run[i].unclaimed) <==>
            e in run[i].unclaimed && run[i].pass.listTime < c
  {
    ListsWereTrue(run, steps, i);
    var t := run[i].pass.listTime;
    if c <= t { assert e in run[t].claims; }
  }

  // ---------------------------------------------------------------- what goes, goes

  /** What a pass has read was so at the time, and not before its list. */
  ghost predicate ReadThen(run: seq<State>, i: nat)
    requires i < |run|
  {
    var s := run[i];
    && (s.pass.HalfRead? ==>
          s.pass.listTime <= s.pass.ipsRead <= i && s.pass.actualIPs == BR.Sources(run[s.pass.ipsRead].kernel))
    && (s.pass.Correcting? ==>
          s.pass.listTime <= s.pass.ipsRead <= i && s.pass.listTime <= s.pass.tunnelsRead <= i &&
          s.pass.actual == BR.Sources(run[s.pass.ipsRead].kernel) + BR.Tunnels(run[s.pass.tunnelsRead].kernel))
  }

  lemma {:induction false} ReadsWereTrue(run: seq<State>, steps: seq<Step>, i: nat)
    requires Run(run, steps) && i < |run|
    ensures ReadThen(run, i)
  {
    if i > 0 {
      ReadsWereTrue(run, steps, i - 1);
      ListsWereTrue(run, steps, i - 1);
      assert Next(run, i - 1, steps[i - 1]);
    }
  }

  /** When the pass read the map `e` belongs to. */
  function ReadAt(p: Pass, e: Entry): nat
    requires p.Correcting?
  {
    if e.Source? then p.ipsRead else p.tunnelsRead
  }

  /** From `t` on nobody claims `e` and nobody places it. */
  ghost predicate Abandoned(run: seq<State>, e: Entry, t: nat) {
    && (forall k :: t <= k < |run| ==> e !in run[k].claims)
    && (forall k :: t <= k && k + 1 < |run| && e in run[k + 1].kernel ==> e in run[k].kernel)
  }

  lemma {:induction false} StaysOut(run: seq<State>, e: Entry, t: nat, i: nat, j: nat)
    requires Abandoned(run, e, t) && t <= i <= j < |run| && e !in run[i].kernel
    ensures e !in run[j].kernel
    decreases j
  {
    if i < j { StaysOut(run, e, t, i, j - 1); }
  }

  lemma {:induction false} MemoryKept(run: seq<State>, steps: seq<Step>, i: nat, j: nat)
    requires Run(run, steps) && i <= j < |run|
    requires forall k :: i <= k < j ==> !steps[k].Commit? && !steps[k].Restart?
    ensures run[j].unclaimed == run[i].unclaimed
    decreases j
  {
    if i < j {
      MemoryKept(run, steps, i, j - 1);
      assert Next(run, j - 1, steps[j - 1]);
    }
  }

  /** Pass `c` completes, on a list no older than `t`. */
  ghost predicate Completes(run: seq<State>, steps: seq<Step>, c: nat, t: nat)
    requires |run| == |steps| + 1
  {
    c < |steps| && steps[c] == Commit && run[c].pass.Correcting? && run[c].pass.listTime >= t
  }

  /** A completed pass remembers an abandoned entry, or it is gone for good. */
  lemma RememberedOrGone(run: seq<State>, steps: seq<Step>, e: Entry, t: nat, c: nat)
    requires Run(run, steps) && Completes(run, steps, c, t) && Abandoned(run, e, t)
    ensures e in run[c + 1].unclaimed || e !in run[c + 1].kernel
  {
    ReadsWereTrue(run, steps, c);
    ListsWereTrue(run, steps, c);
    assert Next(run, c, steps[c]);
    var at := ReadAt(run[c].pass, e);
    if e !in run[at].kernel { StaysOut(run, e, t, at, c + 1); }
  }

  /** The other half of the rule, in every interleaving: an entry that nobody claims
      or places any more is out of the kernel once two passes in a row have
      completed on lists from after that, if the second carried out its removals;
      and it stays out. */
  lemma AbandonedIsCleared(run: seq<State>, steps: seq<Step>, e: Entry, t: nat, c1: nat, c2: nat, j: nat)
    requires Run(run, steps) && Abandoned(run, e, t) && c1 < c2 < j < |run|
    requires Completes(run, steps, c1, t) && Completes(run, steps, c2, t)
    requires forall k :: c1 < k < c2 ==> !steps[k].Commit? && !steps[k].Restart?
    requires e in BR.Expired(run[c2].pass.desired, run[c2].pass.actual, run[c2].unclaimed) ==>
               exists d :: c1 < d < c2 && steps[d] == Drop(e)
    ensures e !in run[j].kernel
  {
    ListsWereTrue(run, steps, c1);
    RememberedOrGone(run, steps, e, t, c1);
    if e !in run[c1 + 1].kernel {
      StaysOut(run, e, t, c1 + 1, j);
    } else {
      MemoryKept(run, steps, c1 + 1, c2);
      ReadsWereTrue(run, steps, c2);
      ListsWereTrue(run, steps, c2);
      var at := ReadAt(run[c2].pass, e);
      if e !in run[at].kernel {
        StaysOut(run, e, t, at, j);
      } else {
        var d :| c1 < d < c2 && steps[d] == Drop(e);
        assert Next(run, d, steps[d]);
        StaysOut(run, e, t, d + 1, j);
      }
    }
  }

  // ---------------------------------------------------------------- undisturbed passes

  function Now(run: seq<State>): State
    requires run != []
  {
    run[|run| - 1]
  }

  lemma Extend(run: seq<State>, steps: seq<Step>, step: Step, s: State)
    requires Run(run, steps) && Next(run + [s], |steps|, step)
    ensures Run(run + [s], steps + [step])
  {
    var longer, more := run + [s], steps + [step];
    forall i | 0 <= i < |more| ensures Next(longer, i, more[i]) {
      if i < |steps| { assert Next(run, i, steps[i]); }
    }
  }

  /** Only steps of the reconciler itself. */
  ghost predicate Undisturbed(steps: seq<Step>) {
    forall i :: 0 <= i < |steps| ==> !steps[i].Outside? && !steps[i].Restart? && !steps[i].Abort?
  }

  lemma {:induction false} AddAll(run: seq<State>, steps: seq<Step>, todo: set<Entry>)
    returns (run': seq<State>, tail: seq<Step>)
    requires Run(run, steps) && Now(run).pass.Correcting?
    requires todo <= BR.Missing(Now(run).pass.desired, Now(run).pass.actual)
    ensures Run(run', steps + tail) && Undisturbed(tail) && Now(run') == Now(run).(kernel := Now(run).kernel + todo)
    decreases todo
  {
    run', tail := run, [];
    assert steps + [] == steps;
    if todo != {} {
      var e :| e in todo;
      var s := Now(run).(kernel := Now(run).kernel + {e});
      Extend(run, steps, Add(e), s);
      run', tail := AddAll(run + [s], steps + [Add(e)], todo - {e});
      assert steps + [Add(e)] + tail == steps + ([Add(e)] + tail);
      assert s.kernel + (todo - {e}) == Now(run).kernel + todo;
      tail := [Add(e)] + tail;
    }
  }

  lemma {:induction false} DropAll(run: seq<State>, steps: seq<Step>, todo: set<Entry>)
    returns (run': seq<State>, tail: seq<Step>)
    requires Run(run, steps) && Now(run).pass.Correcting?
    requires todo <= BR.Expired(Now(run).pass.desired, Now(run).pass.actual, Now(run).unclaimed)
    ensures Run(run', steps + tail) && Undisturbed(tail) && Now(run') == Now(run).(kernel := Now(run).kernel - todo)
    decreases todo
  {
    run', tail := run, [];
    assert steps + [] == steps;
    if todo != {} {
      var e :| e in todo;
      var s := Now(run).(kernel := Now(run).kernel - {e});
      Extend(run, steps, Drop(e), s);
      run', tail := DropAll(run + [s], steps + [Drop(e)], todo - {e});
      assert steps + [Drop(e)] + tail == steps + ([Drop(e)] + tail);
      assert s.kernel - (todo - {e}) == Now(run).kernel - todo;
      tail := [Drop(e)] + tail;
    }
  }

  /** The three reads at the head of a pass. */
  lemma ReadAll(run: seq<State>, steps: seq<Step>) returns (run': seq<State>, tail: seq<Step>)
    requires Run(run, steps) && Now(run).pass.Idle?
    ensures Run(run', steps + tail) && Undisturbed(tail)
    ensures Now(run').pass.Correcting? && Now(run') == Now(run).(pass := Now(run').pass)
    ensures Now(run').pass.desired == Now(run).claims && Now(run').pass.actual == Now(run).kernel
  {
    var n, s := |steps|, Now(run);
    var listed := s.(pass := Listed(s.claims, n));
    var half := s.(pass := HalfRead(s.claims, n, BR.Sources(s.kernel), n + 1));
    var full := s.(pass := Correcting(s.claims, n, BR.Sources(s.kernel) + BR.Tunnels(s.kernel), n + 1, n + 2));
    Extend(run, steps, List(n), listed);
    Extend(run + [listed], steps + [List(n)], ReadIPs, half);
    Extend(run + [listed] + [half], steps + [List(n)] + [ReadIPs], ReadTunnels, full);
    run', tail := run + [listed] + [half] + [full], [List(n), ReadIPs, ReadTunnels];
    assert steps + [List(n)] + [ReadIPs] + [ReadTunnels] == steps + tail;
    assert BR.Sources(s.kernel) + BR.Tunnels(s.kernel) == s.kernel;
  }

  /** Every pass the reconciler can make in one go is a run of these steps with
      nobody else in between, so what holds of all runs holds of Sync. */
  lemma PassIsRun(cap: MapName -> nat, run: seq<State>, steps: seq<Step>, faults: set<Entry>,
                  added: set<Entry>, after: set<Entry>) returns (run': seq<State>, tail: seq<Step>)
    requires Run(run, steps) && Now(run).pass.Idle?
    requires BR.SyncPass(cap, Now(run).claims, Now(run).unclaimed, faults, Now(run).kernel, added, after)
    ensures Run(run', steps + tail) && Undisturbed(tail)
    ensures Now(run').claims == Now(run).claims && Now(run').kernel == after && Now(run').pass.Idle?
    ensures Now(run').unclaimed == Now(run).kernel - Now(run).claims
  {
    var s := Now(run);
    var gone := BR.Removable(BR.Expired(s.claims, s.kernel, s.unclaimed), faults);
    var run1, t1 := ReadAll(run, steps);
    var run2, t2 := AddAll(run1, steps + t1, added);
    var run3, t3 := DropAll(run2, steps + t1 + t2, gone);
    var now := Now(run3);
    var done := now.(unclaimed := now.pass.actual - now.pass.desired, pass := Idle,
                     ipsBefore := now.pass.ipsRead, tunnelsBefore := now.pass.tunnelsRead);
    Extend(run3, steps + t1 + t2 + t3, Commit, done);
    run', tail := run3 + [done], t1 + t2 + t3 + [Commit];
    assert steps + t1 + t2 + t3 + [Commit] == steps + tail;
  }

  // ---------------------------------------------------------------- where it ends

  /** What one pass computes over a kernel holding just `e`. */
  lemma PassOverOne(e: Entry)
    requires e.Source?
    ensures BR.Sources({e}) == {e} && BR.Sources({e}) + BR.Tunnels({e}) == {e} && {e} + BR.Tunnels({e}) == {e}
    ensures BR.Expired({}, {e}, {e}) == {e} && {e} - {} == {e} && {e} - {e} == {}
  {
  }

  /** The proviso is needed, even with a list that is current when taken: an
      unclaimed leftover is released, claimed and placed again while the next
      pass is between its list and its read, and that pass reverts the live
      mitigation. */
  lemma ReplacedEntryIsReverted(e: Entry) returns (run: seq<State>, steps: seq<Step>)
    requires e.Source?
    ensures Run(run, steps) && forall k :: 0 <= k < |steps| ==> FreshList(run, k, steps[k])
    ensures |steps| == 11 && steps[10] == Drop(e)
    ensures ClaimedSince(run, e, 7, 10) && PlacedAt(run, e, 8, 10) && e !in run[11].kernel
  {
    PassOverOne(e);
    steps := [List(0), ReadIPs, ReadTunnels, Commit, List(4), Outside, Outside, Outside, ReadIPs, ReadTunnels, Drop(e)];
    run := [
      State({}, {e}, {}, Idle, 0, 0),
      State({}, {e}, {}, Listed({}, 0), 0, 0),
      State({}, {e}, {}, HalfRead({}, 0, {e}, 1), 0, 0),
      State({}, {e}, {}, Correcting({}, 0, {e}, 1, 2), 0, 0),
      State({}, {e}, {e}, Idle, 1, 2),
      State({}, {e}, {e}, Listed({}, 4), 1, 2),
      State({}, {}, {e}, Listed({}, 4), 1, 2),
      State({e}, {}, {e}, Listed({}, 4), 1, 2),
      State({e}, {e}, {e}, Listed({}, 4), 1, 2),
      State({e}, {e}, {e}, HalfRead({}, 4, {e}, 8), 1, 2),
      State({e}, {e}, {e}, Correcting({}, 4, {e}, 8, 9), 1, 2),
      State({e}, {}, {e}, Correcting({}, 4, {e}, 8, 9), 1, 2)];
  }

  /** Freshness is needed too: two passes that both see a list from before the
      claim drop an entry that was claimed, then placed, and never moved. */
  lemma StaleListsRevert(e: Entry) returns (run: seq<State>, steps: seq<Step>)
    requires e.Source?
    ensures Run(run, steps) && |steps| == 10 && steps[9] == Drop(e)
    ensures ClaimedSince(run, e, 1, 9) && PlacedAt(run, e, 2, 9) && 2 <= ReadBefore(run[9], e)
  {
    PassOverOne(e);
    steps := [Outside, Outside, List(0), ReadIPs, ReadTunnels, Commit, List(0), ReadIPs, ReadTunnels, Drop(e)];
    run := [
      State({}, {}, {}, Idle, 0, 0),
      State({e}, {}, {}, Idle, 0, 0),
      State({e}, {e}, {}, Idle, 0, 0),
      State({e}, {e}, {}, Listed({}, 0), 0, 0),
      State({e}, {e}, {}, HalfRead({}, 0, {e}, 3), 0, 0),
      State({e}, {e}, {}, Correcting({}, 0, {e}, 3, 4), 0, 0),
      State({e}, {e}, {e}, Idle, 3, 4),
      State({e}, {e}, {e}, Listed({}, 0), 3, 4),
      State({e}, {e}, {e}, HalfRead({}, 0, {e}, 7), 3, 4),
      State({e}, {e}, {e}, Correcting({}, 0, {e}, 7, 8), 3, 4),
      State({e}, {}, {e}, Correcting({}, 0, {e}, 7, 8), 3, 4)];
  }
}
