/** What the operator's writers share: the API server's policies, the in-memory
    policy index and the kernel maps, with the operations that change them. */
module ClusterState {
  import opened Prelude
  import opened TunnelText
  import opened Enforcement
  import opened Policies
  import opened BlocklistReconciler

  /** What never changes while the operator runs. */
  datatype Env = Env(
    parse: string -> Option<Addr>,  // net.ParseIP
    cap: MapName -> nat,
    baseThreshold: real,
    dwell: int)                     // quiet period before de-escalation

  datatype World = World(store: map<Id, Policy>, index: map<Id, Policy>, kernel: set<Entry>, rev: nat)

  datatype Outcome = Done | Conflict | Failed

  // ---------------------------------------------------------------- API server

  /** Optimistic concurrency: a write through `copy` succeeds only on the
      version `copy` was read at. */
  function WriteOutcome(w: World, id: Id, copy: Policy, fails: bool): Outcome {
    if fails || id !in w.store then Failed
    else if w.store[id].version != copy.version then Conflict
    else Done
  }

  /** Status().Update: only the status changes. */
  function StatusWrite(w: World, id: Id, copy: Policy, fails: bool): World {
    if WriteOutcome(w, id, copy, fails) != Done then w
    else w.(store := w.store[id := w.store[id].(status := copy.status, version := w.rev + 1)], rev := w.rev + 1)
  }

  /** Update: only the finalizer changes here; an object being deleted goes away
      with its last finalizer. */
  function FinalizerWrite(w: World, id: Id, copy: Policy, fails: bool): World {
    if WriteOutcome(w, id, copy, fails) != Done then w
    else if w.store[id].deleting && !copy.finalizer then w.(store := w.store - {id}, rev := w.rev + 1)
    else w.(store := w.store[id := w.store[id].(finalizer := copy.finalizer, version := w.rev + 1)], rev := w.rev + 1)
  }

  function IndexPut(w: World, id: Id, policy: Policy): World {
    w.(index := w.index[id := policy])
  }

  function IndexRemove(w: World, id: Id): World {
    w.(index := w.index - {id})
  }

  // ---------------------------------------------------------------- kernel

  /** Unblocking a list of entries in order, stopping at the first failure. */
  function Release(kernel: set<Entry>, entries: seq<Entry>, faults: set<Entry>): (set<Entry>, bool) {
    if entries == [] then (kernel, true)
    else if entries[0] in faults || !Enforceable(entries[0]) then (kernel, false)
    else Release(kernel - {entries[0]}, entries[1..], faults)
  }

  /** A release only takes out what it names; one that reports success takes out
      all of it. */
  lemma {:induction false} ReleaseEffect(kernel: set<Entry>, entries: seq<Entry>, faults: set<Entry>)
    ensures var (after, ok) := Release(kernel, entries, faults);
            && kernel - Elements(entries) <= after <= kernel
            && (ok ==> after == kernel - Elements(entries))
            && (ok <==> forall e :: e in entries ==> e !in faults && Enforceable(e))
  {
    if entries != [] {
      var head := entries[0];
      assert Elements(entries) == {head} + Elements(entries[1..]);
      if head !in faults && Enforceable(head) {
        ReleaseEffect(kernel - {head}, entries[1..], faults);
        assert forall e :: e in entries ==> e == head || e in entries[1..];
      }
    }
  }

  lemma {:induction false} ReleaseAppend(kernel: set<Entry>, a: seq<Entry>, b: seq<Entry>, faults: set<Entry>)
    ensures Release(kernel, a + b, faults) ==
            if Release(kernel, a, faults).1 then Release(Release(kernel, a, faults).0, b, faults)
            else Release(kernel, a, faults)
  {
    if a == [] {
      assert a + b == b;
    } else {
      assert (a + b)[0] == a[0] && (a + b)[1..] == a[1..] + b;
      if a[0] !in faults && Enforceable(a[0]) { ReleaseAppend(kernel - {a[0]}, a[1..], b, faults); }
    }
  }

  /** Blocking a list of entries in order, stopping at the first refusal. */
  function BlockAll(cap: MapName -> nat, kernel: set<Entry>, entries: seq<Entry>, faults: set<Entry>): (set<Entry>,
                    bool)
    decreases |entries|
  {
    if entries == [] then (kernel, true)
    else if entries[0] in faults || !Accepts(kernel, cap, entries[0]) then (kernel, false)
    else BlockAll(cap, kernel + {entries[0]}, entries[1..], faults)
  }

  lemma BlockAllStep(cap: MapName -> nat, kernel: set<Entry>, e: Entry, rest: seq<Entry>, faults: set<Entry>)
    ensures BlockAll(cap, kernel, [], faults) == (kernel, true)
    ensures BlockAll(cap, kernel, [e] + rest, faults) ==
            if e in faults || !Accepts(kernel, cap, e) then (kernel, false)
            else BlockAll(cap, kernel + {e}, rest, faults)
  {
    assert ([e] + rest)[1..] == rest;
  }

  lemma {:induction false} BlockAllEffect(cap: MapName -> nat, kernel: set<Entry>, entries: seq<Entry>,
                                          faults: set<Entry>)
    ensures var (after, ok) := BlockAll(cap, kernel, entries, faults);
            && kernel <= after <= kernel + Elements(entries)
            && (ok ==> after == kernel + Elements(entries))
    decreases |entries|
  {
    if entries != [] {
      assert Elements(entries) == {entries[0]} + Elements(entries[1..]);
      if entries[0] !in faults && Accepts(kernel, cap, entries[0]) {
        BlockAllEffect(cap, kernel + {entries[0]}, entries[1..], faults);
      }
    }
  }

  // ---------------------------------------------------------------- the live cluster

  class Cluster {
    const env: Env
    const maps: KernelMaps
    var store: map<Id, Policy>
    var index: map<Id, Policy>
    var rev: nat

    ghost predicate Valid() {
      maps.cap == env.cap
    }

    ghost function State(): World
      reads this, maps
    {
      World(store, index, maps.entries, rev)
    }

    constructor (env: Env)
      ensures Valid() && fresh(maps)
      ensures this.env == env && State() == World(map[], map[], {}, 0)
    {
      this.env := env;
      store, index, rev := map[], map[], 0;
      maps := new KernelMaps(env.cap);
    }

    /** On success the caller's copy is refreshed from the server's answer. */
    method UpdateStatus(id: Id, copy: Policy, fails: bool) returns (outcome: Outcome, refreshed: Policy)
      modifies this
      ensures outcome == WriteOutcome(old(State()), id, copy, fails)
      ensures State() == StatusWrite(old(State()), id, copy, fails)
      ensures outcome == Done ==> id in store && refreshed == store[id]
    {
      refreshed := copy;
      if fails || id !in store {
        outcome := Failed;
      } else if store[id].version != copy.version {
        outcome := Conflict;
      } else {
        outcome := Done;
        rev := rev + 1;
        store := store[id := store[id].(status := copy.status, version := rev)];
        refreshed := store[id];
      }
    }

    method UpdateFinalizer(id: Id, copy: Policy, fails: bool) returns (outcome: Outcome, refreshed: Policy)
      modifies this
      ensures outcome == WriteOutcome(old(State()), id, copy, fails)
      ensures State() == FinalizerWrite(old(State()), id, copy, fails)
      ensures outcome == Done && id in store ==> refreshed == store[id]
    {
      refreshed := copy;
      if fails || id !in store {
        outcome := Failed;
      } else if store[id].version != copy.version {
        outcome := Conflict;
      } else {
        outcome := Done;
        rev := rev + 1;
        if store[id].deleting && !copy.finalizer {
          store := store - {id};
        } else {
          store := store[id := store[id].(finalizer := copy.finalizer, version := rev)];
          refreshed := store[id];
        }
      }
    }

    method Put(id: Id, policy: Policy)
      modifies this
      ensures State() == IndexPut(old(State()), id, policy)
    {
      index := index[id := policy];
    }

    method Remove(id: Id)
      modifies this
      ensures State() == IndexRemove(old(State()), id)
    {
      index := index - {id};
    }
  }
}
