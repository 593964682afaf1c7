/** Calls that overlap. The watcher's call is cut after its status write and before
    each block; a reconciliation at each of its writes, at its index put, before
    each unblock and before the write that clears or removes the policy; a
    blocklist pass between its list and its additions
    (threat_score_watcher.go, applyPolicy; telecomsecuritypolicy_controller.go;
    blocklist_reconciler.go, Sync). The pieces interleave with each other and with
    users in any way; undisturbed they are the calls. */
module CallPieces {
  import opened Prelude
  import opened TunnelText
  import opened Enforcement
  import opened Policies
  import opened ClusterState
  import opened PolicyController
  import opened ClosedLoop
  import W = ThreatScoreWatcher

  /** A score that has written, or been throttled, and still has drops to place. */
  datatype Flight = Flight(todo: seq<Entry>)

  /** A release through the copy it read, with drops still to take out; a `final` one
      ends with the policy's removal, the other with its lists cleared. */
  datatype Unwinding = Unwinding(id: Id, copy: Policy, todo: seq<Entry>, final: bool)

  /** `listed` is what the last list a blocklist pass took asks for. */
  datatype State = State(world: World, listed: set<Entry>, flight: Option<Flight>, unwinding: Option<Unwinding>)

  datatype Piece =
    | Decide(id: Id, copy: Policy, ev: W.Score, o: W.Oracle)
    | Place(fault: bool)
    | Begin(id: Id, copy: Policy, now: int)
    | BeginFinal(id: Id, copy: Policy)
    | TakeOut(fault: bool)
    | Clear(fails: bool)
    | Erase(fails: bool)
    | Abandon                       // the mesh release failed, or the operator restarted
    | Index(id: Id, copy: Policy)   // by a reconciliation or a warm-up
    | Unindex(id: Id)
    | Rewrite(id: Id, p: Policy)    // finalizer, phase, condition, spec, deletion mark
    | Appear(id: Id, spec: Spec)
    | Vanish(id: Id)                // deleted without a finalizer
    | List(desired: set<Entry>)     // a blocklist pass lists the policies
    | Repair(added: set<Entry>)     // and adds, at any later time, from that list
    | Shrink(removed: set<Entry>)   // its removals, or lost maps

  ghost predicate Enabled(env: Env, s: State, piece: Piece) {
    match piece
    case Decide(id, copy, _, _) => s.flight.None? && Known(s.world, id, copy)
    case Place(_) => s.flight.Some? && s.flight.value.todo != []
    case Begin(id, copy, now) =>
      && s.unwinding.None? && Known(s.world, id, copy) && !copy.deleting && copy.status.phase == Mitigating
      && copy.status.lastMitigation.Some? && !Dwelling(env, copy.status, now)
    case BeginFinal(id, copy) => s.unwinding.None? && Known(s.world, id, copy) && copy.deleting && copy.finalizer
    case TakeOut(_) => s.unwinding.Some? && s.unwinding.value.todo != []
    case Clear(_) => s.unwinding.Some? && s.unwinding.value.todo == [] && !s.unwinding.value.final
    case Erase(_) => s.unwinding.Some? && s.unwinding.value.todo == [] && s.unwinding.value.final
    case Abandon => s.unwinding.Some?
    case Index(id, copy) => Known(s.world, id, copy)
    case Unindex(_) => true
    case Rewrite(id, p) => id in s.world.store && SameLists(p.status, s.world.store[id].status)
    case Appear(id, _) => id !in s.world.store
    case Vanish(id) => id in s.world.store
    case List(desired) => forall e :: e in desired <==> DesiredIn(env, s.world.store, e)
    case Repair(added) => added <= s.listed
    case Shrink(_) => true
  }

  function WithKernel(s: State, kernel: set<Entry>): State {
    s.(world := s.world.(kernel := kernel))
  }

  function WithWorld(s: State, w: World): State {
    s.(world := w)
  }

  /** A Place piece puts its drop in. */
  predicate Lands(env: Env, s: State, fault: bool)
    requires s.flight.Some? && s.flight.value.todo != []
  {
    !fault && Accepts(s.world.kernel, env.cap, s.flight.value.todo[0])
  }

  /** The release's copy is still the persisted one. */
  predicate StillCurrent(s: State) {
    s.unwinding.Some? && !Outdated(s.world, s.unwinding.value.id, s.unwinding.value.copy)
  }

  /** What a score makes of its status write. */
  function Written(env: Env, s: State, id: Id, copy: Policy, ev: W.Score, o: W.Oracle): (World, bool) {
    W.WriteStatus(s.world, id, copy, W.Decide(env, copy, ev, o.killed).status, o)
  }

  function AfterDecide(env: Env, s: State, id: Id, copy: Policy, ev: W.Score, o: W.Oracle): State {
    var actions := W.Decide(env, copy, ev, o.killed).actions;
    var (w, go) := Written(env, s, id, copy, ev, o);
    s.(world := w, flight := if go && actions != [] then Some(Flight(actions)) else None)
  }

  function AfterPlace(env: Env, s: State, fault: bool): State
    requires s.flight.Some? && s.flight.value.todo != []
  {
    var todo := s.flight.value.todo;
    if !Lands(env, s, fault) then s.(flight := None)
    else WithKernel(s.(flight := if |todo| == 1 then None else Some(Flight(todo[1..]))), s.world.kernel + {todo[0]})
  }

  function AfterTakeOut(s: State, fault: bool): State
    requires s.unwinding.Some? && s.unwinding.value.todo != []
  {
    var u := s.unwinding.value;
    if fault || !Enforceable(u.todo[0]) then s.(unwinding := None)
    else WithKernel(s.(unwinding := Some(u.(todo := u.todo[1..]))), s.world.kernel - {u.todo[0]})
  }

  function AfterClear(s: State, fails: bool): State
    requires s.unwinding.Some?
  {
    var u := s.unwinding.value;
    var copy := u.copy.(status := Cleared(u.copy.status));
    var w := StatusWrite(s.world, u.id, copy, fails);
    s.(world := if WriteOutcome(s.world, u.id, copy, fails) == Done then IndexPut(w, u.id, w.store[u.id]) else w,
       unwinding := None)
  }

  function AfterErase(s: State, fails: bool): State
    requires s.unwinding.Some?
  {
    var u := s.unwinding.value;
    var copy := u.copy.(finalizer := false);
    var w := FinalizerWrite(s.world, u.id, copy, fails);
    s.(world := if WriteOutcome(s.world, u.id, copy, fails) == Done then IndexRemove(w, u.id) else w,
       unwinding := None)
  }

  ghost function Do(env: Env, s: State, piece: Piece): State
    requires Enabled(env, s, piece)
  {
    match piece
    case Decide(id, copy, ev, o) => AfterDecide(env, s, id, copy, ev, o)
    case Place(fault) => AfterPlace(env, s, fault)
    case Begin(id, copy, _) => s.(unwinding := Some(Unwinding(id, copy, Claims(env.parse, copy.status), false)))
    case BeginFinal(id, copy) => s.(unwinding := Some(Unwinding(id, copy, Claims(env.parse, copy.status), true)))
    case TakeOut(fault) => AfterTakeOut(s, fault)
    case Clear(fails) => AfterClear(s, fails)
    case Erase(fails) => AfterErase(s, fails)
    case Abandon => s.(unwinding := None)
    case Index(id, copy) => WithWorld(s, IndexPut(s.world, id, copy))
    case Unindex(id) => WithWorld(s, IndexRemove(s.world, id))
    case Rewrite(id, p) => WithWorld(s, Rewritten(s.world, id, p))
    case Appear(id, spec) => WithWorld(s, Created(s.world, id, spec))
    case Vanish(id) => WithWorld(s, Vanished(s.world, id))
    case List(desired) => s.(listed := desired)
    case Repair(added) => WithKernel(s, s.world.kernel + added)
    case Shrink(removed) => WithKernel(s, s.world.kernel - removed)
  }

  function Rewritten(w: World, id: Id, p: Policy): World {
    w.(store := w.store[id := p.(version := w.rev + 1)], rev := w.rev + 1)
  }

  function Vanished(w: World, id: Id): World {
    w.(store := w.store - {id}, rev := w.rev + 1)
  }

  /** The pieces lead from one state to the other. */
  ghost predicate Leads(env: Env, s: State, pieces: seq<Piece>, s': State)
    decreases |pieces|
  {
    if pieces == [] then s' == s
    else Enabled(env, s, pieces[0]) && Leads(env, Do(env, s, pieces[0]), pieces[1..], s')
  }

  lemma LeadsFrom(env: Env, s: State, piece: Piece, rest: seq<Piece>, s': State)
    requires Enabled(env, s, piece) && Leads(env, Do(env, s, piece), rest, s')
    ensures Leads(env, s, [piece] + rest, s')
  {
    assert ([piece] + rest)[1..] == rest;
  }

  // ---------------------------------------------------------------- the pieces make the calls

  lemma {:induction false} FlightServed(env: Env, s: State, faults: set<Entry>) returns (pieces: seq<Piece>)
    requires s.flight.Some? && s.flight.value.todo != []
    ensures Leads(env, s, pieces,
                  WithKernel(s.(flight := None), BlockAll(env.cap, s.world.kernel, s.flight.value.todo, faults).0))
    decreases |s.flight.value.todo|
  {
    var todo := s.flight.value.todo;
    var piece := Place(todo[0] in faults);
    var s1 := AfterPlace(env, s, todo[0] in faults);
    var rest := [];
    if s1.flight.Some? {
      rest := FlightServed(env, s1, faults);
    } else if |todo| == 1 {
      assert todo[1..] == [];
      BlockAllStep(env.cap, s.world.kernel + {todo[0]}, todo[0], [], faults);
    }
    LeadsFrom(env, s, piece, rest, WithKernel(s.(flight := None), BlockAll(env.cap, s.world.kernel, todo, faults).0));
    pieces := [piece] + rest;
  }

  /** Without interference the pieces of a score are applyPolicy. */
  lemma ScoreInOneGo(env: Env, s: State, id: Id, copy: Policy, ev: W.Score, o: W.Oracle) returns (pieces: seq<Piece>)
    requires s.flight.None? && Known(s.world, id, copy)
    ensures Leads(env, s, pieces, WithWorld(s, W.ApplyTo(env, s.world, id, copy, ev, o).0))
  {
    var piece := Decide(id, copy, ev, o);
    var s1 := AfterDecide(env, s, id, copy, ev, o);
    var rest := [];
    BlockAllStep(env.cap, s1.world.kernel, Source(V4([])), [], o.kernelFaults);
    if s1.flight.Some? { rest := FlightServed(env, s1, o.kernelFaults); }
    LeadsFrom(env, s, piece, rest, WithWorld(s, W.ApplyTo(env, s.world, id, copy, ev, o).0));
    pieces := [piece] + rest;
  }

  /** How a release ends. */
  predicate Ends(end: Piece, final: bool) {
    end.Abandon? || (if final then end.Erase? else end.Clear?)
  }

  /** The rest of a release: every unblock in turn, then its end. */
  ghost function Finished(env: Env, s: State, faults: set<Entry>, end: Piece): State
    requires s.unwinding.Some? && Ends(end, s.unwinding.value.final)
  {
    var (kernel, released) := Release(s.world.kernel, s.unwinding.value.todo, faults);
    var s1 := WithKernel(s, kernel);
    if !released then s1.(unwinding := None)
    else Do(env, s1.(unwinding := Some(s.unwinding.value.(todo := []))), end)
  }

  lemma {:induction false} ReleaseServed(env: Env, s: State, faults: set<Entry>, end: Piece)
      returns (pieces: seq<Piece>)
    requires s.unwinding.Some? && Ends(end, s.unwinding.value.final)
    ensures Leads(env, s, pieces, Finished(env, s, faults, end))
    decreases |s.unwinding.value.todo|
  {
    var todo := s.unwinding.value.todo;
    if todo == [] {
      assert s.unwinding.value.(todo := []) == s.unwinding.value && WithKernel(s, s.world.kernel) == s;
      LeadsFrom(env, s, end, [], Finished(env, s, faults, end));
      pieces := [end] + [];
    } else {
      var piece := TakeOut(todo[0] in faults);
      var s1 := AfterTakeOut(s, todo[0] in faults);
      var rest := [];
      if s1.unwinding.Some? { rest := ReleaseServed(env, s1, faults, end); }
      LeadsFrom(env, s, piece, rest, Finished(env, s, faults, end));
      pieces := [piece] + rest;
    }
  }

  /** Without interference the pieces of a release are tryDeEscalate, through a copy
      of any age. */
  lemma ReleaseInOneGo(env: Env, s: State, id: Id, copy: Policy, now: int, f: Faults) returns (pieces: seq<Piece>)
    requires Enabled(env, s, Begin(id, copy, now))
    ensures Leads(env, s, pieces, WithWorld(s, TryDeEscalate(env, s.world, id, copy, now, f).0))
  {
    var piece := Begin(id, copy, now);
    var s1 := Do(env, s, piece);
    var end := if copy.spec.isolatePod && copy.spec.hasSelector && f.mesh then Abandon else Clear(f.clearWrite);
    var rest := ReleaseServed(env, s1, f.kernel, end);
    LeadsFrom(env, s, piece, rest, Finished(env, s1, f.kernel, end));
    pieces := [piece] + rest;
  }

  /** And those of a final one are finalize. */
  lemma FinalizeInOneGo(env: Env, s: State, id: Id, copy: Policy, f: Faults) returns (pieces: seq<Piece>)
    requires Enabled(env, s, BeginFinal(id, copy))
    ensures Leads(env, s, pieces, WithWorld(s, Finalize(env, s.world, id, copy, f).0))
  {
    if copy.spec.hasSelector && f.mesh {
      pieces := [];
    } else {
      var piece := BeginFinal(id, copy);
      var s1 := Do(env, s, piece);
      var rest := ReleaseServed(env, s1, f.kernel, Erase(f.finalizerWrite));
      LeadsFrom(env, s, piece, rest, Finished(env, s1, f.kernel, Erase(f.finalizerWrite)));
      pieces := [piece] + rest;
    }
  }

  /** A write that keeps the lists, followed by the index put. */
  function Reput(w: World, id: Id, p: Policy): World {
    IndexPut(Rewritten(w, id, p), id, p.(version := w.rev + 1))
  }

  lemma RewriteThen(env: Env, s: State, id: Id, p: Policy, rest: seq<Piece>, s': State) returns (pieces: seq<Piece>)
    requires id in s.world.store && SameLists(p.status, s.world.store[id].status)
    requires Leads(env, WithWorld(s, Reput(s.world, id, p)), rest, s')
    ensures Leads(env, s, pieces, s')
  {
    var s1 := WithWorld(s, Rewritten(s.world, id, p));
    var put := Index(id, s1.world.store[id]);
    LeadsFrom(env, s1, put, rest, s');
    LeadsFrom(env, s, Rewrite(id, p), [put] + rest, s');
    pieces := [Rewrite(id, p)] + ([put] + rest);
  }

  lemma ReportThen(env: Env, s: State, id: Id, policy: Policy, v: Visit, rest: seq<Piece>, s': State)
    returns (pieces: seq<Piece>)
    requires id in s.world.store && s.world.store[id] == policy
    requires Leads(env, WithWorld(s, ReportScoring(s.world, id, policy, v.scoring, v.faults).0), rest, s')
    ensures Leads(env, s, pieces, s')
  {
    if ReportScoring(s.world, id, policy, v.scoring, v.faults).0 == s.world {
      pieces := rest;
    } else {
      pieces := RewriteThen(env, s, id, policy, rest, s');
    }
  }

  lemma ActivateThen(env: Env, s: State, id: Id, policy: Policy, v: Visit, rest: seq<Piece>, s': State)
    returns (pieces: seq<Piece>)
    requires id in s.world.store && s.world.store[id] == policy
    requires Leads(env, WithWorld(s, Activate(s.world, id, policy, v.faults).0), rest, s')
    ensures Leads(env, s, pieces, s')
  {
    if Activate(s.world, id, policy, v.faults).0 == s.world {
      pieces := rest;
    } else {
      var p := policy.(status := policy.status.(phase := Monitoring));
      assert Activate(s.world, id, policy, v.faults).0 == Reput(s.world, id, p);
      pieces := RewriteThen(env, s, id, p, rest, s');
    }
  }

  /** The phase and the scoring condition of a policy the index has. */
  function AfterPut(w: World, id: Id, v: Visit): World
    requires id in w.store
  {
    var (w2, active) := Activate(w, id, w.store[id], v.faults);
    if active.None? then w2 else ReportScoring(w2, id, active.value, v.scoring, v.faults).0
  }

  lemma PutThen(env: Env, s: State, id: Id, v: Visit, rest: seq<Piece>, s': State) returns (pieces: seq<Piece>)
    requires id in s.world.store && !s.world.store[id].deleting
    requires Leads(env, WithWorld(s, AfterPut(s.world, id, v)), rest, s')
    ensures Leads(env, s, pieces, s')
  {
    var (w2, active) := Activate(s.world, id, s.world.store[id], v.faults);
    ActivatePrepares(s.world, id, s.world.store[id], v.faults);
    pieces := rest;
    if active.Some? { pieces := ReportThen(env, WithWorld(s, w2), id, active.value, v, rest, s'); }
    pieces := ActivateThen(env, s, id, s.world.store[id], v, pieces, s');
  }

  /** What is done to a live policy before its phase is looked at. */
  lemma PrepareThen(env: Env, s: State, id: Id, v: Visit, rest: seq<Piece>, s': State) returns (pieces: seq<Piece>)
    requires Versioned(s.world) && id in s.world.store && !s.world.store[id].deleting
    requires Leads(env, WithWorld(s, Prepare(s.world, id, s.world.store[id], v).0), rest, s')
    ensures Leads(env, s, pieces, s')
  {
    var policy := s.world.store[id];
    var (w1, finalized) := EnsureFinalizer(s.world, id, policy, v.faults);
    EnsureFinalizerPrepares(s.world, id, policy, v.faults);
    if finalized.None? {
      pieces := rest;
    } else {
      var s2 := WithWorld(s, IndexPut(w1, id, finalized.value));
      pieces := PutThen(env, s2, id, v, rest, s');
      if policy.finalizer {
        StoredIsKnown(s.world, id);
        LeadsFrom(env, s, Index(id, policy), pieces, s');
        pieces := [Index(id, policy)] + pieces;
      } else {
        pieces := RewriteThen(env, s, id, policy.(finalizer := true), pieces, s');
      }
    }
  }

  /** The last part of a reconciliation. */
  lemma TryInOneGo(env: Env, s: State, id: Id, copy: Policy, now: int, f: Faults) returns (pieces: seq<Piece>)
    requires s.unwinding.None? && Known(s.world, id, copy) && !copy.deleting && copy.status.phase == Mitigating
    ensures Leads(env, s, pieces, WithWorld(s, TryDeEscalate(env, s.world, id, copy, now, f).0))
  {
    if copy.status.lastMitigation.None? || Dwelling(env, copy.status, now) {
      pieces := [];
    } else {
      pieces := ReleaseInOneGo(env, s, id, copy, now, f);
    }
  }

  lemma CurrentVisitInOneGo(env: Env, s: State, id: Id, v: Visit) returns (pieces: seq<Piece>)
    requires s.unwinding.None? && Versioned(s.world) && id in s.world.store && v.view == Some(s.world.store[id])
    requires !v.faults.get && !s.world.store[id].deleting
    ensures Leads(env, s, pieces, WithWorld(s, Reconcile(env, s.world, id, v).0))
  {
    var policy := s.world.store[id];
    PrepareOnly(s.world, id, policy, v);
    PrepareAdvances(s.world, id, policy, v);
    var (w1, prepared) := Prepare(s.world, id, policy, v);
    pieces := [];
    if prepared.Some? && w1.store[id].status.phase == Mitigating {
      pieces := TryInOneGo(env, WithWorld(s, w1), id, w1.store[id], v.now, v.faults);
    }
    pieces := PrepareThen(env, s, id, v, pieces, WithWorld(s, Reconcile(env, s.world, id, v).0));
  }

  lemma OutdatedVisitInOneGo(env: Env, s: State, id: Id, v: Visit) returns (pieces: seq<Piece>)
    requires s.unwinding.None? && v.view.Some? && Known(s.world, id, v.view.value)
      && Outdated(s.world, id, v.view.value)
    requires !v.faults.get && !v.view.value.deleting
    ensures Leads(env, s, pieces, WithWorld(s, Reconcile(env, s.world, id, v).0))
  {
    var p := v.view.value;
    OutdatedPrepare(s.world, id, p, v);
    var (w1, prepared) := Prepare(s.world, id, p, v);
    pieces := [];
    if prepared.Some? && p.status.phase == Mitigating {
      pieces := TryInOneGo(env, WithWorld(s, w1), id, p, v.now, v.faults);
    }
    if p.finalizer {
      LeadsFrom(env, s, Index(id, p), pieces, WithWorld(s, Reconcile(env, s.world, id, v).0));
      pieces := [Index(id, p)] + pieces;
    }
  }

  /** Without interference the pieces are a whole reconciliation, on a view of any age. */
  lemma VisitInOneGo(env: Env, s: State, id: Id, v: Visit) returns (pieces: seq<Piece>)
    requires s.unwinding.None? && Versioned(s.world) && (v.view.Some? ==> Known(s.world, id, v.view.value))
    ensures Leads(env, s, pieces, WithWorld(s, Reconcile(env, s.world, id, v).0))
  {
    if v.faults.get {
      pieces := [];
    } else if v.view.None? {
      LeadsFrom(env, s, Unindex(id), [], WithWorld(s, IndexRemove(s.world, id)));
      pieces := [Unindex(id)] + [];
    } else if v.view.value.deleting {
      pieces := [];
      if v.view.value.finalizer { pieces := FinalizeInOneGo(env, s, id, v.view.value, v.faults); }
    } else if Outdated(s.world, id, v.view.value) {
      pieces := OutdatedVisitInOneGo(env, s, id, v);
    } else {
      pieces := CurrentVisitInOneGo(env, s, id, v);
    }
  }
}
