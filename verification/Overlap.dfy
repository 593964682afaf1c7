/** Where write-ahead fails once calls overlap, exactly: the guard of every piece, in
    every interleaving. */
module Overlap {
  import opened Prelude
  import opened TunnelText
  import opened Enforcement
  import opened Policies
  import opened ClusterState
  import opened ClosedLoop
  import opened WriteAheadRuns
  import opened CallPieces
  import W = ThreatScoreWatcher

  // ---------------------------------------------------------------- the invariant

  /** Some policy other than `id` names the drop. */
  ghost predicate NamedElsewhere(env: Env, w: World, id: Id, e: Entry) {
    exists k :: k in w.store && k != id && e in Claims(env.parse, w.store[k].status)
  }

  /** A drop that, were it in the kernel, would lose its only name to the end of the
      release. */
  ghost predicate Doomed(env: Env, s: State, e: Entry) {
    && StillCurrent(s) && e in Claims(env.parse, s.unwinding.value.copy.status)
    && e !in s.unwinding.value.todo && !NamedElsewhere(env, s.world, s.unwinding.value.id, e)
  }

  ghost predicate WellVersioned(s: State) {
    Versioned(s.world) && (s.unwinding.Some? ==> Known(s.world, s.unwinding.value.id, s.unwinding.value.copy))
  }

  ghost predicate FlightNamed(env: Env, s: State) {
    s.flight.Some? ==> forall e :: e in s.flight.value.todo ==> Named(env, s.world.store, e)
  }

  ghost predicate NoneDoomed(env: Env, s: State) {
    forall e :: e in s.world.kernel ==> !Doomed(env, s, e)
  }

  /** A final release goes by a policy that is being deleted. */
  predicate FinalDeletes(s: State) {
    s.unwinding.Some? && s.unwinding.value.final ==> s.unwinding.value.copy.deleting
  }

  ghost predicate Sound(env: Env, s: State) {
    Inv(env, s.world) && WellVersioned(s) && FlightNamed(env, s) && NoneDoomed(env, s) && FinalDeletes(s)
  }

  /** The end of the release goes through. */
  predicate Goes(s: State, fails: bool) {
    StillCurrent(s) && !fails
  }

  /** What the drops still to be placed need when `id` stops naming them. */
  ghost predicate FlightSpared(env: Env, s: State, id: Id) {
    s.flight.Some? ==> forall e :: e in s.flight.value.todo ==> NamedElsewhere(env, s.world, id, e)
  }

  /** The guards. A score goes on through an outdated copy only to drops that are
      named. A pass adds nothing that has lost its name since it was listed. No score
      and no pass puts back what a release has taken out and is about to stop
      claiming. No release ends, and no policy vanishes, on the last name of a drop
      that is in the kernel or still to be placed. No copy is indexed, or left in the
      index, that could place a drop its policy does not claim. */
  ghost predicate Calm(env: Env, s: State, piece: Piece)
    requires Enabled(env, s, piece)
  {
    match piece
    case Decide(id, copy, ev, o) =>
      Outdated(s.world, id, copy) && Written(env, s, id, copy, ev, o).1 ==>
        forall e :: e in W.Decide(env, copy, ev, o.killed).actions ==> Named(env, s.world.store, e)
    case Place(fault) => Lands(env, s, fault) ==> !Doomed(env, s, s.flight.value.todo[0])
    case Clear(fails) => Goes(s, fails) ==> FlightSpared(env, s, s.unwinding.value.id)
    case Erase(fails) => Goes(s, fails) ==> FlightSpared(env, s, s.unwinding.value.id)
    case Index(id, copy) => Covers(env, s.world.store, id, copy)
    case Vanish(id) =>
      && (id in s.world.index ==> Inert(env, s.world.index[id]))
      && (forall e :: e in s.world.kernel ==> NamedElsewhere(env, s.world, id, e))
      && FlightSpared(env, s, id)
      && (forall e :: e in s.world.kernel ==> !Doomed(env, WithWorld(s, Vanished(s.world, id)), e))
    case Repair(added) =>
      forall e :: e in added && e !in s.world.kernel ==> Named(env, s.world.store, e) && !Doomed(env, s, e)
    case _ => true
  }

  // ---------------------------------------------------------------- piece by piece

  /** The world moves on, and with it the versions. */
  lemma StillVersioned(s: State, s': State)
    requires WellVersioned(s) && Advances(s.world, s'.world)
    requires s'.unwinding == s.unwinding || s'.unwinding.None?
    requires forall id :: id in s'.world.index ==>
               || (id in s.world.index && s'.world.index[id] == s.world.index[id])
               || (id in s'.world.store && s'.world.index[id] == s'.world.store[id])
    ensures WellVersioned(s')
  {
    var w, w' := s.world, s'.world;
    forall id | id in w'.index ensures Known(w', id, w'.index[id]) {
      if id in w.index && w'.index[id] == w.index[id] { KnownKept(w, w', id, w.index[id]); }
    }
    if s'.unwinding.Some? { KnownKept(w, w', s.unwinding.value.id, s.unwinding.value.copy); }
  }

  /** What is doomed after a piece that loses no names and leaves the release alone was
      doomed before. */
  lemma DoomedBefore(env: Env, s: State, s': State, e: Entry)
    requires WellVersioned(s) && Advances(s.world, s'.world) && KeepsNames(env, s.world, s'.world)
    requires s'.unwinding == s.unwinding && Doomed(env, s', e)
    ensures Doomed(env, s, e)
  {
    var u := s.unwinding.value;
    assert u.id in s'.world.store && s'.world.store[u.id].version <= s.world.rev;
    assert u.id in s.world.store && s'.world.store[u.id] == s.world.store[u.id];
  }

  /** A piece that loses no names, adds nothing to the kernel and leaves the flight and
      the release alone. */
  lemma NamesKeptSound(env: Env, s: State, id: Id, s': State)
    requires LawfulParse(env.parse) && Sound(env, s) && Advances(s.world, s'.world)
    requires KeepsNames(env, s.world, s'.world) && s'.world.kernel <= s.world.kernel && Reindexed(s.world, id, s'.world)
    requires s'.flight == s.flight && s'.unwinding == s.unwinding
    ensures Sound(env, s')
  {
    InvKept(env, s.world, id, s'.world);
    StillVersioned(s, s');
    if s.flight.Some? {
      forall e | e in s.flight.value.todo
        ensures Named(env, s'.world.store, e) { NamesKept(env, s.world, s'.world, e); }
    }
    forall e | e in s'.world.kernel ensures !Doomed(env, s', e) {
      if Doomed(env, s', e) {
        DoomedBefore(env, s, s', e);
        assert false;
      }
    }
  }

  lemma DecideOutdatedExact(env: Env, s: State, piece: Piece)
    requires Sound(env, s) && piece.Decide? && Enabled(env, s, piece) && Outdated(s.world, piece.id, piece.copy)
    ensures Sound(env, Do(env, s, piece)) <==> Calm(env, s, piece)
  {
    var d := W.Decide(env, piece.copy, piece.ev, piece.o.killed);
    OutdatedWrite(s.world, piece.id, piece.copy, d.status, piece.o);
    var s' := AfterDecide(env, s, piece.id, piece.copy, piece.ev, piece.o);
    assert s' == s.(flight := s'.flight);
    forall e ensures Doomed(env, s', e) <==> Doomed(env, s, e) {}
  }

  lemma DecideCurrentSound(env: Env, s: State, id: Id, ev: W.Score, o: W.Oracle)
    requires LawfulParse(env.parse) && Sound(env, s) && s.flight.None? && id in s.world.store
    ensures Sound(env, AfterDecide(env, s, id, s.world.store[id], ev, o))
  {
    var s' := AfterDecide(env, s, id, s.world.store[id], ev, o);
    var d := W.Decide(env, s.world.store[id], ev, o.killed);
    CurrentWrite(env, s.world, id, ev, o);
    NamesKeptSound(env, s, id, s'.(flight := None));
    if s'.flight.Some? {
      forall e | e in d.actions ensures Named(env, s'.world.store, e) {
        assert e in Claims(env.parse, s'.world.store[id].status);
      }
    }
    forall e ensures Doomed(env, s', e) <==> Doomed(env, s'.(flight := None), e) {}
  }

  lemma DecideExact(env: Env, s: State, piece: Piece)
    requires LawfulParse(env.parse) && Sound(env, s) && piece.Decide? && Enabled(env, s, piece)
    ensures Sound(env, Do(env, s, piece)) <==> Calm(env, s, piece)
  {
    if Outdated(s.world, piece.id, piece.copy) {
      DecideOutdatedExact(env, s, piece);
    } else {
      DecideCurrentSound(env, s, piece.id, piece.ev, piece.o);
    }
  }

  lemma PlaceExact(env: Env, s: State, piece: Piece)
    requires Sound(env, s) && piece.Place? && Enabled(env, s, piece)
    ensures Sound(env, Do(env, s, piece)) <==> Calm(env, s, piece)
  {
    var s', e := AfterPlace(env, s, piece.fault), s.flight.value.todo[0];
    forall x ensures Doomed(env, s', x) <==> Doomed(env, s, x) {}
    assert Named(env, s.world.store, e);
    if Lands(env, s, piece.fault) {
      MoreKernelNamed(env, s.world, s'.world.kernel);
      assert e in s'.world.kernel;
    }
  }

  lemma BeginSound(env: Env, s: State, piece: Piece)
    requires Sound(env, s) && (piece.Begin? || piece.BeginFinal?) && Enabled(env, s, piece)
    ensures Sound(env, Do(env, s, piece))
  {
  }

  lemma TakeOutSound(env: Env, s: State, piece: Piece)
    requires Sound(env, s) && piece.TakeOut? && Enabled(env, s, piece)
    ensures Sound(env, Do(env, s, piece))
  {
    var s', u := AfterTakeOut(s, piece.fault), s.unwinding.value;
    forall e | e in s'.world.kernel ensures !Doomed(env, s', e) {
      assert !Doomed(env, s, e);
      if e in u.todo && s'.unwinding.Some? { assert e == u.todo[0] || e in u.todo[1..]; }
    }
  }

  /** When a policy stops naming its drops, what remains named is named elsewhere. */
  lemma NamedWithout(env: Env, w: World, id: Id, store': map<Id, Policy>, e: Entry)
    requires id in store' ==> !HoldsBlocks(store'[id].status)
    requires forall k :: k != id ==> Get(store', k) == Get(w.store, k)
    ensures Named(env, store', e) <==> NamedElsewhere(env, w, id, e)
  {
    if id in store' { NoClaims(env, store'[id].status); }
    if Named(env, store', e) {
      var k :| k in store' && e in Claims(env.parse, store'[k].status);
      assert k != id && Get(store', k) == Get(w.store, k);
    }
    if NamedElsewhere(env, w, id, e) {
      var k :| k in w.store && k != id && e in Claims(env.parse, w.store[k].status);
      assert Get(store', k) == Get(w.store, k);
    }
  }

  lemma KernelNamedElsewhere(env: Env, s: State, e: Entry)
    requires Sound(env, s) && StillCurrent(s) && s.unwinding.value.todo == [] && e in s.world.kernel
    ensures NamedElsewhere(env, s.world, s.unwinding.value.id, e)
  {
    assert !Doomed(env, s, e);
    assert Named(env, s.world.store, e);
  }

  /** A release that has taken everything out and goes through its end. */
  lemma EndExact(env: Env, s: State, s': State)
    requires LawfulParse(env.parse) && Sound(env, s) && StillCurrent(s) && s.unwinding.value.todo == []
    requires s' == s.(world := s'.world, unwinding := None) && Advances(s.world, s'.world)
    requires s'.world.kernel == s.world.kernel
    requires var id := s.unwinding.value.id;
             && (id in s'.world.store ==> !HoldsBlocks(s'.world.store[id].status))
             && (forall k :: k != id ==> Get(s'.world.store, k) == Get(s.world.store, k))
             && (forall k :: k != id ==> Get(s'.world.index, k) == Get(s.world.index, k))
             && (id in s'.world.index ==> id in s'.world.store && s'.world.index[id] == s'.world.store[id])
    ensures Sound(env, s') <==> FlightSpared(env, s, s.unwinding.value.id)
  {
    var id := s.unwinding.value.id;
    forall e ensures Named(env, s'.world.store, e) <==> NamedElsewhere(env, s.world, id, e) {
      NamedWithout(env, s.world, id, s'.world.store, e);
    }
    forall e | e in s.world.kernel ensures Named(env, s'.world.store, e) { KernelNamedElsewhere(env, s, e); }
    OthersCovered(env, s.world, id, s'.world);
    forall k | k in s'.world.index
      ensures (k in s.world.index && s'.world.index[k] == s.world.index[k]) ||
              (k in s'.world.store && s'.world.index[k] == s'.world.store[k])
    {
      if k != id { assert Get(s'.world.index, k) == Get(s.world.index, k); }
    }
    StillVersioned(s, s');
  }

  lemma ClearExact(env: Env, s: State, piece: Piece)
    requires LawfulParse(env.parse) && Sound(env, s) && piece.Clear? && Enabled(env, s, piece)
    ensures Sound(env, Do(env, s, piece)) <==> Calm(env, s, piece)
  {
    var s' := AfterClear(s, piece.fails);
    if Goes(s, piece.fails) {
      EndExact(env, s, s');
    } else {
      assert s' == s.(unwinding := None);
    }
  }

  lemma EraseExact(env: Env, s: State, piece: Piece)
    requires LawfulParse(env.parse) && Sound(env, s) && piece.Erase? && Enabled(env, s, piece)
    ensures Sound(env, Do(env, s, piece)) <==> Calm(env, s, piece)
  {
    var s' := AfterErase(s, piece.fails);
    if Goes(s, piece.fails) {
      EndExact(env, s, s');
    } else {
      assert s' == s.(unwinding := None);
    }
  }

  lemma IndexExact(env: Env, s: State, piece: Piece)
    requires Sound(env, s) && piece.Index? && Enabled(env, s, piece)
    ensures Sound(env, Do(env, s, piece)) <==> Calm(env, s, piece)
  {
    var s' := WithWorld(s, IndexPut(s.world, piece.id, piece.copy));
    forall e ensures Doomed(env, s', e) <==> Doomed(env, s, e) {}
    forall k | k in s'.world.index ensures Known(s'.world, k, s'.world.index[k]) {
      if k != piece.id { assert k in s.world.index && s'.world.index[k] == s.world.index[k]; }
    }
    assert piece.id in s'.world.index && s'.world.index[piece.id] == piece.copy;
    forall k | k in s'.world.index && k != piece.id ensures Covers(env, s'.world.store, k, s'.world.index[k]) {
      assert k in s.world.index && s'.world.index[k] == s.world.index[k];
    }
  }

  lemma UnindexSound(env: Env, s: State, piece: Piece)
    requires Sound(env, s) && piece.Unindex? && Enabled(env, s, piece)
    ensures Sound(env, Do(env, s, piece))
  {
    var s' := WithWorld(s, IndexRemove(s.world, piece.id));
    forall e ensures Doomed(env, s', e) <==> Doomed(env, s, e) {}
  }

  lemma RewriteSound(env: Env, s: State, piece: Piece)
    requires LawfulParse(env.parse) && Sound(env, s) && (piece.Rewrite? || piece.Appear?) && Enabled(env, s, piece)
    ensures Sound(env, Do(env, s, piece))
  {
    var s' := Do(env, s, piece);
    SameListsKeepNames(env, s.world, s'.world);
    NamesKeptSound(env, s, piece.id, s');
  }

  lemma VanishExactly(env: Env, s: State, piece: Piece)
    requires Sound(env, s) && piece.Vanish? && Enabled(env, s, piece)
    ensures Sound(env, Do(env, s, piece)) <==> Calm(env, s, piece)
  {
    var id, s' := piece.id, WithWorld(s, Vanished(s.world, piece.id));
    forall e ensures Named(env, s'.world.store, e) <==> NamedElsewhere(env, s.world, id, e) {
      NamedWithout(env, s.world, id, s'.world.store, e);
    }
    StillVersioned(s, s');
    if id in s.world.index { GoneCoversExact(env, s'.world.store, id, s.world.index[id]); }
    forall k | k in s.world.index && k != id ensures Covers(env, s'.world.store, k, s.world.index[k]) {
      assert Covers(env, s.world.store, k, s.world.index[k]) && Get(s'.world.store, k) == Get(s.world.store, k);
    }
  }

  lemma KernelSound(env: Env, s: State, piece: Piece)
    requires Sound(env, s) && (piece.List? || piece.Shrink? || piece.Abandon?) && Enabled(env, s, piece)
    ensures Sound(env, Do(env, s, piece))
  {
    var s' := Do(env, s, piece);
    forall e | e in s'.world.kernel ensures !Doomed(env, s', e) { assert !Doomed(env, s, e); }
  }

  lemma RepairExact(env: Env, s: State, piece: Piece)
    requires Sound(env, s) && piece.Repair? && Enabled(env, s, piece)
    ensures Sound(env, Do(env, s, piece)) <==> Calm(env, s, piece)
  {
    var s' := WithKernel(s, s.world.kernel + piece.added);
    forall e ensures Doomed(env, s', e) <==> Doomed(env, s, e) {}
    if Sound(env, s') {
      forall e | e in piece.added ensures Named(env, s.world.store, e) && !Doomed(env, s, e) {
        assert e in s'.world.kernel;
      }
    }
  }

  /** Exactly where overlapping calls break write-ahead: from a sound state, and so
      over any run of such states, a piece leaves a sound state if and only if it
      is calm. */
  lemma OverlapExact(env: Env, s: State, piece: Piece)
    requires LawfulParse(env.parse) && Sound(env, s) && Enabled(env, s, piece)
    ensures Sound(env, Do(env, s, piece)) <==> Calm(env, s, piece)
  {
    match piece
    case Decide(_, _, _, _) => DecideExact(env, s, piece);
    case Place(_) => PlaceExact(env, s, piece);
    case Begin(_, _, _) => BeginSound(env, s, piece);
    case BeginFinal(_, _) => BeginSound(env, s, piece);
    case TakeOut(_) => TakeOutSound(env, s, piece);
    case Clear(_) => ClearExact(env, s, piece);
    case Erase(_) => EraseExact(env, s, piece);
    case Abandon => KernelSound(env, s, piece);
    case Index(_, _) => IndexExact(env, s, piece);
    case Unindex(_) => UnindexSound(env, s, piece);
    case Rewrite(_, _) => RewriteSound(env, s, piece);
    case Appear(_, _) => RewriteSound(env, s, piece);
    case Vanish(_) => VanishExactly(env, s, piece);
    case List(_) => KernelSound(env, s, piece);
    case Repair(_) => RepairExact(env, s, piece);
    case Shrink(_) => KernelSound(env, s, piece);
  }

  ghost predicate AllCalm(env: Env, s: State, pieces: seq<Piece>)
    decreases |pieces|
  {
    pieces == [] ||
    (Enabled(env, s, pieces[0]) && Calm(env, s, pieces[0]) && AllCalm(env, Do(env, s, pieces[0]), pieces[1..]))
  }

  /** Write-ahead over every calm interleaving. */
  lemma {:induction false} CalmKeepsWriteAhead(env: Env, s: State, pieces: seq<Piece>, s': State)
    requires LawfulParse(env.parse) && Sound(env, s) && Leads(env, s, pieces, s') && AllCalm(env, s, pieces)
    ensures Sound(env, s') && WriteAhead(env, s'.world)
    decreases |pieces|
  {
    if pieces != [] {
      OverlapExact(env, s, pieces[0]);
      CalmKeepsWriteAhead(env, Do(env, s, pieces[0]), pieces[1..], s');
    }
  }

  /** Every orderly run of complete calls is a place to start from. */
  lemma RunsAreSound(env: Env, states: seq<System>, steps: seq<Step>, i: nat)
    requires LawfulParse(env.parse) && Run(env, states, steps) && i < |states|
    requires forall k :: 0 <= k < i ==> Orderly(env, states[k], steps[k])
    ensures Sound(env, State(states[i].world, {}, None, None))
  {
    WriteAheadAlways(env, states, steps, i);
    RunVersioned(env, states, steps, i);
  }

  // ---------------------------------------------------------------- what a disturbance costs

  /** After the end of a release a drop is named exactly if another policy names it. */
  lemma NamedAfterClear(env: Env, s: State, e: Entry)
    requires WellVersioned(s) && StillCurrent(s)
    ensures Named(env, AfterClear(s, false).world.store, e) <==> NamedElsewhere(env, s.world, s.unwinding.value.id, e)
  {
    NamedWithout(env, s.world, s.unwinding.value.id, AfterClear(s, false).world.store, e);
  }

  /** A release that goes on without failures takes out what it has left to take out,
      and its policy stops naming anything. */
  lemma EndsUnnaming(env: Env, s: State, end: Piece)
    requires WellVersioned(s) && FinalDeletes(s) && StillCurrent(s)
    requires end == if s.unwinding.value.final then Erase(false) else Clear(false)
    requires forall x :: x in s.unwinding.value.todo ==> Enforceable(x)
    ensures var u, w := s.unwinding.value, Finished(env, s, {}, end).world;
            && w.kernel == s.world.kernel - Elements(u.todo)
            && (u.id in w.store ==> !HoldsBlocks(w.store[u.id].status))
            && forall k :: k != u.id ==> Get(w.store, k) == Get(s.world.store, k)
  {
    ReleaseEffect(s.world.kernel, s.unwinding.value.todo, {});
  }

  /** Once a doomed drop is in the kernel, the release needs only to go on without
      failures, and the drop has lost its name. */
  lemma DoomedIsOrphaned(env: Env, s: State, e: Entry) returns (pieces: seq<Piece>, s': State)
    requires WellVersioned(s) && FinalDeletes(s) && Doomed(env, s, e) && e in s.world.kernel
    requires forall x :: x in s.unwinding.value.todo ==> Enforceable(x)
    ensures Leads(env, s, pieces, s') && e in s'.world.kernel && !Named(env, s'.world.store, e)
  {
    var u := s.unwinding.value;
    var end := if u.final then Erase(false) else Clear(false);
    pieces := ReleaseServed(env, s, {}, end);
    s' := Finished(env, s, {}, end);
    EndsUnnaming(env, s, end);
    NamedWithout(env, s.world, u.id, s'.world.store, e);
  }

  /** The race in its simplest form: a score repeats a block between the release's
      last unblock and its clear. If its status write was throttled the clear goes
      through and the drop is left with no name; if it was written, the clear
      meets a newer version, is refused, and the drop keeps its name. */
  lemma RepeatDuringReleaseExact(env: Env, s: State, ev: W.Score, o: W.Oracle)
    requires LawfulParse(env.parse) && Sound(env, s) && s.flight.None? && !o.apiFails
    requires StillCurrent(s) && s.unwinding.value.todo == [] && !s.unwinding.value.final
    requires var d := W.Decide(env, s.unwinding.value.copy, ev, o.killed);
             && d.actions != [] && d.actions[0] in Claims(env.parse, s.unwinding.value.copy.status)
             && !NamedElsewhere(env, s.world, s.unwinding.value.id, d.actions[0])
             && Accepts(s.world.kernel, env.cap, d.actions[0])
    ensures var u := s.unwinding.value;
            var s1 := AfterDecide(env, s, u.id, u.copy, ev, o);
            s1.flight.Some? && s1.flight.value.todo != [] &&
            var s2 := AfterPlace(env, s1, false);
            s2.unwinding.Some? &&
            (WriteAhead(env, AfterClear(s2, false).world) <==>
             !W.Throttled(u.copy.status, W.Decide(env, u.copy, ev, o.killed).status, o.allowed))
  {
    var u := s.unwinding.value;
    var d := W.Decide(env, u.copy, ev, o.killed);
    var s1 := AfterDecide(env, s, u.id, u.copy, ev, o);
    DecideCurrentSound(env, s, u.id, ev, o);
    if W.Throttled(u.copy.status, d.status, o.allowed) {
      RepeatOrphans(env, s1, d.actions[0]);
    } else {
      assert !StillCurrent(s1);
      RefusedClear(env, s1);
    }
  }

  lemma RepeatOrphans(env: Env, s: State, e: Entry)
    requires Sound(env, s) && StillCurrent(s) && s.unwinding.value.todo == []
    requires s.flight.Some? && s.flight.value.todo != [] && s.flight.value.todo[0] == e
    requires Accepts(s.world.kernel, env.cap, e) && !NamedElsewhere(env, s.world, s.unwinding.value.id, e)
    ensures !WriteAhead(env, AfterClear(AfterPlace(env, s, false), false).world)
  {
    var s2 := AfterPlace(env, s, false);
    assert NamedElsewhere(env, s2.world, s.unwinding.value.id, e) <==>
           NamedElsewhere(env, s.world, s.unwinding.value.id, e);
    NamedAfterClear(env, s2, e);
    assert e in AfterClear(s2, false).world.kernel;
  }

  lemma RefusedClear(env: Env, s: State)
    requires Sound(env, s) && s.unwinding.Some? && !StillCurrent(s)
    requires s.flight.Some? && s.flight.value.todo != []
    ensures WriteAhead(env, AfterClear(AfterPlace(env, s, false), false).world)
  {
    PlaceExact(env, s, Place(false));
  }

  /** The other way round: a clear that is not calm leaves a score with a drop to
      place that nobody names any more. */
  lemma ClearedFlightOrphans(env: Env, s: State)
    requires Sound(env, s) && StillCurrent(s) && s.flight.Some? && s.flight.value.todo != []
    requires Accepts(s.world.kernel, env.cap, s.flight.value.todo[0])
    requires !NamedElsewhere(env, s.world, s.unwinding.value.id, s.flight.value.todo[0])
    ensures !WriteAhead(env, AfterPlace(env, AfterClear(s, false), false).world)
  {
    var e := s.flight.value.todo[0];
    NamedAfterClear(env, s, e);
    var s2 := AfterPlace(env, AfterClear(s, false), false);
    assert e in s2.world.kernel && s2.world.store == AfterClear(s, false).world.store;
  }

  // ---------------------------------------------------------------- as runs

  /** One policy with its one block, as WarmedBlock leaves it. */
  function OneBlocked(id: Id, ev: W.Score, addr: Addr): World {
    var p := Policy(BLOCK_SOURCE, BlockedStatus(FRESH_STATUS, ev), false, false, 2);
    World(map[id := p], map[id := p], {Source(addr)}, 2)
  }

  lemma OneClaim(env: Env, ev: W.Score, addr: Addr)
    requires env.parse(ev.source) == Some(addr)
    ensures Claims(env.parse, BlockedStatus(FRESH_STATUS, ev)) == [Source(addr)]
  {
    assert [ev.source][1..] == [];
    assert SourceClaims(env.parse, [ev.source]) == [Source(addr)];
  }

  lemma OneBlockedSound(env: Env, id: Id, ev: W.Score, addr: Addr)
    requires LawfulParse(env.parse) && env.parse(ev.source) == Some(addr)
    ensures Sound(env, State(OneBlocked(id, ev, addr), {}, None, None))
  {
    OneClaim(env, ev, addr);
    var w := OneBlocked(id, ev, addr);
    assert id in w.store && Source(addr) in Claims(env.parse, w.store[id].status);
    ListedCovers(env, w.store, id, w.index[id]);
  }

  /** Its release, cut just before the clear. */
  lemma Unblocked(env: Env, id: Id, ev: W.Score, addr: Addr) returns (begin: Piece, s: State)
    requires LawfulParse(env.parse) && env.parse(ev.source) == Some(addr)
    ensures var s0 := State(OneBlocked(id, ev, addr), {}, None, None);
            && begin.Begin? && Enabled(env, s0, begin)
            && Enabled(env, Do(env, s0, begin), TakeOut(false)) && s == Do(env, Do(env, s0, begin), TakeOut(false))
    ensures var w := OneBlocked(id, ev, addr);
            s == State(w.(kernel := {}), {}, None, Some(Unwinding(id, w.store[id], [], false)))
    ensures Sound(env, s)
  {
    OneClaim(env, ev, addr);
    OneBlockedSound(env, id, ev, addr);
    var w := OneBlocked(id, ev, addr);
    begin := Begin(id, w.store[id], ev.now + (if env.dwell > 0 then env.dwell else 0));
    var s0 := State(w, {}, None, None);
    s := Do(env, Do(env, s0, begin), TakeOut(false));
    assert [Source(addr)][1..] == [] && {Source(addr)} - {Source(addr)} == {};
    BeginSound(env, s0, begin);
    TakeOutSound(env, Do(env, s0, begin), TakeOut(false));
  }

  lemma RaceDecides(env: Env, s: State, id: Id, ev: W.Score, addr: Addr)
    requires LawfulParse(env.parse) && Sound(env, s)
    requires ev.value >= 1.0 && ev.teid == 0 && env.parse(ev.source) == Some(addr)
    requires env.cap(MapOf(Source(addr))) > 0
    requires var w := OneBlocked(id, ev, addr);
             s == State(w.(kernel := {}), {}, None, Some(Unwinding(id, w.store[id], [], false)))
    ensures var s1 := AfterDecide(env, s, id, s.world.store[id], ev, PLAIN);
            s1.flight.Some? && s1.flight.value.todo != [] &&
            var s2 := AfterPlace(env, s1, false);
            && s2.unwinding.Some? && s2.unwinding.value.todo == [] && !s2.unwinding.value.final
            && !WriteAhead(env, AfterClear(s2, false).world)
  {
    var p := s.world.store[id];
    OneClaim(env, ev, addr);
    TopScoreCrosses(env, p, ev);
    var d := W.Decide(env, p, ev, false);
    assert d.actions == [Source(addr)] && d.status.blockedIPs == [ev.source];
    assert W.Throttled(p.status, d.status, false);
    assert Within({}, MapOf(Source(addr))) == {};
    assert !NamedElsewhere(env, s.world, id, Source(addr));
    RepeatDuringReleaseExact(env, s, ev, PLAIN);
  }

  lemma RaceTail(env: Env, s: State, id: Id, ev: W.Score, addr: Addr) returns (pieces: seq<Piece>, s': State)
    requires LawfulParse(env.parse) && Sound(env, s)
    requires ev.value >= 1.0 && ev.teid == 0 && env.parse(ev.source) == Some(addr)
    requires env.cap(MapOf(Source(addr))) > 0
    requires var w := OneBlocked(id, ev, addr);
             s == State(w.(kernel := {}), {}, None, Some(Unwinding(id, w.store[id], [], false)))
    ensures pieces == [Decide(id, s.world.index[id], ev, PLAIN), Place(false), Clear(false)]
    ensures Leads(env, s, pieces, s') && !WriteAhead(env, s'.world)
  {
    RaceDecides(env, s, id, ev, addr);
    var decide := Decide(id, s.world.index[id], ev, PLAIN);
    var s1 := AfterDecide(env, s, id, s.world.store[id], ev, PLAIN);
    var s2 := AfterPlace(env, s1, false);
    s' := AfterClear(s2, false);
    LeadsFrom(env, s2, Clear(false), [], s');
    LeadsFrom(env, s1, Place(false), [Clear(false)], s');
    LeadsFrom(env, s, decide, [Place(false)] + [Clear(false)], s');
    pieces := [decide] + ([Place(false)] + [Clear(false)]);
  }

  lemma RaceFrom(env: Env, id: Id, ev: W.Score, addr: Addr) returns (pieces: seq<Piece>, s': State)
    requires LawfulParse(env.parse)
    requires ev.value >= 1.0 && ev.teid == 0 && env.parse(ev.source) == Some(addr)
    requires env.cap(MapOf(Source(addr))) > 0
    ensures Leads(env, State(OneBlocked(id, ev, addr), {}, None, None), pieces, s') && !WriteAhead(env, s'.world)
    ensures |pieces| == 5 && pieces[0].Begin? && pieces[1] == TakeOut(false) && pieces[2].Decide?
    ensures pieces[2].o == PLAIN && pieces[3] == Place(false) && pieces[4] == Clear(false)
  {
    var s0 := State(OneBlocked(id, ev, addr), {}, None, None);
    var begin, s2 := Unblocked(env, id, ev, addr);
    var last;
    last, s' := RaceTail(env, s2, id, ev, addr);
    LeadsFrom(env, Do(env, s0, begin), TakeOut(false), last, s');
    LeadsFrom(env, s0, begin, [TakeOut(false)] + last, s');
    pieces := [begin] + ([TakeOut(false)] + last);
  }

  /** The race as a run: from a block that a run of complete calls has placed, its
      release begins and takes the drop out, a repeat of the score is throttled and
      puts it back, and the clear takes its name away. */
  lemma ThrottledRepeatRaces(env: Env, id: Id, ev: W.Score, addr: Addr)
    returns (states: seq<System>, calls: seq<Step>, pieces: seq<Piece>, s': State)
    requires LawfulParse(env.parse)
    requires ev.value >= 1.0 && ev.teid == 0 && env.parse(ev.source) == Some(addr)
    requires env.cap(MapOf(Source(addr))) > 0
    ensures Run(env, states, calls) && AllCurrent(states, calls) && |calls| == 3
    ensures Leads(env, State(states[3].world, {}, None, None), pieces, s') && !WriteAhead(env, s'.world)
    ensures |pieces| == 5 && pieces[0].Begin? && pieces[1] == TakeOut(false) && pieces[2].Decide?
    ensures pieces[2].o == PLAIN && pieces[3] == Place(false) && pieces[4] == Clear(false)
  {
    states, calls := WarmedBlock(env, id, ev, addr);
    pieces, s' := RaceFrom(env, id, ev, addr);
  }
}
