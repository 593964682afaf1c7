/** What one threat score does to one policy and to the kernel, field by field
    (applyPolicy of pkg/controller/threat_score_watcher.go). */
module ScoreOutcomes {
  import opened Prelude
  import opened TunnelText
  import opened Enforcement
  import opened Policies
  import opened ClusterState
  import opened ThreatScoreWatcher

  // ---------------------------------------------------------------- when a score crosses

  /** A high sensitivity policy acts from four fifths of the base threshold on, a
      low one from six fifths; a top score crosses anyway. */
  predicate Crossed(base: real, s: Sensitivity, value: real) {
    value >= 1.0 ||
    match s
    case High => value >= 0.8 * base
    case Medium => value >= base
    case Low => value >= 1.2 * base
    case Other => value >= base
  }

  lemma CrossingExact(env: Env, policy: Policy, ev: Score)
    ensures Crosses(env, policy, ev) <==> Crossed(env.baseThreshold, policy.spec.sensitivity, ev.value)
  {
    var base := env.baseThreshold;
    assert base * 0.8 == 0.8 * base && base * 1.2 == 1.2 * base && base * 1.0 == base;
  }

  /** The more sensitive policy crosses whenever the less sensitive one does. */
  lemma CrossingOrder(env: Env, low: Policy, medium: Policy, high: Policy, ev: Score)
    requires env.baseThreshold >= 0.0
    requires low.spec.sensitivity == Low && medium.spec.sensitivity == Medium && high.spec.sensitivity == High
    ensures Crosses(env, low, ev) ==> Crosses(env, medium, ev)
    ensures Crosses(env, medium, ev) ==> Crosses(env, high, ev)
  {
    CrossingExact(env, low, ev);
    CrossingExact(env, medium, ev);
    CrossingExact(env, high, ev);
  }

  // ---------------------------------------------------------------- what it then does

  /** It crosses, and the action is not withheld. */
  predicate Armed(env: Env, policy: Policy, ev: Score, o: Oracle) {
    Crossed(env.baseThreshold, policy.spec.sensitivity, ev.value) && policy.spec.autoMitigate && !o.killed
  }

  predicate AsksTunnel(env: Env, policy: Policy, ev: Score) {
    policy.spec.ebpfBlockTunnel && env.parse(ev.source).Some? && ev.teid != 0
  }

  predicate AsksSource(env: Env, policy: Policy, ev: Score) {
    policy.spec.ebpfBlock && env.parse(ev.source).Some?
  }

  function Wanted(env: Env, policy: Policy, ev: Score): set<Entry> {
    (if AsksTunnel(env, policy, ev) then {Tunnel(env.parse(ev.source).value, ev.teid)} else {}) +
    (if AsksSource(env, policy, ev) then {Source(env.parse(ev.source).value)} else {})
  }

  /** `next` is what the score makes of the status: below the threshold a running
      mitigation goes on and anything else is under monitoring; a withheld crossing
      alerts; and an armed one mitigates, from now, with what it asks for on the
      lists. */
  ghost predicate Becomes(env: Env, policy: Policy, ev: Score, o: Oracle, next: Status) {
    var was, crossed := policy.status, Crossed(env.baseThreshold, policy.spec.sensitivity, ev.value);
    var armed, text := Armed(env, policy, ev, o), FormatTunnel(ev.source, ev.teid);
    && next.observedScore == ev.value
    && next.phase == (if armed then Mitigating else if crossed then Alerting
                      else if was.phase == Mitigating then Mitigating else Monitoring)
    && next.lastMitigation == (if armed then Some(ev.now) else was.lastMitigation)
    && next.blockedTunnels ==
       was.blockedTunnels + (if armed && AsksTunnel(env, policy, ev) && text !in was.blockedTunnels then [text] else [])
    && next.blockedIPs ==
       was.blockedIPs +
       (if armed && AsksSource(env, policy, ev) && ev.source !in was.blockedIPs then [ev.source] else [])
  }

  /** The score changes the phase or a list. */
  predicate Decides(was: Status, next: Status) {
    next.phase != was.phase || next.blockedIPs != was.blockedIPs || next.blockedTunnels != was.blockedTunnels
  }

  lemma DecisionIs(env: Env, policy: Policy, ev: Score, o: Oracle)
    ensures var d := Decide(env, policy, ev, o.killed);
            && Becomes(env, policy, ev, o, d.status)
            && (DecisionChanged(policy.status, d.status) <==> Decides(policy.status, d.status))
            && Elements(d.actions) == (if Armed(env, policy, ev, o) then Wanted(env, policy, ev) else {})
  {
    CrossingExact(env, policy, ev);
    var d := Decide(env, policy, ev, o.killed);
    assert d.status.blockedIPs == policy.status.blockedIPs ==>
      SameStrings(policy.status.blockedIPs, d.status.blockedIPs);
  }

  /** The write of the decision is due, and went through. */
  ghost predicate Persisted(w: World, id: Id, next: Status, w': World) {
    && id in w.store
    && w'.store == w.store[id := w.store[id].(status := next, version := w.rev + 1)]
    && w'.index == w.index[id := w'.store[id]]
  }

  /** The whole outcome of a successful call: the kernel has what an armed score
      asks for besides what it had; and the policy's status becomes what the score
      makes of it, in the store and in the index, with everything else of the policy
      and every other policy as it was. Only a score that decides nothing may be left
      unwritten, and only for want of a token. */
  lemma ScoreOutcome(env: Env, w: World, id: Id, policy: Policy, ev: Score, o: Oracle)
    requires !ApplyTo(env, w, id, policy, ev, o).1
    ensures var w' := ApplyTo(env, w, id, policy, ev, o).0;
            && w'.kernel == w.kernel + (if Armed(env, policy, ev, o) then Wanted(env, policy, ev) else {})
            && exists next :: Becomes(env, policy, ev, o, next) &&
                              if o.allowed || Decides(policy.status, next) then Persisted(w, id, next, w')
                              else w'.store == w.store && w'.index == w.index
  {
    DecisionIs(env, policy, ev, o);
    var d := Decide(env, policy, ev, o.killed);
    var (w1, written) := WriteStatus(w, id, policy, d.status, o);
    BlockAllEffect(env.cap, w1.kernel, d.actions, o.kernelFaults);
    assert Becomes(env, policy, ev, o, d.status);
  }

  /** A due write that is refused ends the call with an error and no block. */
  lemma RefusedBlocksNothing(env: Env, w: World, id: Id, policy: Policy, ev: Score, o: Oracle, next: Status)
    requires Becomes(env, policy, ev, o, next) && (o.allowed || Decides(policy.status, next))
    requires o.apiFails || id !in w.store || w.store[id].version != policy.version
    ensures ApplyTo(env, w, id, policy, ev, o) == (w, true)
  {
    DecisionIs(env, policy, ev, o);
    assert next == Decide(env, policy, ev, o.killed).status;
  }

  // ---------------------------------------------------------------- when it fails

  /** The loader takes the entry: no fault, and a slot of its own or a free one. */
  predicate Takes(env: Env, w: World, o: Oracle, e: Entry) {
    e !in o.kernelFaults && (e in w.kernel || |Within(w.kernel, MapOf(e))| < env.cap(MapOf(e)))
  }

  predicate TakesTunnel(env: Env, w: World, policy: Policy, ev: Score, o: Oracle) {
    AsksTunnel(env, policy, ev) ==> Takes(env, w, o, Tunnel(env.parse(ev.source).value, ev.teid))
  }

  predicate TakesSource(env: Env, w: World, policy: Policy, ev: Score, o: Oracle) {
    AsksSource(env, policy, ev) ==> Takes(env, w, o, Source(env.parse(ev.source).value))
  }

  /** The two blocks of one score go to different maps. */
  lemma SourceAfterTunnel(env: Env, w: World, t: Entry, s: Entry)
    requires t.Tunnel? && s.Source?
    ensures Within(w.kernel + {t}, MapOf(s)) == Within(w.kernel, MapOf(s)) && (s in w.kernel + {t} <==> s in w.kernel)
  {
  }

  lemma ActionsTaken(env: Env, w: World, policy: Policy, ev: Score, o: Oracle)
    ensures var (kernel, ok) := BlockAll(env.cap, w.kernel, Actions(env, policy.spec, ev), o.kernelFaults);
            && (ok <==> TakesTunnel(env, w, policy, ev, o) && TakesSource(env, w, policy, ev, o))
            && (!TakesTunnel(env, w, policy, ev, o) ==> kernel == w.kernel)
            && (AsksTunnel(env, policy, ev) && TakesTunnel(env, w, policy, ev, o) ==>
                  Tunnel(env.parse(ev.source).value, ev.teid) in kernel)
  {
    if env.parse(ev.source).Some? {
      var t, s := Tunnel(env.parse(ev.source).value, ev.teid), Source(env.parse(ev.source).value);
      var rest := if AsksSource(env, policy, ev) then [s] else [];
      SourceAfterTunnel(env, w, t, s);
      BlockAllStep(env.cap, w.kernel, t, rest, o.kernelFaults);
      BlockAllStep(env.cap, w.kernel, s, [], o.kernelFaults);
      BlockAllStep(env.cap, w.kernel + {t}, s, [], o.kernelFaults);
      BlockAllStep(env.cap, w.kernel + {s}, s, [], o.kernelFaults);
      BlockAllStep(env.cap, w.kernel + {t} + {s}, s, [], o.kernelFaults);
      assert [s] + [] == [s];
      assert Actions(env, policy.spec, ev) == if AsksTunnel(env, policy, ev) then [t] + rest else rest;
    }
  }

  lemma AllTaken(env: Env, w: World, policy: Policy, ev: Score, o: Oracle)
    ensures TakesTunnel(env, w, policy, ev, o) && TakesSource(env, w, policy, ev, o) <==>
            forall e :: e in Wanted(env, policy, ev) ==> Takes(env, w, o, e)
  {
    if AsksTunnel(env, policy, ev) {
      assert Tunnel(env.parse(ev.source).value, ev.teid) in Wanted(env, policy, ev);
    }
    if AsksSource(env, policy, ev) { assert Source(env.parse(ev.source).value) in Wanted(env, policy, ev); }
  }

  /** A call fails exactly if its due write is refused, or, on an armed score, an
      entry it asks for is not taken or the quarantine it asks for fails. */
  lemma ScoreFailsExact(env: Env, w: World, id: Id, policy: Policy, ev: Score, o: Oracle, next: Status)
    requires Becomes(env, policy, ev, o, next)
    ensures ApplyTo(env, w, id, policy, ev, o).1 <==>
            || ((o.allowed || Decides(policy.status, next)) &&
                (o.apiFails || id !in w.store || w.store[id].version != policy.version))
            || (Armed(env, policy, ev, o) &&
                (|| (exists e :: e in Wanted(env, policy, ev) && !Takes(env, w, o, e))
                 || (policy.spec.isolatePod && policy.spec.hasSelector && o.meshFails)))
  {
    DecisionIs(env, policy, ev, o);
    CrossingExact(env, policy, ev);
    assert next == Decide(env, policy, ev, o.killed).status;
    ActionsTaken(env, w, policy, ev, o);
    AllTaken(env, w, policy, ev, o);
  }

  /** The tunnel comes first: a score that asks for both never places the source
      without the tunnel. */
  lemma TunnelFirst(env: Env, w: World, id: Id, policy: Policy, ev: Score, o: Oracle)
    requires AsksTunnel(env, policy, ev) && AsksSource(env, policy, ev)
    ensures var kernel, addr := ApplyTo(env, w, id, policy, ev, o).0.kernel, env.parse(ev.source).value;
            Source(addr) in kernel && Source(addr) !in w.kernel ==> Tunnel(addr, ev.teid) in kernel
  {
    ActionsTaken(env, w, policy, ev, o);
  }
}
