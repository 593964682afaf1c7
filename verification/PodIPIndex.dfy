/** pkg/controller/pod_ip_index.go: a forward map from IP to Pod and a reverse
    one from Pod to IP, and what a lookup says about the whole history. */
module PodIPIndex {
  import opened Prelude

  datatype Pod = Pod(namespace: string, name: string)

  datatype Op = Put(ip: string, pod: Pod) | Remove(pod: Pod)

  /** Both maps. */
  datatype Maps = Maps(byIP: map<string, Pod>, byPod: map<Pod, string>)

  function AfterPut(m: Maps, ip: string, pod: Pod): Maps {
    if ip == "" then m
    else
      var moved := pod in m.byPod && m.byPod[pod] != ip && Get(m.byIP, m.byPod[pod]) == Some(pod);
      Maps((if moved then m.byIP - {m.byPod[pod]} else m.byIP)[ip := pod], m.byPod[pod := ip])
  }

  function AfterRemove(m: Maps, pod: Pod): Maps {
    if pod !in m.byPod then m
    else Maps(if Get(m.byIP, m.byPod[pod]) == Some(pod) then m.byIP - {m.byPod[pod]} else m.byIP, m.byPod - {pod})
  }

  class Index {
    var byIP: map<string, Pod>
    var byPod: map<Pod, string>

    ghost function State(): Maps
      reads this
    {
      Maps(byIP, byPod)
    }

    constructor ()
      ensures State() == Maps(map[], map[])
    {
      byIP, byPod := map[], map[];
    }

    method Put(ip: string, pod: Pod)
      modifies this
      ensures State() == AfterPut(old(State()), ip, pod)
    {
      if ip == "" { return; }
      if pod in byPod && byPod[pod] != ip {
        var oldIP := byPod[pod];
        if oldIP in byIP && byIP[oldIP] == pod { byIP := byIP - {oldIP}; }
      }
      byIP := byIP[ip := pod];
      byPod := byPod[pod := ip];
    }

    method Lookup(ip: string) returns (r: Option<Pod>)
      ensures r == Get(byIP, ip)
    {
      if ip in byIP { return Some(byIP[ip]); }
      return None;
    }

    method Remove(pod: Pod)
      modifies this
      ensures State() == AfterRemove(old(State()), pod)
    {
      if pod !in byPod { return; }
      var ip := byPod[pod];
      byPod := byPod - {pod};
      if ip in byIP && byIP[ip] == pod { byIP := byIP - {ip}; }
    }
  }

  // ---------------------------------------------------------------- history

  function Step(m: Maps, op: Op): Maps {
    match op
    case Put(ip, pod) => AfterPut(m, ip, pod)
    case Remove(pod) => AfterRemove(m, pod)
  }

  function After(ops: seq<Op>): Maps {
    if ops == [] then Maps(map[], map[]) else Step(After(ops[..|ops| - 1]), ops[|ops| - 1])
  }

  /** The operation puts this Pod somewhere, or removes it. */
  predicate Concerns(op: Op, pod: Pod) {
    op.pod == pod && (op.Put? ==> op.ip != "")
  }

  /** The operation gives this IP to some Pod. */
  predicate Assigns(op: Op, ip: string) {
    op.Put? && op.ip == ip
  }

  /** The last Put on `ip` was by `pod`, which has since been neither put
      elsewhere nor removed. */
  ghost predicate Owns(ops: seq<Op>, ip: string, pod: Pod) {
    ip != "" && exists i :: 0 <= i < |ops| && ops[i] == Put(ip, pod) && LastWord(ops, i, ip, pod)
  }

  ghost predicate LastWord(ops: seq<Op>, i: nat, ip: string, pod: Pod) {
    forall j :: i < j < |ops| ==> !Assigns(ops[j], ip) && !Concerns(ops[j], pod)
  }

  /** The last operation concerning `pod` put it on `ip`. */
  ghost predicate LastSeenOn(ops: seq<Op>, pod: Pod, ip: string) {
    ip != "" && exists i :: 0 <= i < |ops| && ops[i] == Put(ip, pod) && forall j :: i < j < |ops| ==>
      !Concerns(ops[j], pod)
  }

  /** How ownership changes with one more operation. */
  lemma OwnsStep(ops: seq<Op>, op: Op, ip: string, pod: Pod)
    ensures Owns(ops + [op], ip, pod) <==>
            (op == Put(ip, pod) && ip != "") || (Owns(ops, ip, pod) && !Assigns(op, ip) && !Concerns(op, pod))
  {
    var all := ops + [op];
    if Owns(all, ip, pod) {
      var i :| 0 <= i < |all| && all[i] == Put(ip, pod) && LastWord(all, i, ip, pod);
      if i < |ops| {
        assert ops[i] == Put(ip, pod) && LastWord(ops, i, ip, pod) by {
          forall j | i < j < |ops| ensures !Assigns(ops[j], ip) && !Concerns(ops[j], pod) { assert all[j] == ops[j]; }
        }
        assert all[|ops|] == op;
      }
    }
    if op == Put(ip, pod) && ip != "" {
      assert all[|ops|] == Put(ip, pod) && LastWord(all, |ops|, ip, pod);
    } else if Owns(ops, ip, pod) && !Assigns(op, ip) && !Concerns(op, pod) {
      var i :| 0 <= i < |ops| && ops[i] == Put(ip, pod) && LastWord(ops, i, ip, pod);
      assert all[i] == Put(ip, pod) && LastWord(all, i, ip, pod);
    }
  }

  lemma LastSeenStep(ops: seq<Op>, op: Op, pod: Pod, ip: string)
    ensures LastSeenOn(ops + [op], pod, ip) <==>
            (op == Put(ip, pod) && ip != "") || (LastSeenOn(ops, pod, ip) && !Concerns(op, pod))
  {
    var all := ops + [op];
    if LastSeenOn(all, pod, ip) {
      var i :| 0 <= i < |all| && all[i] == Put(ip, pod) && forall j :: i < j < |all| ==> !Concerns(all[j], pod);
      if i < |ops| {
        assert forall j :: i < j < |ops| ==> all[j] == ops[j];
        assert ops[i] == Put(ip, pod) && all[|ops|] == op;
      }
    }
    if op == Put(ip, pod) && ip != "" {
      assert all[|ops|] == Put(ip, pod);
    } else if LastSeenOn(ops, pod, ip) && !Concerns(op, pod) {
      var i :| 0 <= i < |ops| && ops[i] == Put(ip, pod) && forall j :: i < j < |ops| ==> !Concerns(ops[j], pod);
      assert all[i] == Put(ip, pod);
      assert forall j :: i < j < |all| ==> !Concerns(all[j], pod);
    }
  }

  lemma OwnsIsLastSeen(ops: seq<Op>, ip: string, pod: Pod)
    requires Owns(ops, ip, pod)
    ensures LastSeenOn(ops, pod, ip)
  {
    var i :| 0 <= i < |ops| && ops[i] == Put(ip, pod) && LastWord(ops, i, ip, pod);
  }

  /** The maps say exactly what the history says. */
  ghost predicate Agrees(m: Maps, ops: seq<Op>) {
    && (forall ip, pod :: Get(m.byIP, ip) == Some(pod) <==> Owns(ops, ip, pod))
    && (forall ip, pod :: Get(m.byPod, pod) == Some(ip) <==> LastSeenOn(ops, pod, ip))
  }

  lemma StepAgreesReverse(m: Maps, ops: seq<Op>, op: Op, pod: Pod, ip: string)
    requires Agrees(m, ops)
    ensures Get(Step(m, op).byPod, pod) == Some(ip) <==> LastSeenOn(ops + [op], pod, ip)
  {
    LastSeenStep(ops, op, pod, ip);
    assert Get(m.byPod, pod) == Some(ip) <==> LastSeenOn(ops, pod, ip);
  }

  lemma StepAgreesForward(m: Maps, ops: seq<Op>, op: Op, ip: string, pod: Pod)
    requires Agrees(m, ops)
    ensures Get(Step(m, op).byIP, ip) == Some(pod) <==> Owns(ops + [op], ip, pod)
  {
    OwnsStep(ops, op, ip, pod);
    assert Get(m.byIP, ip) == Some(pod) <==> Owns(ops, ip, pod);
    if Owns(ops, ip, pod) {
      OwnsIsLastSeen(ops, ip, pod);
      assert Get(m.byPod, pod) == Some(ip);
    }
  }

  /** The index agrees with history: after any sequence of operations, an IP
      looks up to a Pod exactly when the last Put on it was by that Pod and the
      Pod has since been neither put elsewhere nor removed. */
  lemma {:induction false} IndexAgreesWithHistory(ops: seq<Op>)
    ensures Agrees(After(ops), ops)
  {
    if ops != [] {
      var init, op := ops[..|ops| - 1], ops[|ops| - 1];
      IndexAgreesWithHistory(init);
      assert ops == init + [op];
      forall ip, pod ensures Get(After(ops).byIP, ip) == Some(pod) <==> Owns(ops, ip, pod) {
        StepAgreesForward(After(init), init, op, ip, pod);
      }
      forall ip, pod ensures Get(After(ops).byPod, pod) == Some(ip) <==> LastSeenOn(ops, pod, ip) {
        StepAgreesReverse(After(init), init, op, pod, ip);
      }
    }
  }

  /** Hence no Pod owns two addresses. */
  lemma OneAddressPerPod(ops: seq<Op>, ip1: string, ip2: string, pod: Pod)
    requires Get(After(ops).byIP, ip1) == Some(pod) && Get(After(ops).byIP, ip2) == Some(pod)
    ensures ip1 == ip2
  {
    IndexAgreesWithHistory(ops);
    OwnsIsLastSeen(ops, ip1, pod);
    OwnsIsLastSeen(ops, ip2, pod);
    assert Get(After(ops).byPod, pod) == Some(ip1);
    assert Get(After(ops).byPod, pod) == Some(ip2);
  }

  /** And a late event about another Pod, a removal or a move elsewhere, never
      evicts the owner of an address. */
  lemma LateEventKeepsOwner(ops: seq<Op>, op: Op, ip: string, pod: Pod)
    requires Get(After(ops).byIP, ip) == Some(pod) && op.pod != pod && !Assigns(op, ip)
    ensures Get(After(ops + [op]).byIP, ip) == Some(pod)
  {
    IndexAgreesWithHistory(ops);
    IndexAgreesWithHistory(ops + [op]);
    OwnsStep(ops, op, ip, pod);
    assert Owns(ops, ip, pod);
    assert Owns(ops + [op], ip, pod);
  }
}
