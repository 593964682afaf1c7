/** pkg/events/connector.go: the background loop that connects the bus, and what
    those who ask for the bus in the meantime are told. */
module Connector {

  const SECOND: int := 1_000_000_000
  const MAX_BACKOFF: int := 30 * SECOND

  function Doubled(backoff: int): int {
    if backoff >= MAX_BACKOFF then backoff
    else if backoff * 2 > MAX_BACKOFF then MAX_BACKOFF else backoff * 2
  }

  /** The wait after the failed attempt number `i`, from 0. */
  function Backoff(i: nat): (b: int)
    ensures SECOND <= b <= MAX_BACKOFF
  {
    if i == 0 then SECOND else Doubled(Backoff(i - 1))
  }

  function Power2(i: nat): nat {
    if i == 0 then 1 else 2 * Power2(i - 1)
  }

  /** In seconds: 1, 2, 4, 8, 16, and from then on 30. */
  lemma {:induction false} BackoffIsPower(i: nat)
    ensures Backoff(i) == if i < 5 then Power2(i) * 1_000_000_000 else 30_000_000_000
  {
    if i > 0 { BackoffIsPower(i - 1); }
    assert Power2(0) == 1 && Power2(1) == 2 && Power2(2) == 4 && Power2(3) == 8 && Power2(4) == 16;
  }

  /** How many attempts fail before the first that succeeds. */
  function Failures(outcomes: seq<bool>): (n: nat)
    ensures n <= |outcomes| && (forall i :: 0 <= i < n ==> !outcomes[i]) && (n < |outcomes| ==> outcomes[n])
  {
    if outcomes == [] || outcomes[0] then 0 else 1 + Failures(outcomes[1..])
  }

  class Bus {
    var ready: bool  // the channel is closed

    constructor ()
      ensures !ready
    {
      ready := false;
    }

    /** Connected and Bus: a read of the channel that does not block. */
    method Connected() returns (connected: bool)
      ensures connected == ready
    {
      return ready;
    }

    /** One turn of the loop; closing the channel twice would panic. */
    method Attempt(ok: bool)
      requires !ready
      modifies this
      ensures ready == ok
    {
      if ok { ready := true; }
    }

    /** Run: attempts until one succeeds or the context, here the end of
        `outcomes`, is done. The bus ends up connected exactly when some attempt
        succeeds, after as many waits as attempts failed, each twice the one
        before up to thirty seconds. */
    method Run(outcomes: seq<bool>) returns (waits: seq<int>)
      requires !ready
      modifies this
      ensures ready <==> Failures(outcomes) < |outcomes|
      ensures |waits| == Failures(outcomes) && forall i :: 0 <= i < |waits| ==> waits[i] == Backoff(i)
    {
      waits := [];
      var backoff := SECOND;
      for n := 0 to |outcomes|
        invariant !ready && backoff == Backoff(n) && |waits| == n
        invariant forall i :: 0 <= i < n ==> !outcomes[i] && waits[i] == Backoff(i)
      {
        Attempt(outcomes[n]);
        if ready { return; }
        waits := waits + [backoff];
        if backoff < MAX_BACKOFF {
          backoff := backoff * 2;
          if backoff > MAX_BACKOFF { backoff := MAX_BACKOFF; }
        }
      }
    }
  }

  // ---------------------------------------------------------------- seen from outside

  /** Attempts of the loop and questions of others, as they interleave. */
  datatype Moment = Try(ok: bool) | Ask

  /** What the askers are told. Once connected, the loop has returned. */
  function Replies(ready: bool, moments: seq<Moment>): seq<bool>
    decreases |moments|
  {
    if moments == [] then []
    else
      match moments[0]
      case Try(ok) => Replies(ready || ok, moments[1..])
      case Ask => [ready] + Replies(ready, moments[1..])
  }

  /** The bus over such an interleaving. */
  method Interleaved(bus: Bus, moments: seq<Moment>) returns (answers: seq<bool>)
    modifies bus
    ensures answers == Replies(old(bus.ready), moments)
  {
    answers := [];
    for n := 0 to |moments|
      invariant ToCome(answers, bus.ready, moments, n) == Replies(old(bus.ready), moments)
    {
      ToComeStep(answers, bus.ready, moments, n);
      match moments[n]
      case Try(ok) => if !bus.ready { bus.Attempt(ok); }
      case Ask =>
        var connected := bus.Connected();
        answers := answers + [connected];
    }
    assert Replies(bus.ready, moments[|moments|..]) == [];
  }

  /** The answers so far, and those to the moments from `n` on. */
  function ToCome(answers: seq<bool>, ready: bool, moments: seq<Moment>, n: nat): seq<bool>
    requires n <= |moments|
  {
    answers + Replies(ready, moments[n..])
  }

  lemma ToComeStep(answers: seq<bool>, ready: bool, moments: seq<Moment>, n: nat)
    requires n < |moments|
    ensures ToCome(answers, ready, moments, n) ==
            match moments[n]
            case Try(ok) => ToCome(answers, ready || ok, moments, n + 1)
            case Ask => ToCome(answers + [ready], ready, moments, n + 1)
  {
    assert moments[n..][1..] == moments[n + 1..];
    var rest := Replies(ready, moments[n + 1..]);
    assert answers + ([ready] + rest) == answers + [ready] + rest;
  }

  /** How many questions come before moment `n`. */
  function Asked(moments: seq<Moment>, n: nat): nat
    requires n <= |moments|
  {
    if n == 0 then 0 else Asked(moments, n - 1) + if moments[n - 1].Ask? then 1 else 0
  }

  lemma {:induction false} AskedTail(moments: seq<Moment>, n: nat)
    requires 0 < n <= |moments|
    ensures Asked(moments, n) == (if moments[0].Ask? then 1 else 0) + Asked(moments[1..], n - 1)
  {
    if n > 1 { AskedTail(moments, n - 1); }
  }

  ghost predicate Succeeded(moments: seq<Moment>, n: nat)
    requires n <= |moments|
  {
    exists i :: 0 <= i < n && moments[i] == Try(true)
  }

  /** Who asks is told that the bus is connected exactly if an attempt has succeeded
      before. */
  lemma {:induction false} RepliesExact(ready: bool, moments: seq<Moment>, n: nat)
    requires n < |moments| && moments[n].Ask?
    ensures Asked(moments, n) < |Replies(ready, moments)|
    ensures Replies(ready, moments)[Asked(moments, n)] <==> ready || Succeeded(moments, n)
    decreases n
  {
    if n > 0 {
      var rest, first := moments[1..], moments[0];
      AskedTail(moments, n);
      RepliesExact(ready || first == Try(true), rest, n - 1);
      if i :| 0 <= i < n - 1 && rest[i] == Try(true) { assert moments[i + 1] == Try(true); }
      if i :| 0 < i < n && moments[i] == Try(true) { assert rest[i - 1] == Try(true); }
    }
  }

  ghost predicate NeverReverts(answers: seq<bool>) {
    forall i, j :: 0 <= i <= j < |answers| && answers[i] ==> answers[j]
  }

  /** Whoever has been told that the bus is connected is told so ever after, in
      every interleaving. */
  lemma {:induction false} RepliesNeverRevert(ready: bool, moments: seq<Moment>)
    ensures NeverReverts(Replies(ready, moments))
    ensures ready ==> forall i :: 0 <= i < |Replies(ready, moments)| ==> Replies(ready, moments)[i]
    decreases |moments|
  {
    if moments != [] {
      match moments[0]
      case Try(ok) => RepliesNeverRevert(ready || ok, moments[1..]);
      case Ask =>
        RepliesNeverRevert(ready, moments[1..]);
        var rest := Replies(ready, moments[1..]);
        assert Replies(ready, moments) == [ready] + rest;
    }
  }
}
