/** pkg/ingestion/publisher.go: the event loop that batches normalized events
    onto the bus. Connectivity follows pkg/events/connector.go: a bus, once
    connected, stays connected. */
module Publisher {
  import opened Connector

  /** What the select statement delivers, with what Bus() answers each time the
      branch asks: on arrival, and in flush. */
  datatype Stimulus<E> =
    | Arrival(event: E, atArrival: bool, atFlush: bool)
    | Tick(atFlush: bool)
    | Closed(atFlush: bool)     // the stream ended
    | Cancelled(atFlush: bool)  // the context is done

  predicate Ends<E>(s: Stimulus<E>) {
    s.Closed? || s.Cancelled?
  }

  /** The answers of Bus() in the order they are given. */
  function Answers<E>(ss: seq<Stimulus<E>>): seq<bool> {
    if ss == [] then []
    else
      (if ss[0].Arrival? then [ss[0].atArrival, ss[0].atFlush] else [ss[0].atFlush]) + Answers(ss[1..])
  }

  /** The events the loop accepts: those that find the bus connected, up to the
      stimulus that ends it. */
  function Accepted<E>(ss: seq<Stimulus<E>>): seq<E> {
    if ss == [] || Ends(ss[0]) then []
    else (if ss[0].Arrival? && ss[0].atArrival then [ss[0].event] else []) + Accepted(ss[1..])
  }

  function Flatten<E>(messages: seq<seq<E>>): seq<E> {
    if messages == [] then [] else Flatten(messages[..|messages| - 1]) + messages[|messages| - 1]
  }

  lemma FlattenSnoc<E>(messages: seq<seq<E>>, m: seq<E>)
    ensures Flatten(messages + [m]) == Flatten(messages) + m
  {
    assert (messages + [m])[..|messages|] == messages;
  }

  function BatchCap(batchSize: int): (cap: nat)
    ensures cap >= 1
  {
    if batchSize < 1 then 1 else batchSize
  }

  /** A bus that is connected now is connected for the rest of the run. */
  lemma {:induction false} StaysConnected<E>(ss: seq<Stimulus<E>>, k: nat)
    requires NeverReverts(Answers(ss)) && k < |ss| && ss[k].atFlush
    ensures forall j :: k < j < |ss| ==> ss[j].atFlush
    decreases k
  {
    var a := Answers(ss);
    var own := if ss[0].Arrival? then 2 else 1;
    TailNeverReverts(ss);
    if k > 0 {
      StaysConnected(ss[1..], k - 1);
      forall j | k < j < |ss| ensures ss[j].atFlush { assert ss[j] == ss[1..][j - 1]; }
    } else {
      assert a[own - 1];
      forall j | 0 < j < |ss| ensures ss[j].atFlush {
        FlushAnswer(ss[1..], j - 1);
        var at := FlushPosition(ss[1..], j - 1);
        assert a[own + at] == Answers(ss[1..])[at];
        assert ss[1..][j - 1] == ss[j];
      }
    }
  }

  lemma TailNeverReverts<E>(ss: seq<Stimulus<E>>)
    requires ss != [] && NeverReverts(Answers(ss))
    ensures NeverReverts(Answers(ss[1..]))
    ensures ss[0].Arrival? && ss[0].atArrival ==> ss[0].atFlush
  {
    var a, tail := Answers(ss), Answers(ss[1..]);
    var own := |a| - |tail|;
    assert forall i :: 0 <= i < |tail| ==> tail[i] == a[own + i];
    if ss[0].Arrival? { assert a[0] == ss[0].atArrival && a[1] == ss[0].atFlush; }
  }

  /** Where in the answers the flush answer of stimulus `j` stands. */
  function FlushPosition<E>(ss: seq<Stimulus<E>>, j: nat): nat
    requires j < |ss|
    decreases j
  {
    var own := if ss[0].Arrival? then 2 else 1;
    if j == 0 then own - 1 else own + FlushPosition(ss[1..], j - 1)
  }

  lemma {:induction false} FlushAnswer<E>(ss: seq<Stimulus<E>>, j: nat)
    requires j < |ss|
    ensures FlushPosition(ss, j) < |Answers(ss)| && Answers(ss)[FlushPosition(ss, j)] == ss[j].atFlush
    decreases j
  {
    if j > 0 { FlushAnswer(ss[1..], j - 1); }
  }

  lemma ConnectedFromHere<E>(ss: seq<Stimulus<E>>, n: nat)
    requires n < |ss| && NeverReverts(Answers(ss[n..])) && ss[n].Arrival? && ss[n].atArrival
    ensures ConnectedFrom(ss, n)
  {
    var rest := ss[n..];
    TailNeverReverts(rest);
    StaysConnected(rest, 0);
    forall j | n <= j < |ss| ensures ss[j].atFlush { assert ss[j] == rest[j - n]; }
  }

  ghost predicate ConnectedFrom<E>(ss: seq<Stimulus<E>>, n: nat) {
    forall j :: n <= j < |ss| ==> ss[j].atFlush
  }

  // ---------------------------------------------------------------- buffering

  ghost predicate WellSized<E>(messages: seq<seq<E>>, cap: nat) {
    forall i :: 0 <= i < |messages| ==> 1 <= |messages[i]| <= cap
  }

  /** `messages` and `batch` hold `events` between them, in order. */
  ghost predicate Holds<E>(messages: seq<seq<E>>, batch: seq<E>, events: seq<E>, cap: nat) {
    Flatten(messages) + batch == events && WellSized(messages, cap)
  }

  /** flush: the buffer becomes one message, or nothing when it is empty; were the
      bus not connected the batch would be lost. */
  method Flush<E>(cap: nat, sent: seq<seq<E>>, batch: seq<E>, connected: bool, ghost events: seq<E>)
    returns (messages: seq<seq<E>>, lost: seq<E>)
    requires Holds(sent, batch, events, cap) && |batch| <= cap
    ensures lost == if connected then [] else batch
    ensures connected ==> Holds(messages, [], events, cap)
    ensures messages == if connected && batch != [] then sent + [batch] else sent
  {
    messages, lost := sent, [];
    if |batch| == 0 { return; }
    if connected {
      messages := messages + [batch];
      FlattenSnoc(sent, batch);
    } else {
      lost := batch;
    }
  }

  /** What a flush comes to where nothing can be lost. */
  method Drain<E>(cap: nat, sent: seq<seq<E>>, batch: seq<E>, connected: bool, ghost events: seq<E>)
    returns (messages: seq<seq<E>>, lost: seq<E>)
    requires Holds(sent, batch, events, cap) && |batch| <= cap && (batch != [] ==> connected)
    ensures Holds(messages, [], events, cap) && lost == []
    ensures messages == sent + (if batch == [] then [] else [batch])
  {
    messages, lost := Flush(cap, sent, batch, connected, events);
  }

  /** The `case evt` branch for an event that finds the bus connected. */
  method Accept<E>(cap: nat, sent: seq<seq<E>>, buffered: seq<E>, event: E, atFlush: bool, ghost events: seq<E>)
    returns (messages: seq<seq<E>>, batch: seq<E>, lost: seq<E>)
    requires Holds(sent, buffered, events, cap) && |buffered| < cap && atFlush
    ensures Holds(messages, batch, events + [event], cap) && |batch| < cap && lost == []
    ensures var open := buffered + [event];
            if |open| < cap then messages == sent && batch == open else messages == sent + [open] && batch == []
  {
    messages, batch, lost := sent, buffered, [];
    if cap <= 1 {
      messages := messages + [[event]];
      FlattenSnoc(sent, [event]);
      assert buffered + [event] == [event];
      return;
    }
    batch := batch + [event];
    assert Holds(messages, batch, events + [event], cap);
    if |batch| >= cap {
      messages, lost := Drain(cap, messages, batch, atFlush, events + [event]);
      batch := [];
    }
  }

  function TakenAt<E>(s: Stimulus<E>): seq<E> {
    if s.Arrival? && s.atArrival then [s.event] else []
  }

  /** What the first `n` stimuli brought. */
  function Taken<E>(ss: seq<Stimulus<E>>, n: nat): seq<E>
    requires n <= |ss|
  {
    if n == 0 then [] else Taken(ss, n - 1) + TakenAt(ss[n - 1])
  }

  /** If none of them ends the loop, the rest is still to be accepted. */
  lemma {:induction false} TakenThenRest<E>(ss: seq<Stimulus<E>>, n: nat)
    requires n <= |ss| && forall i :: 0 <= i < n ==> !Ends(ss[i])
    ensures Taken(ss, n) + Accepted(ss[n..]) == Accepted(ss)
  {
    if n == 0 {
      assert ss[0..] == ss;
    } else {
      TakenThenRest(ss, n - 1);
      var rest := ss[n - 1..];
      assert rest[0] == ss[n - 1] && rest[1..] == ss[n..];
      var before, now, later := Taken(ss, n - 1), TakenAt(ss[n - 1]), Accepted(ss[n..]);
      assert before + (now + later) == before + now + later;
    }
  }

  /** At the stimulus that ends the loop, or past the last, all was taken. */
  lemma AllTaken<E>(ss: seq<Stimulus<E>>, n: nat)
    requires n <= |ss| && (forall i :: 0 <= i < n ==> !Ends(ss[i])) && (n == |ss| || Ends(ss[n]))
    ensures Taken(ss, n) == Accepted(ss)
  {
    TakenThenRest(ss, n);
    assert Accepted(ss[n..]) == [];
  }

  lemma {:induction false} SuffixNeverReverts<E>(ss: seq<Stimulus<E>>, n: nat)
    requires NeverReverts(Answers(ss)) && n <= |ss|
    ensures NeverReverts(Answers(ss[n..]))
  {
    if n == 0 {
      assert ss[0..] == ss;
    } else {
      SuffixNeverReverts(ss, n - 1);
      TailNeverReverts(ss[n - 1..]);
      assert ss[n - 1..][1..] == ss[n..];
    }
  }

  /** An event that finds the bus connected finds it so for the rest of the run. */
  lemma ArrivalConnects<E>(ss: seq<Stimulus<E>>, n: nat)
    requires NeverReverts(Answers(ss)) && n < |ss| && ss[n].Arrival? && ss[n].atArrival
    ensures ConnectedFrom(ss, n)
  {
    SuffixNeverReverts(ss, n);
    ConnectedFromHere(ss, n);
  }

  /** No event is accepted before `up`, and from then on the bus is connected. */
  ghost predicate ConnectsAt<E>(ss: seq<Stimulus<E>>, up: nat) {
    ConnectedFrom(ss, up) && forall k :: 0 <= k < |ss| && ss[k].Arrival? && ss[k].atArrival ==> up <= k
  }

  lemma {:induction false} Connects<E>(ss: seq<Stimulus<E>>, n: nat) returns (up: nat)
    requires NeverReverts(Answers(ss)) && n <= |ss|
    requires forall k :: 0 <= k < n ==> !(ss[k].Arrival? && ss[k].atArrival)
    ensures ConnectsAt(ss, up)
    decreases |ss| - n
  {
    if n == |ss| {
      up := n;
    } else if ss[n].Arrival? && ss[n].atArrival {
      ArrivalConnects(ss, n);
      up := n;
    } else {
      up := Connects(ss, n + 1);
    }
  }

  // ---------------------------------------------------------------- which messages

  /** The full batches of a sequence of events, and what is left over. */
  function FullBatches<E>(events: seq<E>, cap: nat): seq<seq<E>>
    requires cap >= 1
  {
    if |events| < cap then [] else [events[..cap]] + FullBatches(events[cap..], cap)
  }

  function Leftover<E>(events: seq<E>, cap: nat): seq<E>
    requires cap >= 1
  {
    if |events| < cap then events else Leftover(events[cap..], cap)
  }

  function AllBatches<E>(events: seq<E>, cap: nat): seq<seq<E>>
    requires cap >= 1
  {
    FullBatches(events, cap) + (if Leftover(events, cap) == [] then [] else [Leftover(events, cap)])
  }

  /** The events accepted since the last tick. */
  function Since<E>(ss: seq<Stimulus<E>>, n: nat): seq<E>
    requires n <= |ss|
  {
    if n == 0 || ss[n - 1].Tick? then [] else Since(ss, n - 1) + TakenAt(ss[n - 1])
  }

  /** The messages up to the last tick: what came in between two ticks, cut into
      batches. */
  function UpToTick<E>(ss: seq<Stimulus<E>>, n: nat, cap: nat): seq<seq<E>>
    requires n <= |ss| && cap >= 1
  {
    if n == 0 then []
    else if ss[n - 1].Tick? then UpToTick(ss, n - 1, cap) + AllBatches(Since(ss, n - 1), cap)
    else UpToTick(ss, n - 1, cap)
  }

  lemma {:induction false} LeftoverSmall<E>(events: seq<E>, cap: nat)
    requires cap >= 1
    ensures |Leftover(events, cap)| < cap
    decreases |events|
  {
    if |events| >= cap { LeftoverSmall(events[cap..], cap); }
  }

  /** One more event goes to what is left over, and makes a message of it if that is
      then full. */
  lemma {:induction false} OneMore<E>(events: seq<E>, event: E, cap: nat)
    requires cap >= 1
    ensures var more, open := events + [event], Leftover(events, cap) + [event];
            && FullBatches(more, cap) == FullBatches(events, cap) + (if |open| < cap then [] else [open])
            && Leftover(more, cap) == if |open| < cap then open else []
    decreases |events|
  {
    var more := events + [event];
    if |events| >= cap {
      OneMore(events[cap..], event, cap);
      assert more[cap..] == events[cap..] + [event] && more[..cap] == events[..cap];
    } else if |more| == cap {
      assert more[..cap] == more && more[cap..] == [];
    }
  }

  /** The messages and the buffer after `n` stimuli, none of which ends the loop. */
  ghost predicate InBatches<E>(messages: seq<seq<E>>, batch: seq<E>, ss: seq<Stimulus<E>>, n: nat, cap: nat)
    requires n <= |ss| && cap >= 1
  {
    messages == UpToTick(ss, n, cap) + FullBatches(Since(ss, n), cap) && batch == Leftover(Since(ss, n), cap)
  }

  /** What one stimulus that does not end the loop does to messages and buffer. */
  ghost predicate Reacts<E>(cap: nat, sent: seq<seq<E>>, buffered: seq<E>, s: Stimulus<E>,
                            messages: seq<seq<E>>, batch: seq<E>) {
    if s.Tick? then messages == sent + (if buffered == [] then [] else [buffered]) && batch == []
    else
      var open := buffered + TakenAt(s);
      if |open| < cap then messages == sent && batch == open else messages == sent + [open] && batch == []
  }

  lemma BatchesKept<E>(ss: seq<Stimulus<E>>, n: nat, cap: nat, sent: seq<seq<E>>, buffered: seq<E>,
                       messages: seq<seq<E>>, batch: seq<E>)
    requires n < |ss| && cap >= 1 && InBatches(sent, buffered, ss, n, cap)
    requires Reacts(cap, sent, buffered, ss[n], messages, batch)
    ensures InBatches(messages, batch, ss, n + 1, cap)
  {
    var events := Since(ss, n);
    if ss[n].Tick? {
      assert messages == UpToTick(ss, n, cap) + AllBatches(events, cap);
      assert FullBatches(Since(ss, n + 1), cap) == [];
    } else if ss[n].Arrival? && ss[n].atArrival {
      OneMore(events, ss[n].event, cap);
    } else {
      LeftoverSmall(events, cap);
      assert events + [] == events;
    }
  }

  // ---------------------------------------------------------------- the event loop

  /** The three branches of a turn that does not end the loop. */
  method React<E>(cap: nat, sent: seq<seq<E>>, buffered: seq<E>, s: Stimulus<E>, ghost events: seq<E>)
    returns (messages: seq<seq<E>>, batch: seq<E>, lost: seq<E>)
    requires !Ends(s) && Holds(sent, buffered, events, cap) && |buffered| < cap
    requires buffered != [] || (s.Arrival? && s.atArrival) ==> s.atFlush
    ensures Holds(messages, batch, events + TakenAt(s), cap) && |batch| < cap && lost == []
    ensures batch != [] ==> buffered != [] || (s.Arrival? && s.atArrival)
    ensures Reacts(cap, sent, buffered, s, messages, batch)
  {
    messages, batch, lost := sent, buffered, [];
    if s.Tick? {
      messages, lost := Drain(cap, messages, batch, s.atFlush, events);
      batch := [];
      assert events + TakenAt(s) == events;
    } else if s.atArrival {
      messages, batch, lost := Accept(cap, messages, batch, s.event, s.atFlush, events);
    } else {
      assert events + TakenAt(s) == events;
    }
  }

  /** None of the first `n` stimuli ends the loop. */
  ghost predicate RunsOn<E>(ss: seq<Stimulus<E>>, n: nat) {
    forall i :: 0 <= i < n && i < |ss| ==> !Ends(ss[i])
  }

  lemma RunsOnStep<E>(ss: seq<Stimulus<E>>, n: nat)
    requires n < |ss| && RunsOn(ss, n) && !Ends(ss[n])
    ensures RunsOn(ss, n + 1)
  {
  }

  /** One turn of the loop, at a stimulus that does not end it. */
  method Turn<E>(cap: nat, sent: seq<seq<E>>, buffered: seq<E>, ss: seq<Stimulus<E>>, n: nat, ghost up: nat)
    returns (messages: seq<seq<E>>, batch: seq<E>, lost: seq<E>)
    requires n < |ss| && cap >= 1 && !Ends(ss[n]) && Holds(sent, buffered, Taken(ss, n), cap) && |buffered| < cap
    requires ConnectsAt(ss, up) && (buffered != [] ==> up <= n) && InBatches(sent, buffered, ss, n, cap)
    ensures Holds(messages, batch, Taken(ss, n + 1), cap) && |batch| < cap && lost == []
    ensures (batch != [] ==> up <= n) && InBatches(messages, batch, ss, n + 1, cap)
  {
    messages, batch, lost := React(cap, sent, buffered, ss[n], Taken(ss, n));
    BatchesKept(ss, n, cap, sent, buffered, messages, batch);
  }

  /** The flush at the stimulus that ends the loop. */
  method Finish<E>(cap: nat, sent: seq<seq<E>>, buffered: seq<E>, ss: seq<Stimulus<E>>, n: nat, ghost up: nat)
    returns (messages: seq<seq<E>>, lost: seq<E>)
    requires n < |ss| && cap >= 1 && Holds(sent, buffered, Taken(ss, n), cap) && |buffered| < cap
    requires ConnectsAt(ss, up) && (buffered != [] ==> up <= n) && InBatches(sent, buffered, ss, n, cap)
    ensures Holds(messages, [], Taken(ss, n), cap) && lost == []
    ensures messages == UpToTick(ss, n, cap) + AllBatches(Since(ss, n), cap)
  {
    messages, lost := Drain(cap, sent, buffered, ss[n].atFlush, Taken(ss, n));
  }

  /** The event loop, up to the stimulus `n` that ends it or past the last. */
  method Loop<E>(cap: nat, ss: seq<Stimulus<E>>, ghost up: nat)
    returns (messages: seq<seq<E>>, batch: seq<E>, lost: seq<E>, n: nat)
    requires cap >= 1 && ConnectsAt(ss, up)
    ensures n <= |ss| && RunsOn(ss, n) && (n < |ss| ==> Ends(ss[n]) && batch == [])
    ensures Holds(messages, batch, Taken(ss, n), cap) && |batch| < cap && lost == []
    ensures n == |ss| ==> InBatches(messages, batch, ss, n, cap)
    ensures n < |ss| ==> messages == UpToTick(ss, n, cap) + AllBatches(Since(ss, n), cap)
  {
    messages, batch, lost, n := [], [], [], 0;
    while n < |ss|
      invariant n <= |ss| && RunsOn(ss, n)
      invariant Holds(messages, batch, Taken(ss, n), cap) && |batch| < cap && lost == []
      invariant (batch != [] ==> up <= n) && InBatches(messages, batch, ss, n, cap)
    {
      if Ends(ss[n]) {
        messages, lost := Finish(cap, messages, batch, ss, n, up);
        batch := [];
        return;
      }
      RunsOnStep(ss, n);
      messages, batch, lost := Turn(cap, messages, batch, ss, n, up);
      n := n + 1;
    }
  }

  /** Where the loop ends: at the first stimulus that ends it, or past the last. */
  function EndAt<E>(ss: seq<Stimulus<E>>): (n: nat)
    ensures n <= |ss| && (forall i :: 0 <= i < n ==> !Ends(ss[i])) && (n < |ss| ==> Ends(ss[n]))
  {
    if ss == [] || Ends(ss[0]) then 0 else 1 + EndAt(ss[1..])
  }

  /** Start, over the stimuli of one run. The messages offered to the bus
      concatenate, in order, to exactly the accepted events not still buffered;
      each carries 1 to BatchSize events; fewer than BatchSize are ever buffered
      at the loop head; nothing is buffered after a tick or once the loop has
      ended; and no batch is lost in flush. The messages are these and no others:
      what came in between two ticks is cut into full batches, and the tick, or the
      end, sends the rest. The answers of Bus() are the connector's, over any
      interleaving of its attempts. */
  method Start<E>(batchSize: int, ss: seq<Stimulus<E>>, ghost moments: seq<Moment>)
    returns (messages: seq<seq<E>>, batch: seq<E>, lost: seq<E>, ended: bool)
    requires Answers(ss) == Replies(false, moments)
    ensures lost == [] && (ended <==> exists i :: 0 <= i < |ss| && Ends(ss[i]))
    ensures ended || (ss != [] && ss[|ss| - 1].Tick?) ==> batch == []
    ensures var n, cap: nat := EndAt(ss), if batchSize < 1 then 1 else batchSize;
            && Holds(messages, batch, Accepted(ss), cap) && |batch| < cap
            && messages == UpToTick(ss, n, cap) +
                           (if ended then AllBatches(Since(ss, n), cap) else FullBatches(Since(ss, n), cap))
  {
    RepliesNeverRevert(false, moments);
    ghost var up := Connects(ss, 0);
    var n;
    messages, batch, lost, n := Loop(BatchCap(batchSize), ss, up);
    ended := n < |ss|;
    AllTaken(ss, n);
  }
}
