/** track_port_scan of bpf/packet_filter.c: the distinct-port detector of one
    source, and when it fires. */
module PortScan {
  import opened Prelude
  import opened KeyedFold
  import RW = RateWindow

  const MULTIPORT_SCAN_THRESHOLD: nat := 15
  const MULTIPORT_SCAN_WINDOW_NS: int := 30_000_000_000

  /** struct port_scan_entry: a fixed array of which the first `distinct` slots
      are in use. */
  datatype ScanEntry = ScanEntry(start: int, distinct: nat, emitted: bool, ports: seq<int>)

  type PortEntry = e: ScanEntry | |e.ports| == MULTIPORT_SCAN_THRESHOLD
    witness ScanEntry(0, 0, false, seq(MULTIPORT_SCAN_THRESHOLD, _ => 0))

  datatype Touch = Touch(port: int, time: int)

  function FreshEntry(x: Touch): PortEntry {
    ScanEntry(x.time, 1, false, [x.port] + seq(MULTIPORT_SCAN_THRESHOLD - 1, _ => 0))
  }

  predicate Expired(prior: Option<PortEntry>, now: int) {
    prior.None? || (now - prior.value.start) % RW.U64 > MULTIPORT_SCAN_WINDOW_NS
  }

  /** The ports in use. */
  function Used(e: PortEntry): seq<int> {
    if e.distinct <= MULTIPORT_SCAN_THRESHOLD then e.ports[..e.distinct] else e.ports
  }

  /** A packet that brings a port the window has not recorded. */
  predicate Records(e: PortEntry, port: int) {
    !e.emitted && port !in Used(e) && e.distinct < MULTIPORT_SCAN_THRESHOLD
  }

  /** The entry after one packet. */
  function After(prior: Option<PortEntry>, x: Touch): PortEntry {
    if Expired(prior, x.time) then FreshEntry(x)
    else
      var e := prior.value;
      if !Records(e, x.port) then e
      else e.(ports := e.ports[e.distinct := x.port], distinct := e.distinct + 1,
              emitted := e.distinct + 1 == MULTIPORT_SCAN_THRESHOLD)
  }

  /** The return value: 1 on the edge. */
  predicate Fires(prior: Option<PortEntry>, x: Touch) {
    !Expired(prior, x.time) && Records(prior.value, x.port) && prior.value.distinct + 1 == MULTIPORT_SCAN_THRESHOLD
  }

  /** The scan over the recorded ports. */
  method Recorded(e: PortEntry, port: int) returns (seen: bool)
    ensures seen <==> port in Used(e)
  {
    for i := 0 to MULTIPORT_SCAN_THRESHOLD
      invariant port !in e.ports[..i] && i <= e.distinct
    {
      if i >= e.distinct { break; }
      if e.ports[i] == port { return true; }
    }
    return false;
  }

  // ---------------------------------------------------------------- one source's history

  function Times(xs: seq<Touch>): seq<int> {
    seq(|xs|, i requires 0 <= i < |xs| => xs[i].time)
  }

  function Opener(xs: seq<Touch>, i: nat): (w: nat)
    requires i < |xs|
    ensures w <= i
  {
    RW.Opener(Times(xs), 30_000_000_000, i)
  }

  /** The ports packets `w` to `i` went to. */
  function Seen(xs: seq<Touch>, w: nat, i: nat): set<int>
    requires i < |xs|
  {
    set j | w <= j <= i :: xs[j].port
  }

  lemma SeenStep(xs: seq<Touch>, w: nat, i: nat)
    requires 0 < i < |xs| && w < i
    ensures Seen(xs, w, i) == Seen(xs, w, i - 1) + {xs[i].port}
  {
  }

  /** Packet `j` is the last one, or brought the last port that counts. */
  predicate Settled(xs: seq<Touch>, w: nat, j: nat, i: nat)
    requires j < |xs|
  {
    j == i || |Seen(xs, w, j)| == MULTIPORT_SCAN_THRESHOLD
  }

  /** The entry describes the window's ports: all of them while they are fewer
      than the threshold, and from then on the ones that reached it. */
  ghost predicate Tracks(e: PortEntry, xs: seq<Touch>, w: nat, i: nat)
    requires w <= i < |xs|
  {
    && e.start == xs[w].time && 1 <= e.distinct <= MULTIPORT_SCAN_THRESHOLD && Distinct(Used(e))
    && (e.emitted <==> e.distinct == MULTIPORT_SCAN_THRESHOLD)
    && (e.emitted <==> |Seen(xs, w, i)| >= MULTIPORT_SCAN_THRESHOLD)
    && exists j :: w <= j <= i && Elements(Used(e)) == Seen(xs, w, j) && Settled(xs, w, j, i)
  }

  lemma FreshTracks(xs: seq<Touch>, i: nat)
    requires i < |xs|
    ensures Tracks(FreshEntry(xs[i]), xs, i, i)
  {
    var e := FreshEntry(xs[i]);
    assert Used(e) == [xs[i].port];
    assert Elements(Used(e)) == {xs[i].port} == Seen(xs, i, i);
  }

  lemma EmittedTracks(e: PortEntry, xs: seq<Touch>, w: nat, i: nat)
    requires w < i < |xs| && Tracks(e, xs, w, i - 1) && e.emitted
    ensures Tracks(e, xs, w, i) && |Seen(xs, w, i - 1)| >= MULTIPORT_SCAN_THRESHOLD
  {
    SeenStep(xs, w, i);
    SubsetSize(Seen(xs, w, i - 1), Seen(xs, w, i));
    DistinctSize(Used(e));
  }

  /** Before the threshold the array is exactly the ports seen. */
  lemma UsedIsSeen(e: PortEntry, xs: seq<Touch>, w: nat, i: nat)
    requires w <= i < |xs| && Tracks(e, xs, w, i) && !e.emitted
    ensures Elements(Used(e)) == Seen(xs, w, i) && |Seen(xs, w, i)| == e.distinct
  {
    DistinctSize(Used(e));
  }

  lemma RecordTracks(e: PortEntry, xs: seq<Touch>, w: nat, i: nat)
    requires w < i < |xs| && Tracks(e, xs, w, i - 1) && !e.emitted && !Expired(Some(e), xs[i].time)
    requires xs[i].port !in Seen(xs, w, i - 1)
    ensures Tracks(After(Some(e), xs[i]), xs, w, i) && |Seen(xs, w, i)| == e.distinct + 1
  {
    var port, e' := xs[i].port, After(Some(e), xs[i]);
    SeenStep(xs, w, i);
    UsedIsSeen(e, xs, w, i - 1);
    assert port !in Used(e);
    assert Used(e') == Used(e) + [port];
    ElementsSnoc(Used(e), port);
  }

  /** A packet inside the window keeps the description, and fires exactly when it
      takes the number of distinct ports from fourteen to fifteen. */
  lemma StepTracks(e: PortEntry, xs: seq<Touch>, w: nat, i: nat)
    requires w < i < |xs| && Tracks(e, xs, w, i - 1) && !Expired(Some(e), xs[i].time)
    ensures Tracks(After(Some(e), xs[i]), xs, w, i)
    ensures Fires(Some(e), xs[i]) <==>
            |Seen(xs, w, i - 1)| == MULTIPORT_SCAN_THRESHOLD - 1 && |Seen(xs, w, i)| == MULTIPORT_SCAN_THRESHOLD
  {
    if e.emitted {
      EmittedTracks(e, xs, w, i);
    } else {
      UsedIsSeen(e, xs, w, i - 1);
      if xs[i].port in Seen(xs, w, i - 1) {
        SeenStep(xs, w, i);
        assert Seen(xs, w, i) == Seen(xs, w, i - 1);
        assert xs[i].port in Used(e);
      } else {
        RecordTracks(e, xs, w, i);
        assert xs[i].port !in Elements(Used(e));
      }
    }
  }

  /** A packet finds its entry expired exactly when it opens a window. */
  lemma ExpiryOpens(xs: seq<Touch>, i: nat, e: PortEntry)
    requires RW.Clock(Times(xs)) && 0 < i < |xs| && e.start == xs[Opener(xs, i - 1)].time
    ensures Opener(xs, i) == if Expired(Some(e), xs[i].time) then i else Opener(xs, i - 1)
  {
    var w, ts := Opener(xs, i - 1), Times(xs);
    assert ts[w] <= ts[i] && (ts[i] - ts[w]) % RW.U64 == ts[i] - ts[w];
  }

  /** Packet `i` brings the fifteenth distinct port of its window. */
  ghost predicate CrossesThreshold(xs: seq<Touch>, i: nat)
    requires i < |xs|
  {
    var w := Opener(xs, i);
    w < i && |Seen(xs, w, i - 1)| == 14 && |Seen(xs, w, i)| == 15
  }

  /** What a packet makes of the entry before it. */
  lemma NextTracks(prior: Option<PortEntry>, xs: seq<Touch>, i: nat)
    requires RW.Clock(Times(xs)) && i < |xs|
    requires if i == 0 then prior.None? else prior.Some? && Tracks(prior.value, xs, Opener(xs, i - 1), i - 1)
    ensures Tracks(After(prior, xs[i]), xs, Opener(xs, i), i)
    ensures Fires(prior, xs[i]) <==> CrossesThreshold(xs, i)
  {
    if i > 0 { ExpiryOpens(xs, i, prior.value); }
    if Expired(prior, xs[i].time) { FreshTracks(xs, i); } else { StepTracks(prior.value, xs, Opener(xs, i), i); }
  }

  /** The entry after `n` packets. */
  function EntryAt(xs: seq<Touch>, n: nat): Option<PortEntry>
    requires n <= |xs|
  {
    Fold(After, xs[..n])
  }

  lemma EntryNext(xs: seq<Touch>, i: nat)
    requires i < |xs|
    ensures EntryAt(xs, i + 1) == Some(After(EntryAt(xs, i), xs[i])) && EntryAt(xs, 0) == None
  {
    FoldSnoc(After, xs, i);
  }

  lemma {:induction false} EntryTracks(xs: seq<Touch>, i: nat)
    requires RW.Clock(Times(xs)) && i < |xs|
    ensures EntryAt(xs, i + 1).Some? && Tracks(EntryAt(xs, i + 1).value, xs, Opener(xs, i), i)
    ensures Fires(EntryAt(xs, i), xs[i]) <==> CrossesThreshold(xs, i)
  {
    EntryNext(xs, i);
    if i > 0 { EntryTracks(xs, i - 1); }
    NextTracks(EntryAt(xs, i), xs, i);
  }

  /** The detector over a whole history of one source: after every packet the
      array is repeat-free and equals the ports seen in the window until the
      threshold, and the detector fires at precisely the packet that brings the
      fifteenth distinct port of its window. */
  lemma PortScanExact(xs: seq<Touch>, i: nat)
    requires RW.Clock(Times(xs)) && i < |xs|
    ensures Fold(After, xs[..i + 1]).Some? && Tracks(Fold(After, xs[..i + 1]).value, xs, Opener(xs, i), i)
    ensures Fires(Fold(After, xs[..i]), xs[i]) <==> CrossesThreshold(xs, i)
  {
    EntryTracks(xs, i);
  }

  /** Hence at most once per window. */
  lemma FiresOncePerWindow(xs: seq<Touch>, i: nat, j: nat)
    requires RW.Clock(Times(xs)) && i < j < |xs| && Opener(xs, i) == Opener(xs, j)
    requires Fires(Fold(After, xs[..i]), xs[i])
    ensures !Fires(Fold(After, xs[..j]), xs[j])
  {
    PortScanExact(xs, i);
    PortScanExact(xs, j);
    var w := Opener(xs, i);
    assert Seen(xs, w, i) <= Seen(xs, w, j - 1);
    SubsetSize(Seen(xs, w, i), Seen(xs, w, j - 1));
  }
}
