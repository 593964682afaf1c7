/** The tumbling-window packet counters of bpf/packet_filter.c
    (track_signal_rate, track_scan_rate, track_tunnel_rate): what a reported
    count says about the packets themselves. */
module RateWindow {
  import opened Prelude
  import opened KeyedFold

  const SIGNALING_RATE_WINDOW_NS: int := 1_000_000_000
  const U32: int := 0x1_0000_0000
  const U64: int := 0x1_0000_0000_0000_0000

  /** struct signal_rate_entry. */
  datatype RateEntry = RateEntry(start: int, count: int)

  /** One packet at `now`, with C's unsigned arithmetic. */
  function Count(prior: Option<RateEntry>, now: int): RateEntry {
    match prior
    case None => RateEntry(now, 1)
    case Some(e) =>
      if (now - e.start) % U64 > SIGNALING_RATE_WINDOW_NS then RateEntry(now, 1)
      else RateEntry(e.start, (e.count + 1) % U32)
  }

  /** The same without wrap-around. */
  function Tally(prior: Option<RateEntry>, now: int): RateEntry {
    match prior
    case None => RateEntry(now, 1)
    case Some(e) =>
      if now - e.start > SIGNALING_RATE_WINDOW_NS then RateEntry(now, 1) else RateEntry(e.start, e.count + 1)
  }

  /** Packet times as bpf_ktime_get_ns hands them out. */
  ghost predicate Clock(ts: seq<int>) {
    && (forall i :: 0 <= i < |ts| ==> 0 <= ts[i] < U64)
    && (forall i, j :: 0 <= i <= j < |ts| ==> ts[i] <= ts[j])
  }

  /** The index of the packet that opened the window packet `i` is counted in. */
  function Opener(ts: seq<int>, width: int, i: nat): (w: nat)
    requires i < |ts|
    ensures w <= i
  {
    if i == 0 then 0
    else
      var w := Opener(ts, width, i - 1);
      if ts[i] - ts[w] > width then i else w
  }

  /** What the counter reports for packet `i` of one key. */
  function Reported(ts: seq<int>, i: nat): nat
    requires i < |ts|
  {
    i - Opener(ts, 1_000_000_000, i) + 1
  }

  lemma CountIsTally(ts: seq<int>, w: nat, i: nat, count: nat)
    requires Clock(ts) && w < i < |ts| && count < U32 - 1
    ensures var e := Some(RateEntry(ts[w], count)); Count(e, ts[i]) == Tally(e, ts[i])
  {
    assert ts[w] <= ts[i] && 0 <= ts[i] - ts[w] < U64;
  }

  /** The in-place counter is exactly this, as long as neither the 64-bit clock
      nor the 32-bit count wraps. */
  lemma {:induction false} CounterIsReported(ts: seq<int>, i: nat)
    requires Clock(ts) && i < |ts| < U32
    ensures var e := RateEntry(ts[Opener(ts, SIGNALING_RATE_WINDOW_NS, i)], Reported(ts, i));
            Fold(Count, ts[..i + 1]) == Some(e) && Fold(Tally, ts[..i + 1]) == Some(e)
  {
    FoldSnoc(Count, ts, i);
    FoldSnoc(Tally, ts, i);
    if i == 0 {
      assert ts[..0] == [];
    } else {
      CounterIsReported(ts, i - 1);
      var w := Opener(ts, SIGNALING_RATE_WINDOW_NS, i - 1);
      CountIsTally(ts, w, i, i - w);
    }
  }

  /** What the counter returns for packet `i`, from the packets before it. */
  lemma CountOnArrival(ts: seq<int>, i: nat)
    requires Clock(ts) && i < |ts| < U32
    ensures Count(Fold(Count, ts[..i]), ts[i]).count == Reported(ts, i)
  {
    CounterIsReported(ts, i);
    FoldSnoc(Count, ts, i);
  }

  // ---------------------------------------------------------------- windows

  /** A count depends on no later packet. */
  lemma {:induction false} OpenerOfPrefix(ts: seq<int>, width: int, n: nat, i: nat)
    requires i < n <= |ts|
    ensures Opener(ts[..n], width, i) == Opener(ts, width, i)
  {
    if i > 0 { OpenerOfPrefix(ts, width, n, i - 1); }
  }

  lemma ReportedOfPrefix(ts: seq<int>, i: nat)
    requires i < |ts|
    ensures Reported(ts[..i + 1], i) == Reported(ts, i)
  {
    OpenerOfPrefix(ts, SIGNALING_RATE_WINDOW_NS, i + 1, i);
  }

  /** All packets between a window's opener and packet `i` belong to that
      window and lie within its width. */
  lemma {:induction false} WithinWindow(ts: seq<int>, width: int, i: nat, j: nat)
    requires i < |ts| && width >= 0 && Opener(ts, width, i) <= j <= i
    ensures Opener(ts, width, j) == Opener(ts, width, i)
    ensures ts[j] - ts[Opener(ts, width, i)] <= width
  {
    if j < i { WithinWindow(ts, width, i - 1, j); }
  }

  /** A window opens strictly after the previous one has run its width. */
  lemma OpenerAfter(ts: seq<int>, width: int, i: nat)
    requires i < |ts| && Opener(ts, width, i) > 0
    ensures var w := Opener(ts, width, i); ts[w] - ts[Opener(ts, width, w - 1)] > width
  {
    var w := Opener(ts, width, i);
    OpenerOpens(ts, width, i);
  }

  lemma {:induction false} OpenerOpens(ts: seq<int>, width: int, i: nat)
    requires i < |ts|
    ensures Opener(ts, width, Opener(ts, width, i)) == Opener(ts, width, i)
  {
    if i > 0 && Opener(ts, width, i) != i { OpenerOpens(ts, width, i - 1); }
  }

  // ---------------------------------------------------------------- against a sliding count

  /** The packets with times in the closed interval [from, to]. */
  function Packets(ts: seq<int>, from: int, to: int): set<nat> {
    set j: nat | j < |ts| && from <= ts[j] <= to
  }

  function Range(lo: nat, hi: nat): (r: set<nat>)
    requires lo <= hi
    ensures forall x :: x in r <==> lo <= x < hi
    ensures |r| == hi - lo
    decreases hi - lo
  {
    if lo == hi then {} else Range(lo, hi - 1) + {hi - 1}
  }

  /** Never too high: a rate reported at time t is at most the number of that
      key's packets in [t - W, t]. */
  lemma ReportedAtMostSliding(ts: seq<int>, i: nat)
    requires Clock(ts) && i < |ts|
    ensures Reported(ts, i) <= |Packets(ts, ts[i] - SIGNALING_RATE_WINDOW_NS, ts[i])|
  {
    var w := Opener(ts, SIGNALING_RATE_WINDOW_NS, i);
    WithinWindow(ts, SIGNALING_RATE_WINDOW_NS, i, i);
    SubsetSize(Range(w, i + 1), Packets(ts, ts[i] - SIGNALING_RATE_WINDOW_NS, ts[i]));
  }

  /** At most two windows meet an interval of the window's width, and the earlier
      one opened before the interval began. */
  lemma DenseRunReports(ts: seq<int>, lo: nat, hi: nat, n: nat) returns (k: nat)
    requires Clock(ts) && lo <= hi < |ts| && ts[hi] - ts[lo] <= SIGNALING_RATE_WINDOW_NS
    requires hi - lo + 1 >= n && hi - lo + 1 >= 2 * n - 2
    ensures lo <= k <= hi && Reported(ts, k) >= n
  {
    var width := SIGNALING_RATE_WINDOW_NS;
    var w := Opener(ts, width, hi);
    k := hi;
    if w > lo && Reported(ts, hi) < n {
      OpenerAfter(ts, width, hi);
      var earlier := Opener(ts, width, w - 1);
      assert earlier < lo;
      k := w - 1;
    }
  }

  lemma {:induction false} Extremes(s: set<nat>) returns (lo: nat, hi: nat)
    requires s != {}
    ensures lo in s && hi in s && forall x :: x in s ==> lo <= x <= hi
    decreases |s|
  {
    var x :| x in s;
    if s == {x} {
      lo, hi := x, x;
    } else {
      assert |s - {x}| < |s| by { assert s == (s - {x}) + {x}; }
      lo, hi := Extremes(s - {x});
      lo, hi := if x < lo then x else lo, if x > hi then x else hi;
    }
  }

  /** Never far too low: a closed interval of the window's width that holds at
      least n and at least 2n - 2 packets of one key contains a packet that
      reports n or more. */
  lemma DenseIntervalReports(ts: seq<int>, from: int, n: nat) returns (k: nat)
    requires Clock(ts) && n >= 1
    requires |Packets(ts, from, from + SIGNALING_RATE_WINDOW_NS)| >= n
    requires |Packets(ts, from, from + SIGNALING_RATE_WINDOW_NS)| >= 2 * n - 2
    ensures k in Packets(ts, from, from + SIGNALING_RATE_WINDOW_NS) && Reported(ts, k) >= n
  {
    var inside := Packets(ts, from, from + SIGNALING_RATE_WINDOW_NS);
    var lo, hi := Extremes(inside);
    SubsetSize(inside, Range(lo, hi + 1));
    k := DenseRunReports(ts, lo, hi, n);
  }

  /** The bound is the best possible: for every n from 2 on there is a trace with
      2n - 3 packets in such an interval of which none reports n. */
  lemma DenseBoundTight(n: nat) returns (ts: seq<int>)
    requires n >= 2
    ensures Clock(ts)
    ensures |Packets(ts, 1, 1 + SIGNALING_RATE_WINDOW_NS)| == 2 * n - 3
    ensures forall k :: k in Packets(ts, 1, 1 + SIGNALING_RATE_WINDOW_NS) ==> Reported(ts, k) < n
  {
    var width := SIGNALING_RATE_WINDOW_NS;
    ts := seq(2 * n - 2, k => if k == 0 then 0 else if k < n - 1 then width else width + 1);
    assert Packets(ts, 1, 1 + width) == Range(1, 2 * n - 2);
    forall k | k in Packets(ts, 1, 1 + width) ensures Reported(ts, k) < n {
      TightOpener(ts, n, k);
    }
  }

  lemma {:induction false} TightOpener(ts: seq<int>, n: nat, k: nat)
    requires n >= 2 && k < 2 * n - 2 == |ts|
    requires forall j :: 0 <= j < |ts| ==>
               ts[j] == if j == 0 then 0
                        else if j < n - 1 then SIGNALING_RATE_WINDOW_NS else SIGNALING_RATE_WINDOW_NS + 1
    ensures Opener(ts, SIGNALING_RATE_WINDOW_NS, k) == if k < n - 1 then 0 else n - 1
  {
    if k > 0 { TightOpener(ts, n, k - 1); }
  }
}
