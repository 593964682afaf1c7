/** The bounded first-in-first-out table both rule detectors of pkg/detect keep:
    a ring of keys in admission order beside a map. */
module FifoRing {
  import opened Prelude

  /** The live keys, oldest first: slots are filled from 0, and once all are in
      use the oldest is the one `next` points at. */
  function Live<K>(slots: seq<K>, next: nat, used: nat): seq<K>
    requires next < |slots| && used <= |slots|
  {
    if used < |slots| then slots[..used] else slots[next..] + slots[..next]
  }

  /** The same queue without the ring: the oldest key makes room. */
  function Admitted<K>(fifo: seq<K>, capacity: int, k: K): seq<K> {
    (if |fifo| >= capacity && fifo != [] then fifo[1..] else fifo) + [k]
  }

  /** The slot after `next`, wrapping at the end of the ring. */
  function Following(next: nat, size: nat): nat {
    if next + 1 >= size then 0 else next + 1
  }

  method NextSlot(next: nat, size: nat) returns (r: nat)
    requires next < size
    ensures r == Following(next, size)
  {
    r := (next + 1) % size;
  }

  /** Overwriting the slot at `next` and moving on is that queue operation. */
  lemma RingAdmits<K>(slots: seq<K>, next: nat, used: nat, k: K)
    requires next < |slots| && used <= |slots| && (used < |slots| ==> next == used)
    ensures var next' := Following(next, |slots|);
            var used' := if used < |slots| then used + 1 else used;
            && Live(slots[next := k], next', used') == Admitted(Live(slots, next, used), |slots|, k)
            && (used' < |slots| ==> next' == used')
  {
    var slots' := slots[next := k];
    if used < |slots| {
      FillSlot(slots, used, k);
    } else if next + 1 == |slots| {
      LastSlot(slots, k);
    } else {
      MiddleSlot(slots, next, k);
    }
  }

  lemma FillSlot<K>(slots: seq<K>, used: nat, k: K)
    requires used < |slots|
    ensures slots[used := k][..used + 1] == slots[..used] + [k]
    ensures used + 1 == |slots| ==> slots[used := k][0..] + slots[used := k][..0] == slots[..used] + [k]
  {
  }

  lemma LastSlot<K>(slots: seq<K>, k: K)
    requires slots != []
    ensures var n := |slots| - 1;
            slots[n := k][0..] + slots[n := k][..0] == (slots[n..] + slots[..n])[1..] + [k]
  {
  }

  lemma MiddleSlot<K>(slots: seq<K>, next: nat, k: K)
    requires next + 1 < |slots|
    ensures slots[next := k][next + 1..] + slots[next := k][..next + 1] == (slots[next..] + slots[..next])[1..] + [k]
  {
    assert slots[next := k][next + 1..] == slots[next + 1..];
    assert slots[next := k][..next + 1] == slots[..next] + [k];
    assert (slots[next..] + slots[..next])[1..] == slots[next + 1..] + slots[..next];
  }

  /** The queue holds the last admissions, as many as fit. */
  ghost predicate Latest<K>(adm: seq<K>, fifo: seq<K>, capacity: int) {
    && |fifo| == (if |adm| < capacity then |adm| else capacity)
    && fifo == adm[|adm| - |fifo|..]
  }

  lemma AdmittedLatest<K>(adm: seq<K>, fifo: seq<K>, capacity: int, k: K)
    requires capacity > 0 && Latest(adm, fifo, capacity)
    ensures Latest(adm + [k], Admitted(fifo, capacity, k), capacity)
  {
    if |fifo| >= capacity {
      assert fifo[1..] == adm[|adm| - capacity + 1..];
    }
  }

  lemma AdmittedDistinct<K>(fifo: seq<K>, capacity: int, k: K)
    requires Distinct(fifo) && k !in fifo
    ensures Distinct(Admitted(fifo, capacity, k))
  {
  }

  // ---------------------------------------------------------------- with its map

  /** The queue is repeat-free and within capacity, and the map beside it has
      exactly its keys. */
  ghost predicate InStep<K, V>(fifo: seq<K>, m: map<K, V>, capacity: int) {
    Distinct(fifo) && |fifo| <= capacity && m.Keys == Elements(fifo)
  }

  /** The map once the oldest key has made room. */
  function MakeRoom<K, V>(fifo: seq<K>, m: map<K, V>, capacity: int): map<K, V> {
    if |m| >= capacity && fifo != [] then m - {fifo[0]} else m
  }

  lemma InStepSize<K, V>(fifo: seq<K>, m: map<K, V>, capacity: int)
    requires InStep(fifo, m, capacity)
    ensures |m| == |fifo|
  {
    DistinctSize(fifo);
    assert |m| == |m.Keys|;
  }

  lemma AdmitInStep<K, V>(fifo: seq<K>, m: map<K, V>, capacity: int, k: K, v: V)
    requires InStep(fifo, m, capacity) && capacity > 0 && k !in m
    ensures InStep(Admitted(fifo, capacity, k), MakeRoom(fifo, m, capacity)[k := v], capacity)
  {
    InStepSize(fifo, m, capacity);
    assert k !in fifo by { assert k !in Elements(fifo); }
    AdmittedDistinct(fifo, capacity, k);
    AdmittedKeys(fifo, capacity, k);
    MadeRoomKeys(fifo, m, capacity, k, v);
  }

  lemma MadeRoomKeys<K, V>(fifo: seq<K>, m: map<K, V>, capacity: int, k: K, v: V)
    requires |m| == |fifo|
    ensures MakeRoom(fifo, m, capacity)[k := v].Keys ==
            (if |fifo| >= capacity && fifo != [] then m.Keys - {fifo[0]} else m.Keys) + {k}
  {
  }

  /** How many keys the map has once the oldest made room and `k` came in. */
  lemma AdmitSize<K, V>(fifo: seq<K>, m: map<K, V>, capacity: int, k: K, v: V)
    requires InStep(fifo, m, capacity) && capacity > 0 && k !in m
    ensures |MakeRoom(fifo, m, capacity)[k := v]| == if |m| < capacity then |m| + 1 else |m|
  {
    AdmitInStep(fifo, m, capacity, k, v);
    InStepSize(fifo, m, capacity);
    InStepSize(Admitted(fifo, capacity, k), MakeRoom(fifo, m, capacity)[k := v], capacity);
  }

  lemma AdmittedKeys<K>(fifo: seq<K>, capacity: int, k: K)
    requires Distinct(fifo)
    ensures Elements(Admitted(fifo, capacity, k)) ==
            (if |fifo| >= capacity && fifo != [] then Elements(fifo) - {fifo[0]} else Elements(fifo)) + {k}
  {
    if |fifo| >= capacity && fifo != [] {
      assert fifo == [fifo[0]] + fifo[1..];
      assert Elements(fifo) == {fifo[0]} + Elements(fifo[1..]);
    }
  }
}
