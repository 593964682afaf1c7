/** Keyed state updated in place equals, key by key, a fold over that key's own
    inputs. Every per-source and per-tunnel table below is an instance. */
module KeyedFold {
  import opened Prelude

  /** The inputs of one key, in order. */
  function Own<K(==), X>(xs: seq<(K, X)>, k: K): seq<X> {
    if xs == [] then []
    else
      var init, last := Own(xs[..|xs| - 1], k), xs[|xs| - 1];
      if last.0 == k then init + [last.1] else init
  }

  /** One key's state after its inputs; None before the first. */
  function Fold<V, X>(f: (Option<V>, X) -> V, xs: seq<X>): Option<V> {
    if xs == [] then None else Some(f(Fold(f, xs[..|xs| - 1]), xs[|xs| - 1]))
  }

  lemma FoldSnoc<V, X>(f: (Option<V>, X) -> V, xs: seq<X>, i: nat)
    requires i < |xs|
    ensures Fold(f, xs[..i + 1]) == Some(f(Fold(f, xs[..i]), xs[i]))
  {
    assert xs[..i + 1][..i] == xs[..i];
  }

  /** One map holding every key, updated at the key of each input. */
  function Table<K(==), V, X>(f: (Option<V>, X) -> V, xs: seq<(K, X)>): map<K, V> {
    if xs == [] then map[]
    else
      var before, last := Table(f, xs[..|xs| - 1]), xs[|xs| - 1];
      before[last.0 := f(Get(before, last.0), last.1)]
  }

  lemma {:induction false} TableIsFold<K, V, X>(f: (Option<V>, X) -> V, xs: seq<(K, X)>, k: K)
    ensures Get(Table(f, xs), k) == Fold(f, Own(xs, k))
  {
    if xs != [] {
      var init, last := xs[..|xs| - 1], xs[|xs| - 1];
      TableIsFold(f, init, k);
      if last.0 == k {
        TableIsFold(f, init, last.0);
        var own := Own(xs, k);
        assert own[..|own| - 1] == Own(init, k);
      }
    }
  }

  /** What holds of every input holds of one key's inputs. */
  lemma {:induction false} OwnFrom<K, X>(xs: seq<(K, X)>, k: K, x: X)
    requires x in Own(xs, k)
    ensures (k, x) in xs
  {
    var init, last := xs[..|xs| - 1], xs[|xs| - 1];
    if last.0 == k && last.1 == x {
    } else {
      OwnFrom(init, k, x);
    }
  }
}
