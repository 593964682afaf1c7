/** The four enforcement maps of bpf/packet_filter.c as the operator sees them:
    one bounded hash per address family and kind of drop. Inserting into a full
    map is refused; deleting an absent key succeeds. */
module Enforcement {
  import opened Prelude
  import opened TunnelText

  datatype Entry =
    | Source(addr: Addr)             // blocklist, blocklist_v6
    | Tunnel(addr: Addr, teid: nat)  // tunnel_blocklist, tunnel_blocklist_v6

  datatype MapName = Blocklist | BlocklistV6 | TunnelBlocklist | TunnelBlocklistV6

  // Capacities are a parameter everywhere: what is proved holds of the
  // max_entries in bpf/headers/common.h and of any other choice.

  function MapOf(e: Entry): MapName {
    match e
    case Source(V4(_)) => Blocklist
    case Source(V6(_)) => BlocklistV6
    case Tunnel(V4(_), _) => TunnelBlocklist
    case Tunnel(V6(_), _) => TunnelBlocklistV6
  }

  /** A map holds one kind of drop of one address family. */
  lemma MapOfExact(e: Entry, f: Entry)
    ensures MapOf(e) in {TunnelBlocklist, TunnelBlocklistV6} <==> e.Tunnel?
    ensures MapOf(e) in {BlocklistV6, TunnelBlocklistV6} <==> e.addr.V6?
    ensures MapOf(e) == MapOf(f) <==> e.Tunnel? == f.Tunnel? && e.addr.V6? == f.addr.V6?
  {
  }

  /** The entries of `kernel` that live in map `m`. */
  function Within(kernel: set<Entry>, m: MapName): set<Entry> {
    set e | e in kernel && MapOf(e) == m
  }

  ghost predicate Fits(kernel: set<Entry>, cap: MapName -> nat) {
    forall m :: |Within(kernel, m)| <= cap(m)
  }

  /** A drop the loader will accept: TEID 0 means "no tunnel identity". */
  predicate Enforceable(e: Entry) {
    e.Tunnel? ==> e.teid != 0
  }

  /** Block / BlockTunnel: an upsert, refused when the key is new and its map
      is full. */
  predicate Accepts(kernel: set<Entry>, cap: MapName -> nat, e: Entry) {
    Enforceable(e) && (e in kernel || |Within(kernel, MapOf(e))| < cap(MapOf(e)))
  }

  /** Entries of the other address family or of the other kind, however many, never
      get an entry refused: a full IPv4 blocklist still takes an IPv6 source. */
  lemma OtherMapsNeverRefuse(kernel: set<Entry>, others: set<Entry>, cap: MapName -> nat, e: Entry)
    requires forall x :: x in others ==> x.Tunnel? != e.Tunnel? || x.addr.V6? != e.addr.V6?
    ensures Accepts(kernel + others, cap, e) <==> Accepts(kernel, cap, e)
  {
    assert Within(kernel + others, MapOf(e)) == Within(kernel, MapOf(e));
  }

  /** What is held can always be put again, and what is new needs a free slot: there
      is no eviction. */
  lemma AcceptsExact(kernel: set<Entry>, cap: MapName -> nat, e: Entry)
    requires Fits(kernel, cap)
    ensures Accepts(kernel, cap, e) <==> (e.Tunnel? ==> e.teid != 0) && Fits(kernel + {e}, cap)
  {
    forall m
      ensures |Within(kernel + {e}, m)| == |Within(kernel, m)| + (if e !in kernel && m == MapOf(e) then 1 else 0)
    {
      if m == MapOf(e) {
        assert Within(kernel + {e}, m) == Within(kernel, m) + {e};
      } else {
        assert Within(kernel + {e}, m) == Within(kernel, m);
      }
    }
    if Fits(kernel + {e}, cap) && e !in kernel {
      assert |Within(kernel + {e}, MapOf(e))| <= cap(MapOf(e));
    }
  }

  lemma SubsetFits(small: set<Entry>, big: set<Entry>, cap: MapName -> nat)
    requires small <= big && Fits(big, cap)
    ensures Fits(small, cap)
  {
    forall m ensures |Within(small, m)| <= cap(m) {
      SubsetSize(Within(small, m), Within(big, m));
    }
  }
}
