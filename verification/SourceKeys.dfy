/** The source blocklists, from a status entry to a dropped packet: their keys are
    the address octets as the wire has them, on every host
    (pkg/ebpf/blocklist.go, pkg/ebpf/loader_linux.go, pkg/ebpf/inspect_linux.go). */
module SourceKeys {
  import opened Prelude
  import opened TunnelText
  import opened PacketFilter
  import opened FilterRuns
  import opened MapKeys
  import opened Verdicts
  import NI = NonInterference

  predicate AllAddresses(addrs: set<Addr>) {
    forall a :: a in addrs ==> IsAddress(a)
  }

  /** ipv4Key and ipv6Key of the IPv4, or of the IPv6, addresses among `addrs`. */
  function AddressKeys(addrs: set<Addr>, v4: bool): set<seq<int>> {
    set a | a in addrs && a.V4? == v4 :: a.bytes
  }

  lemma AddressKeysStep(addrs: set<Addr>, a: Addr, v4: bool)
    ensures AddressKeys(addrs + {a}, v4) == AddressKeys(addrs, v4) + (if a.V4? == v4 then {a.bytes} else {})
    ensures AddressKeys(addrs - {a}, v4) == AddressKeys(addrs, v4) - (if a.V4? == v4 then {a.bytes} else {})
  {
    if a.V4? == v4 {
      forall k | k in AddressKeys(addrs, v4) && k != a.bytes ensures k in AddressKeys(addrs - {a}, v4) {
        var b :| b in addrs && b.V4? == v4 && b.bytes == k;
        assert b in addrs - {a};
      }
    }
  }

  /** blocklist and blocklist_v6. The ghost set says which sources they stand for. */
  class SourceMaps {
    const capacity: nat
    var v4: set<seq<int>>
    var v6: set<seq<int>>
    ghost var blocked: set<Addr>

    constructor (capacity: nat)
      ensures Valid() && this.capacity == capacity && blocked == {}
    {
      this.capacity := capacity;
      v4, v6, blocked := {}, {}, {};
    }

    ghost predicate Valid()
      reads this
    {
      AllAddresses(blocked) && v4 == AddressKeys(blocked, true) && v6 == AddressKeys(blocked, false)
    }

    ghost function Held(a: Addr): set<seq<int>>
      reads this
    {
      if a.V4? then v4 else v6
    }

    /** The program's lookup, for a packet from `a`, hits for exactly the blocked
        sources. */
    lemma LookupHits(a: Addr)
      requires Valid() && IsAddress(a)
      ensures a.bytes in Held(a) <==> a in blocked
    {
    }

    method Insert(a: Addr)
      requires Valid() && IsAddress(a)
      modifies this`v4, this`v6, this`blocked
      ensures Valid() && blocked == old(blocked) + {a}
    {
      AddressKeysStep(blocked, a, true);
      AddressKeysStep(blocked, a, false);
      if a.V4? { v4 := v4 + {a.bytes}; } else { v6 := v6 + {a.bytes}; }
      blocked := blocked + {a};
    }

    /** Refused on a failed write, and for a new key in a full map. */
    method Block(ip: Addr, fault: bool) returns (ok: bool)
      requires Valid() && IsAddress(ip)
      modifies this`v4, this`v6, this`blocked
      ensures Valid()
      ensures ok <==> !fault && (To4(ip) in old(blocked) || |old(Held(To4(ip)))| < capacity)
      ensures blocked == if ok then old(blocked) + {To4(ip)} else old(blocked)
    {
      var a := To4(ip);
      LookupHits(a);
      var held := if a.V4? then v4 else v6;
      ok := !fault && (a.bytes in held || |held| < capacity);
      if ok { Insert(a); }
    }

    /** An absent key is no error. */
    method Unblock(ip: Addr, fault: bool) returns (ok: bool)
      requires Valid() && IsAddress(ip)
      modifies this`v4, this`v6, this`blocked
      ensures Valid() && (ok <==> !fault)
      ensures blocked == if ok then old(blocked) - {To4(ip)} else old(blocked)
    {
      ok := !fault;
      if !ok { return; }
      var a := To4(ip);
      AddressKeysStep(blocked, a, true);
      AddressKeysStep(blocked, a, false);
      if a.V4? { v4 := v4 - {a.bytes}; } else { v6 := v6 - {a.bytes}; }
      blocked := blocked - {a};
    }

    /** BlockedIPs: both maps read back, in no particular order: exactly the blocked
        sources. */
    method BlockedIPs() returns (out: seq<Addr>)
      requires Valid()
      ensures forall a :: a in out <==> a in blocked
    {
      out := [];
      var todo := v4;
      while todo != {}
        invariant todo <= v4
        invariant forall a :: a in out <==> a.V4? && a.bytes in v4 - todo
        decreases todo
      {
        var key :| key in todo;
        todo := todo - {key};
        out := out + [V4(key)];
      }
      todo := v6;
      while todo != {}
        invariant todo <= v6
        invariant forall a :: a in out <==> (a.V4? && a.bytes in v4) || (a.V6? && a.bytes in v6 - todo)
        decreases todo
      {
        var key :| key in todo;
        todo := todo - {key};
        out := out + [V6(key)];
      }
      forall a ensures a in out <==> a in blocked {
        if a in out {
          var b :| b in blocked && b.V4? == a.V4? && b.bytes == a.bytes;
          assert a == b;
        }
      }
    }
  }

  // ---------------------------------------------------------------- end to end

  /** `d` holds exactly the sources whose lookup hits in these maps. */
  ghost predicate RepresentsSources(d: Drops, v4: set<seq<int>>, v6: set<seq<int>>) {
    forall a :: IsAddress(a) ==> (a in d.sources <==> a.bytes in (if a.V4? then v4 else v6))
  }

  /** End to end: an address text that a status lists, pushed through the loader,
      makes the program drop every packet from that address and no packet that it
      did not drop before from any other, on every host. */
  lemma SourceTextToDrop(parse: string -> Option<Addr>, source: string, d: Drops, v4: set<seq<int>>, v6: set<seq<int>>,
                         m: Maps, trace: seq<Frame>, i: nat)
    requires parse(source).Some? && i < |trace|
    requires IsAddress(parse(source).value) && To4(parse(source).value) == parse(source).value
    requires RepresentsSources(d, v4, v6)
    ensures var addr := parse(source).value;
            var d', v := NI.BlockingSource(d, addr), Decode(trace[i].bytes);
            && RepresentsSources(d', if addr.V4? then v4 + {addr.bytes} else v4,
                                     if addr.V6? then v6 + {addr.bytes} else v6)
            && (At(d', m, trace, i).verdict == Drop <==>
                (v.Packet? && v.src == addr) || At(d, m, trace, i).verdict == Drop)
  {
    var d' := NI.BlockingSource(d, parse(source).value);
    VerdictExact(d, m, trace, i);
    VerdictExact(d', m, trace, i);
  }
}
