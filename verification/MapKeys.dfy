/** From a status entry to a dropped packet: the byte keys the Go loader writes
    (pkg/ebpf/loader_linux.go), the ones the C program looks up
    (bpf/packet_filter.c), and the ones the inspector reads back
    (pkg/ebpf/inspect_linux.go). */
module MapKeys {
  import opened Prelude
  import opened TunnelText
  import opened GtpuHeader
  import opened PacketFilter
  import opened FilterRuns
  import opened Verdicts
  import NI = NonInterference

  /** The byte order of the machine: cilium/ebpf marshals, and C stores, in it. */
  datatype Host = LittleEndian | BigEndian

  /** An address as the wire has it. */
  predicate IsAddress(a: Addr) {
    |a.bytes| == (if a.V4? then 4 else 16) && forall i :: 0 <= i < |a.bytes| ==> 0 <= a.bytes[i] < 256
  }

  /** net.IP.To4: an IPv4-mapped IPv6 address is the IPv4 address it carries. */
  function To4(a: Addr): (r: Addr)
    requires IsAddress(a)
    ensures IsAddress(r)
  {
    if a.V6? && a.bytes[..12] == seq(10, _ => 0) + [0xFF, 0xFF] then V4(a.bytes[12..]) else a
  }

  /** ::ffff:a.b.c.d is a.b.c.d, and every other address is itself. */
  lemma To4Exact(a: Addr, x: seq<int>)
    requires IsAddress(a)
    ensures To4(a) == V4(x) && a.V6? <==> a == V6([0, 0, 0, 0, 0, 0, 0, 0, 0, 0, 0xFF, 0xFF] + x)
    ensures a.V4? || To4(a).V6? ==> To4(a) == a
  {
    var mapped := seq(10, _ => 0) + [0xFF, 0xFF];
    assert mapped == [0, 0, 0, 0, 0, 0, 0, 0, 0, 0, 0xFF, 0xFF];
    assert a.V6? ==> a.bytes == a.bytes[..12] + a.bytes[12..];
    if a == V6(mapped + x) { assert a.bytes[..12] == mapped && a.bytes[12..] == x; }
  }

  function Reverse4(b: seq<int>): seq<int>
    requires |b| == 4
  {
    [b[3], b[2], b[1], b[0]]
  }

  /** binary.LittleEndian.Uint32 and its inverse PutUint32. */
  function FromLittle(b: seq<int>): int
    requires |b| == 4
  {
    b[0] + 256 * (b[1] + 256 * (b[2] + 256 * b[3]))
  }

  function ToLittle(n: int): seq<int> {
    var n1 := n / 256;
    var n2 := n1 / 256;
    var n3 := n2 / 256;
    [n % 256, n1 % 256, n2 % 256, n3 % 256]
  }

  /** A uint32 in memory, and read from memory. */
  function Store(host: Host, n: int): seq<int> {
    if host.LittleEndian? then ToLittle(n) else Reverse4(ToLittle(n))
  }

  function Load(host: Host, b: seq<int>): int
    requires |b| == 4
  {
    FromLittle(if host.LittleEndian? then b else Reverse4(b))
  }

  /** tunnelBlocklistMapAndKey: the key bytes Go hands to the kernel. */
  function GoKey(host: Host, a: Addr, teid: TEID): seq<int>
    requires IsAddress(a)
  {
    if a.V4? then Store(host, FromLittle(a.bytes)) + Store(host, teid)
    else a.bytes + Store(host, teid) + [0, 0, 0, 0]
  }

  /** struct tunnel_key / tunnel_key_v6 as the program builds it: the source
      bytes as loaded from the header, the TEID as a number. */
  function CKey(host: Host, a: Addr, teid: TEID): seq<int>
    requires IsAddress(a)
  {
    if a.V4? then a.bytes + Store(host, teid) else a.bytes + Store(host, teid) + [0, 0, 0, 0]
  }

  lemma LittleRoundTrip(b: seq<int>)
    requires |b| == 4 && forall i :: 0 <= i < 4 ==> 0 <= b[i] < 256
    ensures ToLittle(FromLittle(b)) == b && 0 <= FromLittle(b) < TEID_LIMIT
  {
    var b0, b1, b2, b3 := b[0], b[1], b[2], b[3];
    LowByte(b3, 0);
    LowByte(b2, b3);
    LowByte(b1, b2 + 256 * b3);
    LowByte(b0, b1 + 256 * (b2 + 256 * b3));
  }

  lemma LowByte(low: int, high: int)
    requires 0 <= low < 256
    ensures (low + 256 * high) % 256 == low && (low + 256 * high) / 256 == high
  {
  }

  lemma LittleInverse(n: TEID)
    ensures FromLittle(ToLittle(n)) == n
  {
    var n1 := n / 256;
    var n2 := n1 / 256;
    var n3 := n2 / 256;
    assert 0 <= n3 < 256;
    assert n2 == n2 % 256 + 256 * n3;
    assert n1 == n1 % 256 + 256 * n2;
  }

  lemma StoreInverse(host: Host, n: TEID)
    ensures Load(host, Store(host, n)) == n && |Store(host, n)| == 4
  {
    LittleInverse(n);
    assert Reverse4(Reverse4(ToLittle(n))) == ToLittle(n);
  }

  /** Keys are equal only for equal tunnels, on either side. */
  lemma CKeyInjective(host: Host, a: Addr, t: TEID, b: Addr, u: TEID)
    requires IsAddress(a) && IsAddress(b) && a.V4? == b.V4? && CKey(host, a, t) == CKey(host, b, u)
    ensures a == b && t == u
  {
    var n, k := |a.bytes|, CKey(host, a, t);
    assert a.bytes == k[..n] && b.bytes == CKey(host, b, u)[..n];
    assert Store(host, t) == k[n..n + 4] && Store(host, u) == CKey(host, b, u)[n..n + 4];
    StoreInverse(host, t);
    StoreInverse(host, u);
  }

  lemma OnlyKeyOf(host: Host, a: Addr, teid: TEID)
    requires IsAddress(a)
    ensures forall b, u: TEID :: IsAddress(b) && b.V4? == a.V4? ==>
              (CKey(host, b, u) == CKey(host, a, teid) <==> (b, u) == (a, teid))
  {
    forall b, u: TEID | IsAddress(b) && b.V4? == a.V4?
      ensures CKey(host, b, u) == CKey(host, a, teid) <==> (b, u) == (a, teid)
    {
      if CKey(host, b, u) == CKey(host, a, teid) { CKeyInjective(host, b, u, a, teid); }
    }
  }

  /** Go and C build the same key for the same tunnel exactly on a little-endian
      host, for IPv6, or for an IPv4 address whose bytes read the same both
      ways. */
  lemma SameKeyExact(host: Host, a: Addr, t: TEID)
    requires IsAddress(a)
    ensures GoKey(host, a, t) == CKey(host, a, t) <==>
            host.LittleEndian? || a.V6? || (a.bytes[0] == a.bytes[3] && a.bytes[1] == a.bytes[2])
  {
    if a.V4? {
      LittleRoundTrip(a.bytes);
      var g, c := GoKey(host, a, t), CKey(host, a, t);
      assert g[..4] == Store(host, FromLittle(a.bytes)) && c[..4] == a.bytes;
      assert g[4..] == c[4..];
      assert g == g[..4] + g[4..] && c == c[..4] + c[4..];
    }
  }

  /** One address for which a big-endian host blocks the wrong key. */
  lemma BigEndianMisses(t: TEID)
    ensures IsAddress(V4([10, 0, 0, 1]))
      && GoKey(BigEndian, V4([10, 0, 0, 1]), t) != CKey(BigEndian, V4([10, 0, 0, 1]), t)
  {
    SameKeyExact(BigEndian, V4([10, 0, 0, 1]), t);
  }

  /** What BlockedTunnels makes of a key. */
  function ReadBackV4(host: Host, key: seq<int>): (Addr, int)
    requires |key| == 8
  {
    (V4(ToLittle(Load(host, key[..4]))), Load(host, key[4..8]))
  }

  function ReadBackV6(host: Host, key: seq<int>): (Addr, int)
    requires |key| == 24
  {
    (V6(key[..16]), Load(host, key[16..20]))
  }

  /** Reading back undoes writing, on every host. */
  lemma ReadBackRoundTrip(host: Host, a: Addr, t: TEID)
    requires IsAddress(a)
    ensures if a.V4? then |GoKey(host, a, t)| == 8 && ReadBackV4(host, GoKey(host, a, t)) == (a, t)
            else |GoKey(host, a, t)| == 24 && ReadBackV6(host, GoKey(host, a, t)) == (a, t)
  {
    StoreInverse(host, t);
    var k := GoKey(host, a, t);
    if a.V4? {
      LittleRoundTrip(a.bytes);
      StoreInverse(host, FromLittle(a.bytes));
      assert k[..4] == Store(host, FromLittle(a.bytes)) && k[4..8] == Store(host, t);
    } else {
      assert k[..16] == a.bytes && k[16..20] == Store(host, t);
    }
  }

  // ---------------------------------------------------------------- sets of tunnels

  predicate AllTunnels(pairs: set<(Addr, TEID)>) {
    forall p :: p in pairs ==> IsAddress(p.0)
  }

  /** The loader's keys of the IPv4, or of the IPv6, tunnels among `pairs`. */
  function Keys(host: Host, pairs: set<(Addr, TEID)>, v4: bool): set<seq<int>>
    requires AllTunnels(pairs)
  {
    set p | p in pairs && p.0.V4? == v4 :: GoKey(host, p.0, p.1)
  }

  lemma GoKeyInjective(host: Host, a: Addr, t: TEID, b: Addr, u: TEID)
    requires IsAddress(a) && IsAddress(b) && a.V4? == b.V4? && GoKey(host, a, t) == GoKey(host, b, u)
    ensures a == b && t == u
  {
    ReadBackRoundTrip(host, a, t);
    ReadBackRoundTrip(host, b, u);
  }

  /** Each of BlockTunnel and UnblockTunnel moves one tunnel's key and no other,
      on every host. */
  lemma KeysStep(host: Host, pairs: set<(Addr, TEID)>, a: Addr, t: TEID, v4: bool)
    requires AllTunnels(pairs) && IsAddress(a)
    ensures Keys(host, pairs + {(a, t)}, v4) == Keys(host, pairs, v4) + (if a.V4? == v4 then {GoKey(host, a, t)}
      else {})
    ensures Keys(host, pairs - {(a, t)}, v4) == Keys(host, pairs, v4) - (if a.V4? == v4 then {GoKey(host, a, t)}
      else {})
  {
    if a.V4? == v4 {
      forall p | p in pairs && p.0.V4? == v4 && GoKey(host, p.0, p.1) == GoKey(host, a, t) ensures p == (a, t) {
        GoKeyInjective(host, p.0, p.1, a, t);
      }
      KeysWithout(host, pairs, a, t);
    }
  }

  lemma KeysWithout(host: Host, pairs: set<(Addr, TEID)>, a: Addr, t: TEID)
    requires AllTunnels(pairs) && IsAddress(a)
    requires forall p :: p in pairs && p.0.V4? == a.V4? && GoKey(host, p.0, p.1) == GoKey(host, a, t) ==> p == (a, t)
    ensures Keys(host, pairs - {(a, t)}, a.V4?) == Keys(host, pairs, a.V4?) - {GoKey(host, a, t)}
  {
    var less := pairs - {(a, t)};
    forall k | k in Keys(host, pairs, a.V4?) && k != GoKey(host, a, t) ensures k in Keys(host, less, a.V4?) {
      var p :| p in pairs && p.0.V4? == a.V4? && k == GoKey(host, p.0, p.1);
      assert p in less;
    }
  }

  /** Every key of `pairs` reads back as its tunnel, and nothing else does. */
  lemma InspectorSeesBlocks(host: Host, pairs: set<(Addr, TEID)>, t: (Addr, int))
    requires AllTunnels(pairs)
    ensures var v4, v6 := Keys(host, pairs, true), Keys(host, pairs, false);
            && (forall k :: k in v4 ==> |k| == 8) && (forall k :: k in v6 ==> |k| == 24)
            && ((exists k :: k in v4 && t == ReadBackV4(host, k)) <==> t.0.V4? && exists p :: p in pairs && t == p)
            && ((exists k :: k in v6 && t == ReadBackV6(host, k)) <==> t.0.V6? && exists p :: p in pairs && t == p)
  {
    var v4, v6 := Keys(host, pairs, true), Keys(host, pairs, false);
    forall p | p in pairs
      ensures var k := GoKey(host, p.0, p.1);
              if p.0.V4? then |k| == 8 && ReadBackV4(host, k) == p else |k| == 24 && ReadBackV6(host, k) == p
    {
      ReadBackRoundTrip(host, p.0, p.1);
    }
    if p :| p in pairs && t == p {
      assert GoKey(host, p.0, p.1) in Keys(host, pairs, p.0.V4?);
    }
  }

  /** On a little-endian host the program looks up the loader's own keys. */
  lemma LookupExact(pairs: set<(Addr, TEID)>, a: Addr, teid: TEID)
    requires AllTunnels(pairs) && IsAddress(a)
    ensures CKey(LittleEndian, a, teid) in Keys(LittleEndian, pairs, a.V4?) <==> (a, teid) in pairs
  {
    SameKeyExact(LittleEndian, a, teid);
    if CKey(LittleEndian, a, teid) in Keys(LittleEndian, pairs, a.V4?) {
      var p :| p in pairs && p.0.V4? == a.V4? && GoKey(LittleEndian, p.0, p.1) == GoKey(LittleEndian, a, teid);
      GoKeyInjective(LittleEndian, p.0, p.1, a, teid);
    }
  }

  // ---------------------------------------------------------------- the maps

  /** tunnel_blocklist and tunnel_blocklist_v6 as byte-keyed bounded hashes. The
      ghost set says which tunnels they stand for. */
  class TunnelMaps {
    const host: Host
    const capacity: nat
    var v4: set<seq<int>>
    var v6: set<seq<int>>
    ghost var blocked: set<(Addr, TEID)>

    constructor (host: Host, capacity: nat)
      ensures Valid() && this.host == host && this.capacity == capacity && blocked == {}
    {
      this.host, this.capacity := host, capacity;
      v4, v6, blocked := {}, {}, {};
    }

    ghost predicate Valid()
      reads this
    {
      AllTunnels(blocked) && v4 == Keys(host, blocked, true) && v6 == Keys(host, blocked, false)
    }

    /** The program's lookup for a packet from `a` with this TEID. */
    ghost predicate Looks(a: Addr, teid: TEID)
      requires IsAddress(a)
      reads this
    {
      CKey(host, a, teid) in (if a.V4? then v4 else v6)
    }

    /** It hits for exactly the blocked tunnels, on a little-endian host. */
    lemma LooksBlocked(a: Addr, teid: TEID)
      requires Valid() && IsAddress(a) && host.LittleEndian?
      ensures Looks(a, teid) <==> (a, teid) in blocked
    {
      LookupExact(blocked, a, teid);
    }

    ghost function Held(a: Addr): set<seq<int>>
      reads this
    {
      if a.V4? then v4 else v6
    }

    method Insert(a: Addr, teid: TEID)
      requires Valid() && IsAddress(a)
      modifies this`v4, this`v6, this`blocked
      ensures Valid() && blocked == old(blocked) + {(a, teid)}
    {
      KeysStep(host, blocked, a, teid, true);
      KeysStep(host, blocked, a, teid, false);
      if a.V4? { v4 := v4 + {GoKey(host, a, teid)}; } else { v6 := v6 + {GoKey(host, a, teid)}; }
      blocked := blocked + {(a, teid)};
    }

    /** Refused for TEID 0, on a failed write, and for a new key in a full map. */
    method BlockTunnel(ip: Addr, teid: TEID, fault: bool) returns (ok: bool)
      requires Valid() && IsAddress(ip)
      modifies this`v4, this`v6, this`blocked
      ensures Valid()
      ensures ok <==> teid != 0 && !fault &&
                      (GoKey(host, To4(ip), teid) in old(Held(To4(ip))) || |old(Held(To4(ip)))| < capacity)
      ensures blocked == if ok then old(blocked) + {(To4(ip), teid)} else old(blocked)
    {
      var a := To4(ip);
      var held := if a.V4? then v4 else v6;
      ok := teid != 0 && !fault && (GoKey(host, a, teid) in held || |held| < capacity);
      if ok { Insert(a, teid); }
    }

    /** An absent key is no error. */
    method UnblockTunnel(ip: Addr, teid: TEID, fault: bool) returns (ok: bool)
      requires Valid() && IsAddress(ip)
      modifies this`v4, this`v6, this`blocked
      ensures Valid() && (ok <==> teid != 0 && !fault)
      ensures blocked == if ok then old(blocked) - {(To4(ip), teid)} else old(blocked)
    {
      ok := teid != 0 && !fault;
      if !ok { return; }
      var a := To4(ip);
      var key := GoKey(host, a, teid);
      KeysStep(host, blocked, a, teid, true);
      KeysStep(host, blocked, a, teid, false);
      if a.V4? { v4 := v4 - {key}; } else { v6 := v6 - {key}; }
      blocked := blocked - {(a, teid)};
    }

    /** BlockedTunnels: both maps read back, in no particular order. On every host
        the result lists exactly the blocked tunnels. */
    method BlockedTunnels() returns (out: seq<(Addr, int)>)
      requires Valid()
      ensures forall t :: t in out <==> exists p :: p in blocked && t == p
    {
      InspectorSeesBlocks(host, blocked, (V4([]), 0));
      var out4 := ReadV4(host, v4);
      var out6 := ReadV6(host, v6);
      out := out4 + out6;
      forall t ensures t in out <==> exists p :: p in blocked && t == p {
        InspectorSeesBlocks(host, blocked, t);
        assert t in out <==> t in out4 || t in out6;
      }
    }
  }

  /** The iteration over one map. */
  method ReadV4(host: Host, keys: set<seq<int>>) returns (out: seq<(Addr, int)>)
    requires forall k :: k in keys ==> |k| == 8
    ensures forall t :: t in out <==> exists k :: k in keys && t == ReadBackV4(host, k)
  {
    out := [];
    var todo := keys;
    while todo != {}
      invariant todo <= keys
      invariant forall t :: t in out <==> exists k :: k in keys - todo && t == ReadBackV4(host, k)
      decreases todo
    {
      var key :| key in todo;
      todo := todo - {key};
      out := out + [ReadBackV4(host, key)];
    }
    assert keys - todo == keys;
  }

  method ReadV6(host: Host, keys: set<seq<int>>) returns (out: seq<(Addr, int)>)
    requires forall k :: k in keys ==> |k| == 24
    ensures forall t :: t in out <==> exists k :: k in keys && t == ReadBackV6(host, k)
  {
    out := [];
    var todo := keys;
    while todo != {}
      invariant todo <= keys
      invariant forall t :: t in out <==> exists k :: k in keys - todo && t == ReadBackV6(host, k)
      decreases todo
    {
      var key :| key in todo;
      todo := todo - {key};
      out := out + [ReadBackV6(host, key)];
    }
    assert keys - todo == keys;
  }

  // ---------------------------------------------------------------- end to end

  /** `d` holds exactly the tunnels whose lookup hits in these maps. */
  ghost predicate Represents(d: Drops, host: Host, v4: set<seq<int>>, v6: set<seq<int>>) {
    forall a, t: TEID :: IsAddress(a) ==>
      ((a, t) in d.tunnels <==> CKey(host, a, t) in (if a.V4? then v4 else v6))
  }

  /** Blocking one tunnel through the loader blocks that tunnel in the program
      and no other, on a little-endian host. */
  lemma BlockTunnelBlocksExactly(d: Drops, v4: set<seq<int>>, v6: set<seq<int>>, a: Addr, teid: TEID)
    requires IsAddress(a) && Represents(d, LittleEndian, v4, v6)
    ensures var key := GoKey(LittleEndian, a, teid);
            Represents(NI.Blocking(d, (a, teid)), LittleEndian,
                       if a.V4? then v4 + {key} else v4, if a.V6? then v6 + {key} else v6)
  {
    SameKeyExact(LittleEndian, a, teid);
    OnlyKeyOf(LittleEndian, a, teid);
  }

  /** A T-PDU of this tunnel. */
  predicate OfTunnel(v: View, k: TunnelKey) {
    v.Packet? && v.src == k.0 && v.body.Datagram? && v.body.port == 2152 && TeidField(v.body.payload) == k.1
  }

  /** End to end: the status text written for a score parses to its address and
      TEID; pushed through the loader it makes the program drop every packet of
      that tunnel and no packet that it did not drop before of any other; and the
      inspector reads the same pair back. */
  lemma StatusTextToDrop(parse: string -> Option<Addr>, source: string, teid: TEID, d: Drops,
                         v4: set<seq<int>>, v6: set<seq<int>>, m: Maps, trace: seq<Frame>, i: nat)
    requires LawfulParse(parse) && parse(source).Some? && teid != 0 && i < |trace|
    requires IsAddress(parse(source).value) && To4(parse(source).value) == parse(source).value
    requires Represents(d, LittleEndian, v4, v6)
    ensures var addr := parse(source).value;
            var key := GoKey(LittleEndian, addr, teid);
            var d' := NI.Blocking(d, (addr, teid));
            && ParseTunnel(parse, FormatTunnel(source, teid)) == Some((addr, teid))
            && Represents(d', LittleEndian, if addr.V4? then v4 + {key} else v4, if addr.V6? then v6 + {key} else v6)
            && (At(d', m, trace, i).verdict == Drop <==>
                OfTunnel(Decode(trace[i].bytes), (addr, teid)) || At(d, m, trace, i).verdict == Drop)
            && (if addr.V4? then |key| == 8 && ReadBackV4(LittleEndian, key) == (addr, teid)
                else |key| == 24 && ReadBackV6(LittleEndian, key) == (addr, teid))
  {
    var addr := parse(source).value;
    TunnelTextRoundTrip(parse, source, teid);
    BlockTunnelBlocksExactly(d, v4, v6, addr, teid);
    ReadBackRoundTrip(LittleEndian, addr, teid);
    VerdictExact(d, m, trace, i);
    VerdictExact(NI.Blocking(d, (addr, teid)), m, trace, i);
  }
}
