/** The frames xdp_packet_filter reads as IP packets, given by a printer, and what
    it makes of each: its decoder decides this grammar. */
module FrameGrammar {
  import opened Prelude
  import opened TunnelText
  import opened GtpuHeader
  import opened PacketFilter

  /** An 802.1Q tag. `priority` is the priority and drop-eligible bits. */
  datatype Tag = Tag(priority: int, id: int)

  datatype Link = Link(macs: seq<byte>, tag: Option<Tag>)

  /** The fixed part of an IP header, with the fields nothing looks at as octets.
      `words` is the IPv4 header length with its options. */
  datatype Network =
    | IPv4(version: int, words: int, tos: byte, lengthAndId: seq<byte>, flags: int, offset: int, ttl: byte,
           protocol: byte, checksum: seq<byte>, src: seq<byte>, dst: seq<byte>)
    | IPv6(versionToLength: seq<byte>, protocol: byte, hops: byte, src: seq<byte>, dst: seq<byte>)

  /** What follows it: options and a UDP datagram, or anything else. */
  datatype Tail =
    | Raw(octets: seq<byte>)
    | Udp(options: seq<byte>, sourcePort: seq<byte>, port: int, lengthAndChecksum: seq<byte>, payload: seq<byte>)

  datatype IPFrame = IPFrame(link: Link, net: Network, tail: Tail)

  // ---------------------------------------------------------------- the grammar

  predicate WellFormedLink(l: Link) {
    |l.macs| == 12 && (l.tag.Some? ==> 0 <= l.tag.value.priority < 16 && 0 <= l.tag.value.id < 4096)
  }

  predicate WellFormedNetwork(n: Network) {
    match n
    case IPv4(version, words, _, lengthAndId, flags, offset, _, _, checksum, src, dst) =>
      && 0 <= version < 16 && 5 <= words < 16 && |lengthAndId| == 4 && 0 <= flags < 8 && 0 <= offset < 8192
      && |checksum| == 2 && |src| == 4 && |dst| == 4
    case IPv6(versionToLength, _, _, src, dst) => |versionToLength| == 6 && |src| == 16 && |dst| == 16
  }

  /** A UDP header starts here: not in a later fragment, nor behind IPv6 extensions. */
  predicate CarriesUdp(n: Network) {
    n.protocol == 17 && (n.IPv4? ==> n.offset == 0)
  }

  function OptionBytes(n: Network): int {
    if n.IPv4? then (n.words - 5) * 4 else 0
  }

  predicate WellFormedTail(n: Network, t: Tail) {
    match t
    case Raw(octets) => CarriesUdp(n) ==> |octets| < OptionBytes(n) + 8
    case Udp(options, sourcePort, port, lengthAndChecksum, _) =>
      && CarriesUdp(n) && |options| == OptionBytes(n)
      && |sourcePort| == 2 && 0 <= port < 0x1_0000 && |lengthAndChecksum| == 4
  }

  predicate WellFormed(fr: IPFrame) {
    WellFormedLink(fr.link) && WellFormedNetwork(fr.net) && WellFormedTail(fr.net, fr.tail)
  }

  function Two(n: int): seq<byte>
    requires 0 <= n < 0x1_0000
  {
    [n / 256, n % 256]
  }

  function PrintLink(l: Link, proto: int): seq<byte>
    requires WellFormedLink(l) && 0 <= proto < 0x1_0000
  {
    match l.tag
    case None => l.macs + Two(proto)
    case Some(tag) => l.macs + Two(0x8100) + Two(tag.priority * 4096 + tag.id) + Two(proto)
  }

  function PrintNetwork(n: Network): seq<byte>
    requires WellFormedNetwork(n)
  {
    match n
    case IPv4(version, words, tos, lengthAndId, flags, offset, ttl, protocol, checksum, src, dst) =>
      [version * 16 + words, tos] + lengthAndId + Two(flags * 8192 + offset) + [ttl, protocol] + checksum + src + dst
    case IPv6(versionToLength, protocol, hops, src, dst) => versionToLength + [protocol, hops] + src + dst
  }

  function PrintTail(t: Tail): seq<byte>
    requires t.Udp? ==> 0 <= t.port < 0x1_0000
  {
    match t
    case Raw(octets) => octets
    case Udp(options, sourcePort, port, lengthAndChecksum, payload) =>
      options + sourcePort + Two(port) + lengthAndChecksum + payload
  }

  function EtherType(n: Network): int {
    if n.IPv4? then 0x0800 else 0x86DD
  }

  function Print(fr: IPFrame): seq<byte>
    requires WellFormed(fr)
  {
    PrintLink(fr.link, EtherType(fr.net)) + PrintNetwork(fr.net) + PrintTail(fr.tail)
  }

  /** What the program should see. */
  function ViewOf(fr: IPFrame): View {
    Packet(if fr.net.IPv4? then V4(fr.net.src) else V6(fr.net.src),
           if fr.net.IPv4? then V4(fr.net.dst) else V6(fr.net.dst),
           if fr.link.tag.Some? then fr.link.tag.value.id else 0,
           if fr.tail.Udp? then Datagram(fr.tail.port, fr.tail.payload)
           else if CarriesUdp(fr.net) then ShortUDP else Opaque)
  }

  // ---------------------------------------------------------------- printed frames decode

  lemma LinkDecodes(l: Link, proto: int, rest: seq<byte>)
    requires WellFormedLink(l) && 0 <= proto < 0x1_0000 && proto != 0x8100
    ensures var f := PrintLink(l, proto) + rest;
            Decode(f) == Dispatch(f, proto, |PrintLink(l, proto)|, if l.tag.Some? then l.tag.value.id else 0)
  {
    var f := PrintLink(l, proto) + rest;
    if l.tag.Some? {
      var tci := l.tag.value.priority * 4096 + l.tag.value.id;
      assert f[12] == 0x81 && f[13] == 0 && f[14] == tci / 256 && f[15] == tci % 256;
      assert f[16] == proto / 256 && f[17] == proto % 256;
      assert U16(f, 12) == 0x8100 && U16(f, 14) == tci && U16(f, 16) == proto;
      assert tci % 4096 == l.tag.value.id;
    } else {
      assert f[12] == proto / 256 && f[13] == proto % 256;
      assert U16(f, 12) == proto;
    }
  }

  lemma TailDecodes(before: seq<byte>, n: Network, t: Tail)
    requires WellFormedTail(n, t) && CarriesUdp(n) && OptionBytes(n) >= 0
    ensures UdpAt(before + PrintTail(t), |before| + OptionBytes(n)) ==
            if t.Udp? then Datagram(t.port, t.payload) else ShortUDP
  {
    if t.Udp? {
      var f, off := before + PrintTail(t), |before| + OptionBytes(n);
      assert f == before + t.options + t.sourcePort + Two(t.port) + t.lengthAndChecksum + t.payload;
      assert f[off + 2] == Two(t.port)[0] && f[off + 3] == Two(t.port)[1];
      assert f[off + 8..] == t.payload;
    }
  }

  /** The octets of an IPv4 header that the decoder looks at. */
  predicate HasIPv4Fields(h: seq<byte>, n: Network)
    requires n.IPv4?
  {
    && |h| == 20 && h[0] as int == n.version * 16 + n.words && U16(h, 6) == n.flags * 8192 + n.offset
    && h[9] == n.protocol && h[12..16] == n.src && h[16..20] == n.dst
  }

  lemma IPv4Fields(n: Network)
    requires n.IPv4? && WellFormedNetwork(n)
    ensures HasIPv4Fields(PrintNetwork(n), n)
  {
    var h := PrintNetwork(n);
    assert h[6..8] == Two(n.flags * 8192 + n.offset);
    assert h[6] == h[6..8][0] && h[7] == h[6..8][1];
  }

  /** An octet and a field of a header that stands after `link`. */
  lemma HeaderOctets(link: seq<byte>, h: seq<byte>, rest: seq<byte>, i: nat, j: nat)
    requires i < j <= |h|
    ensures var f, l3 := link + h + rest, |link|; f[l3 + i] == h[i] && f[l3 + i..l3 + j] == h[i..j]
  {
  }

  lemma IPv4Lifts(link: seq<byte>, h: seq<byte>, n: Network, rest: seq<byte>)
    requires n.IPv4? && HasIPv4Fields(h, n)
    ensures var f, l3 := link + h + rest, |link|;
            && l3 + 20 <= |f| && f[l3] as int == n.version * 16 + n.words
            && U16(f, l3 + 6) == n.flags * 8192 + n.offset
            && f[l3 + 9] == n.protocol && f[l3 + 12..l3 + 16] == n.src && f[l3 + 16..l3 + 20] == n.dst
  {
    HeaderOctets(link, h, rest, 0, 1);
    HeaderOctets(link, h, rest, 6, 7);
    HeaderOctets(link, h, rest, 7, 8);
    HeaderOctets(link, h, rest, 9, 10);
    HeaderOctets(link, h, rest, 12, 16);
    HeaderOctets(link, h, rest, 16, 20);
  }

  /** What the decoder makes of a header with these fields. */
  lemma IPv4Seen(f: seq<byte>, l3: nat, n: Network, vlan: int)
    requires n.IPv4? && WellFormedNetwork(n) && l3 + 20 <= |f|
    requires f[l3] as int == n.version * 16 + n.words && U16(f, l3 + 6) == n.flags * 8192 + n.offset
    requires f[l3 + 9] == n.protocol && f[l3 + 12..l3 + 16] == n.src && f[l3 + 16..l3 + 20] == n.dst
    ensures IPv4At(f, l3, vlan) ==
            Packet(V4(n.src), V4(n.dst), vlan, if CarriesUdp(n) then UdpAt(f, l3 + n.words * 4) else Opaque)
  {
    assert f[l3] % 16 == n.words && U16(f, l3 + 6) % 0x2000 == n.offset;
  }

  lemma IPv4Decodes(link: seq<byte>, h: seq<byte>, n: Network, t: Tail, vlan: int)
    requires n.IPv4? && WellFormedNetwork(n) && WellFormedTail(n, t) && HasIPv4Fields(h, n)
    ensures IPv4At(link + h + PrintTail(t), |link|, vlan) ==
            Packet(V4(n.src), V4(n.dst), vlan,
                   if t.Udp? then Datagram(t.port, t.payload) else if CarriesUdp(n) then ShortUDP else Opaque)
  {
    IPv4Lifts(link, h, n, PrintTail(t));
    IPv4Seen(link + h + PrintTail(t), |link|, n, vlan);
    if CarriesUdp(n) { TailDecodes(link + h, n, t); }
  }

  lemma IPv6Decodes(link: seq<byte>, n: Network, t: Tail, vlan: int)
    requires n.IPv6? && WellFormedNetwork(n) && WellFormedTail(n, t)
    ensures IPv6At(link + PrintNetwork(n) + PrintTail(t), |link|, vlan) ==
            Packet(V6(n.src), V6(n.dst), vlan,
                   if t.Udp? then Datagram(t.port, t.payload) else if CarriesUdp(n) then ShortUDP else Opaque)
  {
    var h := PrintNetwork(n);
    var f, l3 := link + h + PrintTail(t), |link|;
    assert |h| == 40 && h[8..24] == n.src && h[24..40] == n.dst && h[6] == n.protocol;
    assert f[l3 + 6] == h[6] && f[l3 + 8..l3 + 24] == h[8..24] && f[l3 + 24..l3 + 40] == h[24..40];
    if CarriesUdp(n) { TailDecodes(link + h, n, t); }
  }

  /** Every printed frame is seen as what it was printed from. */
  lemma DecodePrinted(fr: IPFrame)
    requires WellFormed(fr)
    ensures Decode(Print(fr)) == ViewOf(fr)
  {
    var link := PrintLink(fr.link, EtherType(fr.net));
    var vlan := if fr.link.tag.Some? then fr.link.tag.value.id else 0;
    assert Print(fr) == link + (PrintNetwork(fr.net) + PrintTail(fr.tail));
    LinkDecodes(fr.link, EtherType(fr.net), PrintNetwork(fr.net) + PrintTail(fr.tail));
    if fr.net.IPv4? {
      IPv4Fields(fr.net);
      IPv4Decodes(link, PrintNetwork(fr.net), fr.net, fr.tail, vlan);
    } else {
      IPv6Decodes(link, fr.net, fr.tail, vlan);
    }
  }

  // ---------------------------------------------------------------- decoded frames were printed

  lemma TwoBack(f: seq<byte>, off: nat)
    requires off + 2 <= |f|
    ensures 0 <= U16(f, off) < 0x1_0000 && Two(U16(f, off)) == f[off..off + 2]
  {
  }

  lemma TailFrom(n: Network, rest: seq<byte>) returns (t: Tail)
    requires WellFormedNetwork(n)
    ensures WellFormedTail(n, t) && PrintTail(t) == rest
  {
    t := Raw(rest);
    var off := OptionBytes(n);
    if CarriesUdp(n) && |rest| >= off + 8 {
      TwoBack(rest, off + 2);
      t := Udp(rest[..off], rest[off..off + 2], U16(rest, off + 2), rest[off + 4..off + 8], rest[off + 8..]);
    }
  }

  lemma IPv4From(h: seq<byte>) returns (n: Network)
    requires |h| == 20 && h[0] % 16 >= 5
    ensures n.IPv4? && WellFormedNetwork(n) && PrintNetwork(n) == h
  {
    var frag := U16(h, 6);
    TwoBack(h, 6);
    n := IPv4(h[0] as int / 16, h[0] as int % 16, h[1], h[2..6], frag / 8192, frag % 8192, h[8], h[9], h[10..12],
              h[12..16], h[16..20]);
    assert n.flags * 8192 + n.offset == frag && n.version * 16 + n.words == h[0] as int;
    assert h == h[..2] + h[2..6] + h[6..8] + h[8..10] + h[10..12] + h[12..16] + h[16..20];
    assert h[..2] == [h[0], h[1]] && h[8..10] == [h[8], h[9]];
  }

  lemma IPv6From(h: seq<byte>) returns (n: Network)
    requires |h| == 40
    ensures n.IPv6? && WellFormedNetwork(n) && PrintNetwork(n) == h
  {
    n := IPv6(h[..6], h[6], h[7], h[8..24], h[24..40]);
    assert h == h[..6] + h[6..8] + h[8..24] + h[24..40];
    assert h[6..8] == [h[6], h[7]];
  }

  /** Where the IP header starts, and the EtherType before it. */
  function NetworkOffset(f: seq<byte>): nat {
    if |f| >= 14 && U16(f, 12) == 0x8100 then 18 else 14
  }

  lemma LinkFrom(f: seq<byte>) returns (l: Link, proto: int, vlan: int)
    requires Decode(f).Packet?
    ensures var l3 := NetworkOffset(f);
            && l3 <= |f| && 0 <= proto < 0x1_0000 && WellFormedLink(l) && PrintLink(l, proto) == f[..l3]
            && Dispatch(f, proto, l3, vlan).Packet?
  {
    TwoBack(f, 12);
    if U16(f, 12) == 0x8100 {
      proto := U16(f, 16);
      TwoBack(f, 14);
      TwoBack(f, 16);
      var tci := U16(f, 14);
      l := Link(f[..12], Some(Tag(tci / 4096, tci % 4096)));
      vlan := tci % 4096;
      assert f[..18] == f[..12] + f[12..14] + f[14..16] + f[16..18];
      assert tci / 4096 * 4096 + tci % 4096 == tci;
    } else {
      proto := U16(f, 12);
      l := Link(f[..12], None);
      vlan := 0;
      assert f[..14] == f[..12] + f[12..14];
    }
  }

  lemma NetworkFrom(f: seq<byte>, proto: int, l3: nat, vlan: int) returns (n: Network, size: nat)
    requires Dispatch(f, proto, l3, vlan).Packet?
    ensures WellFormedNetwork(n) && EtherType(n) == proto && l3 + size <= |f| && PrintNetwork(n) == f[l3..l3 + size]
  {
    size := if proto == 0x0800 then 20 else 40;
    if proto == 0x0800 { n := IPv4From(f[l3..l3 + 20]); } else { n := IPv6From(f[l3..l3 + 40]); }
  }

  lemma ThreeParts(f: seq<byte>, i: nat, j: nat)
    requires i <= j <= |f|
    ensures f == f[..i] + f[i..j] + f[j..]
  {
  }

  lemma FrameFrom(f: seq<byte>) returns (fr: IPFrame)
    requires Decode(f).Packet?
    ensures WellFormed(fr) && Print(fr) == f
  {
    var l, proto, vlan := LinkFrom(f);
    var l3 := NetworkOffset(f);
    var n, size := NetworkFrom(f, proto, l3, vlan);
    var t := TailFrom(n, f[l3 + size..]);
    fr := IPFrame(l, n, t);
    ThreeParts(f, l3, l3 + size);
  }

  ghost predicate Prints(f: seq<byte>, v: View) {
    exists fr :: WellFormed(fr) && Print(fr) == f && ViewOf(fr) == v
  }

  lemma PacketExact(f: seq<byte>, v: View)
    requires v.Packet?
    ensures Decode(f) == v <==> Prints(f, v)
  {
    if Decode(f) == v {
      var fr := FrameFrom(f);
      DecodePrinted(fr);
    }
    if fr :| WellFormed(fr) && Print(fr) == f && ViewOf(fr) == v { DecodePrinted(fr); }
  }

  /** The decoder decides the grammar: the program sees a packet with these
      addresses, VLAN and body exactly when the frame is a printed one of them, and
      no packet at all exactly when the frame is not a printed one. */
  lemma DecodeExact(f: seq<byte>, v: View)
    ensures Decode(f) == v <==> if v.Packet? then Prints(f, v) else !exists u :: Prints(f, u)
  {
    if v.Packet? { PacketExact(f, v); }
    if Decode(f).Packet? { PacketExact(f, Decode(f)); }
    if u :| Prints(f, u) {
      assert u.Packet?;
      PacketExact(f, u);
    }
  }
}
