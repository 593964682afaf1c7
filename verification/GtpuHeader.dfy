/** The GTP-U header parser of bpf/packet_filter.c (parse_gtpu), its Python
    mirror in cmd/ai-engine/scripts/pcap_gtpu.py, and the header grammar both
    implement, given by a printer.

    3GPP TS 29.281 section 5.1 reads octet 12 as an extension type only when the
    E flag is set; this code does so when any of E, S or PN is set, and the
    grammar below says what the code accepts. */
module GtpuHeader {
  import opened TunnelText

  type byte = b: int | 0 <= b < 256

  const MSG_TPDU: byte := 0xFF
  const PATH_MANAGEMENT: set<byte> := {1, 2, 26, 31, 254}
  const MAX_EXT_HEADERS: nat := 4
  const MAX_HDR_BYTES: nat := 64

  /** parse_gtpu's three results. `teid` is *teid_out, 0 where it stays unset. */
  datatype Parse = TPDU(teid: TEID) | OtherMessage | Malformed(teid: TEID)

  /** (flags & 0xF0) == 0x30: version 1, protocol type GTP. */
  predicate VersionOne(flags: byte) {
    flags / 16 == 3
  }

  /** (flags & 0x07) != 0: any of E, S, PN. */
  predicate HasOptionalBlock(flags: byte) {
    flags % 8 != 0
  }

  /** Four octets in network order. */
  function BigEndian32(b: seq<byte>): TEID
    requires |b| == 4
  {
    ((b[0] as int * 256 + b[1] as int) * 256 + b[2] as int) * 256 + b[3] as int
  }

  // ---------------------------------------------------------------- the kernel's parser

  /** Whether the walk over the extension chain ends well: `next` is the type at
      hand, `off` where its header starts, `left` how many more may follow. */
  predicate ChainOk(p: seq<byte>, next: byte, off: nat, left: nat)
    decreases left
  {
    if next == 0 then true
    else if left == 0 || off > MAX_HDR_BYTES - 4 || off + 1 > |p| then false
    else
      var elen := p[off] as int * 4;
      if elen == 0 || off + elen > MAX_HDR_BYTES || off + elen > |p| then false
      else ChainOk(p, p[off + elen - 1], off + elen, left - 1)
  }

  function ParseSpec(p: seq<byte>): Parse {
    if |p| < 8 || !VersionOne(p[0]) then Malformed(0)
    else if p[1] != MSG_TPDU then (if p[1] in PATH_MANAGEMENT then OtherMessage else Malformed(0))
    else
      var teid := BigEndian32(p[4..8]);
      if !HasOptionalBlock(p[0]) then TPDU(teid)
      else if |p| >= 12 && ChainOk(p, p[11], 12, MAX_EXT_HEADERS) then TPDU(teid)
      else Malformed(teid)
  }

  /** parse_gtpu over the bytes from the UDP payload to data_end. Every index is
      proved in bounds, and the offset stays a multiple of four up to 64. */
  method ParseGtpu(p: seq<byte>) returns (r: Parse)
    ensures r == ParseSpec(p)
  {
    if |p| < 8 { return Malformed(0); }
    if !VersionOne(p[0]) { return Malformed(0); }
    if p[1] != MSG_TPDU {
      if p[1] in PATH_MANAGEMENT { return OtherMessage; }
      return Malformed(0);
    }
    var teid := BigEndian32(p[4..8]);
    if !HasOptionalBlock(p[0]) { return TPDU(teid); }
    if 12 > |p| { return Malformed(teid); }
    var next, off := p[11], 12;
    for i := 0 to MAX_EXT_HEADERS
      invariant 12 <= off <= MAX_HDR_BYTES && off % 4 == 0 && off <= |p|
      invariant ChainOk(p, p[11], 12, MAX_EXT_HEADERS) == ChainOk(p, next, off, MAX_EXT_HEADERS - i)
    {
      if next == 0 { break; }
      if off > MAX_HDR_BYTES - 4 { return Malformed(teid); }
      if off + 1 > |p| { return Malformed(teid); }
      var elen := p[off] as int * 4;
      if elen == 0 { return Malformed(teid); }
      if off + elen > MAX_HDR_BYTES { return Malformed(teid); }
      if off + elen > |p| { return Malformed(teid); }
      next := p[off + elen - 1];
      off := off + elen;
    }
    if next != 0 { return Malformed(teid); }
    return TPDU(teid);
  }

  // ---------------------------------------------------------------- the Python mirror

  /** parse_gtpu of pcap_gtpu.py: (teid, malformed). It agrees with the kernel's
      parser on both, for every byte string. */
  method PyParseGtpu(p: seq<byte>) returns (teid: TEID, malformed: bool)
    ensures malformed <==> ParseSpec(p).Malformed?
    ensures teid == if ParseSpec(p).OtherMessage? then 0 else ParseSpec(p).teid
  {
    if |p| < 8 { return 0, true; }
    var flags, msgType := p[0], p[1];
    if !VersionOne(flags) { return 0, true; }
    if msgType != MSG_TPDU { return 0, msgType !in PATH_MANAGEMENT; }
    teid := BigEndian32(p[4..8]);
    if !HasOptionalBlock(flags) { return teid, false; }
    if |p| < 12 { return teid, true; }
    var nextType, off := p[11], 12;
    for i := 0 to MAX_EXT_HEADERS
      invariant 12 <= off <= MAX_HDR_BYTES
      invariant ChainOk(p, p[11], 12, MAX_EXT_HEADERS) == ChainOk(p, nextType, off, MAX_EXT_HEADERS - i)
    {
      if nextType == 0 { break; }
      if off > MAX_HDR_BYTES - 4 || off >= |p| { return teid, true; }
      var extLen := p[off] as int * 4;
      if extLen == 0 || off + extLen > MAX_HDR_BYTES { return teid, true; }
      if off + extLen > |p| { return teid, true; }
      nextType := p[off + extLen - 1];
      off := off + extLen;
    }
    if nextType != 0 { return teid, true; }
    return teid, false;
  }

  // ---------------------------------------------------------------- the grammar

  /** An extension header: its type is announced by what precedes it, its own
      octets are a length in words, a content, and the type of what follows. */
  datatype Extension = Extension(kind: byte, content: seq<byte>)

  /** A T-PDU header. `stuff` is the sequence number and N-PDU number, present
      with the optional block. */
  datatype Header = Header(flags: byte, length: seq<byte>, teid: seq<byte>, stuff: seq<byte>, chain: seq<Extension>)

  predicate WellFormedExtension(x: Extension) {
    x.kind != 0 && (|x.content| + 2) % 4 == 0 && |x.content| + 2 <= 255 * 4
  }

  predicate WellFormed(h: Header) {
    && h.flags / 16 == 3 && |h.length| == 2 && |h.teid| == 4
    && (if h.flags % 8 != 0 then |h.stuff| == 3 else h.stuff == [] && h.chain == [])
    && forall x :: x in h.chain ==> WellFormedExtension(x)
  }

  function Kind(chain: seq<Extension>): byte {
    if chain == [] then 0 else chain[0].kind
  }

  function PrintChain(chain: seq<Extension>): seq<byte>
    requires forall x :: x in chain ==> WellFormedExtension(x)
  {
    if chain == [] then []
    else
      assert chain[0] in chain && WellFormedExtension(chain[0]);
      var words: byte := (|chain[0].content| + 2) / 4;
      [words] + chain[0].content + [Kind(chain[1..])] + PrintChain(chain[1..])
  }

  function Print(h: Header): seq<byte>
    requires WellFormed(h)
  {
    [h.flags, 0xFF] + h.length + h.teid +
    (if h.flags % 8 != 0 then h.stuff + [Kind(h.chain)] + PrintChain(h.chain) else [])
  }

  /** What the bounded walk can take in: four extensions, 64 octets. */
  predicate Bounded(h: Header)
    requires WellFormed(h)
  {
    |h.chain| <= 4 && |Print(h)| <= 64
  }

  /** `p` starts with the header `h`. */
  predicate Starts(p: seq<byte>, h: Header)
    requires WellFormed(h)
  {
    Print(h) <= p
  }

  // Soundness of the walk: a printed chain is walked to its end, and the walk
  // succeeds exactly when the chain is within the bounds.

  function Size(x: Extension): nat {
    |x.content| + 2
  }

  lemma PrintStep(chain: seq<Extension>)
    requires chain != [] && forall x :: x in chain ==> WellFormedExtension(x)
    ensures var elen, printed, rest := Size(chain[0]), PrintChain(chain), PrintChain(chain[1..]);
            && elen >= 4 && elen % 4 == 0 && |printed| == elen + |rest|
            && printed[0] as int * 4 == elen && printed[elen - 1] == Kind(chain[1..]) && printed[elen..] == rest
  {
    assert chain[0] in chain && WellFormedExtension(chain[0]);
  }

  lemma WalkStep(p: seq<byte>, next: byte, off: nat, left: nat, elen: nat)
    requires next != 0 && elen > 0 && off + elen <= |p| && elen == p[off] as int * 4
    ensures ChainOk(p, next, off, left) <==>
            left > 0 && off + elen <= MAX_HDR_BYTES && ChainOk(p, p[off + elen - 1], off + elen, left - 1)
  {
  }

  /** The octets `s` stand at offset `off` of `p`. */
  predicate Occurs(p: seq<byte>, off: nat, s: seq<byte>) {
    off + |s| <= |p| && forall k :: 0 <= k < |s| ==> p[off + k] == s[k]
  }

  lemma OccursTail(p: seq<byte>, off: nat, s: seq<byte>, n: nat)
    requires Occurs(p, off, s) && n <= |s|
    ensures Occurs(p, off + n, s[n..])
  {
    forall k | 0 <= k < |s[n..]| ensures p[off + n + k] == s[n..][k] {
      assert p[off + (n + k)] == s[n + k];
    }
  }

  lemma {:induction false} WalkPrinted(p: seq<byte>, off: nat, chain: seq<Extension>, left: nat)
    requires forall x :: x in chain ==> WellFormedExtension(x)
    requires off <= MAX_HDR_BYTES && Occurs(p, off, PrintChain(chain))
    ensures ChainOk(p, Kind(chain), off, left) <==>
            |chain| <= left && off + |PrintChain(chain)| <= MAX_HDR_BYTES
    decreases |chain|
  {
    if chain != [] {
      PrintStep(chain);
      var elen, printed := Size(chain[0]), PrintChain(chain);
      assert Kind(chain) != 0 by { assert chain[0] in chain; }
      assert p[off + 0] == printed[0] && p[off + (elen - 1)] == printed[elen - 1];
      WalkStep(p, Kind(chain), off, left, elen);
      if off + elen <= MAX_HDR_BYTES && left > 0 {
        OccursTail(p, off, printed, elen);
        WalkPrinted(p, off + elen, chain[1..], left - 1);
      }
    }
  }

  /** Completeness of the walk: where it succeeds there is a chain to print. */
  lemma {:induction false} ChainFromWalk(p: seq<byte>, next: byte, off: nat, left: nat) returns (chain: seq<Extension>)
    requires off % 4 == 0 && off <= |p| && ChainOk(p, next, off, left)
    ensures forall x :: x in chain ==> WellFormedExtension(x)
    ensures Kind(chain) == next && PrintChain(chain) <= p[off..]
    decreases left
  {
    chain := [];
    if next != 0 {
      var elen := p[off] as int * 4;
      var rest := ChainFromWalk(p, p[off + elen - 1], off + elen, left - 1);
      chain := PrependExtension(p, next, off, elen, rest);
    }
  }

  /** The octets at `off` are one extension header, followed by `rest`. */
  lemma PrependExtension(p: seq<byte>, next: byte, off: nat, elen: nat, rest: seq<Extension>)
      returns (chain: seq<Extension>)
    requires next != 0 && elen > 0 && off + elen <= |p| && elen == p[off] as int * 4
    requires forall x :: x in rest ==> WellFormedExtension(x)
    requires Kind(rest) == p[off + elen - 1] && PrintChain(rest) <= p[off + elen..]
    ensures forall x :: x in chain ==> WellFormedExtension(x)
    ensures Kind(chain) == next && PrintChain(chain) <= p[off..]
  {
    var x := Extension(next, p[off + 1..off + elen - 1]);
    chain := [x] + rest;
    assert chain[1..] == rest;
    var words := p[off];
    assert |x.content| + 2 == elen && elen / 4 == words;
    var own := p[off..off + elen];
    assert own == [words] + x.content + [p[off + elen - 1]];
    assert p[off..] == own + p[off + elen..];
    assert PrintChain(chain) == own + PrintChain(rest);
  }

  /** Every printed header, whatever follows it, comes back with its own TEID:
      as a T-PDU when it is within the bounds and malformed when it is not. */
  lemma HeaderRoundTrip(h: Header, p: seq<byte>)
    requires WellFormed(h) && Starts(p, h)
    ensures ParseSpec(p) == if Bounded(h) then TPDU(BigEndian32(h.teid)) else Malformed(BigEndian32(h.teid))
  {
    var printed := Print(h);
    assert printed[0] == h.flags && printed[1] == MSG_TPDU;
    assert printed[4..8] == h.teid;
    assert p[4..8] == printed[4..8];
    if HasOptionalBlock(h.flags) {
      assert printed[11] == Kind(h.chain) && printed[12..] == PrintChain(h.chain);
      assert |printed| == 12 + |PrintChain(h.chain)|;
      assert p[11] == printed[11];
      assert Occurs(p, 0, printed);
      OccursTail(p, 0, printed, 12);
      WalkPrinted(p, 12, h.chain, MAX_EXT_HEADERS);
    } else {
      assert |printed| == 8;
    }
  }

  lemma HeaderFromParse(p: seq<byte>) returns (h: Header)
    requires ParseSpec(p).TPDU?
    ensures WellFormed(h) && Starts(p, h) && Bounded(h) && BigEndian32(h.teid) == ParseSpec(p).teid
  {
    if HasOptionalBlock(p[0]) {
      var chain := ChainFromWalk(p, p[11], 12, MAX_EXT_HEADERS);
      h := Header(p[0], p[2..4], p[4..8], p[8..11], chain);
      assert Print(h) == p[..12] + PrintChain(chain);
      assert p == p[..12] + p[12..];
    } else {
      h := Header(p[0], p[2..4], p[4..8], [], []);
      assert Print(h) == p[..8];
    }
    HeaderRoundTrip(h, p);
  }

  /** The parser decides the grammar: a payload is a T-PDU with a TEID exactly
      when it starts with a bounded well-formed header carrying that TEID. */
  lemma ParserDecidesGrammar(p: seq<byte>, teid: TEID)
    ensures ParseSpec(p) == TPDU(teid) <==>
            exists h :: WellFormed(h) && Starts(p, h) && Bounded(h) && BigEndian32(h.teid) == teid
  {
    if ParseSpec(p) == TPDU(teid) {
      var h := HeaderFromParse(p);
    }
    if h :| WellFormed(h) && Starts(p, h) && Bounded(h) && BigEndian32(h.teid) == teid {
      HeaderRoundTrip(h, p);
    }
  }

  /** Echo Request and Response, Error Indication, Supported Extension Headers
      Notification, End Marker. */
  predicate PathManagement(p: seq<byte>) {
    |p| >= 8 && p[0] / 16 == 3 && (p[1] == 1 || p[1] == 2 || p[1] == 26 || p[1] == 31 || p[1] == 254)
  }

  ghost predicate InGrammar(p: seq<byte>) {
    exists h :: WellFormed(h) && Starts(p, h) && Bounded(h)
  }

  /** The TEID of a T-PDU, which stands in octets 5 to 8, and 0 for anything else. */
  function TeidField(p: seq<byte>): TEID {
    if |p| >= 8 && p[0] / 16 == 3 && p[1] == 0xFF then BigEndian32(p[4..8]) else 0
  }

  lemma TeidIsField(p: seq<byte>)
    ensures (if ParseSpec(p).OtherMessage? then 0 else ParseSpec(p).teid) == TeidField(p)
  {
  }

  /** All three results are decided by the octets: a T-PDU by the grammar, another
      message by its type, and malformed is everything else, under the TEID of the
      first eight octets if they are a T-PDU's. */
  lemma ParseExact(p: seq<byte>, r: Parse)
    ensures ParseSpec(p) == r <==>
            match r
            case TPDU(teid) => InGrammar(p) && teid == TeidField(p)
            case OtherMessage => PathManagement(p)
            case Malformed(teid) => !PathManagement(p) && !InGrammar(p) && teid == TeidField(p)
  {
    TeidIsField(p);
    ParserDecidesGrammar(p, TeidField(p));
    if h :| WellFormed(h) && Starts(p, h) && Bounded(h) { HeaderRoundTrip(h, p); }
  }

  /** The TEID is fixed by the first eight octets alone, malformed or not: no
      extension chain can move a packet to another tunnel or to none. */
  lemma TeidFromFirstEight(p: seq<byte>, q: seq<byte>)
    requires |p| >= 8 && |q| >= 8 && p[..8] == q[..8]
    ensures ParseSpec(p).OtherMessage? <==> ParseSpec(q).OtherMessage?
    ensures !ParseSpec(p).OtherMessage? ==> ParseSpec(p).teid == ParseSpec(q).teid
  {
    assert p[0] == p[..8][0] && q[0] == q[..8][0] && p[1] == p[..8][1] && q[1] == q[..8][1];
    assert p[4..8] == p[..8][4..] && q[4..8] == q[..8][4..];
  }

  // ---------------------------------------------------------------- the standard's reading

  /** (flags & 0x04) != 0: the E flag. */
  predicate HasExtensions(flags: byte) {
    flags / 4 % 2 == 1
  }

  /** The standard's walk over the extension chain: as many headers as the packet
      holds. */
  predicate ChainEnds(p: seq<byte>, next: byte, off: nat)
    decreases |p| - off
  {
    if next == 0 then true
    else if off >= |p| then false
    else
      var elen := p[off] as int * 4;
      elen != 0 && off + elen <= |p| && ChainEnds(p, p[off + elen - 1], off + elen)
  }

  /** How many headers it has, and where it ends. */
  function ChainCount(p: seq<byte>, next: byte, off: nat): nat
    requires ChainEnds(p, next, off)
    decreases |p| - off
  {
    if next == 0 then 0 else 1 + ChainCount(p, p[off + p[off] as int * 4 - 1], off + p[off] as int * 4)
  }

  function ChainEnd(p: seq<byte>, next: byte, off: nat): (end: nat)
    requires ChainEnds(p, next, off)
    ensures end >= off
    decreases |p| - off
  {
    if next == 0 then off else ChainEnd(p, p[off + p[off] as int * 4 - 1], off + p[off] as int * 4)
  }

  /** The program's walk is the standard's with two limits of its own. */
  lemma {:induction false} ChainOkExact(p: seq<byte>, next: byte, off: nat, left: nat)
    requires off <= MAX_HDR_BYTES
    ensures ChainOk(p, next, off, left) <==>
            ChainEnds(p, next, off) && ChainCount(p, next, off) <= left && ChainEnd(p, next, off) <= MAX_HDR_BYTES
    decreases left
  {
    if next != 0 && left > 0 && off < |p| {
      var elen := p[off] as int * 4;
      if elen != 0 && off + elen <= |p| && off + elen <= MAX_HDR_BYTES {
        ChainOkExact(p, p[off + elen - 1], off + elen, left - 1);
      }
    }
  }

  /** Section 5.1 of 3GPP TS 29.281: the optional block is there when any of E, S
      and PN is set, but its last octet announces an extension only when E is. */
  function StandardParse(p: seq<byte>): Parse {
    if |p| < 8 || !VersionOne(p[0]) || p[1] != MSG_TPDU || !HasOptionalBlock(p[0]) then ParseSpec(p)
    else
      var teid := BigEndian32(p[4..8]);
      if |p| >= 12 && (HasExtensions(p[0]) ==> ChainEnds(p, p[11], 12)) then TPDU(teid)
      else Malformed(teid)
  }

  /** A T-PDU header with its optional block. */
  predicate OptionalTpdu(p: seq<byte>) {
    |p| >= 12 && VersionOne(p[0]) && p[1] == MSG_TPDU && HasOptionalBlock(p[0])
  }

  /** The code departs from the standard on exactly these payloads: a T-PDU without
      E, whose unused octet 12 does not happen to start a chain the program
      accepts; or one with E, whose chain is sound but has more than four headers
      or goes past octet 64. It then calls a well-formed packet malformed, under
      the right TEID. */
  lemma StandardExact(p: seq<byte>)
    ensures ParseSpec(p) != StandardParse(p) <==>
            OptionalTpdu(p) &&
            if HasExtensions(p[0])
            then ChainEnds(p, p[11], 12) &&
                 (ChainCount(p, p[11], 12) > MAX_EXT_HEADERS || ChainEnd(p, p[11], 12) > MAX_HDR_BYTES)
            else !ChainOk(p, p[11], 12, MAX_EXT_HEADERS)
    ensures ParseSpec(p) != StandardParse(p) ==>
            ParseSpec(p) == Malformed(BigEndian32(p[4..8])) && StandardParse(p) == TPDU(BigEndian32(p[4..8]))
  {
    if |p| >= 12 { ChainOkExact(p, p[11], 12, MAX_EXT_HEADERS); }
  }

  /** `n` extensions of one word each, the last one announcing nothing. */
  function OneWordChain(n: nat): seq<byte> {
    if n == 0 then [] else [1, 0, 0, if n == 1 then 0 else 0x85] + OneWordChain(n - 1)
  }

  lemma {:induction false} OneWordChainEnds(p: seq<byte>, off: nat, n: nat)
    requires Occurs(p, off, OneWordChain(n))
    ensures ChainEnds(p, if n == 0 then 0 else 0x85, off)
    ensures ChainCount(p, if n == 0 then 0 else 0x85, off) == n
    decreases n
  {
    if n > 0 {
      var chain := OneWordChain(n);
      assert p[off + 0] == chain[0] && p[off + 3] == chain[3];
      OccursTail(p, off, chain, 4);
      assert chain[4..] == OneWordChain(n - 1);
      OneWordChainEnds(p, off + 4, n - 1);
    }
  }

  const E_HEADER: seq<byte> := [0x34, 0xFF, 0, 0, 0, 0, 0, 7, 0, 0, 0, 0x85]

  lemma AfterHeader(tail: seq<byte>)
    ensures var p := E_HEADER + tail;
            && OptionalTpdu(p) && HasExtensions(p[0]) && p[11] == 0x85 && Occurs(p, 12, tail)
            && BigEndian32(p[4..8]) == 7
  {
    var p := E_HEADER + tail;
    assert p[4..8] == [0, 0, 0, 7];
  }

  /** Payloads of the second kind: five extensions, 32 octets, or any more. */
  lemma ManyExtensionsDiffer(n: nat)
    requires n >= 5
    ensures var p := E_HEADER + OneWordChain(n);
            ParseSpec(p) == Malformed(7) && StandardParse(p) == TPDU(7)
  {
    var p := E_HEADER + OneWordChain(n);
    AfterHeader(OneWordChain(n));
    OneWordChainEnds(p, 12, n);
    StandardExact(p);
  }

  /** And one of the first: a sequence number, and a stray octet after it. */
  lemma StandardDiffers()
    ensures var p: seq<byte> := [0x32, 0xFF, 0, 0, 0, 0, 0, 7, 0, 1, 0, 0x85];
            ParseSpec(p) == Malformed(7) && StandardParse(p) == TPDU(7)
  {
    var p: seq<byte> := [0x32, 0xFF, 0, 0, 0, 0, 0, 7, 0, 1, 0, 0x85];
    assert p[4..8] == [0, 0, 0, 7];
    assert !ChainOk(p, p[11], 12, MAX_EXT_HEADERS);
  }

  // ---------------------------------------------------------------- the load generator

  function BytesOf32(n: TEID): seq<byte> {
    var n1 := n / 256;
    var n2 := n1 / 256;
    [n2 / 256, n2 % 256, n1 % 256, n % 256]
  }

  lemma BytesOf32RoundTrip(n: TEID)
    ensures BigEndian32(BytesOf32(n)) == n
  {
    var n1 := n / 256;
    var n2 := n1 / 256;
    HighLow(n);
    HighLow(n1);
    HighLow(n2);
  }

  lemma HighLow(n: nat)
    ensures n / 256 * 256 + n % 256 == n
  {
  }

  /** gtpu_tpdu of scripts/loadtest/gen_packets.py. struct.pack refuses a length
      past 16 bits, hence the bound on `inner`. */
  function GtpuTpdu(teid: TEID, inner: nat): seq<byte>
    requires 8 + inner < 0x1_0000
  {
    [0x34, 0xFF] + [(8 + inner) / 256, (8 + inner) % 256] + BytesOf32(teid) +
    [0x00, 0x00, 0x00, 0x85] + [0x01, 0x00, 0x00, 0x00] + seq(inner, _ => 0xA5)
  }

  /** Every generated packet parses to the T-PDU of its own TEID. */
  lemma GeneratedParses(teid: TEID, inner: nat)
    requires 8 + inner < 0x1_0000
    ensures ParseSpec(GtpuTpdu(teid, inner)) == TPDU(teid)
  {
    var chain := [Extension(0x85, [0, 0])];
    var h := Header(0x34, [(8 + inner) / 256, (8 + inner) % 256], BytesOf32(teid), [0, 0, 0], chain);
    assert chain[1..] == [];
    assert PrintChain(chain) == [1, 0, 0, 0];
    var p := GtpuTpdu(teid, inner);
    assert Print(h) == p[..16];
    BytesOf32RoundTrip(teid);
    HeaderRoundTrip(h, p);
  }
}
