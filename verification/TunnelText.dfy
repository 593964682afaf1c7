/** How a blocked tunnel is written into Status.BlockedTunnels and read back:
    formatTunnel and parseTunnel of pkg/controller/threat_score_watcher.go.

    net.ParseIP belongs to the Go library; it is the parameter `parse`
    throughout, under the one law that an accepted address has no slash. */
module TunnelText {
  import opened Prelude

  /** An IP address after Go's canonicalisation: a v4-mapped IPv6 address is
      the IPv4 address it stands for. */
  datatype Addr = V4(bytes: seq<int>) | V6(bytes: seq<int>)

  const TEID_LIMIT: nat := 0x1_0000_0000

  /** A GTP-U tunnel endpoint identifier: a uint32 in Go and C. */
  type TEID = n: nat | n < TEID_LIMIT

  /** What net.ParseIP promises: a slash never belongs to an address. */
  ghost predicate LawfulParse(parse: string -> Option<Addr>) {
    forall s :: parse(s).Some? ==> '/' !in s
  }

  // ---------------------------------------------------------------- hexadecimal

  const DIGITS := "0123456789abcdef"

  /** The lower-case digits fmt's %x prints, without leading zeros. */
  function Hex(n: nat): string {
    if n < 16 then [DIGITS[n]] else Hex(n / 16) + [DIGITS[n % 16]]
  }

  function DigitValue(c: char): Option<nat> {
    if '0' <= c <= '9' then Some(c as nat - '0' as nat)
    else if 'a' <= c <= 'f' then Some(c as nat - 'a' as nat + 10)
    else if 'A' <= c <= 'F' then Some(c as nat - 'A' as nat + 10)
    else None
  }

  function DigitsValue(s: string): Option<nat> {
    if s == [] then Some(0)
    else
      match (DigitsValue(s[..|s| - 1]), DigitValue(s[|s| - 1]))
      case (Some(high), Some(low)) => Some(16 * high + low)
      case _ => None
  }

  /** strconv.ParseUint(s, 16, 32): no digits, a bad digit and a value past 32
      bits are all errors. */
  function ParseUint32(s: string): Option<nat> {
    if s == [] then None
    else
      var v := DigitsValue(s);
      if v.Some? && v.value >= TEID_LIMIT then None else v
  }

  lemma DigitRoundTrip(d: nat)
    requires d < 16
    ensures DigitValue(DIGITS[d]) == Some(d)
  {
    if d >= 10 { assert DIGITS[d] as nat == 'a' as nat + (d - 10); }
  }

  lemma DigitsSnoc(s: string, c: char, high: nat, low: nat)
    requires DigitsValue(s) == Some(high) && DigitValue(c) == Some(low)
    ensures DigitsValue(s + [c]) == Some(16 * high + low)
  {
    assert (s + [c])[..|s|] == s;
  }

  lemma {:induction false} HexRoundTrip(n: nat)
    ensures Hex(n) != [] && DigitsValue(Hex(n)) == Some(n)
  {
    if n < 16 {
      DigitRoundTrip(n);
      DigitsSnoc([], DIGITS[n], 0, n);
      assert [] + [DIGITS[n]] == [DIGITS[n]];
    } else {
      HexRoundTrip(n / 16);
      DigitRoundTrip(n % 16);
      DigitsSnoc(Hex(n / 16), DIGITS[n % 16], n / 16, n % 16);
    }
  }

  // ---------------------------------------------------------------- entries

  /** fmt.Sprintf("%s/%#x", sourceIP, teid). */
  function FormatTunnel(source: string, teid: nat): string {
    source + "/" + "0x" + Hex(teid)
  }

  /** strings.Cut at the first slash. */
  function Cut(s: string): Option<(string, string)> {
    if s == [] then None
    else if s[0] == '/' then Some(([], s[1..]))
    else
      match Cut(s[1..])
      case None => None
      case Some((before, after)) => Some(([s[0]] + before, after))
  }

  function TrimHexPrefix(s: string): string {
    if |s| >= 2 && s[0] == '0' && s[1] == 'x' then s[2..] else s
  }

  function ParseTunnel(parse: string -> Option<Addr>, entry: string): Option<(Addr, nat)> {
    match Cut(entry)
    case None => None
    case Some((source, rawTEID)) =>
      match (parse(source), ParseUint32(TrimHexPrefix(rawTEID)))
      case (Some(addr), Some(teid)) => Some((addr, teid))
      case _ => None
  }

  lemma {:induction false} CutAtFirstSlash(before: string, after: string)
    requires '/' !in before
    ensures Cut(before + "/" + after) == Some((before, after))
  {
    var s := before + "/" + after;
    if before == [] {
      assert s[1..] == after;
    } else {
      CutAtFirstSlash(before[1..], after);
      assert s[1..] == before[1..] + "/" + after;
      assert [before[0]] + before[1..] == before;
    }
  }

  /** The status text names exactly the tunnel it was written for: any text the
      address parser accepts, with any 32-bit TEID, reads back as that address
      and that TEID. */
  lemma TunnelTextRoundTrip(parse: string -> Option<Addr>, source: string, teid: TEID)
    requires LawfulParse(parse) && parse(source).Some?
    ensures ParseTunnel(parse, FormatTunnel(source, teid)) == Some((parse(source).value, teid))
  {
    var raw := "0x" + Hex(teid);
    assert FormatTunnel(source, teid) == source + "/" + raw;
    CutAtFirstSlash(source, raw);
    assert raw[2..] == Hex(teid);
    HexRoundTrip(teid);
  }

  /** Two status entries are the same text only for the same address and TEID,
      so the set of texts is a set of tunnels. */
  lemma TunnelTextInjective(parse: string -> Option<Addr>, s1: string, t1: TEID, s2: string, t2: TEID)
    requires LawfulParse(parse) && parse(s1).Some? && parse(s2).Some?
    requires FormatTunnel(s1, t1) == FormatTunnel(s2, t2)
    ensures parse(s1) == parse(s2) && t1 == t2
  {
    TunnelTextRoundTrip(parse, s1, t1);
    TunnelTextRoundTrip(parse, s2, t2);
  }

  // ---------------------------------------------------------------- every text

  /** A hexadecimal digit, in either case. */
  predicate WritesDigit(c: char, d: nat)
    requires d < 16
  {
    c == "0123456789abcdef"[d] || c == "0123456789ABCDEF"[d]
  }

  /** `s` is a hexadecimal numeral of `n`, with or without leading zeros. */
  predicate Writes(s: string, n: nat) {
    if s == [] then n == 0 else Writes(s[..|s| - 1], n / 16) && WritesDigit(s[|s| - 1], n % 16)
  }

  lemma DigitExact(c: char, d: nat)
    requires d < 16
    ensures DigitValue(c) == Some(d) <==> WritesDigit(c, d)
    ensures DigitValue(c).Some? ==> DigitValue(c).value < 16
    ensures WritesDigit('x', d) == false
  {
    if d >= 10 {
      assert "0123456789abcdef"[d] as nat == 'a' as nat + (d - 10);
      assert "0123456789ABCDEF"[d] as nat == 'A' as nat + (d - 10);
    } else {
      assert "0123456789abcdef"[d] as nat == '0' as nat + d && "0123456789ABCDEF"[d] as nat == '0' as nat + d;
    }
  }

  lemma Nibble(n: nat, high: nat, low: nat)
    requires low < 16
    ensures n == 16 * high + low <==> high == n / 16 && low == n % 16
  {
  }

  lemma {:induction false} DigitsExact(s: string, n: nat)
    ensures DigitsValue(s) == Some(n) <==> Writes(s, n)
  {
    if s != [] {
      var init, c := s[..|s| - 1], s[|s| - 1];
      DigitsExact(init, n / 16);
      DigitExact(c, n % 16);
      if DigitsValue(init).Some? && DigitValue(c).Some? {
        Nibble(n, DigitsValue(init).value, DigitValue(c).value);
      }
    }
  }

  lemma {:induction false} NumeralHasNoX(s: string, n: nat)
    requires Writes(s, n)
    ensures 'x' !in s
  {
    if s != [] {
      NumeralHasNoX(s[..|s| - 1], n / 16);
      DigitExact(s[|s| - 1], n % 16);
    }
  }

  lemma {:induction false} CutExact(s: string, before: string, after: string)
    ensures Cut(s) == Some((before, after)) <==> '/' !in before && s == before + "/" + after
  {
    if '/' !in before && s == before + "/" + after { CutAtFirstSlash(before, after); }
    if s != [] && s[0] != '/' && Cut(s).Some? && Cut(s) == Some((before, after)) {
      CutExact(s[1..], before[1..], after);
      assert s == [s[0]] + s[1..];
    }
  }

  /** A TEID in a status text: a numeral of at most 32 bits, with or without the
      prefix. */
  ghost predicate IsTeidText(raw: string, teid: nat) {
    teid < 0x1_0000_0000 &&
    exists digits :: digits != "" && Writes(digits, teid) && (raw == "0x" + digits || raw == digits)
  }

  lemma TeidTextExact(raw: string, teid: nat)
    ensures ParseUint32(TrimHexPrefix(raw)) == Some(teid) <==> IsTeidText(raw, teid)
  {
    var rest := TrimHexPrefix(raw);
    DigitsExact(rest, teid);
    assert raw == rest || raw == "0x" + rest;
    if digits :| digits != "" && Writes(digits, teid) && (raw == "0x" + digits || raw == digits) {
      NumeralHasNoX(digits, teid);
      if raw == "0x" + digits { assert raw[2..] == digits; }
      assert rest == digits;
    }
  }

  /** The parser accepts exactly an address, a slash and a TEID, and takes the text
      before the first slash for the address. */
  lemma ParseTunnelExact(parse: string -> Option<Addr>, entry: string, addr: Addr, teid: nat)
    ensures ParseTunnel(parse, entry) == Some((addr, teid)) <==>
            exists source, raw :: entry == source + "/" + raw && '/' !in source &&
                                  parse(source) == Some(addr) && IsTeidText(raw, teid)
  {
    if Cut(entry).Some? {
      var (source, raw) := Cut(entry).value;
      CutExact(entry, source, raw);
      TeidTextExact(raw, teid);
    }
    if source, raw :| entry == source + "/" + raw && '/' !in source &&
                      parse(source) == Some(addr) && IsTeidText(raw, teid) {
      CutExact(entry, source, raw);
      TeidTextExact(raw, teid);
    }
  }
}
