/** TelecomSecurityPolicy objects (api/v1alpha1) and what their status claims. */
module Policies {
  import opened Prelude
  import opened TunnelText
  import opened Enforcement

  type Id = string  // namespace/name

  datatype Phase = Unset | Pending | Monitoring | Alerting | Mitigating
  datatype Sensitivity = High | Medium | Low | Other

  datatype Spec = Spec(
    sensitivity: Sensitivity,
    autoMitigate: bool,
    ebpfBlock: bool,
    ebpfBlockTunnel: bool,
    isolatePod: bool,
    hasSelector: bool)  // firstMatchLabels(targetWorkloads) != nil

  /** The part of the status this operator decides on. Status conditions only
      matter for the extra writes they cause. */
  datatype Status = Status(
    phase: Phase,
    observedScore: real,
    lastMitigation: Option<int>,
    blockedIPs: seq<string>,
    blockedTunnels: seq<string>)

  /** `version` is the API server's resourceVersion. */
  datatype Policy = Policy(spec: Spec, status: Status, deleting: bool, finalizer: bool, version: nat)

  const FRESH_STATUS := Status(Unset, 0.0, None, [], [])

  /** The entries a list of status texts stands for, in order; texts that do
      not parse are skipped, as desiredEnforcement, tryDeEscalate and finalize
      all do. */
  function SourceClaims(parse: string -> Option<Addr>, texts: seq<string>): seq<Entry> {
    if texts == [] then [] else SourceClaim(parse, texts[0]) + SourceClaims(parse, texts[1..])
  }

  function SourceClaim(parse: string -> Option<Addr>, text: string): seq<Entry> {
    match parse(text)
    case Some(addr) => [Source(addr)]
    case None => []
  }

  function TunnelClaims(parse: string -> Option<Addr>, texts: seq<string>): seq<Entry> {
    if texts == [] then [] else TunnelClaim(parse, texts[0]) + TunnelClaims(parse, texts[1..])
  }

  function TunnelClaim(parse: string -> Option<Addr>, text: string): seq<Entry> {
    match ParseTunnel(parse, text)
    case Some((addr, teid)) => [Tunnel(addr, teid)]
    case None => []
  }

  function Claims(parse: string -> Option<Addr>, status: Status): seq<Entry> {
    SourceClaims(parse, status.blockedIPs) + TunnelClaims(parse, status.blockedTunnels)
  }

  lemma {:induction false} SourceClaimsAppend(parse: string -> Option<Addr>, a: seq<string>, b: seq<string>)
    ensures SourceClaims(parse, a + b) == SourceClaims(parse, a) + SourceClaims(parse, b)
  {
    if a == [] {
      assert a + b == b;
    } else {
      SourceClaimsAppend(parse, a[1..], b);
      assert (a + b)[1..] == a[1..] + b && (a + b)[0] == a[0];
      var x, y, z := SourceClaim(parse, a[0]), SourceClaims(parse, a[1..]), SourceClaims(parse, b);
      assert x + (y + z) == (x + y) + z;
    }
  }

  lemma {:induction false} TunnelClaimsAppend(parse: string -> Option<Addr>, a: seq<string>, b: seq<string>)
    ensures TunnelClaims(parse, a + b) == TunnelClaims(parse, a) + TunnelClaims(parse, b)
  {
    if a == [] {
      assert a + b == b;
    } else {
      TunnelClaimsAppend(parse, a[1..], b);
      assert (a + b)[1..] == a[1..] + b && (a + b)[0] == a[0];
      var x, y, z := TunnelClaim(parse, a[0]), TunnelClaims(parse, a[1..]), TunnelClaims(parse, b);
      assert x + (y + z) == (x + y) + z;
    }
  }

  /** A text in the list contributes exactly its own entry. */
  lemma {:induction false} SourceClaimOf(parse: string -> Option<Addr>, texts: seq<string>, text: string)
    requires text in texts && parse(text).Some?
    ensures Source(parse(text).value) in SourceClaims(parse, texts)
  {
    if texts[0] != text {
      SourceClaimOf(parse, texts[1..], text);
    }
  }

  lemma {:induction false} TunnelClaimOf(parse: string -> Option<Addr>, texts: seq<string>, text: string)
    requires text in texts && ParseTunnel(parse, text).Some?
    ensures Tunnel(ParseTunnel(parse, text).value.0, ParseTunnel(parse, text).value.1) in TunnelClaims(parse, texts)
  {
    if texts[0] != text {
      TunnelClaimOf(parse, texts[1..], text);
    }
  }

  lemma {:induction false} SourceClaimFrom(parse: string -> Option<Addr>, texts: seq<string>, e: Entry)
      returns (text: string)
    requires e in SourceClaims(parse, texts)
    ensures text in texts && e.Source? && parse(text) == Some(e.addr)
  {
    if e in SourceClaim(parse, texts[0]) {
      text := texts[0];
    } else {
      text := SourceClaimFrom(parse, texts[1..], e);
    }
  }

  lemma {:induction false} TunnelClaimFrom(parse: string -> Option<Addr>, texts: seq<string>, e: Entry)
      returns (text: string)
    requires e in TunnelClaims(parse, texts)
    ensures text in texts && e.Tunnel? && ParseTunnel(parse, text) == Some((e.addr, e.teid))
  {
    if e in TunnelClaim(parse, texts[0]) {
      text := texts[0];
    } else {
      text := TunnelClaimFrom(parse, texts[1..], e);
    }
  }

  /** A status claims exactly what its lists name: a source for each address text,
      and a tunnel for each tunnel text, that parses. */
  lemma ClaimsExact(parse: string -> Option<Addr>, status: Status, e: Entry)
    ensures e in Claims(parse, status) <==>
            match e
            case Source(addr) => exists text :: text in status.blockedIPs && parse(text) == Some(addr)
            case Tunnel(addr, teid) =>
              exists text :: text in status.blockedTunnels && ParseTunnel(parse, text) == Some((addr, teid))
  {
    if e in SourceClaims(parse, status.blockedIPs) {
      var text := SourceClaimFrom(parse, status.blockedIPs, e);
    } else if e in TunnelClaims(parse, status.blockedTunnels) {
      var text := TunnelClaimFrom(parse, status.blockedTunnels, e);
    }
    if e.Source? {
      if text :| text in status.blockedIPs && parse(text) == Some(e.addr) {
        SourceClaimOf(parse, status.blockedIPs, text);
      }
    } else if text :| text in status.blockedTunnels && ParseTunnel(parse, text) == Some((e.addr, e.teid)) {
      TunnelClaimOf(parse, status.blockedTunnels, text);
    }
  }
}
