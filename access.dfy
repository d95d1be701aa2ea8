/**
 * Source-address access control: stripping the port from a "host:port" address
 * and the first-match-wins decision of `IsIpValid`.
 *
 * The IP library is not modelled: `net.ParseIP`, `IP.Equal` on two parsed
 * addresses and `IP.IsLoopback` are the uninterpreted functions of a `Net`
 * record.  What Go does with a nil IP (the result of a failed parse) is written
 * out, because the decision depends on it: two nil IPs are Equal, a nil IP is
 * Equal to no parsed IP, and a nil IP is not a loopback address.
 */
module Access {
  import opened Common
  import opened Text
  import opened Config

  /** The bytes of a parsed `net.IP`. */
  type IpAddr = seq<Byte>

  /** The IP library: parsing (None for nil), equality and loopback test of parsed addresses. */
  datatype Net = Net(
    parse: string -> Option<IpAddr>,
    equal: (IpAddr, IpAddr) -> bool,
    isLoopback: IpAddr -> bool)

  /** Everything the decision reads: the configuration, the host's own IP (given), the IP library. */
  datatype AccessContext = AccessContext(config: Configuration, ownIp: string, net: Net)

  /** `IP.Equal`, nil included. */
  function IpEqual(net: Net, a: Option<IpAddr>, b: Option<IpAddr>): bool {
    match (a, b)
    case (None, None) => true
    case (Some(x), Some(y)) => net.equal(x, y)
    case _ => false
  }

  /** `IP.IsLoopback`, nil included. */
  function IsLoopback(net: Net, a: Option<IpAddr>): bool {
    a.Some? && net.isLoopback(a.value)
  }

  /**
   * `StripPort`: reverse the runes, split on ':', drop the first piece, join the
   * rest with ':' and reverse back.
   */
  function StripPort(ip: string): string {
    Reverse(Join(Split(Reverse(ip), ':')[1..], ':'))
  }

  lemma ReversedSuffix(ip: string, h: nat)
    requires h < |ip|
    ensures Reverse(Reverse(ip)[h + 1..]) == ip[..|ip| - 1 - h]
  {
    var k := |ip| - 1 - h;
    var a, b := ip[..k], ip[k..];
    assert ip == a + b;
    ReverseAppend(a, b);
    assert Reverse(ip)[h + 1..] == (Reverse(b) + Reverse(a))[|Reverse(b)|..] == Reverse(a);
    ReverseReverse(ip[..k]);
  }

  lemma StripPortNoColon(ip: string)
    requires ':' !in ip
    ensures StripPort(ip) == []
  {
    var r := Reverse(ip);
    forall j | 0 <= j < |r| ensures r[j] != ':' {
      ReverseAt(ip, j);
    }
    JoinSplitTail(r, ':');
    assert Split(r, ':')[1..] == [];
  }

  lemma SplitAtFirstColon(r: string, i: nat)
    requires i < |r| && r[i] == ':'
    ensures var h := |Split(r, ':')[0]|;
      && h < |r| && r[h] == ':' && ':' !in r[..h]
      && Join(Split(r, ':')[1..], ':') == r[h + 1..]
  {
    JoinSplitTail(r, ':');
  }

  lemma StripPortLastColon(ip: string, i: nat)
    requires i < |ip| && ip[i] == ':'
    ensures var k := |StripPort(ip)|;
      k < |ip| && ip[k] == ':' && StripPort(ip) == ip[..k] && ':' !in ip[k + 1..]
  {
    var r := Reverse(ip);
    ReverseAt(ip, |ip| - 1 - i);
    SplitAtFirstColon(r, |ip| - 1 - i);
    var h := |Split(r, ':')[0]|;
    assert StripPort(ip) == Reverse(r[h + 1..]);
    ReversedSuffix(ip, h);
    var k := |ip| - 1 - h;
    ReverseAt(ip, h);
    forall j | k + 1 <= j < |ip| ensures ip[j] != ':' {
      ReverseAt(ip, |ip| - 1 - j);
      assert ip[j] == r[..h][|ip| - 1 - j];
    }
  }

  /** StripPort keeps exactly the text before the last ':', and gives "" when there is none. */
  lemma StripPortBeforeLastColon(ip: string)
    ensures ':' !in ip ==> StripPort(ip) == []
    ensures ':' in ip ==>
      var k := |StripPort(ip)|;
      k < |ip| && ip[k] == ':' && StripPort(ip) == ip[..k] && ':' !in ip[k + 1..]
  {
    if ':' in ip {
      var i :| 0 <= i < |ip| && ip[i] == ':';
      StripPortLastColon(ip, i);
    } else {
      StripPortNoColon(ip);
    }
  }

  /** Stripping the port from "host:port" gives the host back, whatever the host holds. */
  lemma StripPortOfHostPort(host: string, port: string)
    requires ':' !in port
    ensures StripPort(host + [':'] + port) == host
  {
    var ip := host + [':'] + port;
    StripPortBeforeLastColon(ip);
    assert ip[|host|] == ':';
  }

  /** The IP of the remote side of an address, as the decision sees it. */
  function Remote(ctx: AccessContext, addr: string): Option<IpAddr> {
    ctx.net.parse(StripPort(addr))
  }

  /** Whether `remote` equals the parse of some entry of `list`: the source's early-return scan. */
  function Listed(net: Net, remote: Option<IpAddr>, list: seq<string>): bool {
    if |list| == 0 then false
    else if IpEqual(net, remote, net.parse(list[0])) then true
    else Listed(net, remote, list[1..])
  }

  /** The scan finds a match exactly when some entry of the list parses to an IP equal to the remote. */
  lemma {:induction false} ListedMeaning(net: Net, remote: Option<IpAddr>, list: seq<string>)
    ensures Listed(net, remote, list) <==> exists i :: 0 <= i < |list| && IpEqual(net, remote, net.parse(list[i]))
    decreases |list|
  {
    if |list| > 0 && !IpEqual(net, remote, net.parse(list[0])) {
      ListedMeaning(net, remote, list[1..]);
      if exists i :: 0 <= i < |list| && IpEqual(net, remote, net.parse(list[i])) {
        var i :| 0 <= i < |list| && IpEqual(net, remote, net.parse(list[i]));
        assert list[1..][i - 1] == list[i];
      }
      if Listed(net, remote, list[1..]) {
        var i :| 0 <= i < |list[1..]| && IpEqual(net, remote, net.parse(list[1..][i]));
        assert list[i + 1] == list[1..][i];
      }
    }
  }

  /** `IsIpValid`: whether a connection or datagram from `addr` ("ip:port") is let through. */
  function IsIpValid(ctx: AccessContext, addr: string): bool {
    var remote := Remote(ctx, addr);
    var cfg := ctx.config;
    if Listed(ctx.net, remote, cfg.denylist) then false
    else if cfg.allowNotExplicitDenied then true
    else if Listed(ctx.net, remote, cfg.allowlist) then true
    else if IpEqual(ctx.net, remote, ctx.net.parse(ctx.ownIp)) then cfg.allowExternalConnectionsFromOwnIp
    else if IsLoopback(ctx.net, remote) then cfg.allowLocalhostConnections
    else false
  }

  ghost predicate DenylistMatch(ctx: AccessContext, addr: string) {
    exists i :: 0 <= i < |ctx.config.denylist| &&
      IpEqual(ctx.net, Remote(ctx, addr), ctx.net.parse(ctx.config.denylist[i]))
  }

  ghost predicate AllowlistMatch(ctx: AccessContext, addr: string) {
    exists i :: 0 <= i < |ctx.config.allowlist| &&
      IpEqual(ctx.net, Remote(ctx, addr), ctx.net.parse(ctx.config.allowlist[i]))
  }

  ghost predicate OwnIpMatch(ctx: AccessContext, addr: string) {
    IpEqual(ctx.net, Remote(ctx, addr), ctx.net.parse(ctx.ownIp))
  }

  lemma ListsMatch(ctx: AccessContext, addr: string)
    ensures Listed(ctx.net, Remote(ctx, addr), ctx.config.denylist) <==> DenylistMatch(ctx, addr)
    ensures Listed(ctx.net, Remote(ctx, addr), ctx.config.allowlist) <==> AllowlistMatch(ctx, addr)
  {
    ListedMeaning(ctx.net, Remote(ctx, addr), ctx.config.denylist);
    ListedMeaning(ctx.net, Remote(ctx, addr), ctx.config.allowlist);
  }

  /** A denylisted remote is refused whatever the flags, the allowlist, the own IP and loopback say. */
  lemma DenylistVeto(ctx: AccessContext, addr: string, i: nat)
    requires i < |ctx.config.denylist|
    requires IpEqual(ctx.net, Remote(ctx, addr), ctx.net.parse(ctx.config.denylist[i]))
    ensures !IsIpValid(ctx, addr)
  {
    ListsMatch(ctx, addr);
  }

  /** After the denylist, the rules apply in order and the first that matches decides. */
  lemma DecisionOrder(ctx: AccessContext, addr: string)
    ensures !DenylistMatch(ctx, addr) && ctx.config.allowNotExplicitDenied
      ==> IsIpValid(ctx, addr)
    ensures !DenylistMatch(ctx, addr) && !ctx.config.allowNotExplicitDenied && AllowlistMatch(ctx, addr)
      ==> IsIpValid(ctx, addr)
    ensures !DenylistMatch(ctx, addr) && !ctx.config.allowNotExplicitDenied && !AllowlistMatch(ctx, addr)
      && OwnIpMatch(ctx, addr)
      ==> IsIpValid(ctx, addr) == ctx.config.allowExternalConnectionsFromOwnIp
    ensures !DenylistMatch(ctx, addr) && !ctx.config.allowNotExplicitDenied && !AllowlistMatch(ctx, addr)
      && !OwnIpMatch(ctx, addr) && IsLoopback(ctx.net, Remote(ctx, addr))
      ==> IsIpValid(ctx, addr) == ctx.config.allowLocalhostConnections
    ensures !ctx.config.allowNotExplicitDenied && !AllowlistMatch(ctx, addr)
      && !OwnIpMatch(ctx, addr) && !IsLoopback(ctx.net, Remote(ctx, addr))
      ==> !IsIpValid(ctx, addr)
  {
    ListsMatch(ctx, addr);
  }

  /** An admitted address was admitted by one of the rules, in the order they are tried. */
  lemma AdmittedByARule(ctx: AccessContext, addr: string)
    requires IsIpValid(ctx, addr)
    ensures !DenylistMatch(ctx, addr)
    ensures || ctx.config.allowNotExplicitDenied
            || AllowlistMatch(ctx, addr)
            || (OwnIpMatch(ctx, addr) && ctx.config.allowExternalConnectionsFromOwnIp)
            || (!OwnIpMatch(ctx, addr) && IsLoopback(ctx.net, Remote(ctx, addr))
                && ctx.config.allowLocalhostConnections)
  {
    ListsMatch(ctx, addr);
  }

  /** The port never matters: two addresses with the same host part get the same decision. */
  lemma DecisionIgnoresPort(ctx: AccessContext, host: string, p1: string, p2: string)
    requires ':' !in p1 && ':' !in p2
    ensures IsIpValid(ctx, host + [':'] + p1) == IsIpValid(ctx, host + [':'] + p2)
  {
    StripPortOfHostPort(host, p1);
    StripPortOfHostPort(host, p2);
  }

  /**
   * A remote whose host part does not parse (nil) matches every list entry that
   * does not parse either, because Go's nil IPs are Equal: an unparseable
   * allowlist entry admits every such remote unless the denylist holds one too.
   */
  lemma UnparsedRemoteMatchesUnparsedEntry(ctx: AccessContext, addr: string, i: nat)
    requires Remote(ctx, addr).None?
    requires i < |ctx.config.allowlist| && ctx.net.parse(ctx.config.allowlist[i]).None?
    requires forall j :: 0 <= j < |ctx.config.denylist| ==> ctx.net.parse(ctx.config.denylist[j]).Some?
    ensures IsIpValid(ctx, addr)
  {
    ListsMatch(ctx, addr);
  }

  /**
   * With the default configuration (empty lists, only own-IP connections allowed)
   * exactly the connections from the host's own IP are admitted.
   */
  lemma DefaultsAdmitOnlyOwnIp(c: Configuration, ownIp: string, net: Net, addr: string)
    ensures var ctx := AccessContext(Defaults(c), ownIp, net);
      IsIpValid(ctx, addr) <==> OwnIpMatch(ctx, addr)
  {
    ListsMatch(AccessContext(Defaults(c), ownIp, net), addr);
  }
}
