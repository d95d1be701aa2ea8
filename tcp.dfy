/**
 * The decision `HandleConnectionTCP` takes for each accepted connection:
 * refuse it without dialling, or dial the internal target and, when the dial
 * succeeds, register the dial for termination and start the two pipes.
 */
module TcpConnections {
  import opened Common
  import opened Text
  import opened Access

  /** The default internal host when a mapping names none. */
  const Loopback: string := "127.0.0.1"

  /** The "host:port" the listener dials: fmt's "%v:%v" of the host (or 127.0.0.1) and the internal port. */
  function Origin(host: Option<string>, to: int): string {
    host.GetOr(Loopback) + [':'] + FormatInt(to)
  }

  /** The origin's host part is the mapping's host, or 127.0.0.1 when it has none. */
  lemma OriginHost(host: Option<string>, to: int)
    ensures StripPort(Origin(host, to)) == host.GetOr(Loopback)
  {
    StripPortOfHostPort(host.GetOr(Loopback), FormatInt(to));
  }

  /** What happened to one accepted connection. */
  datatype ConnOutcome =
    | Dropped                  // refused by access control: no dial was attempted
    | DialFailed(origin: string)
    | Piping(origin: string)   // dial registered for termination, both pipes started

  /** `HandleConnectionTCP`; `dialOk` is the outcome of `net.Dial`, which only happens after the check. */
  function HandleConnection(ctx: AccessContext, remote: string, host: Option<string>, to: int, dialOk: bool): ConnOutcome {
    if !IsIpValid(ctx, remote) then Dropped
    else if !dialOk then DialFailed(Origin(host, to))
    else Piping(Origin(host, to))
  }

  /**
   * A connection from an address access control refuses never reaches the
   * internal target, and one it admits is always dialled at the mapping's origin.
   */
  lemma RefusedNeverDialled(ctx: AccessContext, remote: string, host: Option<string>, to: int, dialOk: bool)
    ensures HandleConnection(ctx, remote, host, to, dialOk) == Dropped <==> !IsIpValid(ctx, remote)
    ensures HandleConnection(ctx, remote, host, to, dialOk) != Dropped ==>
      HandleConnection(ctx, remote, host, to, dialOk).origin == Origin(host, to)
  {
  }
}
