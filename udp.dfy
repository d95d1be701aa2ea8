/**
 * The UDP listener of one mapping (`CreateUDPListener`) and its per-client
 * sessions.  Each reassembled message from a client "ip:port" is written to
 * that client's upstream socket; a client without one gets it only when access
 * control admits it and the dial succeeds, otherwise the message is dropped.
 * Sessions are never removed and never re-checked.
 *
 * The outcome of each `net.DialUDP` call is a parameter: `dialOk(n)` says
 * whether the n-th call (counting from 0) succeeds; the socket it opens is
 * named by n.
 */
module UdpSessions {
  import opened Common
  import opened Access
  import opened Framing

  /** An upstream socket, named by the dial call that opened it. */
  type Dial = nat

  /** A payload written to an upstream socket. */
  datatype UpstreamWrite = UpstreamWrite(dial: Dial, payload: seq<Byte>)

  /** A session opened for a client: its dial was registered for termination and a reply manager started. */
  datatype Session = Session(dial: Dial, client: string)

  /** The listener's state: `proxyDials`, the number of dial calls, and what it has done so far. */
  datatype Listener = Listener(
    proxyDials: map<string, Dial>,
    dialCalls: nat,
    writes: seq<UpstreamWrite>,
    sessions: seq<Session>)

  const Fresh: Listener := Listener(map[], 0, [], [])

  /** What the listener does with one message from `client`. */
  function Dispatch(ctx: AccessContext, l: Listener, client: string, payload: seq<Byte>, dialOk: nat -> bool): Listener {
    if client in l.proxyDials then
      l.(writes := l.writes + [UpstreamWrite(l.proxyDials[client], payload)])
    else if !IsIpValid(ctx, client) then
      l
    else if !dialOk(l.dialCalls) then
      l.(dialCalls := l.dialCalls + 1)
    else
      Opened(l, client, payload)
  }

  /**
   * A client with a session is forwarded to it with no access check: the
   * outcome does not depend on the access configuration at all, and the table
   * is left as it was.
   */
  lemma ExistingSessionReused(ctx1: AccessContext, ctx2: AccessContext, l: Listener, client: string,
                              payload: seq<Byte>, dialOk: nat -> bool)
    requires client in l.proxyDials
    ensures Dispatch(ctx1, l, client, payload, dialOk) == Dispatch(ctx2, l, client, payload, dialOk)
    ensures var l' := Dispatch(ctx1, l, client, payload, dialOk);
      l'.proxyDials == l.proxyDials && l'.dialCalls == l.dialCalls && l'.sessions == l.sessions &&
      l'.writes == l.writes + [UpstreamWrite(l.proxyDials[client], payload)]
  {
  }

  /**
   * A client without a session gets one exactly when access control admits it
   * and the dial succeeds; then its message goes to the new socket.  Otherwise
   * the message is dropped and the table, the writes and the sessions are
   * unchanged.
   */
  lemma NewClientAdmission(ctx: AccessContext, l: Listener, client: string, payload: seq<Byte>, dialOk: nat -> bool)
    requires client !in l.proxyDials
    ensures var l' := Dispatch(ctx, l, client, payload, dialOk);
      (client in l'.proxyDials <==> IsIpValid(ctx, client) && dialOk(l.dialCalls))
    ensures var l' := Dispatch(ctx, l, client, payload, dialOk);
      client in l'.proxyDials ==>
        && l'.proxyDials == l.proxyDials[client := l.dialCalls]
        && l'.writes == l.writes + [UpstreamWrite(l.dialCalls, payload)]
        && l'.sessions == l.sessions + [Session(l.dialCalls, client)]
    ensures var l' := Dispatch(ctx, l, client, payload, dialOk);
      client !in l'.proxyDials ==>
        l'.proxyDials == l.proxyDials && l'.writes == l.writes && l'.sessions == l.sessions
  {
  }

  /**
   * What the listener's state always satisfies: every client in the table was
   * admitted by access control, every session has its own socket, the sessions
   * are exactly the table's entries in the order they were opened, and every
   * write went to a socket of the table.
   */
  ghost predicate Consistent(ctx: AccessContext, l: Listener) {
    && KeysAdmitted(ctx, l)
    && DialsDistinct(l)
    && SessionsMatchTable(l)
    && WritesRouted(l)
  }

  /** Every client in the table was admitted, with a socket from an earlier dial call. */
  ghost predicate KeysAdmitted(ctx: AccessContext, l: Listener) {
    forall c :: c in l.proxyDials ==> IsIpValid(ctx, c) && l.proxyDials[c] < l.dialCalls
  }

  /** No two clients share a socket. */
  ghost predicate DialsDistinct(l: Listener) {
    forall c1, c2 :: c1 in l.proxyDials && c2 in l.proxyDials && c1 != c2 ==> l.proxyDials[c1] != l.proxyDials[c2]
  }

  /** The sessions are the table's entries, one per client. */
  ghost predicate SessionsMatchTable(l: Listener) {
    && |l.sessions| == |l.proxyDials|
    && (forall i :: 0 <= i < |l.sessions| ==>
          l.sessions[i].client in l.proxyDials && l.proxyDials[l.sessions[i].client] == l.sessions[i].dial)
    && (forall i, j :: 0 <= i < j < |l.sessions| ==> l.sessions[i].client != l.sessions[j].client)
  }

  /** Every write went to a socket of the table. */
  ghost predicate WritesRouted(l: Listener) {
    forall i :: 0 <= i < |l.writes| ==> l.writes[i].dial in l.proxyDials.Values
  }

  /** The listener after opening a session for `client` on the next dial and writing to it. */
  function Opened(l: Listener, client: string, payload: seq<Byte>): Listener {
    var d := l.dialCalls;
    Listener(l.proxyDials[client := d], d + 1, l.writes + [UpstreamWrite(d, payload)], l.sessions + [Session(d, client)])
  }

  lemma OpenKeepsDistinct(ctx: AccessContext, l: Listener, client: string, payload: seq<Byte>)
    requires KeysAdmitted(ctx, l) && DialsDistinct(l) && client !in l.proxyDials
    ensures DialsDistinct(Opened(l, client, payload))
  {
  }

  lemma OpenKeepsSessions(l: Listener, client: string, payload: seq<Byte>)
    requires SessionsMatchTable(l) && client !in l.proxyDials
    ensures SessionsMatchTable(Opened(l, client, payload))
  {
    var m := l.proxyDials[client := l.dialCalls];
    assert m.Keys == l.proxyDials.Keys + {client};
    assert |m| == |l.proxyDials| + 1;
  }

  lemma OpenKeepsRouted(l: Listener, client: string, payload: seq<Byte>)
    requires WritesRouted(l) && client !in l.proxyDials
    ensures WritesRouted(Opened(l, client, payload))
  {
    var l' := Opened(l, client, payload);
    var m := l'.proxyDials;
    assert m[client] == l.dialCalls;
    forall i | 0 <= i < |l'.writes| ensures l'.writes[i].dial in m.Values {
      if i < |l.writes| {
        assert l.writes[i].dial in l.proxyDials.Values;
        var c :| c in l.proxyDials && l.proxyDials[c] == l.writes[i].dial;
        assert m[c] == l.writes[i].dial;
      }
    }
  }

  lemma OpenKeepsConsistent(ctx: AccessContext, l: Listener, client: string, payload: seq<Byte>)
    requires Consistent(ctx, l)
    requires client !in l.proxyDials && IsIpValid(ctx, client)
    ensures Consistent(ctx, Opened(l, client, payload))
  {
    OpenKeepsDistinct(ctx, l, client, payload);
    OpenKeepsSessions(l, client, payload);
    OpenKeepsRouted(l, client, payload);
  }

  lemma DispatchKeepsConsistent(ctx: AccessContext, l: Listener, client: string, payload: seq<Byte>, dialOk: nat -> bool)
    requires Consistent(ctx, l)
    ensures Consistent(ctx, Dispatch(ctx, l, client, payload, dialOk))
  {
    if client in l.proxyDials {
      var l' := Dispatch(ctx, l, client, payload, dialOk);
      assert l'.proxyDials == l.proxyDials;
      forall i | 0 <= i < |l'.writes| ensures l'.writes[i].dial in l'.proxyDials.Values {
        if i < |l.writes| {
          assert l'.writes[i] == l.writes[i];
        } else {
          assert l.proxyDials[client] in l.proxyDials.Values;
        }
      }
    } else if IsIpValid(ctx, client) && dialOk(l.dialCalls) {
      OpenKeepsConsistent(ctx, l, client, payload);
    }
  }

  /**
   * Sessions are per "ip:port": a client on a new port of a host that already
   * has a session is checked on its own and, when the dial succeeds, gets a
   * second socket of its own.
   */
  lemma OtherPortGetsOwnSession(ctx: AccessContext, l: Listener, host: string, p1: string, p2: string,
                                payload: seq<Byte>, dialOk: nat -> bool)
    requires Consistent(ctx, l)
    requires ':' !in p1 && ':' !in p2
    requires host + [':'] + p1 in l.proxyDials && host + [':'] + p2 !in l.proxyDials
    requires dialOk(l.dialCalls)
    ensures var l' := Dispatch(ctx, l, host + [':'] + p2, payload, dialOk);
      && host + [':'] + p2 in l'.proxyDials
      && l'.proxyDials[host + [':'] + p2] != l'.proxyDials[host + [':'] + p1]
  {
    DecisionIgnoresPort(ctx, host, p1, p2);
  }

  /** What the listener loop did with a stream of reads. */
  datatype ListenOutcome = ListenOutcome(state: Listener, stopped: bool)

  /**
   * The listener loop from read `i` on: reassemble a message, dispatch it,
   * repeat, until a read stops it or the reads run out.
   */
  function Served(ctx: AccessContext, rs: seq<ReadResult>, i: nat, dialOk: nat -> bool, l: Listener): ListenOutcome
    requires i <= |rs|
    decreases |rs| - i
  {
    ReassembleConsumes(UdpListener, rs, i);
    match Reassemble(UdpListener, rs, i)
    case Pending => ListenOutcome(l, false)
    case Stopped(_) => ListenOutcome(l, true)
    case Message(b, k, from) => Served(ctx, rs, i + k, dialOk, Dispatch(ctx, l, from, b, dialOk))
  }

  /**
   * Induction over the listener loop: a property of the listener that every
   * dispatch preserves holds of the listener the loop ends with.
   */
  lemma {:induction false} ServedPreserves(ctx: AccessContext, rs: seq<ReadResult>, i: nat, dialOk: nat -> bool,
                                           inv: Listener -> bool, l: Listener)
    requires i <= |rs|
    requires forall l', client, payload :: inv(l') ==> inv(Dispatch(ctx, l', client, payload, dialOk))
    requires inv(l)
    ensures inv(Served(ctx, rs, i, dialOk, l).state)
    decreases |rs| - i
  {
    var f := Reassemble(UdpListener, rs, i);
    if f.Message? {
      ServedMessage(ctx, rs, i, dialOk, l);
      ServedPreserves(ctx, rs, i + f.consumed, dialOk, inv, Dispatch(ctx, l, f.from, f.bytes, dialOk));
    } else {
      ServedEnds(ctx, rs, i, dialOk, l);
    }
  }

  /** The listener stays consistent whatever it reads. */
  lemma ServedKeepsConsistent(ctx: AccessContext, rs: seq<ReadResult>, i: nat, dialOk: nat -> bool, l: Listener)
    requires i <= |rs| && Consistent(ctx, l)
    ensures Consistent(ctx, Served(ctx, rs, i, dialOk, l).state)
  {
    var inv := (l': Listener) => Consistent(ctx, l');
    forall l', client, payload | inv(l') ensures inv(Dispatch(ctx, l', client, payload, dialOk)) {
      DispatchKeepsConsistent(ctx, l', client, payload, dialOk);
    }
    ServedPreserves(ctx, rs, i, dialOk, inv, l);
  }

  /** A message from read `i` on is dispatched, and the loop goes on after it. */
  lemma ServedMessage(ctx: AccessContext, rs: seq<ReadResult>, i: nat, dialOk: nat -> bool, l: Listener)
    requires i <= |rs| && Reassemble(UdpListener, rs, i).Message?
    ensures var f := Reassemble(UdpListener, rs, i);
      && i + f.consumed <= |rs|
      && Served(ctx, rs, i, dialOk, l) == Served(ctx, rs, i + f.consumed, dialOk, Dispatch(ctx, l, f.from, f.bytes, dialOk))
  {
    ReassembleConsumes(UdpListener, rs, i);
  }

  /** When no message comes from read `i` on, the loop ends with the listener as it is. */
  lemma ServedEnds(ctx: AccessContext, rs: seq<ReadResult>, i: nat, dialOk: nat -> bool, l: Listener)
    requires i <= |rs| && !Reassemble(UdpListener, rs, i).Message?
    ensures Served(ctx, rs, i, dialOk, l) == ListenOutcome(l, Reassemble(UdpListener, rs, i).Stopped?)
  {
  }

  lemma DispatchKnownClient(ctx: AccessContext, l: Listener, client: string, payload: seq<Byte>, dialOk: nat -> bool)
    requires client in l.proxyDials
    ensures Dispatch(ctx, l, client, payload, dialOk)
      == l.(writes := l.writes + [UpstreamWrite(l.proxyDials[client], payload)])
  {
  }

  lemma DispatchNewClient(ctx: AccessContext, l: Listener, client: string, payload: seq<Byte>, dialOk: nat -> bool)
    requires client !in l.proxyDials
    ensures !IsIpValid(ctx, client) ==> Dispatch(ctx, l, client, payload, dialOk) == l
    ensures IsIpValid(ctx, client) && !dialOk(l.dialCalls) ==>
      Dispatch(ctx, l, client, payload, dialOk) == l.(dialCalls := l.dialCalls + 1)
    ensures IsIpValid(ctx, client) && dialOk(l.dialCalls) ==>
      Dispatch(ctx, l, client, payload, dialOk) == Opened(l, client, payload)
  {
  }

  /**
   * The body of `CreateUDPListener`'s loop after a message from `client` has
   * been read: open a session for a new, admitted client whose dial succeeds,
   * then write the message to the client's socket.
   */
  method HandleMessage(ctx: AccessContext, l: Listener, client: string, payload: seq<Byte>, dialOk: nat -> bool)
    returns (next: Listener)
    ensures next == Dispatch(ctx, l, client, payload, dialOk)
  {
    var proxyDials, dialCalls, writes, sessions := l.proxyDials, l.dialCalls, l.writes, l.sessions;
    if client !in proxyDials {
      DispatchNewClient(ctx, l, client, payload, dialOk);
      if !IsIpValid(ctx, client) {
        return l;
      }
      var ok := dialOk(dialCalls);
      var dial := dialCalls;
      dialCalls := dialCalls + 1;
      if !ok {
        return l.(dialCalls := dialCalls);
      }
      proxyDials := proxyDials[client := dial];
      sessions := sessions + [Session(dial, client)];
    } else {
      DispatchKnownClient(ctx, l, client, payload, dialOk);
    }
    writes := writes + [UpstreamWrite(proxyDials[client], payload)];
    return Listener(proxyDials, dialCalls, writes, sessions);
  }

  /**
   * One turn of `CreateUDPListener`'s loop: read a message starting at read
   * `pos` and dispatch it, or report how the loop ends.
   */
  method ServeNext(ctx: AccessContext, rs: seq<ReadResult>, dialOk: nat -> bool, pos: nat, state: Listener)
    returns (done: bool, o: ListenOutcome, next: nat, nextState: Listener)
    requires pos <= |rs|
    ensures done ==> o == Served(ctx, rs, pos, dialOk, state)
    ensures !done ==> pos < next <= |rs|
    ensures !done ==> Served(ctx, rs, pos, dialOk, state) == Served(ctx, rs, next, dialOk, nextState)
  {
    var f := ReadMessage(UdpListener, rs, pos);
    if !f.Message? {
      ServedEnds(ctx, rs, pos, dialOk, state);
      return true, ListenOutcome(state, f.Stopped?), pos, state;
    }
    ServedMessage(ctx, rs, pos, dialOk, state);
    nextState := HandleMessage(ctx, state, f.from, f.bytes, dialOk);
    return false, ListenOutcome(state, false), pos + f.consumed, nextState;
  }

  /**
   * `CreateUDPListener`'s loop, from a listener that has just started: the
   * table `proxyDials` is filled as clients are admitted.
   */
  method Listen(ctx: AccessContext, rs: seq<ReadResult>, dialOk: nat -> bool) returns (o: ListenOutcome)
    ensures o == Served(ctx, rs, 0, dialOk, Fresh)
    ensures Consistent(ctx, o.state)
  {
    var state := Fresh;
    var pos := 0;
    while true
      invariant pos <= |rs|
      invariant Served(ctx, rs, 0, dialOk, Fresh) == Served(ctx, rs, pos, dialOk, state)
      decreases |rs| - pos
    {
      var done, out, next, nextState := ServeNext(ctx, rs, dialOk, pos, state);
      if done {
        o := out;
        ServedKeepsConsistent(ctx, rs, 0, dialOk, Fresh);
        return;
      }
      pos, state := next, nextState;
    }
  }

  /** A reply datagram written back through the listener's socket. */
  datatype Datagram = Datagram(to: string, payload: seq<Byte>)

  /**
   * `UDPReplyManager`: every message reassembled from a session's upstream
   * socket is written back to that session's client, in order.
   */
  method ReplyManager(rs: seq<ReadResult>, client: string) returns (replies: seq<Datagram>)
    ensures |replies| == |Relayed(UdpReplies, rs, 0).writes|
    ensures forall i :: 0 <= i < |replies| ==> replies[i] == Datagram(client, Relayed(UdpReplies, rs, 0).writes[i])
  {
    var o := Relay(UdpReplies, rs);
    replies := [];
    for i := 0 to |o.writes|
      invariant |replies| == i
      invariant forall j :: 0 <= j < i ==> replies[j] == Datagram(client, o.writes[j])
    {
      replies := replies + [Datagram(client, o.writes[i])];
    }
  }
}
