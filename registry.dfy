/**
 * The bookkeeping of `main`: the mappings started from the configuration, the
 * arguments of the console's `proxy` command, and the removal of a mapping by
 * id in `unmap`.
 */
module Registry {
  import opened Common
  import opened Text
  import opened Config
  import opened Access

  // ---------------------------------------------------------------------------
  // Startup: one MapInfo per enabled mapping
  // ---------------------------------------------------------------------------

  /**
   * The external port of the i-th declared mapping: the start of the port
   * range plus the mapping's offset, or plus its index when ports are assigned
   * automatically.  A disabled mapping still uses up its automatic port.
   */
  function ExternalPort(cfg: Configuration, i: nat): int
    requires i < |cfg.mappings|
  {
    cfg.portRange.start + (if cfg.autoPort then i else cfg.mappings[i].portOffset)
  }

  /** The indices below n of the mappings that are not disabled, in increasing order. */
  function EnabledIndices(ms: seq<Mapping>, n: nat): (idx: seq<nat>)
    requires n <= |ms|
    ensures forall j :: 0 <= j < |idx| ==> idx[j] < n && !ms[idx[j]].disabled
    ensures forall j, k :: 0 <= j < k < |idx| ==> idx[j] < idx[k]
    ensures forall i :: 0 <= i < n && !ms[i].disabled ==> i in idx
    ensures |idx| <= n
  {
    if n == 0 then []
    else EnabledIndices(ms, n - 1) + (if ms[n - 1].disabled then [] else [n - 1])
  }

  /** The record kept for the i-th declared mapping when it is started with id `id`. */
  function InfoAt(cfg: Configuration, i: nat, id: int): MapInfo
    requires i < |cfg.mappings|
  {
    MapInfo(id, cfg.mappings[i].protocol, cfg.mappings[i].internalPort, ExternalPort(cfg, i))
  }

  /** After the first n declared mappings: the j-th active mapping has id j and is the j-th enabled one. */
  function Active(cfg: Configuration, n: nat): (active: seq<MapInfo>)
    requires n <= |cfg.mappings|
  {
    var idx := EnabledIndices(cfg.mappings, n);
    seq(|idx|, j requires 0 <= j < |idx| => InfoAt(cfg, idx[j], j))
  }

  /** The listeners started for the first n declared mappings, in the order they were started. */
  function Engines(cfg: Configuration, n: nat): seq<Engine>
    requires n <= |cfg.mappings|
  {
    if n == 0 then []
    else
      var m := cfg.mappings[n - 1];
      Engines(cfg, n - 1) +
        (if m.disabled then []
         else EnginesFor(m.protocol, m.internalIp, InfoAt(cfg, n - 1, |EnabledIndices(cfg.mappings, n - 1)|)))
  }

  /** Every enabled mapping below n names a protocol the forwarder knows. */
  predicate ProtocolsValid(ms: seq<Mapping>, n: nat)
    requires n <= |ms|
  {
    forall i :: 0 <= i < n && !ms[i].disabled ==> ValidProtocol(ms[i].protocol)
  }

  lemma ActiveStep(cfg: Configuration, n: nat)
    requires n < |cfg.mappings|
    ensures Active(cfg, n + 1) ==
      Active(cfg, n) + (if cfg.mappings[n].disabled then [] else [InfoAt(cfg, n, |Active(cfg, n)|)])
  {
    var idx := EnabledIndices(cfg.mappings, n);
    var idx' := EnabledIndices(cfg.mappings, n + 1);
    assert idx' == idx + (if cfg.mappings[n].disabled then [] else [n]);
    forall j | 0 <= j < |idx| ensures Active(cfg, n + 1)[j] == Active(cfg, n)[j] {
      assert idx'[j] == idx[j];
    }
  }

  lemma EnginesStep(cfg: Configuration, n: nat)
    requires n < |cfg.mappings|
    ensures Engines(cfg, n + 1) ==
      Engines(cfg, n) + (if cfg.mappings[n].disabled then []
                         else EnginesFor(cfg.mappings[n].protocol, cfg.mappings[n].internalIp, InfoAt(cfg, n, |Active(cfg, n)|)))
  {
  }

  /** What starting the configured mappings ends in. */
  datatype StartupOutcome =
    | Started(active: seq<MapInfo>, engines: seq<Engine>, counter: int)
    | InvalidProtocol(index: nat)  // fatal: an enabled mapping names an unknown protocol

  /** The loop's state after the first n declared mappings, none of which stopped it. */
  predicate StartedUpTo(cfg: Configuration, n: nat, active: seq<MapInfo>, engines: seq<Engine>, counter: int)
    requires n <= |cfg.mappings|
  {
    && ProtocolsValid(cfg.mappings, n)
    && active == Active(cfg, n) && engines == Engines(cfg, n)
    && counter == |active|
  }

  /**
   * One turn of the startup loop for the n-th mapping, started as `info` with
   * the listeners `started`, for each of its three outcomes.
   */
  lemma StartupStep(cfg: Configuration, n: nat, active: seq<MapInfo>, engines: seq<Engine>, counter: int,
                    info: MapInfo, started: seq<Engine>)
    requires n < |cfg.mappings| && StartedUpTo(cfg, n, active, engines, counter)
    requires info == InfoAt(cfg, n, counter)
    requires started == EnginesFor(cfg.mappings[n].protocol, cfg.mappings[n].internalIp, info)
    ensures cfg.mappings[n].disabled ==> StartedUpTo(cfg, n + 1, active, engines, counter)
    ensures !cfg.mappings[n].disabled && |started| > 0 ==>
      StartedUpTo(cfg, n + 1, active + [info], engines + started, counter + 1)
    ensures !cfg.mappings[n].disabled && |started| == 0 ==>
      && !ValidProtocol(cfg.mappings[n].protocol)
      && ProtocolsValid(cfg.mappings, n)
      && !ProtocolsValid(cfg.mappings, |cfg.mappings|)
  {
    ActiveStep(cfg, n);
    EnginesStep(cfg, n);
  }

  /**
   * The record for the n-th mapping at the top of the startup loop: its port is
   * the base port plus its offset, or plus the count of ports handed out so far
   * when ports are automatic (which it then increments).
   */
  method MappingInfo(cfg: Configuration, n: nat, counter: int, portsAssigned: nat) returns (info: MapInfo, portsAfter: nat)
    requires n < |cfg.mappings| && portsAssigned == (if cfg.autoPort then n else 0)
    ensures info == InfoAt(cfg, n, counter)
    ensures portsAfter == (if cfg.autoPort then n + 1 else 0)
  {
    var mapping := cfg.mappings[n];
    var port := cfg.portRange.start;
    portsAfter := portsAssigned;
    if !cfg.autoPort {
      port := port + mapping.portOffset;
    } else {
      port := port + portsAfter;
      portsAfter := portsAfter + 1;
    }
    info := MapInfo(counter, mapping.protocol, mapping.internalPort, port);
  }

  /**
   * `main`'s loop over the configured mappings: compute each mapping's port,
   * skip disabled mappings, start the listeners of the others with the next id.
   */
  method Startup(cfg: Configuration) returns (out: StartupOutcome)
    ensures out.Started? <==> ProtocolsValid(cfg.mappings, |cfg.mappings|)
    ensures out.InvalidProtocol? ==>
      && out.index < |cfg.mappings|
      && !cfg.mappings[out.index].disabled
      && !ValidProtocol(cfg.mappings[out.index].protocol)
      && ProtocolsValid(cfg.mappings, out.index)
    ensures out.Started? ==>
      && out.active == Active(cfg, |cfg.mappings|)
      && out.engines == Engines(cfg, |cfg.mappings|)
      && out.counter == |out.active|
  {
    var counter := 0;
    var portsAssigned := 0;
    var active: seq<MapInfo> := [];
    var engines: seq<Engine> := [];
    for n := 0 to |cfg.mappings|
      invariant portsAssigned == if cfg.autoPort then n else 0
      invariant StartedUpTo(cfg, n, active, engines, counter)
    {
      var mapping := cfg.mappings[n];
      var info;
      info, portsAssigned := MappingInfo(cfg, n, counter, portsAssigned);
      StartupStep(cfg, n, active, engines, counter, info, EnginesFor(mapping.protocol, mapping.internalIp, info));
      if !mapping.disabled {
        var started := EnginesFor(mapping.protocol, mapping.internalIp, info);
        if |started| == 0 {
          return InvalidProtocol(n);
        }
        engines := engines + started;
        counter := counter + 1;
        active := active + [info];
      }
    }
    return Started(active, engines, counter);
  }

  /** The ids handed out at startup are 0, 1, 2, … in the order of the enabled mappings. */
  lemma StartupIds(cfg: Configuration)
    ensures var a := Active(cfg, |cfg.mappings|);
      forall j :: 0 <= j < |a| ==> a[j].id == j
  {
  }

  /**
   * With automatic ports, the active mappings get strictly increasing ports
   * inside [start, start + number of declared mappings), so no two collide.
   */
  lemma AutoPortsIncrease(cfg: Configuration)
    requires cfg.autoPort
    ensures var a := Active(cfg, |cfg.mappings|);
      && (forall j, k :: 0 <= j < k < |a| ==> a[j].to < a[k].to)
      && (forall j :: 0 <= j < |a| ==>
            cfg.portRange.start <= a[j].to < cfg.portRange.start + |cfg.mappings|)
  {
  }

  /**
   * With automatic ports, the j-th active mapping listens on the start of the
   * range plus its position among all declared mappings, disabled ones included.
   */
  lemma AutoPortsFromPositions(cfg: Configuration)
    requires cfg.autoPort
    ensures var a := Active(cfg, |cfg.mappings|);
      var idx := EnabledIndices(cfg.mappings, |cfg.mappings|);
      && |a| == |idx|
      && forall j :: 0 <= j < |a| ==> a[j].to == cfg.portRange.start + idx[j]
  {
  }

  /** Without automatic ports, each active mapping listens on the start of the range plus its own offset. */
  lemma ManualPortsFromOffsets(cfg: Configuration)
    requires !cfg.autoPort
    ensures var a := Active(cfg, |cfg.mappings|);
      var idx := EnabledIndices(cfg.mappings, |cfg.mappings|);
      forall j :: 0 <= j < |a| ==> a[j].to == cfg.portRange.start + cfg.mappings[idx[j]].portOffset
  {
  }

  /**
   * A disabled mapping uses up its automatic port: enabled, disabled, enabled,
   * enabled mappings from 54000 listen on 54000, 54002 and 54003.
   */
  lemma DisabledMappingKeepsItsPort(m: Mapping)
    ensures var on := m.(disabled := false);
      var off := m.(disabled := true);
      var cfg := Configuration(PortRange(54000, 54099), true, [on, off, on, on], false, true, false, [], []);
      var a := Active(cfg, 4);
      |a| == 3 && a[0].to == 54000 && a[1].to == 54002 && a[2].to == 54003
  {
    var on := m.(disabled := false);
    var off := m.(disabled := true);
    var cfg := Configuration(PortRange(54000, 54099), true, [on, off, on, on], false, true, false, [], []);
    assert Active(cfg, 0) == [];
    ActiveStep(cfg, 0);
    assert Active(cfg, 1) == [InfoAt(cfg, 0, 0)];
    ActiveStep(cfg, 1);
    assert Active(cfg, 2) == [InfoAt(cfg, 0, 0)];
    ActiveStep(cfg, 2);
    assert Active(cfg, 3) == [InfoAt(cfg, 0, 0), InfoAt(cfg, 2, 1)];
    ActiveStep(cfg, 3);
    assert Active(cfg, 4) == [InfoAt(cfg, 0, 0), InfoAt(cfg, 2, 1), InfoAt(cfg, 3, 2)];
  }

  // ---------------------------------------------------------------------------
  // The console's `proxy [ip:]<port> <port> <proto>` arguments
  // ---------------------------------------------------------------------------

  /** Why a `proxy` command was refused, in the order the checks are made. */
  datatype ProxyError =
    | WrongArgumentCount    // "invalid amount of arguments"
    | BadIpPort             // "invalid ip:port"
    | BadIpAddress          // "invalid ip address"
    | BadSourcePort         // "invalid source port"
    | BadDestinationPort    // "invalid destination port"
    | BadProtocol           // "invalid protocol"

  /** A well-formed `proxy` command: the internal host (none means 127.0.0.1), the ports and the protocol. */
  datatype ProxyRequest = ProxyRequest(host: Option<string>, servPort: int, proxPort: int, protocol: string)

  /**
   * What `fmt.Scanln` leaves in the four argument slots: the words of the line
   * in order, then empty strings.
   */
  predicate ScanlnShape(args: seq<string>) {
    |args| == 4 && forall i, j :: 0 <= i < j < 4 && args[i] == [] ==> args[j] == []
  }

  /** The number of non-empty argument slots (`parsed_args`). */
  function WordCount(args: seq<string>): (n: nat)
    ensures n <= |args|
  {
    if |args| == 0 then 0 else (if args[0] != [] then 1 else 0) + WordCount(args[1..])
  }

  lemma WordCountOfThree(a: string, b: string, c: string)
    requires |a| > 0 && |b| > 0 && |c| > 0
    ensures ScanlnShape([a, b, c, ""]) && WordCount([a, b, c, ""]) == 3
  {
    var args: seq<string> := [a, b, c, ""];
    assert args[1..][1..][1..][1..] == [];
    assert WordCount(args[1..][1..][1..]) == 0;
    assert WordCount(args[1..][1..]) == 1;
    assert WordCount(args[1..]) == 2;
  }

  /**
   * The source part of `proxy`'s first argument: "port", ":port" or "ip:port",
   * with the ip checked by `net.ParseIP`.
   */
  function ParseSource(net: Net, word: string): (r: Result<(Option<string>, int), ProxyError>)
    requires |word| > 0
    ensures r.Ok? ==>
      var pieces := Split(word, ':');
      && |pieces| <= 2
      && Atoi(pieces[|pieces| - 1]) == Some(r.value.1)
      && (r.value.0.None? <==> |pieces| == 1 || pieces[0] == [])
    ensures r.Ok? && r.value.0.Some? ==>
      var h := r.value.0.value;
      |h| > 0 && ':' !in h && net.parse(h).Some? && StripPort(word) == h
  {
    var pieces := Split(word, ':');
    if |pieces| < 1 || |pieces| > 2 then Err(BadIpPort)
    else
      var pieces := if |pieces[0]| == 0 then [pieces[1]] else pieces;
      if |pieces| == 1 then
        match Atoi(pieces[0])
        case None => Err(BadSourcePort)
        case Some(p) => Ok((None, p))
      else if net.parse(pieces[0]).None? then Err(BadIpAddress)
      else
        match Atoi(pieces[1])
        case None => Err(BadSourcePort)
        case Some(p) =>
          ProxyHostIsStripped(word, Some(pieces[0]));
          Ok((Some(pieces[0]), p))
  }

  /** The arguments of `proxy`, checked in the source's order. */
  function ParseProxy(net: Net, args: seq<string>): (r: Result<ProxyRequest, ProxyError>)
    requires ScanlnShape(args)
    ensures r == Err(WrongArgumentCount) <==> WordCount(args) != 3
    ensures r.Ok? ==> && r.value.protocol == args[2] && ValidProtocol(r.value.protocol)
                      && Atoi(args[1]) == Some(r.value.proxPort)
    ensures r.Ok? && r.value.host.Some? ==>
      var h := r.value.host.value;
      |h| > 0 && ':' !in h && net.parse(h).Some? && StripPort(args[0]) == h
  {
    if WordCount(args) != 3 then Err(WrongArgumentCount)
    else
      assert args[0] != [] by {
        if args[0] == [] { WordCountEmptyFirst(args); }
      }
      match ParseSource(net, args[0])
      case Err(e) => Err(e)
      case Ok((host, servPort)) =>
        if Atoi(args[1]).None? then Err(BadDestinationPort)
        else if !ValidProtocol(args[2]) then Err(BadProtocol)
        else Ok(ProxyRequest(host, servPort, Atoi(args[1]).value, args[2]))
  }

  /** Scanln fills the slots in order: with the first one empty, all are. */
  lemma WordCountEmptyFirst(args: seq<string>)
    requires ScanlnShape(args) && args[0] == []
    ensures WordCount(args) == 0
  {
    WordCountAllEmpty(args);
  }

  lemma {:induction false} WordCountAllEmpty(args: seq<string>)
    requires forall i :: 0 <= i < |args| ==> args[i] == []
    ensures WordCount(args) == 0
  {
    if |args| > 0 {
      WordCountAllEmpty(args[1..]);
    }
  }

  lemma ProxyHostIsStripped(word: string, host: Option<string>)
    requires host.Some? ==> |Split(word, ':')| == 2 && host.value == Split(word, ':')[0]
    ensures host.Some? ==> ':' !in host.value && StripPort(word) == host.value
  {
    if host.Some? {
      var pieces := Split(word, ':');
      JoinSplit(word, ':');
      assert pieces[1..] == [pieces[1]];
      assert Join(pieces[1..], ':') == pieces[1];
      assert word == pieces[0] + [':'] + pieces[1];
      StripPortOfHostPort(pieces[0], pieces[1]);
    }
  }

  /** A command naming a host, ports and protocol the way `mappings` prints them is read back as given. */
  lemma ProxyRoundTripWithHost(net: Net, host: string, servPort: int, proxPort: int, protocol: string)
    requires |host| > 0 && ':' !in host && net.parse(host).Some?
    requires MinInt64 <= servPort <= MaxInt64 && MinInt64 <= proxPort <= MaxInt64
    requires ValidProtocol(protocol)
    ensures var args := [host + [':'] + FormatInt(servPort), FormatInt(proxPort), protocol, ""];
      ScanlnShape(args) && ParseProxy(net, args) == Ok(ProxyRequest(Some(host), servPort, proxPort, protocol))
  {
    AtoiFormatInt(servPort);
    AtoiFormatInt(proxPort);
    SplitPair(host, ':', FormatInt(servPort));
    WordCountOfThree(host + [':'] + FormatInt(servPort), FormatInt(proxPort), protocol);
  }

  /** A bare port, or a port after an empty host (":port"), means the default host. */
  lemma ProxyRoundTripPortOnly(net: Net, servPort: int, proxPort: int, protocol: string, colon: bool)
    requires MinInt64 <= servPort <= MaxInt64 && MinInt64 <= proxPort <= MaxInt64
    requires ValidProtocol(protocol)
    ensures var first := (if colon then [':'] else []) + FormatInt(servPort);
      var args := [first, FormatInt(proxPort), protocol, ""];
      ScanlnShape(args) && ParseProxy(net, args) == Ok(ProxyRequest(None, servPort, proxPort, protocol))
  {
    AtoiFormatInt(proxPort);
    var first := (if colon then [':'] else []) + FormatInt(servPort);
    if colon {
      ColonPortSource(net, servPort);
    } else {
      BarePortSource(net, servPort);
      assert first == FormatInt(servPort);
    }
    assert ParseSource(net, first) == Ok((None, servPort));
    WordCountOfThree(first, FormatInt(proxPort), protocol);
  }

  lemma BarePortSource(net: Net, servPort: int)
    requires MinInt64 <= servPort <= MaxInt64
    ensures ParseSource(net, FormatInt(servPort)) == Ok((None, servPort))
  {
    AtoiFormatInt(servPort);
    SplitNoSep(FormatInt(servPort), ':');
  }

  lemma ColonPortSource(net: Net, servPort: int)
    requires MinInt64 <= servPort <= MaxInt64
    ensures ParseSource(net, [':'] + FormatInt(servPort)) == Ok((None, servPort))
  {
    AtoiFormatInt(servPort);
    SplitPair([], ':', FormatInt(servPort));
    assert [':'] + FormatInt(servPort) == [] + [':'] + FormatInt(servPort);
  }

  /**
   * A host that does not parse as an IP address is refused before any port is
   * read, and an unknown protocol only after both ports have been read.
   */
  lemma ProxyCheckOrder(net: Net, host: string, port: string, dest: string, protocol: string)
    requires |host| > 0 && ':' !in host && ':' !in port && |port| > 0 && |dest| > 0 && |protocol| > 0
    ensures var args := [host + [':'] + port, dest, protocol, ""];
      && ScanlnShape(args)
      && (net.parse(host).None? ==> ParseProxy(net, args) == Err(BadIpAddress))
      && (net.parse(host).Some? && Atoi(port).Some? && Atoi(dest).Some? && !ValidProtocol(protocol) ==>
            ParseProxy(net, args) == Err(BadProtocol))
  {
    SplitPair(host, ':', port);
    WordCountOfThree(host + [':'] + port, dest, protocol);
  }

  /** More than one ':' in the first argument is refused. */
  lemma ProxyRejectsTwoColons(net: Net, a: string, b: string, c: string, dest: string, protocol: string)
    requires ':' !in a && ':' !in b && |dest| > 0 && |protocol| > 0
    ensures var args := [a + [':'] + b + [':'] + c, dest, protocol, ""];
      ScanlnShape(args) && ParseProxy(net, args) == Err(BadIpPort)
  {
    var w := a + [':'] + b + [':'] + c;
    assert w == a + [':'] + (b + [':'] + c);
    SplitFirst(a, ':', b + [':'] + c);
    SplitFirst(b, ':', c);
    WordCountOfThree(w, dest, protocol);
  }

  // ---------------------------------------------------------------------------
  // `unmap <id>`: the range loop over activeMappings
  // ---------------------------------------------------------------------------

  /**
   * What the unmap loop ends in: the active mappings left, and the mappings
   * sent to the terminator; or a slice-bounds panic after the sends so far.
   */
  datatype UnmapOutcome =
    | Unmapped(remaining: seq<MapInfo>, sent: seq<MapInfo>)
    | SlicePanic(sent: seq<MapInfo>)

  /**
   * The loop from index i.  The range reads the slice's backing array, of the
   * original length; the slice itself is its first n elements.  Removing the
   * entry at i shifts the rest of the slice left by one in the same array,
   * leaving the last slot as it was, and the loop still goes on to i + 1.
   * Removing at an index past the slice's length panics.
   */
  function UnmapFrom(backing: seq<MapInfo>, n: nat, i: nat, id: int, sent: seq<MapInfo>): UnmapOutcome
    requires n <= |backing| && i <= |backing|
    decreases |backing| - i
  {
    if i == |backing| then Unmapped(backing[..n], sent)
    else if backing[i].id != id then UnmapFrom(backing, n, i + 1, id, sent)
    else if i + 1 > n then SlicePanic(sent + [backing[i]])
    else UnmapFrom(backing[..i] + backing[i + 1..n] + backing[n - 1..], n - 1, i + 1, id, sent + [backing[i]])
  }

  function Unmap(active: seq<MapInfo>, id: int): UnmapOutcome {
    UnmapFrom(active, |active|, 0, id, [])
  }

  /** The loop of the `unmap` command. */
  method UnmapScan(active: seq<MapInfo>, id: int) returns (out: UnmapOutcome)
    ensures out == Unmap(active, id)
  {
    var backing := active;
    var n: nat := |active|;
    var sent: seq<MapInfo> := [];
    for i := 0 to |active|
      invariant |backing| == |active| && n <= |backing|
      invariant Unmap(active, id) == UnmapFrom(backing, n, i, id, sent)
    {
      var m := backing[i];
      if m.id == id {
        sent := sent + [m];
        if i + 1 > n {
          return SlicePanic(sent);
        }
        backing := backing[..i] + backing[i + 1..n] + backing[n - 1..];
        n := n - 1;
      }
    }
    return Unmapped(backing[..n], sent);
  }

  /** Once no entry from i on carries the id, the loop ends with the slice as it is. */
  lemma {:induction false} UnmapRestUnmatched(backing: seq<MapInfo>, n: nat, i: nat, id: int, sent: seq<MapInfo>)
    requires n <= |backing| && i <= |backing|
    requires forall j :: i <= j < |backing| ==> backing[j].id != id
    ensures UnmapFrom(backing, n, i, id, sent) == Unmapped(backing[..n], sent)
    decreases |backing| - i
  {
    if i < |backing| {
      UnmapRestUnmatched(backing, n, i + 1, id, sent);
    }
  }

  /** Every mapping sent to the terminator carries the id, and the slice loses exactly the ones sent. */
  lemma {:induction false} UnmapSendsOnlyMatches(backing: seq<MapInfo>, n: nat, i: nat, id: int, sent: seq<MapInfo>)
    requires n <= |backing| && i <= |backing|
    requires forall j :: 0 <= j < |sent| ==> sent[j].id == id
    ensures var o := UnmapFrom(backing, n, i, id, sent);
      && (forall j :: 0 <= j < |o.sent| ==> o.sent[j].id == id)
      && |sent| <= |o.sent|
      && (o.Unmapped? ==> |o.remaining| + |o.sent| == n + |sent|)
    decreases |backing| - i
  {
    if i < |backing| {
      if backing[i].id != id {
        UnmapSendsOnlyMatches(backing, n, i + 1, id, sent);
      } else if i + 1 <= n {
        UnmapSendsOnlyMatches(backing[..i] + backing[i + 1..n] + backing[n - 1..], n - 1, i + 1, id, sent + [backing[i]]);
      }
    }
  }

  /** An id nobody has leaves the mappings alone and sends nothing ("id not found"). */
  lemma UnmapUnknownId(active: seq<MapInfo>, id: int)
    requires forall j :: 0 <= j < |active| ==> active[j].id != id
    ensures Unmap(active, id) == Unmapped(active, [])
  {
    UnmapRestUnmatched(active, |active|, 0, id, []);
    assert active[..|active|] == active;
  }

  /** An id held by exactly one mapping removes that mapping, keeps the others in order, and sends it once. */
  lemma UnmapUniqueId(active: seq<MapInfo>, p: nat, id: int)
    requires p < |active| && active[p].id == id
    requires forall j :: 0 <= j < |active| && j != p ==> active[j].id != id
    ensures Unmap(active, id) == Unmapped(active[..p] + active[p + 1..], [active[p]])
  {
    var L := |active|;
    UnmapSkipUnmatched(active, L, 0, p, id, []);
    var b := active[..p] + active[p + 1..L] + active[L - 1..];
    assert |b| == L;
    forall j | p + 1 <= j < L ensures b[j].id != id {
      if j < L - 1 {
        assert b[j] == active[j + 1];
      } else {
        assert b[j] == active[L - 1];
      }
    }
    UnmapRestUnmatched(b, L - 1, p + 1, id, [active[p]]);
    assert [] + [active[p]] == [active[p]];
    assert b[..L - 1] == active[..p] + active[p + 1..];
  }

  /** Skipping entries that do not carry the id. */
  lemma {:induction false} UnmapSkipUnmatched(backing: seq<MapInfo>, n: nat, i: nat, k: nat, id: int, sent: seq<MapInfo>)
    requires n <= |backing| && i <= k <= |backing|
    requires forall j :: i <= j < k ==> backing[j].id != id
    ensures UnmapFrom(backing, n, i, id, sent) == UnmapFrom(backing, n, k, id, sent)
    decreases k - i
  {
    if i < k {
      UnmapSkipUnmatched(backing, n, i + 1, k, id, sent);
    }
  }

  /**
   * Two neighbouring mappings with the id, followed by others: the first is
   * removed, and the second, shifted into the slot just visited, is skipped
   * and stays active.
   */
  lemma UnmapSkipsShiftedNeighbour(pre: seq<MapInfo>, a: MapInfo, b: MapInfo, post: seq<MapInfo>, id: int)
    requires a.id == id && b.id == id && |post| > 0
    requires forall j :: 0 <= j < |pre| ==> pre[j].id != id
    requires forall j :: 0 <= j < |post| ==> post[j].id != id
    ensures Unmap(pre + [a, b] + post, id) == Unmapped(pre + [b] + post, [a])
  {
    var active := pre + [a, b] + post;
    var L := |active|;
    var p := |pre|;
    UnmapSkipUnmatched(active, L, 0, p, id, []);
    var bk := active[..p] + active[p + 1..L] + active[L - 1..];
    assert bk == pre + [b] + post + [post[|post| - 1]];
    forall j | p + 1 <= j < L ensures bk[j].id != id {
      if j < L - 1 {
        assert bk[j] == post[j - p - 1];
      }
    }
    assert active[p] == a;
    assert [] + [a] == [a];
    UnmapRestUnmatched(bk, L - 1, p + 1, id, [a]);
    assert bk[..L - 1] == pre + [b] + post;
  }

  /**
   * Two neighbouring mappings with the id at the end of the list: the first is
   * removed and sent; the loop then reads the stale copy of the second in the
   * last slot, sends it too, and slicing past the shortened list panics.
   */
  lemma UnmapAdjacentAtEndPanics(pre: seq<MapInfo>, a: MapInfo, b: MapInfo, id: int)
    requires a.id == id && b.id == id
    requires forall j :: 0 <= j < |pre| ==> pre[j].id != id
    ensures Unmap(pre + [a, b], id) == SlicePanic([a, b])
  {
    var active := pre + [a, b];
    var L := |active|;
    var p := |pre|;
    UnmapSkipUnmatched(active, L, 0, p, id, []);
    var bk := active[..p] + active[p + 1..L] + active[L - 1..];
    assert bk == pre + [b, b];
  }
}
