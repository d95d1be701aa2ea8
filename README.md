# portproxy in Dafny

portproxy is a small port forwarder. It reads a configuration of port mappings. For each enabled
mapping it listens on an external port, over TCP, UDP or both, and relays traffic to an internal
host and port. A console lets the user add mappings (`proxy`), remove them (`unmap`) and stop
everything (`quit`).

The model covers the parts of `portproxy.go` that decide something:

- **Access control** (`access.dfy`):
  - `StripPort` and the first-match-wins decision of `IsIpValid` (denylist, "allow not explicitly
    denied", allowlist, own IP, loopback).
  - `Configuration.Defaults` (`config.dfy`).
  - Go's nil-IP semantics are written out. The IP parser itself is a parameter.
- **Chunk reassembly** (`framing.dfy`):
  - One message is read as 16384-byte reads concatenated until a short read. The TCP pipe, the UDP
    listener and the UDP reply manager each have their own error handling.
  - The relay loops write one reassembled message at a time.
  - Socket reads are a given sequence of read results.
- **TCP connections** (`tcp.dfy`): the decision `HandleConnectionTCP` takes (refuse, or dial the
  origin built from the host and port).
- **UDP sessions** (`udp.dfy`):
  - The `proxyDials` dispatch: one upstream socket per client address, opened only for admitted
    clients whose dial succeeds.
  - The listener loop, proved against a specification function.
  - The reply manager.
- **Termination** (`termination.dfy`):
  - The `Terminator` goroutine's `chanMap`, as a class whose methods are registration, `target`
    and `killswitch`.
  - A state-machine specification with the invariants those steps keep.
- **main's bookkeeping** (`registry.dfy`, `console.dfy`):
  - Startup allocation of ids and external ports.
  - Parsing of `proxy` arguments.
  - The `unmap` range loop over a slice it shrinks while iterating.
  - The console state as a class.

Four behaviours of the code are stated as lemmas rather than smoothed over:

- A `proxy` command does not increment the id counter, so two console mappings share an id.
  Unmapping that id then panics in the slice expression (`Console.TwoConsoleProxiesBreakUnmap`).
- The `chanMap` is keyed by the whole `MapInfo`. A second registration for the same mapping orphans
  the first closer (`Termination.SharedKeyOrphansEarlier`).
- A target step sets the entry it served to nil (portproxy.go:309). A later killswitch sends on
  that nil channel (portproxy.go:303-304), and a send on a nil channel blocks forever
  (`Console.QuitAfterUnmapBlocks`). A send on an entry whose closer was already signalled, but which
  was not freed, blocks as well: that closer returned after its one receive (portproxy.go:144).
  `Termination.KillOne` makes both cases block.
- A disabled mapping still uses up an automatic port. `portsAssigned` advances at
  portproxy.go:399-405, before the `Disabled` check at portproxy.go:407-410
  (`Registry.DisabledMappingKeepsItsPort`, `Registry.AutoPortsFromPositions`).

## Model

| member | source | states |
|---|---|---|
| Common.EnginesFor | portproxy.go:412-422 | "tcp" starts a TCP listener, "udp" a UDP listener, "both" one of each, all for the mapping's host and info; any other protocol starts none |
| Text.Split | portproxy.go:463 | `strings.Split` returns at least one piece, and no piece contains the separator |
| Text.JoinSplit | portproxy.go:463 | joining the pieces with the separator gives the input back |
| Text.Atoi | portproxy.go:491-495 | `strconv.Atoi` accepts only non-empty text whose value is in the int64 range; a negative value starts with '-'; text holding a ':' is refused |
| Text.AtoiFormatInt | portproxy.go:491-495 | `strconv.Atoi` reads back every int64 written in decimal |
| Access.StripPort | portproxy.go:108-115 | the reverse, split, drop-first and join of the code; its meaning is stated by Access.StripPortBeforeLastColon and Access.StripPortOfHostPort |
| Access.StripPortBeforeLastColon | portproxy.go:108-115 | StripPort gives exactly the text before the last ':', or "" when there is no ':' |
| Access.StripPortOfHostPort | portproxy.go:108-115 | stripping "host:port" gives back the host, even when the host contains colons |
| Access.Listed | portproxy.go:119-123 | the early-return scan of a list against the remote; its meaning is stated by Access.ListedMeaning |
| Access.IsIpValid | portproxy.go:117-139 | the access decision of the code, rule by rule; its meaning is stated by Access.DenylistVeto, Access.DecisionOrder and Access.AdmittedByARule |
| Access.ListedMeaning | portproxy.go:119-123 | the early-return scan finds a match iff some list entry parses to an IP Equal to the remote |
| Access.DenylistVeto | portproxy.go:119-123 | a denylisted remote is refused whatever else the configuration says |
| Access.DecisionOrder | portproxy.go:124-138 | after the denylist the rules decide in order: allow-not-denied, allowlist, own IP (its flag), loopback (its flag); otherwise refused |
| Access.AdmittedByARule | portproxy.go:117-139 | an admitted remote is not denylisted and was admitted by one of the rules |
| Access.DecisionIgnoresPort | portproxy.go:117-118 | two addresses with the same host part get the same decision |
| Access.UnparsedRemoteMatchesUnparsedEntry | portproxy.go:118-131 | an unparseable remote is admitted by an unparseable allowlist entry, since nil IPs are Equal |
| Config.Defaults | portproxy.go:71-82 | the default configuration; what it admits is stated by Access.DefaultsAdmitOnlyOwnIp |
| Access.DefaultsAdmitOnlyOwnIp | portproxy.go:71-82 | under the default configuration exactly the remotes matching the own IP are admitted |
| Framing.Reassemble | portproxy.go:181-196 | the message one read loop assembles from the reads starting at a given one; its meaning is stated by Framing.ReassembleMeaning and Framing.ReassembleChunked |
| Framing.ReassembleMeaning | portproxy.go:181-196 | a message is the bytes of a run of full chunks ended by a short read, with the sender of the last read; a stop comes at the first read whose error ends the loop |
| Framing.ReadMessage | portproxy.go:242-257 | the read loop returns the frame the reassembly specification gives for the remaining reads |
| Framing.ReassembleChunked | portproxy.go:181-196 | a message sent as full chunks plus a short tail is reassembled exactly, whatever reads follow |
| Framing.FullChunkMergesWithNext | portproxy.go:192-195 | a message of exactly 16384 bytes is merged with the next message |
| Framing.Relayed | portproxy.go:177-199 | the writes of the pipe loop over the reads starting at a given one, and whether it stopped; its meaning is stated by Framing.RelayKeepsBytes, Framing.RelayEnds and Framing.RelayPreservesBytes |
| Framing.RelayKeepsBytes | portproxy.go:177-199 | from any read onward, the relay's writes concatenate to the kept bytes of the reads it consumes |
| Framing.RelayEnds | portproxy.go:181-190 | the relay stops iff reassembly stops at the read it reached; otherwise reassembly there is still waiting for reads |
| Framing.RelayPreservesBytes | portproxy.go:177-199 | the writes of a relay concatenate to the kept bytes of the reads consumed; it ends by stopping or by waiting for more reads |
| Framing.RelayNext | portproxy.go:180-198 | one pass of the pipe loop either ends the relay or writes one message, and the relay specification continues from the next unread result |
| Framing.Relay | portproxy.go:177-199 | the pipe loop writes what the relay specification gives |
| TcpConnections.Origin | portproxy.go:168-172 | the "host:port" address the connection is dialled to; its host part is stated by TcpConnections.OriginHost |
| TcpConnections.OriginHost | portproxy.go:168-172 | the dialled origin's host is the mapping's host, or 127.0.0.1 when it has none |
| TcpConnections.HandleConnection | portproxy.go:201-214 | what happens to one accepted connection; stated by TcpConnections.RefusedNeverDialled |
| TcpConnections.RefusedNeverDialled | portproxy.go:201-214 | a connection is dropped without a dial iff access control refuses it; otherwise the dial goes to the origin |
| UdpSessions.Dispatch | portproxy.go:258-271 | what one datagram does to the session table; stated by UdpSessions.ExistingSessionReused, UdpSessions.NewClientAdmission and UdpSessions.DispatchKeepsConsistent |
| UdpSessions.ExistingSessionReused | portproxy.go:258-271 | a known client's message goes to its socket without an access check, and nothing else changes |
| UdpSessions.NewClientAdmission | portproxy.go:258-270 | a new client gets a session iff it is admitted and the dial succeeds; otherwise its message is dropped and nothing changes |
| UdpSessions.DispatchKeepsConsistent | portproxy.go:258-270 | each dispatch keeps the table consistent: admitted keys, distinct sockets, sessions matching the table, writes routed to table sockets |
| UdpSessions.HandleMessage | portproxy.go:258-271 | handling one datagram performs the dispatch the specification gives |
| UdpSessions.Served | portproxy.go:237-272 | the listener loop over the reads starting at a given one; stated by UdpSessions.ServedPreserves, UdpSessions.ServedKeepsConsistent and UdpSessions.Listen |
| UdpSessions.ServedPreserves | portproxy.go:237-272 | any property every dispatch keeps still holds when the listener loop ends |
| UdpSessions.ServedKeepsConsistent | portproxy.go:237-272 | the listener loop keeps the table consistent over any sequence of reads |
| UdpSessions.OtherPortGetsOwnSession | portproxy.go:258-267 | the same host on another port gets its own upstream socket |
| UdpSessions.ServeNext | portproxy.go:242-271 | one pass of the listener loop either ends it or handles one message, and the loop specification continues from the next unread result |
| UdpSessions.Listen | portproxy.go:237-272 | the listener loop ends in the state the specification gives, and that state is consistent |
| UdpSessions.ReplyManager | portproxy.go:275-294 | every reply is one relayed message, sent to the session's client, in order |
| Termination.Registered | portproxy.go:300-301 | the registration step; stated by Termination.RegisterKeepsValid and Termination.SharedKeyOrphansEarlier |
| Termination.Targeted | portproxy.go:306-310 | the target step; stated by Termination.TargetKeepsValid, Termination.TargetSignalsLiveEntry, Termination.TargetTwiceIsOnce and Termination.TargetLeavesOthers |
| Termination.KillOne | portproxy.go:303-304 | one send of the killswitch; stated through Termination.Killed |
| Termination.Killed | portproxy.go:302-305 | the killswitch in a given key order; stated by Termination.KillKeepsValid, Termination.KillSignalsEveryLiveEntry and Termination.KillBlocksOnFreedEntry |
| Termination.RegisterKeepsValid | portproxy.go:300-301 | registration keeps the terminator's invariant, and keeps live entries undelivered |
| Termination.TargetKeepsValid | portproxy.go:306-310 | a target message keeps the invariant |
| Termination.KillKeepsValid | portproxy.go:302-305 | the killswitch keeps the invariant and leaves the table unchanged |
| Termination.TargetSignalsLiveEntry | portproxy.go:306-310 | targeting a live entry signals its closer once and frees the entry |
| Termination.TargetTwiceIsOnce | portproxy.go:306-310 | targeting the same mapping twice has the effect of once |
| Termination.TargetLeavesOthers | portproxy.go:306-310 | targeting one mapping leaves every other entry alone and signals only that mapping |
| Termination.OrphanStaysOrphaned | portproxy.go:300-310 | a closer no entry refers to is never signalled by registration or targeting |
| Termination.OrphanSurvivesKill | portproxy.go:302-305 | the killswitch does not reach an orphaned closer either |
| Termination.SharedKeyOrphansEarlier | portproxy.go:300-301 | two registrations under one MapInfo orphan the first; targeting signals only the second |
| Termination.KillSignalsEveryLiveEntry | portproxy.go:302-305 | with every entry live, the killswitch signals each entry's closer once and does not block |
| Termination.KillBlocksOnFreedEntry | portproxy.go:302-309 | the killswitch blocks forever once it reaches an entry a target has freed |
| Termination.Terminator.constructor | portproxy.go:296-297 | the terminator starts in the initial state: an empty table, nothing signalled, not blocked |
| Termination.Terminator.Register | portproxy.go:300-301 | the method performs the registration step of the specification |
| Termination.Terminator.Target | portproxy.go:306-310 | the method performs the target step of the specification |
| Termination.Terminator.KillEntry | portproxy.go:303-304 | one send of the killswitch performs the specification's step for that key |
| Termination.Terminator.Killswitch | portproxy.go:302-305 | the method visits the table's keys in some order and ends in the state the specification gives for that order |
| Registry.ExternalPort | portproxy.go:399-405 | a declared mapping's external port; stated by Registry.AutoPortsFromPositions, Registry.AutoPortsIncrease and Registry.ManualPortsFromOffsets |
| Registry.Active | portproxy.go:398-425 | the active mappings after startup; stated by Registry.Startup, Registry.StartupIds and the port lemmas |
| Registry.Engines | portproxy.go:412-422 | the listeners started at startup; stated by Registry.Startup |
| Registry.EnabledIndices | portproxy.go:398-410 | the enabled mappings, in declaration order, each once |
| Registry.Startup | portproxy.go:393-426 | startup succeeds iff every enabled mapping has a valid protocol; it yields the specified mappings and listeners, and the counter equals the number of mappings; otherwise it names the first bad enabled mapping |
| Registry.MappingInfo | portproxy.go:399-406 | a mapping's info is the one the startup specification gives; the automatic-port count advances by one exactly when ports are automatic |
| Registry.StartupStep | portproxy.go:407-424 | a disabled mapping adds nothing; an enabled one with a valid protocol adds its info and listeners and one to the counter; an enabled one without a valid protocol is the first bad one, since every enabled mapping before it was valid |
| Registry.StartupIds | portproxy.go:406-424 | startup ids are 0, 1, 2, … in order |
| Registry.AutoPortsIncrease | portproxy.go:399-405 | automatic ports are strictly increasing and within start + number of mappings |
| Registry.AutoPortsFromPositions | portproxy.go:399-406 | with automatic ports, the j-th active mapping listens on the range start plus its position among all declared mappings, disabled ones included |
| Registry.ManualPortsFromOffsets | portproxy.go:399-402 | manual ports are the range start plus the mapping's offset |
| Registry.DisabledMappingKeepsItsPort | portproxy.go:399-410 | a disabled mapping still consumes its automatic port |
| Registry.ParseSource | portproxy.go:463-490 | an accepted argument has at most one ':'; its port is Atoi of the text after the ':' (or of the whole text); the host is absent iff there is no ':' or nothing before it; a parsed host contains no ':', parses as an IP, and is what StripPort gives for the argument |
| Registry.ParseProxy | portproxy.go:459-508 | a wrong argument count is reported iff there are not three words; on success the protocol is valid and the destination port is the parsed second argument |
| Registry.ProxyRoundTripWithHost | portproxy.go:463-496 | "host:port port proto" is read back as written |
| Registry.ProxyRoundTripPortOnly | portproxy.go:468-478 | "port" or ":port" means the default host |
| Registry.ProxyCheckOrder | portproxy.go:480-507 | a bad IP is reported before the ports are read; a bad protocol only after both ports are read |
| Registry.ProxyRejectsTwoColons | portproxy.go:463-467 | a first argument with two colons is refused |
| Registry.UnmapFrom | portproxy.go:526-533 | the unmap loop from a given index over the shared backing array; stated by Registry.UnmapScan |
| Registry.Unmap | portproxy.go:526-533 | the whole unmap loop; stated by Registry.UnmapSendsOnlyMatches, Registry.UnmapUnknownId, Registry.UnmapUniqueId, Registry.UnmapSkipsShiftedNeighbour and Registry.UnmapAdjacentAtEndPanics |
| Registry.UnmapScan | portproxy.go:526-533 | the range loop, including the shifted slice it reads, gives what the unmap specification gives |
| Registry.UnmapSendsOnlyMatches | portproxy.go:527-532 | only mappings with the id are sent; every sent mapping leaves the slice |
| Registry.UnmapUnknownId | portproxy.go:526-538 | an unknown id changes nothing and sends nothing |
| Registry.UnmapUniqueId | portproxy.go:526-538 | a unique id removes exactly that mapping and sends it |
| Registry.UnmapSkipsShiftedNeighbour | portproxy.go:527-532 | of two adjacent matches before other mappings, only the first is removed: the second shifts under the loop index |
| Registry.UnmapAdjacentAtEndPanics | portproxy.go:527-532 | two adjacent matches at the end panic after both were sent |
| Console.TargetAllKeepsValid | portproxy.go:529 | sending any mappings to the terminator keeps its invariant |
| Console.Console.Proxy | portproxy.go:496-510 | on success, appends the mapping with the current id and starts its listeners, leaving the counter unchanged; on error, changes nothing |
| Console.Console.Unmap | portproxy.go:516-538 | reports a missing or invalid id and then changes nothing, so the console takes the next command; otherwise sends what the unmap specification sends, then removes those mappings or crashes |
| Console.Console.Quit | portproxy.go:443-447 | fires the killswitch over the current table, then stops |
| Console.TwoConsoleProxiesBreakUnmap | portproxy.go:496-532 | two console mappings share an id, and unmapping it panics |
| Console.OneConsoleProxyUnmaps | portproxy.go:496-538 | a single console mapping unmaps cleanly |
| Console.UnmapSignalsListener | portproxy.go:526-531 | unmapping a registered mapping signals its closer and frees its entry |
| Console.QuitAfterUnmapBlocks | portproxy.go:302-309 | after an unmap, quit blocks the terminator in any visiting order |

## Left out

- `GetCurrentIp` (portproxy.go:84-106): an HTTP request. The host's own IP is a parameter of the access decision.
- Configuration file loading (portproxy.go:346-387): opening files, reading them and `json.Unmarshal` are I/O. The configuration is a parameter.
- Sockets: listen, accept, dial and write are not modelled.
  - Reads are a given sequence of read results.
  - Dial success is a parameter (`dialOk`).
  - Writes are recorded as values.
- Goroutines, channels and `select` are not modelled as concurrency.
  - The `CloseOnTerminate` handshake is one registration step.
  - How registrations interleave with console commands is left to the caller of the terminator methods.
- Actually closing a socket when its closer is signalled is not modelled. The model records which closers were signalled.
- The TCP accept loop (portproxy.go:159-173) is not modelled beyond the origin it builds. The model covers each connection's handling.
- Listener setup failures (portproxy.go:153-157, 221-236) are not modelled: they only log and return.
- The `help`, `mappings` and `globalize` commands, `init`'s help text, logging, printing, `Scanln` itself and `time.Sleep` are not modelled.
  - Console input arrives as the four argument words `Scanln` fills.
- StripPort works on runes. The model works on characters and does not model how invalid UTF-8 is converted.
- The IP parser, IP equality and the loopback test are parameters. Bracketed IPv6 "[ip]:port" addresses follow from that parser.
- `PortRange.End` is never read by the code, so no port is checked against it.
- Integers are unbounded.
  - Ports are not checked to be valid port numbers, just as the code does not check them.
  - The id counter never overflows.
- Framing.Relayed: its own contract only bounds the reads it consumes. Its meaning is stated in Framing.RelayKeepsBytes, Framing.RelayEnds and Framing.RelayPreservesBytes.
- Registry.WordCount: its own contract only bounds the count. How it relates to `Scanln`'s argument shape is stated by the lemmas around it.
- UdpSessions.Listen: the new session's registration with the terminator and the start of its reply manager are not part of the listener state. They are modelled separately, in Termination and UdpSessions.ReplyManager.
- A fatal exit on an invalid startup protocol (portproxy.go:420-421) is the `InvalidProtocol` outcome. Listeners started for earlier mappings are in neither outcome.
- Go slices are values in the model. The exception is the `unmap` loop, whose shared backing array is written out.
