/**
 * The console commands of `main` that change its state: `proxy` adds a
 * mapping with the current id, `unmap` removes mappings by id and sends them to
 * the terminator, `quit` fires the killswitch.
 */
module Console {
  import opened Common
  import opened Text
  import opened Access
  import opened Termination
  import opened Registry

  /** What `unmap <id>` reports. */
  datatype UnmapReply =
    | NoIdSpecified        // the id slot is empty
    | InvalidId            // the id is not a number
    | IdNotFound
    | Terminated(id: int)
    | Crashed              // the removal panicked: the whole program stops

  /** The terminator after receiving each of `sent`, in order. */
  function TargetAll(s: TermState, sent: seq<MapInfo>): TermState
    decreases |sent|
  {
    if |sent| == 0 then s else TargetAll(Targeted(s, sent[0]), sent[1..])
  }

  lemma {:induction false} TargetAllAppend(s: TermState, sent: seq<MapInfo>, m: MapInfo)
    ensures TargetAll(s, sent + [m]) == Targeted(TargetAll(s, sent), m)
    decreases |sent|
  {
    if |sent| > 0 {
      assert (sent + [m])[1..] == sent[1..] + [m];
      TargetAllAppend(Targeted(s, sent[0]), sent[1..], m);
    }
  }

  /** Sending mappings to the terminator keeps it valid, and keeps its live entries undelivered. */
  lemma {:induction false} TargetAllKeepsValid(s: TermState, sent: seq<MapInfo>)
    requires Valid(s)
    ensures Valid(TargetAll(s, sent))
    ensures LiveUndelivered(s) ==> LiveUndelivered(TargetAll(s, sent))
    decreases |sent|
  {
    if |sent| > 0 {
      TargetKeepsValid(s, sent[0]);
      TargetAllKeepsValid(Targeted(s, sent[0]), sent[1..]);
    }
  }

  /** The state `main` keeps between commands. */
  class Console {
    var activeMappings: seq<MapInfo>
    var counter: int
    var engines: seq<Engine>
    var stopped: bool
    const terminator: Terminator

    constructor (active: seq<MapInfo>, started: seq<Engine>, count: int, t: Terminator)
      ensures activeMappings == active && engines == started && counter == count
      ensures !stopped && terminator == t
    {
      activeMappings := active;
      engines := started;
      counter := count;
      stopped := false;
      terminator := t;
    }

    /**
     * `proxy [ip:]<port> <port> <proto>`: on success the new mapping gets the
     * current id, and the id counter is left as it is.
     */
    method Proxy(net: Net, args: seq<string>) returns (r: Result<MapInfo, ProxyError>)
      requires ScanlnShape(args)
      modifies this
      ensures r.Err? <==> ParseProxy(net, args).Err?
      ensures r.Err? ==> r.error == ParseProxy(net, args).error && unchanged(this)
      ensures r.Ok? ==>
        var q := ParseProxy(net, args).value;
        && r.value == MapInfo(old(counter), q.protocol, q.servPort, q.proxPort)
        && activeMappings == old(activeMappings) + [r.value]
        && engines == old(engines) + EnginesFor(q.protocol, q.host, r.value)
        && counter == old(counter) && stopped == old(stopped)
    {
      var parsed := ParseProxy(net, args);
      if parsed.Err? {
        return Err(parsed.error);
      }
      var q := parsed.value;
      var info := MapInfo(counter, q.protocol, q.servPort, q.proxPort);
      engines := engines + EnginesFor(q.protocol, q.host, info);
      activeMappings := activeMappings + [info];
      return Ok(info);
    }

    /**
     * `unmap <id>`: every mapping the loop removes is sent to the terminator
     * first; a panic in the loop stops the program.
     */
    method Unmap(word: string) returns (reply: UnmapReply)
      requires !stopped
      modifies this, terminator
      ensures word == [] ==> reply == NoIdSpecified
      ensures word != [] && Atoi(word).None? ==> reply == InvalidId
      ensures reply == NoIdSpecified || reply == InvalidId ==>
        unchanged(this) && terminator.State() == old(terminator.State())
      ensures word != [] && Atoi(word).Some? ==>
        var o := Registry.Unmap(old(activeMappings), Atoi(word).value);
        && terminator.State() == TargetAll(old(terminator.State()), o.sent)
        && (o.SlicePanic? ==> reply == Crashed && stopped)
        && (o.Unmapped? ==>
              && activeMappings == o.remaining && !stopped
              && reply == (if |o.sent| > 0 then Terminated(Atoi(word).value) else IdNotFound))
      ensures counter == old(counter) && engines == old(engines)
    {
      if word == [] {
        return NoIdSpecified;
      }
      var parsed := Atoi(word);
      if parsed.None? {
        return InvalidId;
      }
      var id := parsed.value;
      var out := UnmapScan(activeMappings, id);
      ghost var s0 := terminator.State();
      for k := 0 to |out.sent|
        modifies terminator
        invariant terminator.State() == TargetAll(s0, out.sent[..k])
      {
        TargetAllAppend(s0, out.sent[..k], out.sent[k]);
        assert out.sent[..k + 1] == out.sent[..k] + [out.sent[k]];
        terminator.Target(out.sent[k]);
      }
      assert out.sent[..|out.sent|] == out.sent;
      if out.SlicePanic? {
        stopped := true;
        return Crashed;
      }
      activeMappings := out.remaining;
      reply := if |out.sent| > 0 then Terminated(id) else IdNotFound;
    }

    /** `quit`: the killswitch, then the program ends. */
    method Quit()
      requires !stopped
      modifies this, terminator
      ensures stopped
      ensures exists order ::
        Enumerates(order, old(terminator.chanMap).Keys) && terminator.State() == Killed(old(terminator.State()), order)
      ensures activeMappings == old(activeMappings) && counter == old(counter) && engines == old(engines)
    {
      terminator.Killswitch();
      stopped := true;
    }
  }

  /**
   * Two successful `proxy` commands give both new mappings the same id, the
   * one after every id handed out at startup; `unmap` of that id then panics
   * after sending both to the terminator.
   */
  lemma TwoConsoleProxiesBreakUnmap(active: seq<MapInfo>, counter: int, a: MapInfo, b: MapInfo)
    requires forall j :: 0 <= j < |active| ==> active[j].id < counter
    requires a.id == counter && b.id == counter
    ensures Registry.Unmap(active + [a, b], counter) == SlicePanic([a, b])
  {
    UnmapAdjacentAtEndPanics(active, a, b, counter);
  }

  /** A single `proxy` command's mapping can be unmapped: it alone is removed and sent. */
  lemma OneConsoleProxyUnmaps(active: seq<MapInfo>, counter: int, a: MapInfo)
    requires forall j :: 0 <= j < |active| ==> active[j].id < counter
    requires a.id == counter
    ensures Registry.Unmap(active + [a], counter) == Unmapped(active, [a])
  {
    var all := active + [a];
    UnmapUniqueId(all, |active|, counter);
    assert all[..|active|] + all[|active| + 1..] == active;
  }

  /**
   * Unmapping a mapping whose listener is still registered signals that
   * listener's closer, frees its entry, and leaves the terminator serving.
   */
  lemma UnmapSignalsListener(s: TermState, active: seq<MapInfo>, p: nat)
    requires Valid(s) && LiveUndelivered(s) && !s.blocked
    requires p < |active| && active[p] in s.chanMap && s.chanMap[active[p]].Some?
    requires forall j :: 0 <= j < |active| && j != p ==> active[j].id != active[p].id
    ensures var o := Registry.Unmap(active, active[p].id);
      && o == Unmapped(active[..p] + active[p + 1..], [active[p]])
      && TargetAll(s, o.sent).signals == s.signals + [Signal(s.chanMap[active[p]].value, active[p])]
      && TargetAll(s, o.sent).chanMap == s.chanMap[active[p] := None]
      && !TargetAll(s, o.sent).blocked
  {
    UnmapUniqueId(active, p, active[p].id);
    TargetSignalsLiveEntry(s, active[p]);
    assert [active[p]][1..] == [];
  }

  /**
   * After an `unmap` has freed an entry, `quit` leaves the terminator stuck
   * once the killswitch reaches that entry, whatever order the map is visited in.
   */
  lemma QuitAfterUnmapBlocks(s: TermState, m: MapInfo, order: seq<MapInfo>)
    requires Valid(s) && LiveUndelivered(s) && !s.blocked
    requires m in s.chanMap && s.chanMap[m].Some?
    requires Enumerates(order, Targeted(s, m).chanMap.Keys)
    ensures Killed(Targeted(s, m), order).blocked
  {
    TargetSignalsLiveEntry(s, m);
    KillBlocksOnFreedEntry(Targeted(s, m), order, m);
  }
}
