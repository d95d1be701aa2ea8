/**
 * The termination table (`Terminator`) and the closers that wait on it
 * (`CloseOnTerminate`).
 *
 * Every listener and every dialled connection registers a waiter channel under
 * its mapping's `MapInfo`; the terminator keeps the latest channel per key.  A
 * targeted termination sends on the key's channel and frees the entry (sets it
 * to nil); the killswitch sends on every entry, in Go's unspecified map order.
 *
 * A waiter channel is named by a `Handle`.  Its closer receives exactly one
 * signal and then exits, so a second send on its channel, like a send on a nil
 * channel, never completes: the terminator is then `blocked` for good and
 * serves nothing more.
 */
module Termination {
  import opened Common

  /** A waiter channel, numbered in the order the closers created them. */
  type Handle = nat

  /** A signal sent to a closer, carrying the mapping it was sent for. */
  datatype Signal = Signal(handle: Handle, info: MapInfo)

  /**
   * The terminator's state: `chanMap` (None for a freed, nil, entry), the
   * signals sent so far, the closers that have received theirs, whether the
   * terminator is stuck on a send, and the next fresh handle.
   */
  datatype TermState = TermState(
    chanMap: map<MapInfo, Option<Handle>>,
    signals: seq<Signal>,
    delivered: set<Handle>,
    blocked: bool,
    nextHandle: nat)

  const Initial: TermState := TermState(map[], [], {}, false, 0)

  /** The handles signalled so far. */
  function SignalledHandles(signals: seq<Signal>): set<Handle> {
    set i | 0 <= i < |signals| :: signals[i].handle
  }

  /** The state every sequence of operations keeps. */
  ghost predicate Valid(s: TermState) {
    && (forall k :: k in s.chanMap && s.chanMap[k].Some? ==> s.chanMap[k].value < s.nextHandle)
    && (forall k1, k2 :: k1 in s.chanMap && k2 in s.chanMap && k1 != k2 && s.chanMap[k1].Some? ==>
          s.chanMap[k1] != s.chanMap[k2])
    && (forall h :: h in s.delivered ==> h < s.nextHandle)
    && s.delivered == SignalledHandles(s.signals)
    && (forall i, j :: 0 <= i < j < |s.signals| ==> s.signals[i].handle != s.signals[j].handle)
  }

  /** Before the killswitch: no live entry names a closer that has already been signalled. */
  ghost predicate LiveUndelivered(s: TermState) {
    forall k :: k in s.chanMap && s.chanMap[k].Some? ==> s.chanMap[k].value !in s.delivered
  }

  /** Deliver a signal for `info` to the closer `h`. */
  function Deliver(s: TermState, h: Handle, info: MapInfo): TermState {
    s.(signals := s.signals + [Signal(h, info)], delivered := s.delivered + {h})
  }

  /**
   * A closer registers: it creates its channel (the next handle) and, unless
   * the terminator is stuck, the channel replaces whatever `chanMap` held for
   * its key.
   */
  function Registered(s: TermState, info: MapInfo): TermState {
    if s.blocked then s.(nextHandle := s.nextHandle + 1)
    else s.(chanMap := s.chanMap[info := Some(s.nextHandle)], nextHandle := s.nextHandle + 1)
  }

  /**
   * A targeted termination: nothing for a missing or freed entry; otherwise a
   * send on the entry's channel, which then is freed.  A send to a closer that
   * was already signalled never completes.
   */
  function Targeted(s: TermState, m: MapInfo): TermState {
    if s.blocked || m !in s.chanMap || s.chanMap[m].None? then s
    else if s.chanMap[m].value in s.delivered then s.(blocked := true)
    else Deliver(s, s.chanMap[m].value, m).(chanMap := s.chanMap[m := None])
  }

  /** One step of the killswitch: a send on the channel of `k`, which is not freed. */
  function KillOne(s: TermState, k: MapInfo): TermState {
    if s.blocked || k !in s.chanMap then s
    else if s.chanMap[k].None? || s.chanMap[k].value in s.delivered then s.(blocked := true)
    else Deliver(s, s.chanMap[k].value, k)
  }

  /** The killswitch, visiting the keys in `order`. */
  function Killed(s: TermState, order: seq<MapInfo>): TermState
    decreases |order|
  {
    if |order| == 0 then s else Killed(KillOne(s, order[0]), order[1..])
  }

  /** `order` lists every key of `keys` once: a possible iteration order of a Go map. */
  ghost predicate Enumerates(order: seq<MapInfo>, keys: set<MapInfo>) {
    && (forall i :: 0 <= i < |order| ==> order[i] in keys)
    && (forall k :: k in keys ==> k in order)
    && (forall i, j :: 0 <= i < j < |order| ==> order[i] != order[j])
  }

  ghost function AnOrder(keys: set<MapInfo>): (order: seq<MapInfo>)
    ensures Enumerates(order, keys)
    decreases keys
  {
    if keys == {} then []
    else
      var k :| k in keys;
      [k] + AnOrder(keys - {k})
  }

  lemma SignalledAppend(signals: seq<Signal>, sig: Signal)
    ensures SignalledHandles(signals + [sig]) == SignalledHandles(signals) + {sig.handle}
  {
    var t := signals + [sig];
    assert t[|signals|] == sig;
    forall h | h in SignalledHandles(signals) ensures h in SignalledHandles(t) {
      var i :| 0 <= i < |signals| && signals[i].handle == h;
      assert t[i] == signals[i];
    }
  }

  lemma DeliverKeepsValid(s: TermState, h: Handle, info: MapInfo)
    requires Valid(s) && h < s.nextHandle && h !in s.delivered
    ensures Valid(Deliver(s, h, info))
  {
    SignalledAppend(s.signals, Signal(h, info));
    var t := s.signals + [Signal(h, info)];
    forall i, j | 0 <= i < j < |t| ensures t[i].handle != t[j].handle {
      if j == |s.signals| {
        assert t[i].handle in SignalledHandles(s.signals);
      }
    }
  }

  /** Registration keeps the state valid, and keeps live entries undelivered. */
  lemma RegisterKeepsValid(s: TermState, info: MapInfo)
    requires Valid(s)
    ensures Valid(Registered(s, info))
    ensures LiveUndelivered(s) ==> LiveUndelivered(Registered(s, info))
  {
  }

  /** A targeted termination keeps the state valid, and keeps live entries undelivered. */
  lemma TargetKeepsValid(s: TermState, m: MapInfo)
    requires Valid(s)
    ensures Valid(Targeted(s, m))
    ensures LiveUndelivered(s) ==> LiveUndelivered(Targeted(s, m))
  {
    if !s.blocked && m in s.chanMap && s.chanMap[m].Some? && s.chanMap[m].value !in s.delivered {
      var h := s.chanMap[m].value;
      DeliverKeepsValid(s, h, m);
      var t := Deliver(s, h, m).(chanMap := s.chanMap[m := None]);
      forall k | k in t.chanMap && t.chanMap[k].Some? ensures t.chanMap[k].value !in t.delivered || !LiveUndelivered(s) {
        assert k != m && s.chanMap[k] != s.chanMap[m];
      }
    }
  }

  /** The killswitch keeps the state valid, whatever the order. */
  lemma {:induction false} KillKeepsValid(s: TermState, order: seq<MapInfo>)
    requires Valid(s)
    ensures Valid(Killed(s, order))
    ensures Killed(s, order).chanMap == s.chanMap && Killed(s, order).nextHandle == s.nextHandle
    decreases |order|
  {
    if |order| > 0 {
      var k := order[0];
      if !s.blocked && k in s.chanMap && s.chanMap[k].Some? && s.chanMap[k].value !in s.delivered {
        DeliverKeepsValid(s, s.chanMap[k].value, k);
      }
      KillKeepsValid(KillOne(s, k), order[1..]);
    }
  }

  /**
   * Targeting a live entry before the killswitch signals its closer once and
   * frees the entry; the terminator does not get stuck.
   */
  lemma TargetSignalsLiveEntry(s: TermState, m: MapInfo)
    requires Valid(s) && LiveUndelivered(s) && !s.blocked
    requires m in s.chanMap && s.chanMap[m].Some?
    ensures var t := Targeted(s, m);
      && !t.blocked
      && t.signals == s.signals + [Signal(s.chanMap[m].value, m)]
      && t.chanMap == s.chanMap[m := None]
  {
  }

  /** Targeting the same mapping again does nothing more: the entry was freed. */
  lemma TargetTwiceIsOnce(s: TermState, m: MapInfo)
    ensures Targeted(Targeted(s, m), m) == Targeted(s, m)
  {
  }

  /** A targeted termination signals no other mapping's closer and leaves other entries alone. */
  lemma TargetLeavesOthers(s: TermState, m: MapInfo, k: MapInfo)
    requires k != m
    ensures var t := Targeted(s, m);
      && (k in t.chanMap <==> k in s.chanMap)
      && (k in s.chanMap ==> t.chanMap[k] == s.chanMap[k])
      && (forall i :: |s.signals| <= i < |t.signals| ==> t.signals[i].info == m)
  {
  }

  /** A closer whose entry was overwritten: registered, never signalled, and no longer in the table. */
  ghost predicate Orphaned(s: TermState, h: Handle) {
    && h < s.nextHandle
    && h !in s.delivered
    && (forall k :: k in s.chanMap ==> s.chanMap[k] != Some(h))
  }

  /** An orphaned closer stays orphaned through registrations and targeted terminations. */
  lemma OrphanStaysOrphaned(s: TermState, h: Handle, info: MapInfo, m: MapInfo)
    requires Orphaned(s, h)
    ensures Orphaned(Registered(s, info), h)
    ensures Orphaned(Targeted(s, m), h)
  {
  }

  /** The killswitch never reaches an orphaned closer either. */
  lemma {:induction false} OrphanSurvivesKill(s: TermState, h: Handle, order: seq<MapInfo>)
    requires Orphaned(s, h)
    ensures Orphaned(Killed(s, order), h)
    decreases |order|
  {
    if |order| > 0 {
      OrphanSurvivesKill(KillOne(s, order[0]), h, order[1..]);
    }
  }

  /**
   * Two closers registering under the same key — a listener and a connection
   * it dialled, or the TCP and UDP listeners of a "both" mapping — leave the
   * first one orphaned: targeting the key signals only the second.
   */
  lemma SharedKeyOrphansEarlier(s: TermState, info: MapInfo)
    requires Valid(s) && LiveUndelivered(s) && !s.blocked
    ensures var first := s.nextHandle;
      var s2 := Registered(Registered(s, info), info);
      && Orphaned(s2, first)
      && Targeted(s2, info).signals == s2.signals + [Signal(first + 1, info)]
      && Orphaned(Targeted(s2, info), first)
  {
    var s1 := Registered(s, info);
    RegisterKeepsValid(s, info);
    RegisterKeepsValid(s1, info);
    var s2 := Registered(s1, info);
    assert Orphaned(s2, s.nextHandle);
    OrphanStaysOrphaned(s2, s.nextHandle, info, info);
  }

  /**
   * Before any entry is freed, the killswitch signals the closer of every
   * entry, each once, and does not get stuck.
   */
  lemma {:induction false} KillSignalsEveryLiveEntry(s: TermState, order: seq<MapInfo>)
    requires Valid(s) && !s.blocked
    requires forall i :: 0 <= i < |order| ==>
      order[i] in s.chanMap && s.chanMap[order[i]].Some? && s.chanMap[order[i]].value !in s.delivered
    requires forall i, j :: 0 <= i < j < |order| ==> order[i] != order[j]
    ensures var t := Killed(s, order);
      && !t.blocked
      && |t.signals| == |s.signals| + |order|
      && (forall i :: 0 <= i < |order| ==> s.chanMap[order[i]].value in t.delivered)
    decreases |order|
  {
    if |order| > 0 {
      var k := order[0];
      var h := s.chanMap[k].value;
      DeliverKeepsValid(s, h, k);
      var s1 := KillOne(s, k);
      assert s1 == Deliver(s, h, k);
      forall i | 0 <= i < |order[1..]|
        ensures s1.chanMap[order[1..][i]].value !in s1.delivered
      {
        assert order[1..][i] == order[i + 1] != k;
      }
      KillSignalsEveryLiveEntry(s1, order[1..]);
      KillKeepsValid(s1, order[1..]);
      forall i | 0 <= i < |order| ensures s.chanMap[order[i]].value in Killed(s, order).delivered {
        if i > 0 {
          assert order[i] == order[1..][i - 1];
        } else {
          DeliveredGrows(s1, order[1..]);
        }
      }
    }
  }

  lemma {:induction false} DeliveredGrows(s: TermState, order: seq<MapInfo>)
    ensures s.delivered <= Killed(s, order).delivered
    decreases |order|
  {
    if |order| > 0 {
      DeliveredGrows(KillOne(s, order[0]), order[1..]);
    }
  }

  /**
   * Once an entry has been freed by a targeted termination, the killswitch
   * gets stuck when it reaches that entry, whatever came before it.
   */
  lemma {:induction false} KillBlocksOnFreedEntry(s: TermState, order: seq<MapInfo>, m: MapInfo)
    requires m in s.chanMap && s.chanMap[m].None?
    requires m in order
    ensures Killed(s, order).blocked
    decreases |order|
  {
    if order[0] == m {
      BlockedStays(KillOne(s, m), order[1..]);
    } else {
      assert m in order[1..];
      KillBlocksOnFreedEntry(KillOne(s, order[0]), order[1..], m);
    }
  }

  lemma {:induction false} BlockedStays(s: TermState, order: seq<MapInfo>)
    requires s.blocked
    ensures Killed(s, order) == s
    decreases |order|
  {
    if |order| > 0 {
      BlockedStays(KillOne(s, order[0]), order[1..]);
    }
  }

  lemma {:induction false} KilledAppend(s: TermState, order: seq<MapInfo>, k: MapInfo)
    ensures Killed(s, order + [k]) == KillOne(Killed(s, order), k)
    decreases |order|
  {
    if |order| > 0 {
      assert (order + [k])[1..] == order[1..] + [k];
      KilledAppend(KillOne(s, order[0]), order[1..], k);
    }
  }

  /** The terminator task, holding `chanMap` and the state of the closers waiting on it. */
  class Terminator {
    var chanMap: map<MapInfo, Option<Handle>>
    var signals: seq<Signal>
    var delivered: set<Handle>
    var blocked: bool
    var nextHandle: nat

    function State(): TermState
      reads this
    {
      TermState(chanMap, signals, delivered, blocked, nextHandle)
    }

    constructor ()
      ensures State() == Initial
    {
      chanMap := map[];
      signals := [];
      delivered := {};
      blocked := false;
      nextHandle := 0;
    }

    /** `CloseOnTerminate` handing its channel and key to the terminator. */
    method Register(info: MapInfo) returns (h: Handle)
      modifies this
      ensures h == old(nextHandle)
      ensures State() == Registered(old(State()), info)
    {
      h := nextHandle;
      nextHandle := nextHandle + 1;
      if !blocked {
        chanMap := chanMap[info := Some(h)];
      }
    }

    /** The terminator receiving `m` on its target channel. */
    method Target(m: MapInfo)
      modifies this
      ensures State() == Targeted(old(State()), m)
    {
      if blocked || m !in chanMap || chanMap[m].None? {
        return;
      }
      var ch := chanMap[m].value;
      if ch in delivered {
        blocked := true;
        return;
      }
      signals := signals + [Signal(ch, m)];
      delivered := delivered + {ch};
      chanMap := chanMap[m := None];
    }

    /** One send of the killswitch, on the channel of `k`, a key still to visit. */
    method KillEntry(k: MapInfo)
      requires !blocked && k in chanMap
      modifies this
      ensures State() == KillOne(old(State()), k)
    {
      var ch := chanMap[k];
      if ch.None? || ch.value in delivered {
        blocked := true;
      } else {
        signals := signals + [Signal(ch.value, k)];
        delivered := delivered + {ch.value};
      }
    }

    /** The terminator receiving on the killswitch: a send on every entry, in some order. */
    method Killswitch()
      modifies this
      ensures exists order :: Enumerates(order, old(chanMap).Keys) && State() == Killed(old(State()), order)
    {
      ghost var s0 := State();
      ghost var done: seq<MapInfo> := [];
      var remaining := chanMap.Keys;
      while remaining != {} && !blocked
        invariant Visiting(done, remaining, s0.chanMap.Keys)
        invariant chanMap == s0.chanMap
        invariant State() == Killed(s0, done)
        decreases |remaining|
      {
        var k :| k in remaining;
        VisitOne(done, remaining, s0.chanMap.Keys, k);
        KilledAppend(s0, done, k);
        KillEntry(k);
        remaining := remaining - {k};
        done := done + [k];
      }
      ghost var rest := AnOrder(remaining);
      BlockedOrEmpty(State(), rest);
      KilledConcat(s0, done, rest);
      EnumeratesConcat(done, rest, remaining, s0.chanMap.Keys);
    }
  }

  /** Part way through the killswitch: `done` (distinct keys) and `remaining` split `keys`. */
  ghost predicate Visiting(done: seq<MapInfo>, remaining: set<MapInfo>, keys: set<MapInfo>) {
    && remaining <= keys
    && (forall i :: 0 <= i < |done| ==> done[i] in keys && done[i] !in remaining)
    && (forall k :: k in keys ==> k in remaining || k in done)
    && (forall i, j :: 0 <= i < j < |done| ==> done[i] != done[j])
  }

  lemma VisitOne(done: seq<MapInfo>, remaining: set<MapInfo>, keys: set<MapInfo>, k: MapInfo)
    requires Visiting(done, remaining, keys) && k in remaining
    ensures Visiting(done + [k], remaining - {k}, keys)
  {
    var d := done + [k];
    forall i | 0 <= i < |d| ensures d[i] in keys && d[i] !in remaining - {k} {
      if i < |done| {
        assert d[i] == done[i];
      }
    }
    forall c | c in keys ensures c in remaining - {k} || c in d {
      if c in done {
        var i :| 0 <= i < |done| && done[i] == c;
        assert d[i] == c;
      }
    }
  }

  lemma EnumeratesConcat(done: seq<MapInfo>, rest: seq<MapInfo>, remaining: set<MapInfo>, keys: set<MapInfo>)
    requires Visiting(done, remaining, keys) && Enumerates(rest, remaining)
    ensures Enumerates(done + rest, keys)
  {
    var o := done + rest;
    forall k | k in keys ensures k in o {
      if k in remaining {
        var i :| 0 <= i < |rest| && rest[i] == k;
        assert o[|done| + i] == k;
      } else {
        var i :| 0 <= i < |done| && done[i] == k;
        assert o[i] == k;
      }
    }
    forall i, j | 0 <= i < j < |o| ensures o[i] != o[j] {
      if i < |done| && j >= |done| {
        assert o[j] == rest[j - |done|];
      }
    }
  }

  lemma BlockedOrEmpty(s: TermState, rest: seq<MapInfo>)
    requires s.blocked || rest == []
    ensures Killed(s, rest) == s
  {
    if s.blocked {
      BlockedStays(s, rest);
    }
  }

  lemma {:induction false} KilledConcat(s: TermState, a: seq<MapInfo>, b: seq<MapInfo>)
    ensures Killed(s, a + b) == Killed(Killed(s, a), b)
    decreases |a|
  {
    if |a| > 0 {
      assert (a + b)[1..] == a[1..] + b;
      KilledConcat(KillOne(s, a[0]), a[1..], b);
    } else {
      assert a + b == b;
    }
  }
}
