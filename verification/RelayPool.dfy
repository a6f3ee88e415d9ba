// strelaypoolsrv/main.go: the registry of known relays and the timers that evict them.
module RelayPool {
  import opened SliceUtil

  type Host = string
  type TimerId = nat

  // A relay as announced; uri stands for everything but the host.
  datatype Relay = Relay(host: Host, uri: string)

  // Pending: time.AfterFunc was called and the time is not up. Fired: the callback's goroutine has
  // started, but does not hold the lock yet; Stop no longer has an effect.
  datatype Phase = Pending | Fired | Stopped | Done

  datatype Timer = Timer(host: Host, phase: Phase)

  datatype State = State(known: seq<Relay>, evictionTimers: map<Host, TimerId>, timers: map<TimerId, Timer>)

  const INITIAL := State([], map[], map[])

  // ---------- the list ----------

  // Where the first relay with the host is, or the length of the list.
  function Find(known: seq<Relay>, host: Host): (i: nat)
    ensures i <= |known| && (i < |known| ==> known[i].host == host)
    ensures forall j :: 0 <= j < i ==> known[j].host != host
  {
    if known == [] || known[0].host == host then 0 else 1 + Find(known[1..], host)
  }

  function Evict(known: seq<Relay>, host: Host): seq<Relay> {
    var i := Find(known, host);
    if i < |known| then SwapDrop(known, i) else known
  }

  ghost predicate DistinctHosts(known: seq<Relay>) {
    forall i, j :: 0 <= i < j < |known| ==> known[i].host != known[j].host
  }

  ghost predicate Knows(known: seq<Relay>, host: Host) {
    exists i :: 0 <= i < |known| && known[i].host == host
  }

  lemma EvictAt(known: seq<Relay>, host: Host, k: nat)
    requires k < |Evict(known, host)|
    ensures var i, e := Find(known, host), Evict(known, host);
      e[k] == if k == i then known[|known| - 1] else known[k]
  {
  }

  // Evicting removes the one relay with the host, and no other.
  lemma EvictElements(known: seq<Relay>, host: Host)
    requires DistinctHosts(known)
    ensures DistinctHosts(Evict(known, host))
    ensures forall r :: r in Evict(known, host) <==> r in known && r.host != host
  {
    var i, e := Find(known, host), Evict(known, host);
    forall k | 0 <= k < |e|
      ensures e[k] == (if k == i then known[|known| - 1] else known[k]) && e[k].host != host && e[k] in known
    {
      EvictAt(known, host, k);
    }
    forall r | r in known && r.host != host ensures r in e {
      var j :| 0 <= j < |known| && known[j] == r;
      var k := if i < |known| && j == |known| - 1 then i else j;
      EvictAt(known, host, k);
      assert e[k] == r;
    }
  }

  lemma KnowsOfElements(a: seq<Relay>, b: seq<Relay>, host: Host)
    requires forall r :: r in b <==> r in a && r.host != host
    ensures forall h :: Knows(b, h) <==> Knows(a, h) && h != host
  {
    forall h ensures Knows(b, h) <==> Knows(a, h) && h != host {
      if Knows(b, h) {
        var i :| 0 <= i < |b| && b[i].host == h;
        assert b[i] in b;
      }
      if Knows(a, h) && h != host {
        var i :| 0 <= i < |a| && a[i].host == h;
        assert a[i] in b;
      }
    }
  }

  lemma KnowsAppended(known: seq<Relay>, r: Relay)
    ensures forall h :: Knows(known + [r], h) <==> Knows(known, h) || h == r.host
  {
    forall h ensures Knows(known + [r], h) <==> Knows(known, h) || h == r.host {
      assert (known + [r])[|known|] == r;
      if Knows(known, h) {
        var i :| 0 <= i < |known| && known[i].host == h;
        assert (known + [r])[i].host == h;
      }
    }
  }

  // ---------- steps ----------

  function Stop(timers: map<TimerId, Timer>, t: TimerId): map<TimerId, Timer> {
    if t in timers && timers[t].phase == Pending then timers[t := timers[t].(phase := Stopped)] else timers
  }

  // The locked part of handleRelayTest after a successful test; t is the timer it creates.
  function Tested(s: State, relay: Relay, t: TimerId): State {
    var h := relay.host;
    var timers := if h in s.evictionTimers then Stop(s.timers, s.evictionTimers[h]) else s.timers;
    State(Evict(s.known, h) + [relay], s.evictionTimers[h := t], timers[t := Timer(h, Pending)])
  }

  // The callback of timer t, which evict returned.
  function Ran(s: State, t: TimerId): State
    requires t in s.timers
  {
    var h := s.timers[t].host;
    State(Evict(s.known, h), s.evictionTimers - {h}, s.timers[t := s.timers[t].(phase := Done)])
  }

  // What a test leaves: the relay in place of any other with its host, its new timer pending, and the
  // old timer stopped unless it is too late for that.
  lemma TestedIs(s: State, relay: Relay, t: TimerId)
    requires DistinctHosts(s.known) && t !in s.timers
    ensures var r, h := Tested(s, relay, t), relay.host;
      && (forall x :: x in r.known <==> x == relay || (x in s.known && x.host != h))
      && r.evictionTimers == s.evictionTimers[h := t]
      && r.timers.Keys == s.timers.Keys + {t} && r.timers[t] == Timer(h, Pending)
      && (forall u :: u in s.timers && h in s.evictionTimers && s.evictionTimers[h] == u && s.timers[u].phase == Pending
            ==> r.timers[u] == Timer(s.timers[u].host, Stopped))
      && (forall u :: u in s.timers
            && (s.timers[u].phase != Pending || !(h in s.evictionTimers && s.evictionTimers[h] == u))
            ==> r.timers[u] == s.timers[u])
  {
    hide Evict;
    EvictElements(s.known, relay.host);
  }

  // What a callback leaves: no relay with its host, no key for the host, and the timer used up.
  lemma RanIs(s: State, t: TimerId)
    requires DistinctHosts(s.known) && t in s.timers
    ensures var r, h := Ran(s, t), s.timers[t].host;
      && (forall x :: x in r.known <==> x in s.known && x.host != h)
      && r.evictionTimers == s.evictionTimers - {h}
      && r.timers == s.timers[t := Timer(h, Done)]
  {
    hide Evict;
    EvictElements(s.known, s.timers[t].host);
  }

  datatype Event = Test(relay: Relay, timer: TimerId) | TimeUp(timer: TimerId) | Run(timer: TimerId)

  predicate Enabled(s: State, e: Event) {
    match e
    case Test(_, t) => t !in s.timers
    case TimeUp(t) => t in s.timers && s.timers[t].phase == Pending
    case Run(t) => t in s.timers && s.timers[t].phase == Fired
  }

  function Step(s: State, e: Event): State
    requires Enabled(s, e)
  {
    match e
    case Test(relay, t) => Tested(s, relay, t)
    case TimeUp(t) => s.(timers := s.timers[t := s.timers[t].(phase := Fired)])
    case Run(t) => Ran(s, t)
  }

  // Every interleaving of tests, timers running out and callbacks, among them stale callbacks.
  ghost predicate Reaches(s: State, events: seq<Event>, s': State)
    decreases |events|
  {
    if events == [] then s' == s
    else Enabled(s, events[0]) && Reaches(Step(s, events[0]), events[1..], s')
  }

  // ---------- the registry stays consistent ----------

  ghost predicate Live(s: State, t: TimerId, h: Host) {
    t in s.timers && s.timers[t].host == h && s.timers[t].phase in {Pending, Fired}
  }

  ghost predicate Inv(s: State) {
    && DistinctHosts(s.known)
    && (forall h :: h in s.evictionTimers <==> Knows(s.known, h))
    && (forall h :: h in s.evictionTimers ==> Live(s, s.evictionTimers[h], h))
  }

  lemma TestKeepsInv(s: State, relay: Relay, t: TimerId)
    requires Inv(s) && t !in s.timers
    ensures Inv(Tested(s, relay, t))
    ensures relay in Tested(s, relay, t).known
  {
    hide Evict, Knows;
    var kept := Evict(s.known, relay.host);
    EvictElements(s.known, relay.host);
    KnowsOfElements(s.known, kept, relay.host);
    KnowsAppended(kept, relay);
    assert forall i :: 0 <= i < |kept| ==> kept[i] in kept;
  }

  lemma RunKeepsInv(s: State, t: TimerId)
    requires Inv(s) && t in s.timers
    ensures Inv(Ran(s, t)) && !Knows(Ran(s, t).known, s.timers[t].host)
  {
    hide Evict;
    var h := s.timers[t].host;
    EvictElements(s.known, h);
    KnowsOfElements(s.known, Evict(s.known, h), h);
  }

  lemma StepKeepsInv(s: State, e: Event)
    requires Inv(s) && Enabled(s, e)
    ensures Inv(Step(s, e))
  {
    match e
    case Test(relay, t) => TestKeepsInv(s, relay, t);
    case TimeUp(_) =>
    case Run(t) => RunKeepsInv(s, t);
  }

  lemma {:induction false} ReachesKeepsInv(s: State, events: seq<Event>, s': State)
    requires Inv(s) && Reaches(s, events, s')
    ensures Inv(s')
    decreases |events|
  {
    if events != [] {
      StepKeepsInv(s, events[0]);
      ReachesKeepsInv(Step(s, events[0]), events[1..], s');
    }
  }

  // In every run, known hosts are pairwise distinct, the timers' keys are the known hosts, and
  // every known host has a callback still to come.
  lemma RegistryAgrees(events: seq<Event>, s: State)
    requires Reaches(INITIAL, events, s)
    ensures DistinctHosts(s.known)
    ensures forall h :: h in s.evictionTimers <==> Knows(s.known, h)
    ensures forall h :: Knows(s.known, h) ==> h in s.evictionTimers && Live(s, s.evictionTimers[h], h)
  {
    ReachesKeepsInv(INITIAL, events, s);
  }

  // ---------- early eviction ----------

  // Neither tests of h nor the callback of its current timer t.
  ghost predicate Undisturbed(events: seq<Event>, h: Host, t: TimerId) {
    forall e :: e in events ==> !(e.Test? && e.relay.host == h) && e != Run(t)
  }

  // From s, the relay h may vanish although its current timer's callback has not run.
  ghost predicate EvictedEarly(s: State, h: Host) {
    h in s.evictionTimers && exists events, s' ::
      Reaches(s, events, s') && Undisturbed(events, h, s.evictionTimers[h]) && !Knows(s'.known, h)
  }

  ghost predicate Stale(s: State, t: TimerId, h: Host)
    requires h in s.evictionTimers
  {
    Live(s, t, h) && t != s.evictionTimers[h]
  }

  lemma StepKeepsKnown(s: State, e: Event, h: Host)
    requires Inv(s) && Enabled(s, e) && h in s.evictionTimers && Undisturbed([e], h, s.evictionTimers[h])
    requires forall t :: !Stale(s, t, h)
    ensures var s' := Step(s, e);
      h in s'.evictionTimers && s'.evictionTimers[h] == s.evictionTimers[h] && forall t :: !Stale(s', t, h)
  {
    assert e in [e];
    var s' := Step(s, e);
    match e {
      case Test(relay, u) =>
        assert s'.timers[u].host != h;
      case TimeUp(u) =>
      case Run(u) =>
        assert s.timers[u].host != h by {
          assert !Stale(s, u, h);
        }
    }
    forall u ensures !Stale(s', u, h) {
      assert !Stale(s, u, h);
    }
  }

  lemma {:induction false} NoStaleNoEviction(s: State, events: seq<Event>, s': State, h: Host)
    requires Inv(s) && Reaches(s, events, s')
    requires h in s.evictionTimers && Undisturbed(events, h, s.evictionTimers[h])
    requires forall t :: !Stale(s, t, h)
    ensures Knows(s'.known, h)
    decreases |events|
  {
    if events != [] {
      assert events[0] in events;
      StepKeepsKnown(s, events[0], h);
      StepKeepsInv(s, events[0]);
      NoStaleNoEviction(Step(s, events[0]), events[1..], s', h);
    }
  }

  lemma StaleEvicts(s: State, t: TimerId, h: Host)
    requires Inv(s) && h in s.evictionTimers && Stale(s, t, h)
    ensures EvictedEarly(s, h)
  {
    if s.timers[t].phase == Pending {
      var m := Step(s, TimeUp(t));
      StepKeepsInv(s, TimeUp(t));
      RunKeepsInv(m, t);
      OneStep(m, Run(t));
      assert [TimeUp(t), Run(t)][1..] == [Run(t)];
      assert Reaches(s, [TimeUp(t), Run(t)], Ran(m, t));
    } else {
      RunKeepsInv(s, t);
      OneStep(s, Run(t));
    }
  }

  lemma OneStep(s: State, e: Event)
    requires Enabled(s, e)
    ensures Reaches(s, [e], Step(s, e))
  {
    assert [e][1..] == [];
  }

  // A known relay stays known until its current timer's callback runs, exactly if no other timer
  // for its host can still call back. handleRelayTest alone does not ensure that: it cannot stop a
  // callback that is waiting for the lock, and a timer whose key such a callback deleted is never
  // stopped.
  lemma EvictedEarlyIff(events: seq<Event>, s: State, h: Host)
    requires Reaches(INITIAL, events, s) && Knows(s.known, h)
    ensures h in s.evictionTimers
    ensures EvictedEarly(s, h) <==> exists t :: Stale(s, t, h)
  {
    RegistryAgrees(events, s);
    ReachesKeepsInv(INITIAL, events, s);
    if EvictedEarly(s, h) {
      var later, s' :|
        Reaches(s, later, s') && Undisturbed(later, h, s.evictionTimers[h]) && !Knows(s'.known, h);
      if forall t :: !Stale(s, t, h) {
        NoStaleNoEviction(s, later, s', h);
      }
    }
    if t :| Stale(s, t, h) {
      StaleEvicts(s, t, h);
    }
  }

  // Such a run: the callback of the first timer has started when the relay is tested again.
  lemma RetestedRelayIsEvicted(relay: Relay)
    ensures var events := [Test(relay, 0), TimeUp(0), Test(relay, 1)];
      exists s :: Reaches(INITIAL, events, s) && Knows(s.known, relay.host) && EvictedEarly(s, relay.host)
  {
    var events := [Test(relay, 0), TimeUp(0), Test(relay, 1)];
    var a := Step(INITIAL, events[0]);
    var b := Step(a, events[1]);
    var c := Step(b, events[2]);
    assert events[1..][1..] == [events[2]];
    OneStep(b, events[2]);
    assert Reaches(a, events[1..], c);
    assert Reaches(INITIAL, events, c);
    ReachesKeepsInv(INITIAL, events, c);
    assert Stale(c, 0, relay.host);
    StaleEvicts(c, 0, relay.host);
  }

  // ---------- stopping the timer ----------

  // The only timer for h that can still call back is the one under h's key.
  ghost predicate OneTimer(s: State, h: Host) {
    forall t :: t in s.timers && s.timers[t].host == h && (s.timers[t].phase == Pending || s.timers[t].phase == Fired)
      ==> h in s.evictionTimers && s.evictionTimers[h] == t
  }

  // A callback for h has started and waits for the lock.
  ghost predicate Waiting(s: State, h: Host) {
    exists t :: t in s.timers && s.timers[t].host == h && s.timers[t].phase == Fired
  }

  // A test stops the timer of the host, and so leaves one timer exactly if no callback is waiting.
  lemma TestStopsTimerIff(s: State, relay: Relay, t: TimerId)
    requires Inv(s) && OneTimer(s, relay.host) && t !in s.timers
    ensures OneTimer(Tested(s, relay, t), relay.host) <==> !Waiting(s, relay.host)
  {
    var h, r := relay.host, Tested(s, relay, t);
    if Waiting(s, h) {
      var u :| u in s.timers && s.timers[u].host == h && s.timers[u].phase == Fired;
      assert u == s.evictionTimers[h] && u in r.timers && r.timers[u].phase == Fired && u != t;
    } else {
      forall u | u in r.timers && u != t && r.timers[u].host == h
        ensures r.timers[u].phase != Pending && r.timers[u].phase != Fired
      {
        assert u in s.timers && s.timers[u].host == h && s.timers[u].phase != Fired;
      }
    }
  }

  // No test of h happens while a callback for h is waiting.
  ghost predicate Orderly(s: State, events: seq<Event>, h: Host)
    decreases |events|
  {
    events != [] ==>
      && Enabled(s, events[0])
      && !(events[0].Test? && events[0].relay.host == h && Waiting(s, h))
      && Orderly(Step(s, events[0]), events[1..], h)
  }

  lemma StepKeepsOneTimer(s: State, e: Event, h: Host)
    requires Inv(s) && OneTimer(s, h) && Enabled(s, e)
    requires !(e.Test? && e.relay.host == h && Waiting(s, h))
    ensures OneTimer(Step(s, e), h)
  {
    match e
    case Test(relay, t) =>
      if relay.host == h {
        TestStopsTimerIff(s, relay, t);
      } else {
        OtherTestKeepsOneTimer(s, relay, t, h);
      }
    case TimeUp(_) =>
    case Run(_) =>
  }

  lemma OtherTestKeepsOneTimer(s: State, relay: Relay, t: TimerId, h: Host)
    requires Inv(s) && OneTimer(s, h) && t !in s.timers && relay.host != h
    ensures OneTimer(Tested(s, relay, t), h)
  {
    var r := Tested(s, relay, t);
    forall u | u in r.timers && r.timers[u].host == h && (r.timers[u].phase == Pending || r.timers[u].phase == Fired)
      ensures h in r.evictionTimers && r.evictionTimers[h] == u
    {
      assert u != t && u in s.timers && s.timers[u].host == h;
    }
  }

  lemma {:induction false} OrderlyKeepsOneTimer(s: State, events: seq<Event>, s': State, h: Host)
    requires Inv(s) && OneTimer(s, h) && Reaches(s, events, s') && Orderly(s, events, h)
    ensures OneTimer(s', h)
    decreases |events|
  {
    if events != [] {
      StepKeepsInv(s, events[0]);
      StepKeepsOneTimer(s, events[0], h);
      OrderlyKeepsOneTimer(Step(s, events[0]), events[1..], s', h);
    }
  }

  // In a run where a relay is never tested while a callback for it is waiting, it stays until its
  // current timer's callback runs: a test puts the eviction off.
  lemma TestPutsEvictionOff(events: seq<Event>, s: State, h: Host)
    requires Reaches(INITIAL, events, s) && Orderly(INITIAL, events, h)
    ensures Knows(s.known, h) ==> !EvictedEarly(s, h)
  {
    ReachesKeepsInv(INITIAL, events, s);
    OrderlyKeepsOneTimer(INITIAL, events, s, h);
    if Knows(s.known, h) {
      EvictedEarlyIff(events, s, h);
    }
  }

  // ---------- the code ----------

  class Registry {
    var relays: array<Relay>
    var count: nat
    var evictionTimers: map<Host, TimerId>
    // The runtime's timers.
    var timers: map<TimerId, Timer>

    ghost predicate Valid() reads this {
      count <= relays.Length
    }

    ghost function Value(): State
      reads this, relays
      requires Valid()
    {
      State(relays[..count], evictionTimers, timers)
    }

    constructor ()
      ensures Valid() && fresh(relays) && Value() == INITIAL
    {
      relays, count, evictionTimers, timers := new Relay[0], 0, map[], map[];
    }

    method Append(relay: Relay)
      requires Valid()
      modifies this`relays, this`count, relays
      ensures Valid() && (relays == old(relays) || fresh(relays))
      ensures relays[..count] == old(relays[..count]) + [relay]
    {
      if count == relays.Length {
        var grown := new Relay[2 * count + 1](_ => relay);
        for i := 0 to count
          invariant grown[..i] == relays[..i]
          modifies grown
        {
          grown[i] := relays[i];
        }
        relays := grown;
      }
      relays[count] := relay;
      count := count + 1;
    }

    method HandleRelayTest(relay: Relay, t: TimerId)
      requires Valid() && t !in timers
      modifies this, relays
      ensures Valid() && (relays == old(relays) || fresh(relays))
      ensures Value() == Tested(old(Value()), relay, t)
    {
      hide Evict, SwapDrop;
      var h := relay.host;
      if h in evictionTimers {
        timers := Stop(timers, evictionTimers[h]);
      }
      ghost var known := relays[..count];
      for i := 0 to count
        invariant forall j :: 0 <= j < i ==> relays[j].host != h
      {
        if relays[i].host == h {
          FirstIsFound(known, h, i);
          var last := count - 1;
          relays[i] := relays[last];
          count := last;
          OverwriteIsSwapDrop(known, relays[..last + 1], i);
          break;
        }
      }
      assert relays[..count] == Evict(known, h) by {
        if count == |known| {
          NoneIsFound(known, h);
        }
      }
      Append(relay);
      evictionTimers := evictionTimers[h := t];
      timers := timers[t := Timer(h, Pending)];
    }

    // The function evict returns, called by timer t. Its loop ranges over the slice as it was when
    // the loop began and goes on after a match; the slot it vacates keeps the last relay. That this
    // still evicts once only is due to the hosts being distinct.
    method RunEviction(t: TimerId)
      requires Valid() && DistinctHosts(Value().known)
      requires t in timers && timers[t].phase == Fired
      modifies this, relays
      ensures Valid() && relays == old(relays)
      ensures Value() == Ran(old(Value()), t)
    {
      hide Evict, SwapDrop;
      var h, n := timers[t].host, count;
      ghost var known, found := relays[..count], -1;
      for i := 0 to n
        invariant relays == old(relays) && evictionTimers == old(evictionTimers) && timers == old(timers)
        invariant found == -1 ==> count == n && relays[..n] == known
        invariant found == -1 ==> forall j :: 0 <= j < i ==> known[j].host != h
        invariant found != -1 ==> 0 <= found < n && known[found].host == h && count == n - 1
        invariant found != -1 ==> forall j :: 0 <= j < found ==> known[j].host != h
        invariant found != -1 ==> relays[..n] == known[found := known[n - 1]] && found < i
      {
        if relays[i].host == h {
          assert found == -1;
          var last := count - 1;
          relays[i] := relays[last];
          count := last;
          found := i;
        }
      }
      if found == -1 {
        NoneIsFound(known, h);
      } else {
        FirstIsFound(known, h, found);
        OverwriteIsSwapDrop(known, relays[..n], found);
        assert relays[..count] == relays[..n][..n - 1];
      }
      evictionTimers := evictionTimers - {h};
      timers := timers[t := timers[t].(phase := Done)];
    }
  }

  lemma FirstIsFound(known: seq<Relay>, h: Host, i: nat)
    requires i < |known| && known[i].host == h
    requires forall j :: 0 <= j < i ==> known[j].host != h
    ensures Evict(known, h) == SwapDrop(known, i)
  {
    assert Find(known, h) == i;
  }

  lemma NoneIsFound(known: seq<Relay>, h: Host)
    requires forall j :: 0 <= j < |known| ==> known[j].host != h
    ensures Evict(known, h) == known
  {
  }

  lemma OverwriteIsSwapDrop(known: seq<Relay>, now: seq<Relay>, i: nat)
    requires i < |known| && now == known[i := known[|known| - 1]]
    ensures now[..|known| - 1] == SwapDrop(known, i)
  {
  }
}
