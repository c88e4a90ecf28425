/** What a scrape cycle and the collect-then-sleep loop guarantee, stated
    on the specification functions the collector's methods are proved
    against. */
module CollectorProperties {
  import opened GaugeStore
  import opened Probes
  import opened Collector

  /** Probes that have not run yet have not touched their families. */
  lemma {:induction false} ProbesUpToUntouched(reg: seq<Probe>, s: Store, outcomes: seq<ProbeOutcome>, n: nat, j: nat)
    requires HasFamilies(reg, s)
    requires n <= j < |reg| && n <= |outcomes|
    ensures ProbesUpTo(reg, s, outcomes, n)[j] == s[j]
  {
    if n > 0 {
      ProbesUpToUntouched(reg, s, outcomes, n - 1, j);
    }
  }

  /** After the first n probes, probe j < n has left exactly its own run's
      effect in its family: a probe writes only to its own family. */
  lemma {:induction false} ProbesUpToAt(reg: seq<Probe>, s: Store, outcomes: seq<ProbeOutcome>, n: nat, j: nat)
    requires HasFamilies(reg, s)
    requires j < n <= |reg| && n <= |outcomes|
    ensures ProbesUpTo(reg, s, outcomes, n)[j] == ProbeEffect(s[j], outcomes[j], reg[j].Arity())
  {
    if j == n - 1 {
      ProbesUpToUntouched(reg, s, outcomes, n - 1, j);
    } else {
      ProbesUpToAt(reg, s, outcomes, n - 1, j);
    }
  }

  /** Isolation: probe j's family after the cycle's probes depends on its
      own outcome only, whatever the other probes did (failed or not). */
  lemma ProbeIsolation(reg: seq<Probe>, s: Store, o1: seq<ProbeOutcome>, o2: seq<ProbeOutcome>, j: nat)
    requires HasFamilies(reg, s)
    requires |o1| == |reg| && |o2| == |reg| && j < |reg|
    requires o1[j] == o2[j]
    ensures ProbesUpTo(reg, s, o1, |reg|)[j] == ProbesUpTo(reg, s, o2, |reg|)[j]
  {
    ProbesUpToAt(reg, s, o1, |reg|, j);
    ProbesUpToAt(reg, s, o2, |reg|, j);
  }

  /** One cycle's effect on probe j's family: after a successful connect,
      the old series plus the tuples of the rows probe j applied; after a
      failed connect, the family as it was. */
  lemma CycleFamily(reg: seq<Probe>, st: Snapshot, c: CycleInput, j: nat)
    requires HasFamilies(reg, st.gauges) && WellFormed(reg, c)
    requires j < |reg|
    ensures CollectStep(reg, st, c).gauges[j] ==
      if c.connect.Connected? then MarkPresent(st.gauges[j], Contributed(c.probes[j], reg[j].Arity()))
      else st.gauges[j]
  {
    if c.connect.Connected? {
      ProbesUpToAt(reg, st.gauges, c.probes, |reg|, j);
      ProbeEffectMeaning(st.gauges[j], c.probes[j], reg[j].Arity());
    }
  }

  /** Merge, not replace: a cycle never removes a series from any family. */
  lemma CycleNeverRemoves(reg: seq<Probe>, st: Snapshot, c: CycleInput, j: nat)
    requires HasFamilies(reg, st.gauges) && WellFormed(reg, c)
    requires j < |reg|
    ensures st.gauges[j].Keys <= CollectStep(reg, st, c).gauges[j].Keys
  {
    CycleFamily(reg, st, c, j);
    MarkPresentMeaning(st.gauges[j], Contributed(c.probes[j], reg[j].Arity()));
  }

  /** Idempotence: a second cycle whose probes see the same rows as the
      first leaves the store as the first left it (provided the first one
      connected whenever the second does). */
  lemma CycleIdempotent(reg: seq<Probe>, st: Snapshot, c1: CycleInput, c2: CycleInput)
    requires HasFamilies(reg, st.gauges)
    requires WellFormed(reg, c1) && c2.probes == c1.probes
    requires c2.connect.Connected? ==> c1.connect.Connected?
    ensures var once := CollectStep(reg, st, c1);
      CollectStep(reg, once, c2).gauges == once.gauges
  {
    var once := CollectStep(reg, st, c1);
    var twice := CollectStep(reg, once, c2);
    forall j | 0 <= j < |reg|
      ensures twice.gauges[j] == once.gauges[j]
    {
      CycleFamily(reg, st, c1, j);
      CycleFamily(reg, once, c2, j);
      MarkPresentIdempotent(st.gauges[j], Contributed(c1.probes[j], reg[j].Arity()));
    }
  }

  /** Every series ever set carries the value 1: each cycle keeps a
      presence-only store presence-only. */
  lemma CycleKeepsPresence(reg: seq<Probe>, st: Snapshot, c: CycleInput)
    requires HasFamilies(reg, st.gauges) && WellFormed(reg, c)
    requires StorePresenceOnly(st.gauges)
    ensures StorePresenceOnly(CollectStep(reg, st, c).gauges)
  {
    var after := CollectStep(reg, st, c).gauges;
    forall j | 0 <= j < |after|
      ensures PresenceOnly(after[j])
    {
      CycleFamily(reg, st, c, j);
      MarkPresentKeepsPresence(st.gauges[j], Contributed(c.probes[j], reg[j].Arity()));
    }
  }

  /** The loop keeps a presence-only store presence-only. */
  lemma {:induction false} RunKeepsPresence(reg: seq<Probe>, st: Snapshot, cycles: seq<CycleInput>)
    requires HasFamilies(reg, st.gauges) && AllWellFormed(reg, cycles)
    requires StorePresenceOnly(st.gauges)
    ensures StorePresenceOnly(RunLoop(reg, st, cycles).gauges)
    decreases |cycles|
  {
    if cycles != [] {
      CycleKeepsPresence(reg, st, cycles[0]);
      if CollectCompletes(st, cycles[0]) {
        RunKeepsPresence(reg, AfterSleep(CollectStep(reg, st, cycles[0])), cycles[1..]);
      }
    }
  }

  /** From construction on, every series of every family of the collector
      has the value 1, whatever the rows (including the switch counts of
      redo_log_switches and the sequence numbers of dataguard_slave_status). */
  lemma ServedStoreIsPresenceOnly(cycles: seq<CycleInput>)
    requires AllWellFormed(Registry, cycles)
    ensures StorePresenceOnly(RunLoop(Registry, Initial(Registry), cycles).gauges)
  {
    RunKeepsPresence(Registry, Initial(Registry), cycles);
  }

  /** The loop never removes a series from any family. */
  lemma {:induction false} RunNeverRemoves(reg: seq<Probe>, st: Snapshot, cycles: seq<CycleInput>, j: nat)
    requires HasFamilies(reg, st.gauges) && AllWellFormed(reg, cycles)
    requires j < |reg|
    ensures st.gauges[j].Keys <= RunLoop(reg, st, cycles).gauges[j].Keys
    decreases |cycles|
  {
    if cycles != [] {
      CycleNeverRemoves(reg, st, cycles[0], j);
      if CollectCompletes(st, cycles[0]) {
        RunNeverRemoves(reg, AfterSleep(CollectStep(reg, st, cycles[0])), cycles[1..], j);
      }
    }
  }

  /** After a successful connect the cycle connects first and then
      attempts every probe once, in registry order; the probes' outcomes
      do not change which probes are attempted. */
  lemma ProbesAttemptedInOrder(reg: seq<Probe>, st: Snapshot, c: CycleInput)
    requires c.connect.Connected?
    ensures var e := CycleEvents(reg, st, c);
      && |e| > |reg|
      && e[0] == ConnectAttempted
      && (forall i :: 0 <= i < |reg| ==> e[1 + i] == ProbeAttempted(i))
      && (forall p :: 1 + |reg| <= p < |e| ==> !e[p].ProbeAttempted?)
  {
    var e := CycleEvents(reg, st, c);
    var o := OpenEvents(reg, c);
    var rest := CloseEvents(CursorAfter(st, c), ConnectionAfter(st, c), c.cursorCloseRaises)
      + (if CollectCompletes(st, c) then [DurationObserved] else []);
    assert e == o + rest;
    assert |o| == 1 + |reg|;
    forall i | 0 <= i < |reg|
      ensures e[1 + i] == ProbeAttempted(i)
    {
      assert e[1 + i] == o[1 + i] == ProbeEvents(|reg|)[i];
    }
    forall p | 1 + |reg| <= p < |e|
      ensures !e[p].ProbeAttempted?
    {
      assert e[p] == rest[p - |o|];
    }
  }

  /** Counting: among the first n attempts, probe j appears once if j < n
      and not at all otherwise. */
  lemma {:induction false} ProbeEventsCount(n: nat, j: nat)
    ensures multiset(ProbeEvents(n))[ProbeAttempted(j)] == if j < n then 1 else 0
  {
    if n > 0 {
      ProbeEventsCount(n - 1, j);
    }
  }

  /** Each probe is attempted exactly once in a connected cycle and not at
      all when the connect failed. */
  lemma EachProbeAttemptedOnce(reg: seq<Probe>, st: Snapshot, c: CycleInput, j: nat)
    requires j < |reg|
    ensures multiset(CycleEvents(reg, st, c))[ProbeAttempted(j)] ==
      if c.connect.Connected? then 1 else 0
  {
    ProbeEventsCount(|reg|, j);
  }

  /** For the collector's own table: right after the connect come the
      fifteen probes in table order, from database_version (index 0) to
      dataguard_slave_status (index 14), each attempted once. */
  lemma CollectorProbeOrder(st: Snapshot, c: CycleInput)
    requires c.connect.Connected?
    ensures |Registry| == 15
    ensures var e := CycleEvents(Registry, st, c);
      && e[0] == ConnectAttempted
      && (forall i :: 0 <= i < 15 ==> e[1 + i] == ProbeAttempted(i))
      && (forall j :: 0 <= j < 15 ==> multiset(e)[ProbeAttempted(j)] == 1)
  {
    RegistryShape();
    var e := CycleEvents(Registry, st, c);
    ProbesAttemptedInOrder(Registry, st, c);
    forall j | 0 <= j < 15
      ensures multiset(e)[ProbeAttempted(j)] == 1
    {
      EachProbeAttemptedOnce(Registry, st, c, j);
    }
  }

  /** A failed connect: no probe runs, the store and both handles keep their
      previous values, and `close_db` is still called on the old cursor. */
  lemma ConnectFailureSkipsProbes(reg: seq<Probe>, st: Snapshot, c: CycleInput)
    requires HasFamilies(reg, st.gauges) && WellFormed(reg, c)
    requires c.connect.ConnectRaised?
    ensures var r := CollectStep(reg, st, c);
      && r.gauges == st.gauges
      && r.dbConnect == st.dbConnect && r.dbCursor == st.dbCursor
      && (forall p :: 0 <= p < |CycleEvents(reg, st, c)| ==> !CycleEvents(reg, st, c)[p].ProbeAttempted?)
      && CursorCloseCalled(st.dbCursor) in CycleEvents(reg, st, c)
  {
    assert CycleEvents(reg, st, c)[1] == CursorCloseCalled(st.dbCursor);
  }

  /** An event absent from the parts around the middle is counted in the
      middle alone. */
  lemma CountInMiddle(o: seq<Event>, d: seq<Event>, t: seq<Event>, x: Event)
    requires x !in o && x !in t
    ensures multiset(o + d + t)[x] == multiset(d)[x]
  {
    assert multiset(o + d + t) == multiset(o) + multiset(d) + multiset(t);
  }

  /** One `collect` closes its cursor exactly once and its connection at
      most once; no other handle is closed. */
  lemma CloseCallsOnce(reg: seq<Probe>, st: Snapshot, c: CycleInput)
    ensures var e := CycleEvents(reg, st, c);
      forall h :: multiset(e)[CursorCloseCalled(h)] == (if h == CursorAfter(st, c) then 1 else 0)
    ensures var e := CycleEvents(reg, st, c);
      forall h :: multiset(e)[ConnectionCloseCalled(h)] ==
        (if h == ConnectionAfter(st, c) && CloseSucceeds(CursorAfter(st, c), c.cursorCloseRaises) then 1 else 0)
  {
    var o := OpenEvents(reg, c);
    var closed := CloseSucceeds(CursorAfter(st, c), c.cursorCloseRaises);
    var d := CloseEvents(CursorAfter(st, c), ConnectionAfter(st, c), c.cursorCloseRaises);
    var t: seq<Event> := if CollectCompletes(st, c) then [DurationObserved] else [];
    assert CycleEvents(reg, st, c) == o + d + t;
    assert multiset(d) == multiset{CursorCloseCalled(CursorAfter(st, c))}
      + (if closed then multiset{ConnectionCloseCalled(ConnectionAfter(st, c))} else multiset{});
    forall h
      ensures multiset(o + d + t)[CursorCloseCalled(h)] == (if h == CursorAfter(st, c) then 1 else 0)
      ensures multiset(o + d + t)[ConnectionCloseCalled(h)] ==
        (if h == ConnectionAfter(st, c) && closed then 1 else 0)
    {
      assert CursorCloseCalled(h) !in ProbeEvents(|reg|);
      assert ConnectionCloseCalled(h) !in ProbeEvents(|reg|);
      CountInMiddle(o, d, t, CursorCloseCalled(h));
      CountInMiddle(o, d, t, ConnectionCloseCalled(h));
    }
  }

  /** `close_db` closes the cursor before the connection, and reaches the
      connection exactly when closing the cursor returned. */
  lemma CloseOrder(reg: seq<Probe>, st: Snapshot, c: CycleInput)
    ensures var e := CycleEvents(reg, st, c);
      && CursorCloseCalled(CursorAfter(st, c)) in e
      && (forall p, q :: 0 <= p < |e| && 0 <= q < |e| && e[p].ConnectionCloseCalled? && e[q].CursorCloseCalled? ==> q < p)
      && ((exists p :: 0 <= p < |e| && e[p].ConnectionCloseCalled?) <==>
          CloseSucceeds(CursorAfter(st, c), c.cursorCloseRaises))
  {
    var e := CycleEvents(reg, st, c);
    var o := OpenEvents(reg, c);
    var k := |o|;
    assert forall p :: 0 <= p < k ==> e[p] == o[p];
    assert e[k] == CursorCloseCalled(CursorAfter(st, c));
    if CloseSucceeds(CursorAfter(st, c), c.cursorCloseRaises) {
      assert e[k + 1].ConnectionCloseCalled?;
    }
    forall p | 0 <= p < |e|
      ensures e[p].CursorCloseCalled? <==> p == k
      ensures e[p].ConnectionCloseCalled? <==> p == k + 1 && CloseSucceeds(CursorAfter(st, c), c.cursorCloseRaises)
    {
      if p < k {
        assert p == 0 || o[p] == ProbeEvents(|reg|)[p - 1];
      }
    }
  }

  /** `close_db` runs exactly once per `collect`: it closes the cursor once,
      before the connection, and closes the connection once exactly when
      closing the cursor returned. */
  lemma CursorClosedBeforeConnection(reg: seq<Probe>, st: Snapshot, c: CycleInput)
    ensures var e := CycleEvents(reg, st, c);
      && CursorCloseCalled(CursorAfter(st, c)) in e
      && (forall p, q :: 0 <= p < |e| && 0 <= q < |e| && e[p].ConnectionCloseCalled? && e[q].CursorCloseCalled? ==> q < p)
      && ((exists p :: 0 <= p < |e| && e[p].ConnectionCloseCalled?) <==>
          CloseSucceeds(CursorAfter(st, c), c.cursorCloseRaises))
    ensures var e := CycleEvents(reg, st, c);
      forall h :: multiset(e)[CursorCloseCalled(h)] == (if h == CursorAfter(st, c) then 1 else 0)
    ensures var e := CycleEvents(reg, st, c);
      forall h :: multiset(e)[ConnectionCloseCalled(h)] ==
        (if h == ConnectionAfter(st, c) && CloseSucceeds(CursorAfter(st, c), c.cursorCloseRaises) then 1 else 0)
  {
    CloseOrder(reg, st, c);
    CloseCallsOnce(reg, st, c);
  }

  /** The duration is observed exactly once when `close_db` returns and not
      at all when it raises, however many probes failed. */
  lemma ObservedOncePerCompletedCycle(reg: seq<Probe>, st: Snapshot, c: CycleInput)
    requires HasFamilies(reg, st.gauges) && WellFormed(reg, c)
    ensures multiset(CycleEvents(reg, st, c))[DurationObserved] == if CollectCompletes(st, c) then 1 else 0
    ensures CollectStep(reg, st, c).observations == st.observations + if CollectCompletes(st, c) then 1 else 0
  {
    assert DurationObserved !in ProbeEvents(|reg|);
  }

  /** On the first cycle the handles are still the placeholders, so a
      failed connect makes `close_db` raise: the loop ends after that one
      cycle, with no duration observed and every family still empty. */
  lemma FirstConnectFailureEndsLoop(cycles: seq<CycleInput>)
    requires AllWellFormed(Registry, cycles) && cycles != []
    requires cycles[0].connect.ConnectRaised?
    ensures CyclesRun(Registry, Initial(Registry), cycles) == 1
    ensures RunCrashes(Registry, Initial(Registry), cycles)
    ensures var r := RunLoop(Registry, Initial(Registry), cycles);
      r.observations == 0 && r.gauges == InitialStore(Registry)
      && r.trace == [ConnectAttempted, CursorCloseCalled(Placeholder)]
  {
  }

  /** A failed connect after a connected cycle leaves the handles of that
      cycle in place, so `close_db` closes the same cursor again (and, if
      that returns, the same connection); whether the repeated close raises
      is decided by the driver, that is by the cycle's close inputs. */
  lemma FailedReconnectClosesOldHandles(reg: seq<Probe>, st: Snapshot, c1: CycleInput, c2: CycleInput)
    requires HasFamilies(reg, st.gauges) && WellFormed(reg, c1)
    requires c1.connect.Connected? && c2.connect.ConnectRaised?
    ensures var mid := AfterSleep(CollectStep(reg, st, c1));
      && CursorCloseCalled(Live(c1.connect.curs)) in CycleEvents(reg, st, c1)
      && CycleEvents(reg, mid, c2)[1] == CursorCloseCalled(Live(c1.connect.curs))
      && (!c2.cursorCloseRaises ==> CycleEvents(reg, mid, c2)[2] == ConnectionCloseCalled(Live(c1.connect.conn)))
      && (CollectCompletes(mid, c2) <==> !c2.cursorCloseRaises && !c2.connectionCloseRaises)
  {
    var e := CycleEvents(reg, st, c1);
    assert e[1 + |reg|] == CursorCloseCalled(Live(c1.connect.curs));
  }

  /** The loop observes one duration per `collect` call that returned; only
      the last call can have raised, and when none raised every cycle ran. */
  lemma {:induction false} RunObservations(reg: seq<Probe>, st: Snapshot, cycles: seq<CycleInput>)
    requires HasFamilies(reg, st.gauges) && AllWellFormed(reg, cycles)
    ensures RunLoop(reg, st, cycles).observations + (if RunCrashes(reg, st, cycles) then 1 else 0)
      == st.observations + CyclesRun(reg, st, cycles)
    ensures !RunCrashes(reg, st, cycles) ==> CyclesRun(reg, st, cycles) == |cycles|
    decreases |cycles|
  {
    if cycles != [] && CollectCompletes(st, cycles[0]) {
      RunObservations(reg, AfterSleep(CollectStep(reg, st, cycles[0])), cycles[1..]);
    }
  }

  /** The loop's trace only grows. */
  lemma {:induction false} RunExtendsTrace(reg: seq<Probe>, st: Snapshot, cycles: seq<CycleInput>)
    requires HasFamilies(reg, st.gauges) && AllWellFormed(reg, cycles)
    ensures st.trace <= RunLoop(reg, st, cycles).trace
    ensures cycles != [] ==>
      (|RunLoop(reg, st, cycles).trace| > |st.trace| && RunLoop(reg, st, cycles).trace[|st.trace|] == ConnectAttempted)
    decreases |cycles|
  {
    if cycles != [] {
      var next := AfterSleep(CollectStep(reg, st, cycles[0]));
      if CollectCompletes(st, cycles[0]) {
        RunExtendsTrace(reg, next, cycles[1..]);
        assert st.trace <= next.trace;
      }
    }
  }

  /** One `collect` call never sleeps, and when it returns its last event
      is the duration observation. */
  lemma CycleNeverSleeps(reg: seq<Probe>, st: Snapshot, c: CycleInput)
    ensures var e := CycleEvents(reg, st, c);
      && (forall p :: 0 <= p < |e| ==> e[p] != Slept)
      && (CollectCompletes(st, c) ==> e[|e| - 1] == DurationObserved)
  {
    assert Slept !in ProbeEvents(|reg|);
    assert Slept !in CycleEvents(reg, st, c);
  }

  /** In trace t from position `from` on, every sleep comes right after a
      duration observation. */
  ghost predicate SleepsFollowObservations(t: seq<Event>, from: nat)
  {
    forall p :: from <= p < |t| && t[p] == Slept ==> from < p && t[p - 1] == DurationObserved
  }

  /** Collect, then sleep: every sleep of the loop comes right after the
      duration observation of a `collect` call that returned. */
  lemma {:induction false} SleepFollowsObservation(reg: seq<Probe>, st: Snapshot, cycles: seq<CycleInput>)
    requires HasFamilies(reg, st.gauges) && AllWellFormed(reg, cycles)
    ensures SleepsFollowObservations(RunLoop(reg, st, cycles).trace, |st.trace|)
    decreases |cycles|
  {
    if cycles != [] {
      var c := cycles[0];
      var e := CycleEvents(reg, st, c);
      var mid := CollectStep(reg, st, c);
      CycleNeverSleeps(reg, st, c);
      var t := RunLoop(reg, st, cycles).trace;
      if CollectCompletes(st, c) {
        var next := AfterSleep(mid);
        SleepFollowsObservation(reg, next, cycles[1..]);
        RunExtendsTrace(reg, next, cycles[1..]);
        assert mid.trace <= t;
        forall p | |st.trace| <= p < |t| && t[p] == Slept
          ensures |st.trace| < p && t[p - 1] == DurationObserved
        {
          if p == |mid.trace| {
            assert t[p - 1] == e[|e| - 1];
          }
        }
      } else {
        forall p | |st.trace| <= p < |t|
          ensures t[p] != Slept
        {
          assert t[p] == e[p - |st.trace|];
        }
      }
    }
  }
}
