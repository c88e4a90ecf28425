/** The collector: its two connection fields, the gauge store, the count
    of duration observations, the cycle `collect` and the endless
    collect-then-sleep loop of `main`.  The database driver and the
    metrics library are inputs: every call into them is given as an
    outcome, and what the collector does with them is recorded as a trace
    of events.  The specification functions take the probe table `reg` as
    a parameter; the collector itself is built with `Registry`. */
module Collector {
  import opened GaugeStore
  import opened Probes

  /** What `db_connect` / `db_cursor` hold: the empty-string placeholder
      stored by the constructor, or a handle returned by the driver.  The
      placeholder has no `close` method, so closing it always raises. */
  datatype Handle = Placeholder | Live(id: nat)

  /** The result of `get_conn_and_cursor`: a connection and its cursor, or
      an exception from connecting or from opening the cursor. */
  datatype ConnectOutcome = Connected(conn: nat, curs: nat) | ConnectRaised

  /** Everything the outside world decides during one cycle: the connect
      result, one outcome per probe in registry order, and whether the
      driver raises when the live cursor or the live connection is closed. */
  datatype CycleInput = CycleInput(
    connect: ConnectOutcome,
    probes: seq<ProbeOutcome>,
    cursorCloseRaises: bool,
    connectionCloseRaises: bool)

  /** The collector's interactions with its environment, in order. */
  datatype Event =
    | ConnectAttempted
    | ProbeAttempted(probe: nat)
    | CursorCloseCalled(cursor: Handle)
    | ConnectionCloseCalled(connection: Handle)
    | DurationObserved
    | Slept

  /** The collector's whole state as a value. */
  datatype Snapshot = Snapshot(
    dbConnect: Handle,
    dbCursor: Handle,
    gauges: Store,
    observations: nat,
    trace: seq<Event>)

  /** A cycle input gives exactly one outcome per registered probe. */
  predicate WellFormed(reg: seq<Probe>, c: CycleInput)
  {
    |c.probes| == |reg|
  }

  ghost predicate AllWellFormed(reg: seq<Probe>, cycles: seq<CycleInput>)
  {
    forall i :: 0 <= i < |cycles| ==> WellFormed(reg, cycles[i])
  }

  /** The store has exactly one family per registered probe, at the
      probe's index. */
  predicate HasFamilies(reg: seq<Probe>, s: Store)
  {
    |s| == |reg|
  }

  /** The store created by the constructor: one empty family per probe. */
  function InitialStore(reg: seq<Probe>): (s: Store)
    ensures HasFamilies(reg, s)
    ensures forall i :: 0 <= i < |s| ==> s[i] == map[]
  {
    seq(|reg|, i => map[])
  }

  /** The state right after construction. */
  function Initial(reg: seq<Probe>): Snapshot
  {
    Snapshot(Placeholder, Placeholder, InitialStore(reg), 0, [])
  }

  /** Closing a handle returns normally only for a live handle whose
      driver does not raise. */
  predicate CloseSucceeds(h: Handle, raisesOnLive: bool)
  {
    h.Live? && !raisesOnLive
  }

  /** The store after probe i has run. */
  function ProbeStep(reg: seq<Probe>, s: Store, i: nat, o: ProbeOutcome): (r: Store)
    requires i < |reg| && HasFamilies(reg, s)
    ensures HasFamilies(reg, r)
  {
    s[i := ProbeEffect(s[i], o, reg[i].Arity())]
  }

  /** The store after the first n probes have run, in registry order. */
  function ProbesUpTo(reg: seq<Probe>, s: Store, outcomes: seq<ProbeOutcome>, n: nat): (r: Store)
    requires n <= |reg| && n <= |outcomes| && HasFamilies(reg, s)
    ensures HasFamilies(reg, r)
    decreases n
  {
    if n == 0 then s
    else ProbeStep(reg, ProbesUpTo(reg, s, outcomes, n - 1), n - 1, outcomes[n - 1])
  }

  /** The attempts of the first n probes, in registry order; a probe is
      identified by its index in the registry. */
  function ProbeEvents(n: nat): (e: seq<Event>)
    ensures |e| == n
    ensures forall i :: 0 <= i < n ==> e[i] == ProbeAttempted(i)
  {
    if n == 0 then [] else ProbeEvents(n - 1) + [ProbeAttempted(n - 1)]
  }

  /** `db_connect` after the connect step: replaced only on success. */
  function ConnectionAfter(st: Snapshot, c: CycleInput): Handle
  {
    if c.connect.Connected? then Live(c.connect.conn) else st.dbConnect
  }

  /** `db_cursor` after the connect step: replaced only on success. */
  function CursorAfter(st: Snapshot, c: CycleInput): Handle
  {
    if c.connect.Connected? then Live(c.connect.curs) else st.dbCursor
  }

  /** `close_db`: the cursor is closed first; the connection is closed only
      when closing the cursor returned normally. */
  function CloseEvents(cursor: Handle, connection: Handle, cursorRaises: bool): seq<Event>
  {
    [CursorCloseCalled(cursor)]
      + (if CloseSucceeds(cursor, cursorRaises) then [ConnectionCloseCalled(connection)] else [])
  }

  /** `collect` returns normally exactly when `close_db` does. */
  predicate CollectCompletes(st: Snapshot, c: CycleInput)
  {
    CloseSucceeds(CursorAfter(st, c), c.cursorCloseRaises)
    && CloseSucceeds(ConnectionAfter(st, c), c.connectionCloseRaises)
  }

  /** The events of connecting and running the probes. */
  function OpenEvents(reg: seq<Probe>, c: CycleInput): seq<Event>
  {
    [ConnectAttempted] + (if c.connect.Connected? then ProbeEvents(|reg|) else [])
  }

  /** The events of one `collect` call. */
  function CycleEvents(reg: seq<Probe>, st: Snapshot, c: CycleInput): seq<Event>
  {
    OpenEvents(reg, c)
      + CloseEvents(CursorAfter(st, c), ConnectionAfter(st, c), c.cursorCloseRaises)
      + (if CollectCompletes(st, c) then [DurationObserved] else [])
  }

  /** The store after one `collect` call: probes run only after a
      successful connect. */
  function StoreAfter(reg: seq<Probe>, st: Snapshot, c: CycleInput): (s: Store)
    requires WellFormed(reg, c) && HasFamilies(reg, st.gauges)
    ensures HasFamilies(reg, s)
  {
    if c.connect.Connected? then ProbesUpTo(reg, st.gauges, c.probes, |reg|) else st.gauges
  }

  /** The state after one `collect` call. */
  function CollectStep(reg: seq<Probe>, st: Snapshot, c: CycleInput): (r: Snapshot)
    requires WellFormed(reg, c) && HasFamilies(reg, st.gauges)
    ensures HasFamilies(reg, r.gauges)
  {
    Snapshot(
      ConnectionAfter(st, c),
      CursorAfter(st, c),
      StoreAfter(reg, st, c),
      st.observations + (if CollectCompletes(st, c) then 1 else 0),
      st.trace + CycleEvents(reg, st, c))
  }

  /** The state after `time.sleep`. */
  function AfterSleep(st: Snapshot): Snapshot
  {
    st.(trace := st.trace + [Slept])
  }

  /** The state after the loop of `main` has been fed the given cycles: it
      stops early when a `collect` call raises. */
  function RunLoop(reg: seq<Probe>, st: Snapshot, cycles: seq<CycleInput>): (r: Snapshot)
    requires AllWellFormed(reg, cycles) && HasFamilies(reg, st.gauges)
    ensures HasFamilies(reg, r.gauges)
    decreases |cycles|
  {
    if cycles == [] then st
    else if !CollectCompletes(st, cycles[0]) then CollectStep(reg, st, cycles[0])
    else RunLoop(reg, AfterSleep(CollectStep(reg, st, cycles[0])), cycles[1..])
  }

  /** How many `collect` calls the loop makes on the given cycles. */
  function CyclesRun(reg: seq<Probe>, st: Snapshot, cycles: seq<CycleInput>): (n: nat)
    requires AllWellFormed(reg, cycles) && HasFamilies(reg, st.gauges)
    ensures n <= |cycles|
    ensures cycles != [] ==> 1 <= n
    decreases |cycles|
  {
    if cycles == [] then 0
    else if !CollectCompletes(st, cycles[0]) then 1
    else 1 + CyclesRun(reg, AfterSleep(CollectStep(reg, st, cycles[0])), cycles[1..])
  }

  /** True when one of the loop's `collect` calls raised, ending `main`. */
  predicate RunCrashes(reg: seq<Probe>, st: Snapshot, cycles: seq<CycleInput>)
    requires AllWellFormed(reg, cycles) && HasFamilies(reg, st.gauges)
    decreases |cycles|
  {
    if cycles == [] then false
    else if !CollectCompletes(st, cycles[0]) then true
    else RunCrashes(reg, AfterSleep(CollectStep(reg, st, cycles[0])), cycles[1..])
  }

  class OracleCollector {
    /** The probe table, fixed at construction. */
    const registry: seq<Probe>
    var dbConnect: Handle
    var dbCursor: Handle
    var gauges: Store
    var observations: nat
    var trace: seq<Event>

    ghost predicate Valid()
      reads this
    {
      HasFamilies(registry, gauges)
    }

    function State(): Snapshot
      reads this
    {
      Snapshot(dbConnect, dbCursor, gauges, observations, trace)
    }

    /** Both handles start as placeholders and every family starts empty. */
    constructor ()
      ensures Valid() && registry == Registry && State() == Initial(Registry)
    {
      registry := Registry;
      dbConnect, dbCursor := Placeholder, Placeholder;
      gauges := InitialStore(Registry);
      observations := 0;
      trace := [];
    }

    /** `get_conn_and_cursor` and the assignment of its result: the fields
        change only when both the connection and the cursor were opened. */
    method Connect(outcome: ConnectOutcome) returns (ok: bool)
      modifies this
      ensures ok == outcome.Connected?
      ensures ok ==> dbConnect == Live(outcome.conn) && dbCursor == Live(outcome.curs)
      ensures !ok ==> dbConnect == old(dbConnect) && dbCursor == old(dbCursor)
      ensures gauges == old(gauges) && observations == old(observations)
      ensures trace == old(trace) + [ConnectAttempted]
    {
      trace := trace + [ConnectAttempted];
      ok := outcome.Connected?;
      if ok {
        dbConnect, dbCursor := Live(outcome.conn), Live(outcome.curs);
      }
    }

    /** One probe method: execute and fetch, then set each row's tuple to 1
        until a row fails to label.  Every exception is caught, so the probe
        always returns; `ok` is false when it logged an error. */
    method RunProbe(i: nat, o: ProbeOutcome) returns (ok: bool)
      requires Valid() && i < |registry|
      modifies this
      ensures Valid()
      ensures ok == !Raises(o, registry[i].Arity())
      ensures gauges == ProbeStep(registry, old(gauges), i, o)
      ensures trace == old(trace) + [ProbeAttempted(i)]
      ensures dbConnect == old(dbConnect) && dbCursor == old(dbCursor)
      ensures observations == old(observations)
    {
      trace := trace + [ProbeAttempted(i)];
      if o.QueryRaised? {
        ok := false;
        FailedQueryChangesNothing(gauges[i], registry[i].Arity());
        assert gauges[i := gauges[i]] == gauges;
        return;
      }
      ok := LabelRows(i, o, registry[i].Arity());
    }

    /** The loop over the fetched rows: each row's first k values become a
        series set to 1, in place, until a row is too short or raises; the
        rows labelled before that stay set. */
    method LabelRows(i: nat, o: ProbeOutcome, k: nat) returns (ok: bool)
      requires i < |gauges| && !o.QueryRaised?
      modifies this`gauges
      ensures ok == (Applied(o, k) == |o.rows|)
      ensures gauges == old(gauges)[i := ProbeEffect(old(gauges)[i], o, k)]
    {
      ghost var base := gauges;
      ghost var f0 := gauges[i];
      var rows := o.rows;
      assert RowsOf(o) == rows;
      ok := true;
      var j := 0;
      while j < |rows|
        invariant 0 <= j <= Applied(o, k) && ok
        invariant |gauges| == |base| && gauges == base[i := gauges[i]]
        invariant LabelFrom(gauges[i], o, k, j) == ProbeEffect(f0, o, k)
      {
        if |rows[j]| < k || FailsAt(o, j) {
          ok := false;
          break;
        }
        assert j < Applied(o, k);
        gauges := gauges[i := gauges[i][rows[j][..k] := Present]];
        j := j + 1;
      }
      assert Applied(o, k) == j;
    }

    /** `close_db`: close the cursor, then the connection.  An exception
        from either escapes, so `ok` is false; the connection is not
        closed when closing the cursor raised. */
    method CloseDb(cursorRaises: bool, connectionRaises: bool) returns (ok: bool)
      modifies this
      ensures ok == (CloseSucceeds(dbCursor, cursorRaises) && CloseSucceeds(dbConnect, connectionRaises))
      ensures trace == old(trace) + CloseEvents(dbCursor, dbConnect, cursorRaises)
      ensures dbConnect == old(dbConnect) && dbCursor == old(dbCursor)
      ensures gauges == old(gauges) && observations == old(observations)
    {
      trace := trace + [CursorCloseCalled(dbCursor)];
      if !CloseSucceeds(dbCursor, cursorRaises) {
        ok := false;
        return;
      }
      trace := trace + [ConnectionCloseCalled(dbConnect)];
      ok := CloseSucceeds(dbConnect, connectionRaises);
    }

    /** The probe calls of `collect`, in registry order.  None of them
        raises, so all of them run whatever their outcomes. */
    method RunAllProbes(outcomes: seq<ProbeOutcome>)
      requires Valid() && |outcomes| == |registry|
      modifies this
      ensures Valid()
      ensures gauges == ProbesUpTo(registry, old(gauges), outcomes, |registry|)
      ensures trace == old(trace) + ProbeEvents(|registry|)
      ensures dbConnect == old(dbConnect) && dbCursor == old(dbCursor)
      ensures observations == old(observations)
    {
      var i := 0;
      while i < |registry|
        invariant 0 <= i <= |registry| && Valid()
        invariant gauges == ProbesUpTo(registry, old(gauges), outcomes, i)
        invariant trace == old(trace) + ProbeEvents(i)
        invariant dbConnect == old(dbConnect) && dbCursor == old(dbCursor)
        invariant observations == old(observations)
      {
        var _ := RunProbe(i, outcomes[i]);
        i := i + 1;
      }
    }

    /** The try block of `collect`: connect, then run every probe in
        registry order only when the connect succeeded. */
    method OpenAndProbe(c: CycleInput)
      requires Valid() && WellFormed(registry, c)
      modifies this
      ensures Valid()
      ensures dbConnect == ConnectionAfter(old(State()), c)
      ensures dbCursor == CursorAfter(old(State()), c)
      ensures gauges == StoreAfter(registry, old(State()), c)
      ensures trace == old(trace) + OpenEvents(registry, c)
      ensures observations == old(observations)
    {
      var connected := Connect(c.connect);
      if connected {
        RunAllProbes(c.probes);
      }
    }

    /** `collect`: the try block, then `close_db` in any case, then one
        duration observation only when `close_db` returned.  `completed`
        is false when the exception from `close_db` escapes. */
    method Collect(c: CycleInput) returns (completed: bool)
      requires Valid() && WellFormed(registry, c)
      modifies this
      ensures Valid()
      ensures State() == CollectStep(registry, old(State()), c)
      ensures completed == CollectCompletes(old(State()), c)
    {
      OpenAndProbe(c);
      completed := CloseDb(c.cursorCloseRaises, c.connectionCloseRaises);
      if completed {
        observations := observations + 1;
        trace := trace + [DurationObserved];
      }
    }

    /** `time.sleep`: only the event is kept. */
    method Sleep()
      modifies this
      ensures State() == AfterSleep(old(State()))
    {
      trace := trace + [Slept];
    }

    /** The loop of `main`: collect, then sleep, for each given cycle,
        until a `collect` call raises.  `ran` counts the `collect` calls. */
    method Run(cycles: seq<CycleInput>) returns (ran: nat)
      requires Valid() && AllWellFormed(registry, cycles)
      modifies this
      ensures Valid()
      ensures State() == RunLoop(registry, old(State()), cycles)
      ensures ran == CyclesRun(registry, old(State()), cycles)
    {
      ran := 0;
      while ran < |cycles|
        invariant 0 <= ran <= |cycles| && Valid()
        invariant RunLoop(registry, old(State()), cycles) == RunLoop(registry, State(), cycles[ran..])
        invariant CyclesRun(registry, old(State()), cycles) == ran + CyclesRun(registry, State(), cycles[ran..])
      {
        var completed := Collect(cycles[ran]);
        assert cycles[ran..][0] == cycles[ran];
        assert cycles[ran..][1..] == cycles[ran + 1..];
        ran := ran + 1;
        if !completed {
          return;
        }
        Sleep();
      }
    }
  }

  /** `main`: build the collector and run its loop on the given cycles.
      Returns the number of `collect` calls and the final state. */
  method Serve(cycles: seq<CycleInput>) returns (ran: nat, final: Snapshot)
    requires AllWellFormed(Registry, cycles)
    ensures final == RunLoop(Registry, Initial(Registry), cycles)
    ensures ran == CyclesRun(Registry, Initial(Registry), cycles)
  {
    var collector := new OracleCollector();
    ran := collector.Run(cycles);
    final := collector.State();
  }
}
