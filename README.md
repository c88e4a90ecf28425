# oracledb_exporter collection engine in Dafny

This project models the collection engine of `OracleCollector` in the
oracledb_exporter. The exporter is a Prometheus exporter that polls an
Oracle database on a timer and publishes what it finds as gauge series.

The model covers four parts:

- **The gauge store** (`GaugeStore`). The constructor creates fifteen gauge
  families. Each family maps a label tuple to a value, and every write is
  `labels(...).set(1)`, so the value is always 1.
- **The probes** (`Probes`). The fifteen probe methods share one shape:
  execute the query, fetch all rows, then label each row. A row's first k
  columns become its label tuple, by position, where k is the family's
  label count; the tuple is set to 1. All of this sits inside a try block
  that only logs. The model states that shape once, as `ProbeEffect`, and
  stores the fifteen methods as a table (`Registry`) of names, metric names
  and label names.
- **One scrape cycle** (`Collector.OracleCollector.Collect`). It connects,
  runs the probes in order, calls `close_db` whatever happened, and then
  observes the duration in the collection-time summary.
- **The `main` loop** (`Collector.OracleCollector.Run`,
  `Collector.Serve`). It repeats collect-then-sleep forever.

The collector is a class whose fields are the ones the Python object
updates: `db_connect`, `db_cursor` and the gauge families. Two more fields
count duration observations and keep a trace of calls into the outside
world. `Collect`, `Sleep`, `Run` and `Serve` are proved against
specification functions on a `Snapshot` value of the whole state:
`CollectStep` for one cycle, `AfterSleep` for the sleep and `RunLoop` for
the loop. The smaller methods (`Connect`, `RunProbe`, `LabelRows`,
`CloseDb`, `RunAllProbes`, `OpenAndProbe`) instead state the new value of
each field they change, as a function of the old values, and that the
other fields keep theirs. The lemmas in `CollectorProperties` state what
the specification functions guarantee.

The driver and the clock are inputs. A `CycleInput` gives:

- the connect result;
- one `ProbeOutcome` per probe. The query raised, or it returned rows; with
  rows, labelling may raise at a given row;
- whether closing the live cursor or the live connection raises.

Three behaviours of the code shape the model:

- **Merge, not replace.** No code path clears a family or removes a series
  (main.py:143-164). Each probe only calls `labels(...).set(1)`
  (main.py:188 and its fourteen counterparts), so a series set in an
  earlier cycle stays, even when later cycles no longer fetch its row
  (`CycleNeverRemoves`, `RunNeverRemoves`).
- **Every value is 1.** redo_log_switches and dataguard_slave_status also
  set 1 (main.py:325, 433). The fetched switch count and sequence number
  appear only as label values (`RedoLogSwitchesSetsOne`,
  `ServedStoreIsPresenceOnly`).
- **`close_db` always runs, outside the try block.** `collect` calls
  `close_db` after the try block (main.py:164), so it runs after a failed
  connect too, and nothing catches an exception it raises. Such an
  exception escapes `collect` and ends the loop of `main`.
  - On the first cycle the handles still hold the empty-string
    placeholders of main.py:39, so `''.close()` (main.py:177) raises
    `AttributeError` (`FirstConnectFailureEndsLoop`, `RunObservations`).
  - On a later cycle both handles still belong to the last cycle whose
    connect succeeded, and that cycle's `close_db` has already closed
    them. So `close_db` closes the same cursor again and, if that returns,
    the same connection. Whether
    a repeated close raises is up to the driver; the model takes it from
    the cycle's close inputs (`FailedReconnectClosesOldHandles`).

## Model

| member | source | states |
|---|---|---|
| GaugeStore.MarkPresent | main.py:188 | a sequence of `labels(t).set(1)` calls, one per tuple in order: each call creates the tuple's series or overwrites it with 1 (characterised by `MarkPresentMeaning`) |
| GaugeStore.MarkPresentMeaning | main.py:187-188 | after `labels(t).set(1)` for each tuple in order, the family's series are the old ones plus the marked tuples; each marked tuple has the value 1; every other series keeps its value |
| GaugeStore.MarkPresentIdempotent | main.py:201-205 | setting the same tuples to 1 again leaves the family unchanged |
| GaugeStore.MarkPresentKeepsPresence | main.py:201-205 | setting tuples to 1 keeps a family whose values are all 1 that way |
| Probes.FirstShort | main.py:201-205 | the index of the first row too short to supply every label: all earlier rows are long enough and the row at that index is not |
| Probes.Applied | main.py:199-207 | the number of rows labelled before the probe's try block catches an exception: every earlier row labels, and the row at that index is short or raises |
| Probes.AppliedIs | main.py:201-207 | any row count with the stopping property is exactly the applied count |
| Probes.TuplesMeaning | main.py:201-205 | the i-th label tuple is the first k columns of the i-th row, by position |
| Probes.LabelFromMarks | main.py:201-205 | the row loop from row j on sets exactly the tuples of the applied rows from j on, in row order |
| Probes.ContributedIff | main.py:199-207 | a tuple is set by a probe run exactly when it is the first-k-columns tuple of a row before the stopping point |
| Probes.ProbeEffectMeaning | main.py:192-207 | a probe leaves its family holding the old series plus the tuples of the rows it labelled, each of those with value 1, and every other series unchanged |
| Probes.SuccessfulProbeSetsEveryRow | main.py:181-190 | when neither the query nor any row raises, every fetched row's tuple is in the family with value exactly 1 |
| Probes.FailedQueryChangesNothing | main.py:183-190 | when execute or fetchall raises, the probe logs an error and its family is unchanged |
| Probes.ShortRowStopsProbe | main.py:201-207 | a row with too few columns raises inside the try block; the rows before it stay set (no rollback) and no later row is applied |
| Probes.ProbeOnlyAdds | main.py:192-207 | a probe's family keys are exactly the old keys plus the run's tuples, so a probe never removes a series; an all-1 family stays all-1 |
| Probes.ProbeIdempotent | main.py:192-207 | running a probe twice on the same outcome gives the family one run gives |
| Probes.RegistryShape | main.py:147-161 | the table has fifteen probes, database_version first and dataguard_slave_status last |
| Probes.RegistryDistinct | main.py:40-141 | the fifteen gauge families have pairwise distinct metric names, so registering all of them succeeds |
| Probes.OnlineRedoLogsPositional | main.py:294-308 | online_redo_logs labels the query's seventh column (the log size, `bytes`) as "archived" and its eighth (the archived flag) as "bytes", because the labels are filled by position |
| Probes.RedoLogSwitchesSetsOne | main.py:312-327 | redo_log_switches sets its series to 1, not to the switch count; the count only appears as the "total" label |
| Probes.Registry | main.py:40-161 | the fifteen probes in the order `collect` calls them, each with the metric name and label names its family gets in the constructor |
| Probes.Tuples | main.py:201-205 | the label tuples `labels(row[0], ..., row[k-1])` of the first n rows, one per row, in row order |
| Probes.Contributed | main.py:199-207 | the tuples one probe run sets: those of the rows before the first row whose labelling raises |
| Probes.Raises | main.py:183-190 | the probe's try block catches an exception: the query raised, or some row failed to label |
| Probes.LabelFrom | main.py:201-205 | the probe's row loop from row j on: set the row's tuple to 1 and go on, until the rows run out or a row is short or raises |
| Probes.ProbeEffect | main.py:181-435 | the common effect of the fifteen probe methods on their family: the row loop run from the first row; a failed query sees no rows |
| Collector.ProbeStep | main.py:147-161 | one probe call of `collect`: the probe's family becomes its probe effect and every other family is left as it was |
| Collector.ProbesUpTo | main.py:147-161 | the store after the first n probe calls of `collect`, in table order |
| Collector.ProbeEvents | main.py:147-161 | the attempts of the first n probes in table order: probe i is the i-th attempt |
| Collector.CloseEvents | main.py:175-179 | what `close_db` calls: closing the cursor, then closing the connection only if closing the cursor returned |
| Collector.CollectCompletes | main.py:164-179 | `collect` returns normally exactly when both closes in `close_db` return; a placeholder handle always raises |
| Collector.StoreAfter | main.py:145-163 | the store after the try block of `collect`: every probe has run after a successful connect; nothing changed after a failed one |
| Collector.CycleEvents | main.py:143-168 | the calls one `collect` makes, in order: the connect, the probes only if it succeeded, `close_db`, and the duration observation only if `close_db` returned |
| Collector.CollectStep | main.py:143-168 | the collector's state after one `collect`: handles replaced only by a successful connect, the store after the probes, one more observation only if `collect` returned, and the cycle's calls appended |
| Collector.RunLoop | main.py:442-444 | the state after the loop of `main` on the given cycles: collect, then sleep, until a `collect` raises |
| Collector.RunCrashes | main.py:442-444 | one of the loop's `collect` calls raised, so `main` ended |
| Collector.InitialStore | main.py:38-141 | the constructor creates one empty family per probe |
| Collector.CyclesRun | main.py:442-444 | the loop makes at least one and at most as many `collect` calls as there are cycles |
| Collector.OracleCollector.constructor | main.py:38-141 | both handles start as the placeholder, every family is empty, and nothing has been observed |
| Collector.OracleCollector.Connect | main.py:170-173 | on success both fields hold the new connection and cursor; when connect or cursor() raises, both fields keep their old values |
| Collector.OracleCollector.RunProbe | main.py:181-190 | a probe method always returns; it changes only its own family, by the probe effect; it reports a caught exception exactly when the query or a row raised |
| Collector.OracleCollector.LabelRows | main.py:186-188 | the in-place row loop sets each row's tuple to 1 until a row is short or raises; the result is the probe effect, and it completes exactly when every row was applied |
| Collector.OracleCollector.CloseDb | main.py:175-179 | closes the cursor and then the connection; the connection is not reached when closing the cursor raised; returns normally only when both closes do |
| Collector.OracleCollector.RunAllProbes | main.py:147-161 | runs the fifteen probes in table order, each once, whatever their outcomes |
| Collector.OracleCollector.OpenAndProbe | main.py:145-163 | the try block: connect, then run every probe only when the connect succeeded; probe and connect errors are caught there |
| Collector.OracleCollector.Collect | main.py:143-168 | the try block, then `close_db` in any case, then the duration observed only when `close_db` returned; the new state is `CollectStep` of the old one |
| Collector.OracleCollector.Sleep | main.py:444 | the sleep adds only a sleep event |
| Collector.OracleCollector.Run | main.py:442-444 | collect then sleep for each cycle, stopping at the first `collect` that raises; the new state is `RunLoop`, and the count of calls is `CyclesRun` |
| Collector.Serve | main.py:438-444 | `main` builds the collector and runs its loop from the initial state |
| CollectorProperties.ProbesUpToUntouched | main.py:147-161 | a probe that has not run yet has not touched its family |
| CollectorProperties.ProbesUpToAt | main.py:147-161 | after the probes have run, each family holds exactly its own probe's effect on its old contents: a probe writes only its own family |
| CollectorProperties.ProbeIsolation | main.py:145-163 | a probe's family after the cycle depends only on its own outcome, whatever the other probes did |
| CollectorProperties.CycleFamily | main.py:143-168 | one cycle's effect on each family: after a successful connect, the old series plus the tuples its probe set; after a failed connect, unchanged |
| CollectorProperties.CycleNeverRemoves | main.py:143-168 | a cycle never removes a series from any family (merge semantics) |
| CollectorProperties.CycleIdempotent | main.py:143-168 | a second cycle whose probes see the same rows leaves the store as the first left it |
| CollectorProperties.CycleKeepsPresence | main.py:143-168 | a cycle keeps every value of the store equal to 1 |
| CollectorProperties.RunKeepsPresence | main.py:442-444 | the loop keeps every value of the store equal to 1 |
| CollectorProperties.ServedStoreIsPresenceOnly | main.py:438-444 | from construction on, every series of every family has value 1, whatever the rows |
| CollectorProperties.RunNeverRemoves | main.py:442-444 | the loop never removes a series from any family |
| CollectorProperties.ProbesAttemptedInOrder | main.py:146-161 | after a successful connect, the cycle connects first, then attempts probe i at position 1 + i, and attempts no probe afterwards |
| CollectorProperties.ProbeEventsCount | main.py:147-161 | among the first n probe attempts, probe j appears once if j < n and never otherwise |
| CollectorProperties.EachProbeAttemptedOnce | main.py:145-163 | each probe is attempted exactly once in a connected cycle and never when the connect failed |
| CollectorProperties.CollectorProbeOrder | main.py:146-161 | with the collector's own table: the connect attempt comes first, then probe i is attempted at position 1 + i for i = 0 to 14, from database_version to dataguard_slave_status, each exactly once |
| CollectorProperties.ConnectFailureSkipsProbes | main.py:145-164 | a failed connect runs no probe and leaves the store and both handles unchanged; `close_db` is still called on the old cursor |
| CollectorProperties.CloseOrder | main.py:164-179 | the cursor close always occurs and precedes any connection close; the connection is closed exactly when closing the cursor returned |
| CollectorProperties.CloseCallsOnce | main.py:164-179 | one `collect` closes its cursor exactly once and its connection exactly once when closing the cursor returned, never otherwise; no other handle is closed |
| CollectorProperties.CursorClosedBeforeConnection | main.py:164-179 | `close_db` is called exactly once per `collect`: the cursor is closed exactly once, before the connection; the connection is closed exactly once when closing the cursor returned and never otherwise; no other handle is closed |
| CollectorProperties.ObservedOncePerCompletedCycle | main.py:164-168 | the duration is observed exactly once when `close_db` returns and never when it raises, however many probes failed |
| CollectorProperties.FirstConnectFailureEndsLoop | main.py:143-179 | a failed connect on the first cycle makes `close_db` raise on the placeholder, so the loop stops after one cycle with nothing observed and every family empty |
| CollectorProperties.FailedReconnectClosesOldHandles | main.py:146-179 | after a connected cycle, a failed connect keeps that cycle's handles, so `close_db` closes the same cursor (and, if that returns, the same connection) a second time; the cycle returns exactly when the driver lets both repeated closes return |
| CollectorProperties.RunObservations | main.py:442-444 | the loop observes one duration per `collect` that returned; only the last call can have raised; when none raised, every cycle ran |
| CollectorProperties.RunExtendsTrace | main.py:442-444 | the loop only appends to the trace, and each `collect` starts with a connect attempt |
| CollectorProperties.CycleNeverSleeps | main.py:143-168 | one `collect` call never sleeps, and when it returns, its last action is the duration observation |
| CollectorProperties.SleepFollowsObservation | main.py:442-444 | collect runs before sleep: every sleep of the loop comes right after the duration observation of a `collect` that returned |

## Left out

- The SQL text of the fifteen queries is not modelled. A query is represented only by its outcome: it raised, or it returned these rows.
- The cx_Oracle driver is left out. Whether a query or a row's labelling raises, and whether closing a live cursor or connection raises, are inputs. How the driver behaves on an already closed handle is not known here.
- Row values are given already converted to label text. The failure of that conversion is `RaisedAtRow`.
- Rows longer than the label count are allowed; only their first k columns are used, as in the code.
- The Prometheus client is left out: the HTTP exposition server, the text format and the family registration itself. `RegistryDistinct` states only the precondition for registration, namely distinct metric names.
- The collection-time summary is modelled as a count of observations. The float duration and `time.time()` are not modelled.
- Collector.OracleCollector.Sleep: the sleep interval and the passage of time are not modelled; only the order of sleep against the other actions is kept.
- Environment and `.env` settings (`HTTP_PORT`, `DATA_SOURCE_NAME`, `LOG_LEVEL`, `SCRAPE_INTERVAL`) are left out, along with their parsing failures at import time.
- Logging and `print` output are left out; a caught exception is reported only as a `false` result.
- Concurrency between scraping and the HTTP server thread is left out: the model has one thread. The unused `threading` and `multiprocessing` imports do nothing.
- Collector.OracleCollector.Connect: when `cursor()` raises after `connect` succeeded, the new connection is neither stored nor closed. The model treats this as the same outcome as a failed connect and does not track the leaked connection.
- Collector.OracleCollector.Run: the endless `while True` loop is modelled on a finite list of cycle inputs. The loop ends early when a `collect` call raises.
- Exceptions from `logger.error`/`logger.info` themselves are left out.
