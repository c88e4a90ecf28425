/** The probe registry and the effect of one probe on its gauge family.
    Each of the collector's fifteen probe methods executes one query,
    fetches all rows, and for each row in order sets the series named by
    the row's first k columns (k = the family's label count) to 1, inside
    a try block that only logs what it catches. */
module Probes {
  import opened GaugeStore

  /** One result row, each column already converted to its label text. */
  type Row = seq<string>

  /** A probe: the collector method's name, the metric name of its gauge
      family and the family's label names in declaration order. */
  datatype Probe = Probe(name: string, metric: string, labelNames: seq<string>)
  {
    /** Number of labels, hence number of leading columns used per row. */
    function Arity(): nat { |labelNames| }
  }

  const OverviewLabels: seq<string> :=
    ["name", "db_unique_name", "dbid", "open_mode", "created",
     "platform_name", "database_role", "controlfile_type",
     "current_scn", "log_mode", "FORCE_LOGGING", "flashback_on"]

  /** The fifteen probes in the order `collect` calls them, each with the
      family created for it in the constructor. */
  const Registry: seq<Probe> := [
    Probe("database_version", "oracledb_version_info", ["version"]),
    Probe("database_registry", "oracledb_database_registry_info",
          ["comp_id", "comp_name", "version", "status", "modified",
           "control", "schema", "procedure"]),
    Probe("high_water_mark_statistics", "oracledb_dba_high_water_mark_statistics_info",
          ["statistic_name", "highwater", "last_value", "description"]),
    Probe("instance_overview", "oracledb_instance_overview_info", OverviewLabels),
    Probe("database_overview", "oracledb_database_overview_info", OverviewLabels),
    Probe("initialization_parameters", "oracledb_initialization_parameters_info", ["spfile"]),
    Probe("control_files", "oracledb_control_files_info", ["name", "status", "file_size"]),
    Probe("online_redo_logs", "oracledb_online_redo_logs_info",
          ["instance_name_print", "thread_number_print", "groupno",
           "member", "redo_file_type", "log_status", "archived", "bytes"]),
    Probe("redo_log_switches", "oracledb_redo_log_switches_info", ["date", "total"]),
    Probe("tablespace_status", "oracledb_tablespace_status_info",
          ["tablespace_name", "tablespace_size", "tablespace_used",
           "tablespace_free", "tablespace_used_ratio"]),
    Probe("invalid_objects", "oracledb_invalid_objects_info",
          ["owner", "object_name", "object_type"]),
    Probe("invalid_indexes", "oracledb_invalid_indexes_info",
          ["owner", "index_name", "table_name"]),
    Probe("active_sql", "oracledb_active_sql_info",
          ["sid", "username", "osuser", "machine", "module", "status",
           "optimizer_mode", "sql_text"]),
    Probe("dataguard_master_status", "oracledb_dataguard_master_status_info",
          ["group", "thread", "sequence", "size_mb", "status"]),
    Probe("dataguard_slave_status", "oracledb_dataguard_slave_status_info",
          ["thread", "sequence"])
  ]

  /** Index of the online_redo_logs probe in the registry. */
  const OnlineRedoLogs: nat := 7

  /** The select list of the online_redo_logs query, in column order:
      the seventh column is the log size and the eighth the archived flag. */
  const OnlineRedoLogsColumns: seq<string> :=
    ["instance_name_print", "thread_number_print", "groupno", "member",
     "redo_file_type", "log_status", "bytes", "archived"]

  /** Index of the redo_log_switches probe in the registry. */
  const RedoLogSwitches: nat := 8

  /** What the database and the label conversion do during one probe.
      - QueryRaised: execute or fetchall raised, no row is seen;
      - Fetched(rows): the rows fetched; labelling raises only on a row
        shorter than the family's arity (an IndexError);
      - RaisedAtRow(rows, at): as Fetched, and in addition labelling row
        `at` raises (say, a value whose text conversion fails); an `at`
        past the last row never fires. */
  datatype ProbeOutcome =
    | QueryRaised
    | Fetched(rows: seq<Row>)
    | RaisedAtRow(rows: seq<Row>, at: nat)

  /** The rows the probe iterates over. */
  function RowsOf(o: ProbeOutcome): seq<Row>
  {
    if o.QueryRaised? then [] else o.rows
  }

  /** True when labelling row `r` raises for a reason other than its length. */
  predicate FailsAt(o: ProbeOutcome, r: nat)
  {
    o.RaisedAtRow? && o.at == r
  }

  /** Index of the first row with fewer than k columns, or |rows| when
      there is none. */
  function FirstShort(rows: seq<Row>, k: nat): (n: nat)
    ensures n <= |rows|
    ensures forall i :: 0 <= i < n ==> |rows[i]| >= k
    ensures n < |rows| ==> |rows[n]| < k
  {
    if rows == [] then 0
    else if |rows[0]| < k then 0
    else 1 + FirstShort(rows[1..], k)
  }

  /** Number of rows whose series are set before the probe stops: all rows
      up to the first one whose labelling raises. */
  function Applied(o: ProbeOutcome, k: nat): (n: nat)
    ensures n <= |RowsOf(o)|
    ensures forall i :: 0 <= i < n ==> |RowsOf(o)[i]| >= k && !FailsAt(o, i)
    ensures n < |RowsOf(o)| ==> |RowsOf(o)[n]| < k || FailsAt(o, n)
  {
    match o
    case QueryRaised => 0
    case Fetched(rows) => FirstShort(rows, k)
    case RaisedAtRow(rows, at) =>
      var s := FirstShort(rows, k);
      if at < s then at else s
  }

  /** The probe's try block catches an exception (and logs it). */
  predicate Raises(o: ProbeOutcome, k: nat)
  {
    o.QueryRaised? || Applied(o, k) < |RowsOf(o)|
  }

  /** The label tuples `labels(row[0], ..., row[k-1])` of the first n rows,
      in row order. */
  function Tuples(rows: seq<Row>, n: nat, k: nat): (ts: seq<Labels>)
    requires n <= |rows|
    requires forall i :: 0 <= i < n ==> |rows[i]| >= k
    ensures |ts| == n
  {
    if n == 0 then [] else Tuples(rows, n - 1, k) + [rows[n - 1][..k]]
  }

  /** The i-th tuple is the first k columns of the i-th row, by position. */
  lemma {:induction false} TuplesMeaning(rows: seq<Row>, n: nat, k: nat)
    requires n <= |rows|
    requires forall i :: 0 <= i < n ==> |rows[i]| >= k
    ensures forall i :: 0 <= i < n ==> Tuples(rows, n, k)[i] == rows[i][..k]
  {
    if n > 0 {
      TuplesMeaning(rows, n - 1, k);
    }
  }

  /** The tuples one probe run sets, in order: those of the rows before
      the first failing one. */
  function Contributed(o: ProbeOutcome, k: nat): seq<Labels>
  {
    Tuples(RowsOf(o), Applied(o, k), k)
  }

  /** The probe's loop from row j on: set the row's tuple to 1 and go on,
      until the rows run out or labelling a row raises. */
  function LabelFrom(f: Family, o: ProbeOutcome, k: nat, j: nat): Family
    decreases |RowsOf(o)| - j
  {
    if j >= |RowsOf(o)| || |RowsOf(o)[j]| < k || FailsAt(o, j) then f
    else LabelFrom(f[RowsOf(o)[j][..k] := Present], o, k, j + 1)
  }

  /** The family after one probe run. */
  function ProbeEffect(f: Family, o: ProbeOutcome, k: nat): Family
  {
    LabelFrom(f, o, k, 0)
  }

  /** The row loop marks exactly the contributed tuples, in row order. */
  lemma {:induction false} LabelFromMarks(f: Family, o: ProbeOutcome, k: nat, j: nat)
    requires j <= Applied(o, k)
    ensures LabelFrom(f, o, k, j) == MarkPresent(f, Contributed(o, k)[j..])
    decreases Applied(o, k) - j
  {
    var c := Contributed(o, k);
    TuplesMeaning(RowsOf(o), Applied(o, k), k);
    if j < Applied(o, k) {
      LabelFromMarks(f[c[j] := Present], o, k, j + 1);
      assert c[j..][1..] == c[j + 1..];
    } else {
      assert c[j..] == [];
    }
  }

  /** The conditions that pin down where a probe run stops: a row count n
      such that every earlier row labels and row n (if any) raises is the
      count the probe applies. */
  lemma AppliedIs(o: ProbeOutcome, k: nat, n: nat)
    requires n <= |RowsOf(o)|
    requires forall i :: 0 <= i < n ==> |RowsOf(o)[i]| >= k && !FailsAt(o, i)
    requires n < |RowsOf(o)| ==> |RowsOf(o)[n]| < k || FailsAt(o, n)
    ensures Applied(o, k) == n
  {
  }

  /** A tuple is contributed exactly when it is the tuple of a row before
      the stopping point. */
  lemma ContributedIff(o: ProbeOutcome, k: nat, t: Labels)
    ensures t in Contributed(o, k) <==>
      exists i :: 0 <= i < Applied(o, k) && |RowsOf(o)[i]| >= k && RowsOf(o)[i][..k] == t
  {
    TuplesMeaning(RowsOf(o), Applied(o, k), k);
    if t in Contributed(o, k) {
      var i :| 0 <= i < Applied(o, k) && Contributed(o, k)[i] == t;
    }
  }

  /** The family after a probe run: the old series plus this run's tuples,
      each of those set to 1, every other series unchanged. */
  lemma ProbeEffectMeaning(f: Family, o: ProbeOutcome, k: nat)
    ensures ProbeEffect(f, o, k) == MarkPresent(f, Contributed(o, k))
    ensures forall t :: t in ProbeEffect(f, o, k) <==> t in f || t in Contributed(o, k)
    ensures forall t :: t in Contributed(o, k) ==> ProbeEffect(f, o, k)[t] == Present
    ensures forall t :: t in f && t !in Contributed(o, k) ==> ProbeEffect(f, o, k)[t] == f[t]
  {
    LabelFromMarks(f, o, k, 0);
    assert Contributed(o, k)[0..] == Contributed(o, k);
    MarkPresentMeaning(f, Contributed(o, k));
  }

  /** A probe whose query succeeds and whose every row labels sets every
      row's tuple (its first k columns, by position) to exactly 1. */
  lemma SuccessfulProbeSetsEveryRow(f: Family, o: ProbeOutcome, k: nat, i: nat)
    requires !o.QueryRaised? && !Raises(o, k)
    requires i < |o.rows|
    ensures |o.rows[i]| >= k
    ensures o.rows[i][..k] in ProbeEffect(f, o, k)
    ensures ProbeEffect(f, o, k)[o.rows[i][..k]] == 1
  {
    TuplesMeaning(o.rows, Applied(o, k), k);
    assert Contributed(o, k)[i] == o.rows[i][..k];
    ProbeEffectMeaning(f, o, k);
  }

  /** A probe whose execute or fetch raises leaves its family as it was. */
  lemma FailedQueryChangesNothing(f: Family, k: nat)
    ensures ProbeEffect(f, QueryRaised, k) == f
    ensures Raises(QueryRaised, k)
  {
  }

  /** A short row stops the probe there: the probe reports an error, the
      rows before it keep their updates (no rollback) and no later row is
      applied. */
  lemma ShortRowStopsProbe(f: Family, rows: seq<Row>, k: nat, n: nat)
    requires n < |rows| && |rows[n]| < k
    requires forall i :: 0 <= i < n ==> |rows[i]| >= k
    ensures Raises(Fetched(rows), k)
    ensures Contributed(Fetched(rows), k) == Tuples(rows, n, k)
    ensures forall i :: 0 <= i < n ==> rows[i][..k] in ProbeEffect(f, Fetched(rows), k)
  {
    AppliedIs(Fetched(rows), k, n);
    TuplesMeaning(rows, n, k);
    ProbeEffectMeaning(f, Fetched(rows), k);
    forall i | 0 <= i < n
      ensures rows[i][..k] in ProbeEffect(f, Fetched(rows), k)
    {
      assert Tuples(rows, n, k)[i] == rows[i][..k];
    }
  }

  /** Keys after a probe: the old keys plus this run's tuples, so a probe
      never removes a series. */
  lemma ProbeOnlyAdds(f: Family, o: ProbeOutcome, k: nat)
    ensures f.Keys <= ProbeEffect(f, o, k).Keys
    ensures ProbeEffect(f, o, k).Keys == f.Keys + set t | t in Contributed(o, k)
    ensures PresenceOnly(f) ==> PresenceOnly(ProbeEffect(f, o, k))
  {
    ProbeEffectMeaning(f, o, k);
  }

  /** Running a probe twice on the same rows gives the family one run gives. */
  lemma ProbeIdempotent(f: Family, o: ProbeOutcome, k: nat)
    ensures ProbeEffect(ProbeEffect(f, o, k), o, k) == ProbeEffect(f, o, k)
  {
    ProbeEffectMeaning(f, o, k);
    ProbeEffectMeaning(ProbeEffect(f, o, k), o, k);
    MarkPresentIdempotent(f, Contributed(o, k));
  }

  /** The registry has fifteen probes, first database_version and last
      dataguard_slave_status. */
  lemma RegistryShape()
    ensures |Registry| == 15
    ensures Registry[0].name == "database_version"
    ensures Registry[14].name == "dataguard_slave_status"
  {
  }

  /** No two probes of the table share a metric name. */
  ghost predicate DistinctMetrics(reg: seq<Probe>)
  {
    forall i, j :: 0 <= i < j < |reg| ==> reg[i].metric != reg[j].metric
  }

  /** The fifteen families of the collector carry distinct metric names,
      so registering them all with the metrics library succeeds. */
  lemma RegistryDistinct()
    ensures DistinctMetrics(Registry)
  {
  }

  /** The mapping is positional: a full online_redo_logs row puts its
      seventh column (the log size) under the label "archived" and its
      eighth column (the archived flag) under "bytes". */
  lemma OnlineRedoLogsPositional(f: Family, row: Row)
    requires |row| >= 8
    ensures Registry[OnlineRedoLogs].name == "online_redo_logs"
    ensures Registry[OnlineRedoLogs].labelNames[6] == "archived"
    ensures OnlineRedoLogsColumns[6] == "bytes"
    ensures Registry[OnlineRedoLogs].labelNames[7] == "bytes"
    ensures OnlineRedoLogsColumns[7] == "archived"
    ensures row[..8] in ProbeEffect(f, Fetched([row]), Registry[OnlineRedoLogs].Arity())
    ensures ProbeEffect(f, Fetched([row]), Registry[OnlineRedoLogs].Arity())[row[..8]] == 1
  {
    SuccessfulProbeSetsEveryRow(f, Fetched([row]), 8, 0);
  }

  /** redo_log_switches sets its series to 1, not to the fetched switch
      count; the count only appears as the "total" label. */
  lemma RedoLogSwitchesSetsOne(f: Family, date: string, total: string)
    ensures Registry[RedoLogSwitches].labelNames == ["date", "total"]
    ensures [date, total] in ProbeEffect(f, Fetched([[date, total]]), Registry[RedoLogSwitches].Arity())
    ensures ProbeEffect(f, Fetched([[date, total]]), Registry[RedoLogSwitches].Arity())[[date, total]] == 1
  {
    var row: Row := [date, total];
    assert row[..2] == row;
    SuccessfulProbeSetsEveryRow(f, Fetched([row]), 2, 0);
  }
}
