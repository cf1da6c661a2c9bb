/**
 * Batch sizes and whole runs: the findings of a stream run
 * (crates/statguardian-stream/src/validator.rs) are the same for every batch size exactly when the
 * engine's checks are uniform over the records that runs can accept.
 */
module BatchRuns {
  import opened Sequences
  import opened Ast
  import opened Ndjson
  import opened StreamRun
  import opened StreamLaws
  import opened StreamCuts
  import opened RowChecks

  function WithBatchSize<V, E>(p: Pipeline<V, E>, size: nat): Pipeline<V, E> {
    p.(limits := p.limits.(batchSize := size))
  }

  /** Uniform checks: every batch size reports the same row findings. */
  lemma UniformChecksIgnoreBatches<V(!new), E>(p: Pipeline<V, E>, e: Checks<V>, s: seq<Byte>, size: nat, record: nat, key: Key)
    requires Implements(p.execute, e) && IsOrder(e.order, e.plan) && Uniform(e)
    ensures Reports(ReportOf(WithBatchSize(p, size), s).findings, record, key) <==> Reports(ReportOf(p, s).findings, record, key)
  {
    UniformChecksAreRowLocal(p.execute, e);
    BatchSizeIsInvisible(p, Flags(e), s, size, record, key);
  }

  // ---- The batches of a run ----

  lemma {:induction false} SameRows<V, E>(p: Pipeline<V, E>, size: nat, lines: seq<RawLine>)
    ensures Accepted(WithBatchSize(p, size), lines) == Accepted(p, lines)
  {
    if lines == [] {
    } else {
      SameRows(p, size, lines[..|lines| - 1]);
      assert Judge(WithBatchSize(p, size), lines[|lines| - 1]) == Judge(p, lines[|lines| - 1]);
    }
  }

  lemma {:induction false} SameProcessed<V, E>(p: Pipeline<V, E>, size: nat, s: seq<Byte>, k: nat)
    requires k <= |Records(p, s)|
    ensures ProcessedFrom(WithBatchSize(p, size), s, k) == ProcessedFrom(p, s, k)
    decreases |Records(p, s)| - k
  {
    var q := WithBatchSize(p, size);
    assert Records(q, s) == Records(p, s) && LimitAt(q, s, k) == LimitAt(p, s, k);
    if k < |Records(p, s)| && LimitAt(p, s, k).None? {
      SameProcessed(p, size, s, k + 1);
    }
  }

  lemma GroupsAre<V, E>(p: Pipeline<V, E>, size: nat, s: seq<Byte>)
    ensures var q := WithBatchSize(p, size); Groups(q, s) == Batches(RowsIn(p, s), q.BatchSize())
  {
    var q := WithBatchSize(p, size);
    SameProcessed(p, size, s, 0);
    assert Processed(q, s) == Processed(p, s);
    SameRows(p, size, Processed(p, s));
  }

  lemma ReportsOfGroups<V, E>(q: Pipeline<V, E>, s: seq<Byte>, record: nat, key: Key)
    ensures Reports(ReportOf(q, s).findings, record, key) <==> Reports(FindingsOf(q, Groups(q, s)), record, key)
  {
  }

  /** The rows carry ascending record numbers. */
  ghost predicate Numbered<V>(rows: seq<Row<V>>) { forall i, j :: 0 <= i < j < |rows| ==> rows[i].record < rows[j].record }

  lemma {:induction false} AcceptedAscend<V, E>(p: Pipeline<V, E>, lines: seq<RawLine>)
    requires forall i :: 0 <= i < |lines| ==> lines[i].record == i
    ensures Numbered(Accepted(p, lines)) && forall r :: r in Accepted(p, lines) ==> r.record < |lines|
  {
    if lines == [] {
    } else {
      AcceptedAscend(p, lines[..|lines| - 1]);
    }
  }

  lemma RowsAreNumbered<V, E>(p: Pipeline<V, E>, s: seq<Byte>)
    ensures Numbered(RowsIn(p, s))
  {
    RecordNumbers(p, s);
    forall i | 0 <= i < |Processed(p, s)| ensures Processed(p, s)[i].record == i {
      assert Processed(p, s)[i] == Records(p, s)[i];
    }
    AcceptedAscend(p, Processed(p, s));
  }

  // ---- One batch, and batches of one ----

  lemma OneGroup<T>(s: seq<T>)
    requires s != []
    ensures Batches(s, |s|) == [s]
  {
  }

  lemma OneBatchReports<V(!new), E>(q: Pipeline<V, E>, e: Checks<V>, rows: seq<Row<V>>, i: nat, key: Key)
    requires Implements(q.execute, e) && Numbered(rows) && i < |rows|
    ensures Reports(FindingsOf(q, [rows]), rows[i].record, key) <==> Marks(RunChecks(e, Values(rows)), i, key)
  {
    var vs := RunChecks(e, Values(rows));
    FindingsOfOneGroup(q, rows);
    assert q.execute(Values(rows)) == Ok(vs);
    AllFindingsReport(rows, 0, vs, rows[i].record, key);
    OnlyRowOfRecord(rows, vs, i, key);
  }

  lemma FindingsOfOneGroup<V, E>(q: Pipeline<V, E>, rows: seq<Row<V>>)
    ensures FindingsOf(q, [rows]) == BatchFindings(q, rows, 0)
  {
    OneMoreGroup(q, [], rows);
    assert [] + [rows] == [rows];
  }

  /** No other row carries the record number. */
  lemma OnlyRowOfRecord<V>(rows: seq<Row<V>>, vs: seq<Violation>, i: nat, key: Key)
    requires Numbered(rows) && i < |rows|
    ensures (exists j :: 0 <= j < |rows| && rows[j].record == rows[i].record && Marks(vs, j, key)) <==> Marks(vs, i, key)
  {
    assert forall j :: 0 <= j < |rows| && rows[j].record == rows[i].record ==> j == i;
  }

  /** With the batch as large as the stream, a record is reported as its batch marks it. */
  lemma OneBatch<V(!new), E>(p: Pipeline<V, E>, e: Checks<V>, s: seq<Byte>, i: nat, key: Key)
    requires Implements(p.execute, e) && i < |RowsIn(p, s)|
    ensures Reports(ReportOf(WithBatchSize(p, |RowsIn(p, s)|), s).findings, RowsIn(p, s)[i].record, key) <==>
            Marks(RunChecks(e, ValuesIn(p, s)), i, key)
  {
    var rows := RowsIn(p, s);
    var q := WithBatchSize(p, |rows|);
    GroupsAre(p, |rows|, s);
    ReportsOfGroups(q, s, rows[i].record, key);
    OneGroup(rows);
    RowsAreNumbered(p, s);
    OneBatchReports(q, e, rows, i, key);
  }

  lemma SingleRow<V(!new), E>(p: Pipeline<V, E>, e: Checks<V>, group: seq<Row<V>>, batch: nat, record: nat, key: Key)
    requires Implements(p.execute, e) && |group| == 1
    ensures Reports(BatchFindings(p, group, batch), record, key) <==> Flagged(Flags(e), group, record, key)
  {
    var vs := [group[0].value];
    assert Values(group) == vs;
    assert p.execute(vs) == Ok(RunChecks(e, vs));
    AllFindingsReport(group, batch, RunChecks(e, vs), record, key);
    OneRowFlagged(e, group[0], record, key);
    assert group == [group[0]];
  }

  lemma OneRowFlagged<V(!new)>(e: Checks<V>, row: Row<V>, record: nat, key: Key)
    ensures Flagged(Flags(e), [row], record, key) <==> record == row.record && Marks(RunChecks(e, [row.value]), 0, key)
  {
    assert row in [row];
  }

  lemma Singles<T>(s: seq<T>)
    ensures Flatten(Batches(s, 1)) == s && forall g :: 0 <= g < |Batches(s, 1)| ==> |Batches(s, 1)[g]| == 1
  {
    BatchesPartition(s, 1);
  }

  lemma SinglesReport<V(!new), E>(q: Pipeline<V, E>, e: Checks<V>, groups: seq<seq<Row<V>>>, record: nat, key: Key)
    requires Implements(q.execute, e) && forall g :: 0 <= g < |groups| ==> |groups[g]| == 1
    ensures Reports(FindingsOf(q, groups), record, key) <==> Flagged(Flags(e), Flatten(groups), record, key)
  {
    forall g | 0 <= g < |groups|
      ensures Reports(BatchFindings(q, groups[g], g), record, key) <==> Flagged(Flags(e), groups[g], record, key)
    {
      SingleRow(q, e, groups[g], g, record, key);
    }
    GroupFindingsReport(q, Flags(e), groups, record, key);
  }

  lemma FlaggedRow<V(!new)>(e: Checks<V>, rows: seq<Row<V>>, i: nat, key: Key)
    requires Numbered(rows) && i < |rows|
    ensures Flagged(Flags(e), rows, rows[i].record, key) <==> Marks(RunChecks(e, [rows[i].value]), 0, key)
  {
    assert rows[i] in rows;
    assert Flags(e)(rows[i].value, key) == Marks(RunChecks(e, [rows[i].value]), 0, key);
    forall row | row in rows && row.record == rows[i].record ensures row == rows[i] {
      var j :| 0 <= j < |rows| && rows[j] == row;
    }
  }

  /** With batches of one, a record is reported as it is marked alone. */
  lemma SingleBatches<V(!new), E>(p: Pipeline<V, E>, e: Checks<V>, s: seq<Byte>, i: nat, key: Key)
    requires Implements(p.execute, e) && i < |RowsIn(p, s)|
    ensures Reports(ReportOf(WithBatchSize(p, 1), s).findings, RowsIn(p, s)[i].record, key) <==>
            Marks(RunChecks(e, [ValuesIn(p, s)[i]]), 0, key)
  {
    var q, rows := WithBatchSize(p, 1), RowsIn(p, s);
    GroupsAre(p, 1, s);
    ReportsOfGroups(q, s, rows[i].record, key);
    Singles(rows);
    SinglesReport(q, e, Batches(rows, 1), rows[i].record, key);
    RowsAreNumbered(p, s);
    FlaggedRow(e, rows, i, key);
  }

  /** A stream over which the checks are not uniform is reported differently in one batch and in batches of one. */
  lemma BatchesShow<V(!new), E>(p: Pipeline<V, E>, e: Checks<V>, s: seq<Byte>, column: string, check: string, x: nat, i: nat)
    requires Implements(p.execute, e) && IsOrder(e.order, e.plan)
    requires !UniformAt(e, column, check, x, ValuesIn(p, s), i)
    ensures var n, key := |RowsIn(p, s)|, Key(column, check, Sources(e, column)[x].severity);
            && i < n
            && (Reports(ReportOf(WithBatchSize(p, n), s).findings, RowsIn(p, s)[i].record, key) !=
                Reports(ReportOf(WithBatchSize(p, 1), s).findings, RowsIn(p, s)[i].record, key))
  {
    var key := Key(column, check, Sources(e, column)[x].severity);
    DifferentlyHidden(e, column, check, x, ValuesIn(p, s), i);
    OneBatch(p, e, s, i, key);
    SingleBatches(p, e, s, i, key);
  }

  // ---- Exactly when the batch size never shows ----

  /** The checks are uniform over the consecutive values `a` to `b` of a stream. */
  ghost predicate UniformSlice<V, E>(p: Pipeline<V, E>, e: Checks<V>, s: seq<Byte>, a: nat, b: nat)
    requires a <= b <= |ValuesIn(p, s)|
  {
    forall column, check, x: nat, i: nat :: UniformAt(e, column, check, x, ValuesIn(p, s)[a..b], i)
  }

  /** They are uniform over whatever consecutive records a run without fatal lines can accept. */
  ghost predicate UniformOverStreams<V, E>(p: Pipeline<V, E>, e: Checks<V>) {
    forall s, a: nat, b: nat :: NothingFailsFast(p, s) && a <= b <= |ValuesIn(p, s)| ==> UniformSlice(p, e, s, a, b)
  }

  ghost predicate SameReports<V, E>(p: Pipeline<V, E>, s: seq<Byte>, size: nat, record: nat, key: Key) {
    Reports(ReportOf(WithBatchSize(p, size), s).findings, record, key) <==> Reports(ReportOf(p, s).findings, record, key)
  }

  /** No run that succeeds shows its batch size. */
  ghost predicate BatchSizeNeverShows<V, E>(p: Pipeline<V, E>) {
    forall s, size, record, key :: Succeeds(p, s) ==> SameReports(p, s, size, record, key)
  }

  lemma SucceedsExactly<V(!new), E>(p: Pipeline<V, E>, e: Checks<V>, s: seq<Byte>)
    requires Implements(p.execute, e)
    ensures Succeeds(p, s) <==> NothingFailsFast(p, s)
  {
    forall i | 0 <= i < |Groups(p, s)| ensures p.execute(Values(Groups(p, s)[i])).Ok? {
      assert p.execute(Values(Groups(p, s)[i])) == Ok(RunChecks(e, Values(Groups(p, s)[i])));
    }
  }

  /** Every batch is a slice of the rows. */
  lemma {:induction false} BatchIsSlice<T>(s: seq<T>, size: nat, g: nat) returns (a: nat, b: nat)
    requires size >= 1 && g < |Batches(s, size)|
    ensures a <= b <= |s| && Batches(s, size)[g] == s[a..b]
    decreases |s|
  {
    if |s| <= size {
      a, b := 0, |s|;
      assert s[0..|s|] == s;
    } else if g == 0 {
      a, b := 0, size;
    } else {
      var c, d := BatchIsSlice(s[size..], size, g - 1);
      a, b := size + c, size + d;
      SliceOfRest(s, size, c, d);
    }
  }

  lemma SliceOfRest<T>(s: seq<T>, n: nat, a: nat, b: nat)
    requires n <= |s| && a <= b <= |s| - n
    ensures s[n..][a..b] == s[n + a..n + b]
  {
  }

  lemma ValuesOfSlice<V>(rows: seq<Row<V>>, a: nat, b: nat)
    requires a <= b <= |rows|
    ensures Values(rows[a..b]) == Values(rows)[a..b]
  {
  }

  lemma UniformBatchReports<V(!new), E>(q: Pipeline<V, E>, e: Checks<V>, group: seq<Row<V>>, batch: nat, record: nat, key: Key)
    requires Implements(q.execute, e) && IsOrder(e.order, e.plan)
    requires forall column, check, x: nat, i: nat :: UniformAt(e, column, check, x, Values(group), i)
    ensures Reports(BatchFindings(q, group, batch), record, key) <==> Flagged(Flags(e), group, record, key)
  {
    var vs := Values(group);
    assert q.execute(vs) == Ok(RunChecks(e, vs));
    AllFindingsReport(group, batch, RunChecks(e, vs), record, key);
    forall k | 0 <= k < |group| ensures Marks(RunChecks(e, vs), k, key) <==> Flags(e)(group[k].value, key) {
      UniformBatchMarks(e, vs, k, key);
    }
  }

  /** Over a uniform stream every batch size reports each row as it is flagged alone. */
  lemma UniformStreamReports<V(!new), E>(p: Pipeline<V, E>, e: Checks<V>, s: seq<Byte>, size: nat, record: nat, key: Key)
    requires Implements(p.execute, e) && IsOrder(e.order, e.plan)
    requires UniformOverStreams(p, e) && NothingFailsFast(p, s)
    ensures Reports(ReportOf(WithBatchSize(p, size), s).findings, record, key) <==> Flagged(Flags(e), RowsIn(p, s), record, key)
  {
    var q, rows := WithBatchSize(p, size), RowsIn(p, s);
    var groups := Batches(rows, q.BatchSize());
    GroupsAre(p, size, s);
    ReportsOfGroups(q, s, record, key);
    forall g | 0 <= g < |groups|
      ensures Reports(BatchFindings(q, groups[g], g), record, key) <==> Flagged(Flags(e), groups[g], record, key)
    {
      var a, b := BatchIsSlice(rows, q.BatchSize(), g);
      ValuesOfSlice(rows, a, b);
      assert UniformSlice(p, e, s, a, b);
      UniformBatchReports(q, e, groups[g], g, record, key);
    }
    GroupFindingsReport(q, Flags(e), groups, record, key);
    BatchesPartition(rows, q.BatchSize());
  }

  lemma SizesAgree<V(!new), E>(p: Pipeline<V, E>, s: seq<Byte>, a: nat, b: nat, record: nat, key: Key)
    requires BatchSizeNeverShows(p) && Succeeds(p, s)
    ensures Reports(ReportOf(WithBatchSize(p, a), s).findings, record, key) <==>
            Reports(ReportOf(WithBatchSize(p, b), s).findings, record, key)
  {
    assert SameReports(p, s, a, record, key) && SameReports(p, s, b, record, key);
  }

  lemma NeverShowsIsUniform<V(!new), E>(p: Pipeline<V, E>, e: Checks<V>, t: seq<Byte>, column: string, check: string, x: nat, i: nat)
    requires Implements(p.execute, e) && IsOrder(e.order, e.plan)
    requires BatchSizeNeverShows(p) && NothingFailsFast(p, t)
    ensures UniformAt(e, column, check, x, ValuesIn(p, t), i)
  {
    if !UniformAt(e, column, check, x, ValuesIn(p, t), i) {
      var key := Key(column, check, Sources(e, column)[x].severity);
      SucceedsExactly(p, e, t);
      SizesAgree(p, t, |RowsIn(p, t)|, 1, RowsIn(p, t)[i].record, key);
      BatchesShow(p, e, t, column, check, x, i);
    }
  }

  /**
   * No run that succeeds shows its batch size exactly when the checks are uniform over the consecutive
   * records that runs accept.
   */
  lemma BatchSizeNeverShowsExactly<V(!new), E>(p: Pipeline<V, E>, e: Checks<V>)
    requires Implements(p.execute, e) && IsOrder(e.order, e.plan)
    ensures BatchSizeNeverShows(p) <==> UniformOverStreams(p, e)
  {
    if UniformOverStreams(p, e) {
      forall s, size, record, key | Succeeds(p, s) ensures SameReports(p, s, size, record, key) {
        SucceedsExactly(p, e, s);
        UniformStreamReports(p, e, s, size, record, key);
        UniformStreamReports(p, e, s, p.limits.batchSize, record, key);
        assert WithBatchSize(p, p.limits.batchSize) == p;
      }
    }
    if BatchSizeNeverShows(p) {
      forall s, a: nat, b: nat | NothingFailsFast(p, s) && a <= b <= |ValuesIn(p, s)| ensures UniformSlice(p, e, s, a, b) {
        NeverShowsInSlice(p, e, s, a, b);
      }
    }
  }

  lemma NeverShowsInSlice<V(!new), E>(p: Pipeline<V, E>, e: Checks<V>, s: seq<Byte>, a: nat, b: nat)
    requires Implements(p.execute, e) && IsOrder(e.order, e.plan)
    requires BatchSizeNeverShows(p) && NothingFailsFast(p, s) && a <= b <= |ValuesIn(p, s)|
    ensures UniformSlice(p, e, s, a, b)
  {
    var t := SliceIsAStream(p, s, a, b);
    forall column, check, x: nat, i: nat ensures UniformAt(e, column, check, x, ValuesIn(p, s)[a..b], i) {
      NeverShowsIsUniform(p, e, t, column, check, x, i);
    }
  }
}
