/** What every successful run's report promises, whatever the pipeline, the limits and the input. */
module StreamLaws {
  import opened Sequences
  import opened Ast
  import opened Ndjson
  import opened StreamRun
  import S = StableSort

  // ---- Accounting ----

  lemma {:induction false} EveryLineIsJudged<V, E>(p: Pipeline<V, E>, lines: seq<RawLine>)
    ensures |Accepted(p, lines)| + |Rejected(p, lines)| == |lines|
  {
    if lines == [] {
    } else {
      EveryLineIsJudged(p, lines[..|lines| - 1]);
    }
  }

  /** The batching of a sequence: nothing lost, full batches, and a last one that is not empty. */
  lemma {:induction false} BatchesPartition<T>(s: seq<T>, size: nat)
    requires size >= 1
    ensures Flatten(Batches(s, size)) == s
    ensures var b := Batches(s, size);
      && (forall i :: 0 <= i < |b| - 1 ==> |b[i]| == size)
      && (b != [] ==> 1 <= |b[|b| - 1]| <= size)
    decreases |s|
  {
    if |s| > size {
      var rest := Batches(s[size..], size);
      BatchesPartition(s[size..], size);
      assert Batches(s, size) == [s[..size]] + rest;
      assert ([s[..size]] + rest)[1..] == rest;
      assert s == s[..size] + s[size..];
    } else if s != [] {
      assert Batches(s, size) == [s] && Flatten([s]) == s;
    }
  }

  /** The number of batches is the length divided by the batch size, rounded up. */
  lemma {:induction false} BatchesCount<T>(s: seq<T>, size: nat)
    requires size >= 1
    ensures var n := |Batches(s, size)|;
      |s| <= n * size && (s == [] ==> n == 0) && (s != [] ==> (n - 1) * size < |s|)
    decreases |s|
  {
    if |s| <= size {
    } else {
      BatchesCount(s[size..], size);
      var m := |Batches(s[size..], size)|;
      assert (m + 1) * size == m * size + size && m * size == (m - 1) * size + size;
    }
  }

  /**
   * Every record read is validated, rejected or the one probe past a limit, and a run that is not
   * truncated has consumed every byte.
   */
  lemma Accounting<V, E>(p: Pipeline<V, E>, s: seq<Byte>)
    ensures var r := ReportOf(p, s);
      && r.recordsRead == r.recordsValidated + r.malformedCount + (if r.truncated then 1 else 0)
      && (!r.truncated ==> r.bytesConsumed == |s| && r.recordsRead == |Records(p, s)|)
      && (r.truncated <==> r.limitHit.Some?)
  {
    EveryLineIsJudged(p, Processed(p, s));
    BatchesPartition(Accepted(p, Processed(p, s)), p.BatchSize());
  }

  /** `batches` is the number of records validated divided by the batch size, rounded up. */
  lemma BatchCount<V, E>(p: Pipeline<V, E>, s: seq<Byte>)
    ensures var r := ReportOf(p, s);
      && r.recordsValidated <= r.batches * p.BatchSize()
      && (r.recordsValidated > 0 ==> (r.batches - 1) * p.BatchSize() < r.recordsValidated)
      && (r.recordsValidated == 0 ==> r.batches == 0)
  {
    BatchesPartition(Accepted(p, Processed(p, s)), p.BatchSize());
    BatchesCount(Accepted(p, Processed(p, s)), p.BatchSize());
  }

  /** A limit stops the run exactly at the first record it forbids. */
  lemma {:induction false} ProcessedIsLongest<V, E>(p: Pipeline<V, E>, s: seq<Byte>, from: nat, k: nat)
    requires from <= |Records(p, s)| && from <= k < ProcessedFrom(p, s, from)
    ensures LimitAt(p, s, k).None?
    decreases k - from
  {
    if from == k {
    } else {
      ProcessedIsLongest(p, s, from + 1, k);
    }
  }

  /** With only a record limit of `max`, the first `max` records are processed, or all if there are fewer. */
  lemma RecordLimit<V, E>(p: Pipeline<V, E>, s: seq<Byte>, max: nat)
    requires p.limits.maxRecords == Some(max) && p.limits.maxBytes == None
    ensures var r, total := ReportOf(p, s), |Records(p, s)|;
      && r.recordsValidated + r.malformedCount == (if total <= max then total else max)
      && (r.truncated <==> total > max)
  {
    Accounting(p, s);
    var n := ProcessedFrom(p, s, 0);
    if n > max {
      ProcessedIsLongest(p, s, 0, max);
    }
  }

  /** With only a byte limit, each processed record was started before the limit, and stopping means it was reached. */
  lemma ByteLimit<V, E>(p: Pipeline<V, E>, s: seq<Byte>, max: nat)
    requires p.limits.maxRecords == None && p.limits.maxBytes == Some(max)
    ensures var n := |Processed(p, s)|;
      && (forall k :: 0 <= k < n ==> Offset(p, s, k) < max)
      && (ReportOf(p, s).truncated ==> Offset(p, s, n) >= max && ReportOf(p, s).bytesConsumed == Offset(p, s, n + 1))
  {
    forall k | 0 <= k < |Processed(p, s)| ensures Offset(p, s, k) < max {
      ProcessedIsLongest(p, s, 0, k);
    }
  }

  // ---- Findings ----

  datatype Key = Key(column: string, check: string, severity: Severity)

  function KeyOf(v: Violation): Key { Key(v.column, v.check, v.severity) }

  /** Some violation with this key lists the row. */
  ghost predicate Marks(vs: seq<Violation>, row: nat, key: Key) {
    exists j :: 0 <= j < |vs| && KeyOf(vs[j]) == key && row in vs[j].rows
  }

  /** An engine whose row findings for a record depend on that record alone. */
  ghost predicate RowLocal<V(!new)>(execute: seq<V> -> Result<seq<Violation>, string>, flags: (V, Key) -> bool) {
    forall vs :: execute(vs).Ok? &&
      forall i, key :: 0 <= i < |vs| ==> (Marks(execute(vs).value, i, key) <==> flags(vs[i], key))
  }

  ghost predicate IsFindingOf(f: Finding, record: nat, key: Key) {
    f.record == Some(record) && Key(f.column, f.check, f.severity) == key
  }

  /** The report has a row finding with this key for this record. */
  ghost predicate Reports(findings: seq<Finding>, record: nat, key: Key) {
    exists f :: f in findings && IsFindingOf(f, record, key)
  }

  lemma {:induction false} RowFindingsReport<V>(records: seq<Row<V>>, batch: nat, v: Violation, rows: seq<nat>, record: nat, key: Key)
    ensures Reports(RowFindings(records, batch, v, rows), record, key) <==>
      KeyOf(v) == key && exists i :: 0 <= i < |records| && i in rows && records[i].record == record
  {
    if rows == [] {
    } else {
      var init, last := rows[..|rows| - 1], rows[|rows| - 1];
      RowFindingsReport(records, batch, v, init, record, key);
      var more := if last < |records| then [FindingFor(Some(records[last].record), batch, v)] else [];
      ReportsEither(RowFindings(records, batch, v, init), more, record, key);
      assert last < |records| ==> more[0] in more;
      assert forall i :: i in rows <==> i in init || i == last;
    }
  }

  lemma {:induction false} AllFindingsReport<V>(records: seq<Row<V>>, batch: nat, vs: seq<Violation>, record: nat, key: Key)
    ensures Reports(AllFindings(records, batch, vs), record, key) <==>
      exists i :: 0 <= i < |records| && records[i].record == record && Marks(vs, i, key)
  {
    if vs == [] {
    } else {
      var init, v := vs[..|vs| - 1], vs[|vs| - 1];
      AllFindingsReport(records, batch, init, record, key);
      RowFindingsReport(records, batch, v, v.rows, record, key);
      var before, more := AllFindings(records, batch, init), ViolationFindings(records, batch, v);
      ReportsEither(before, more, record, key);
      assert vs == init + [v];
      forall i: nat ensures Marks(vs, i, key) <==> Marks(init, i, key) || (KeyOf(v) == key && i in v.rows) {
        MarksEither(init, v, i, key);
      }
    }
  }

  lemma MarksEither(init: seq<Violation>, v: Violation, row: nat, key: Key)
    ensures Marks(init + [v], row, key) <==> Marks(init, row, key) || (KeyOf(v) == key && row in v.rows)
  {
    var vs := init + [v];
    assert vs[|init|] == v;
    assert forall j :: 0 <= j < |init| ==> vs[j] == init[j];
  }

  lemma ReportsEither(a: seq<Finding>, b: seq<Finding>, record: nat, key: Key)
    ensures Reports(a + b, record, key) <==> Reports(a, record, key) || Reports(b, record, key)
  {
  }

  /** Row `i` of some group carries this record number and is flagged with this key. */
  ghost predicate Flagged<V(!new)>(flags: (V, Key) -> bool, rows: seq<Row<V>>, record: nat, key: Key) {
    exists row :: row in rows && row.record == record && flags(row.value, key)
  }

  lemma FlaggedEither<V(!new)>(flags: (V, Key) -> bool, a: seq<Row<V>>, b: seq<Row<V>>, record: nat, key: Key)
    ensures Flagged(flags, a + b, record, key) <==> Flagged(flags, a, record, key) || Flagged(flags, b, record, key)
  {
  }

  lemma BatchFindingsReport<V(!new), E>(p: Pipeline<V, E>, flags: (V, Key) -> bool, records: seq<Row<V>>, batch: nat, record: nat, key: Key)
    requires RowLocal(p.execute, flags)
    ensures Reports(BatchFindings(p, records, batch), record, key) <==> Flagged(flags, records, record, key)
  {
    var vs := p.execute(Values(records)).value;
    AllFindingsReport(records, batch, vs, record, key);
    forall i | 0 <= i < |records| ensures Marks(vs, i, key) <==> flags(records[i].value, key) {
      assert Values(records)[i] == records[i].value;
    }
  }

  /** Findings of all batches, given what each batch reports. */
  lemma {:induction false} GroupFindingsReport<V(!new), E>(p: Pipeline<V, E>, flags: (V, Key) -> bool, groups: seq<seq<Row<V>>>, record: nat, key: Key)
    requires forall i :: 0 <= i < |groups| ==>
      (Reports(BatchFindings(p, groups[i], i), record, key) <==> Flagged(flags, groups[i], record, key))
    ensures Reports(FindingsOf(p, groups), record, key) <==> Flagged(flags, Flatten(groups), record, key)
  {
    if groups == [] {
    } else {
      var n := |groups| - 1;
      var init, last := groups[..n], groups[n];
      GroupFindingsReport(p, flags, init, record, key);
      OneMoreGroup(p, init, last);
      assert init + [last] == groups;
      ReportsEither(FindingsOf(p, init), BatchFindings(p, last, n), record, key);
      FlaggedEither(flags, Flatten(init), last, record, key);
    }
  }

  /** The accepted rows are the accepted lines, each under its own record number. */
  lemma {:induction false} AcceptedRows<V(!new), E>(p: Pipeline<V, E>, lines: seq<RawLine>, row: Row<V>)
    requires forall i :: 0 <= i < |lines| ==> lines[i].record == i
    ensures row in Accepted(p, lines) <==>
      row.record < |lines| && Judge(p, lines[row.record]).Accept? && Judge(p, lines[row.record]).value == row.value
  {
    if lines == [] {
    } else {
      AcceptedRows(p, lines[..|lines| - 1], row);
    }
  }

  lemma RunFindingsReport<V(!new), E>(p: Pipeline<V, E>, flags: (V, Key) -> bool, groups: seq<seq<Row<V>>>, record: nat, key: Key)
    requires RowLocal(p.execute, flags)
    ensures Reports(FindingsOf(p, groups), record, key) <==> Flagged(flags, Flatten(groups), record, key)
  {
    forall i | 0 <= i < |groups|
      ensures Reports(BatchFindings(p, groups[i], i), record, key) <==> Flagged(flags, groups[i], record, key)
    {
      BatchFindingsReport(p, flags, groups[i], i, record, key);
    }
    GroupFindingsReport(p, flags, groups, record, key);
  }

  /** Line `record` of the stream is processed, accepted, and flagged on its own value. */
  ghost predicate LineFlagged<V, E>(p: Pipeline<V, E>, flags: (V, Key) -> bool, s: seq<Byte>, record: nat, key: Key) {
    && record < |Processed(p, s)|
    && var verdict := Judge(p, Processed(p, s)[record]);
      verdict.Accept? && flags(verdict.value, key)
  }

  /**
   * For a row-local engine a run reports a key for record `n` exactly when line `n` of the stream was
   * accepted and its own value is flagged.  Rejected lines in between shift nothing, and no batch
   * boundary is visible.
   */
  lemma FindingsNameTheirLines<V(!new), E>(p: Pipeline<V, E>, flags: (V, Key) -> bool, s: seq<Byte>, record: nat, key: Key)
    requires RowLocal(p.execute, flags)
    ensures Reports(ReportOf(p, s).findings, record, key) <==> LineFlagged(p, flags, s, record, key)
  {
    var lines, findings := Processed(p, s), FindingsOf(p, Groups(p, s));
    RunFindingsReport(p, flags, Groups(p, s), record, key);
    BatchesPartition(Accepted(p, lines), p.BatchSize());
    RecordNumbers(p, s);
    forall row ensures row in Accepted(p, lines) <==>
      row.record < |lines| && Judge(p, lines[row.record]).Accept? && Judge(p, lines[row.record]).value == row.value
    {
      AcceptedRows(p, lines, row);
    }
    if record < |lines| && Judge(p, lines[record]).Accept? {
      assert Row(record, Judge(p, lines[record]).value) in Accepted(p, lines);
    }
  }

  /** Changing the batch size of a row-local run changes no row finding. */
  lemma BatchSizeIsInvisible<V(!new), E>(p: Pipeline<V, E>, flags: (V, Key) -> bool, s: seq<Byte>, size: nat, record: nat, key: Key)
    requires RowLocal(p.execute, flags)
    ensures var q := p.(limits := p.limits.(batchSize := size));
      Reports(ReportOf(q, s).findings, record, key) <==> Reports(ReportOf(p, s).findings, record, key)
  {
    var q := p.(limits := p.limits.(batchSize := size));
    SameExpectation(p, q, flags, s, record, key);
    FindingsNameTheirLines(p, flags, s, record, key);
    FindingsNameTheirLines(q, flags, s, record, key);
  }

  lemma SameExpectation<V, E>(p: Pipeline<V, E>, q: Pipeline<V, E>, flags: (V, Key) -> bool, s: seq<Byte>, record: nat, key: Key)
    requires q == p.(limits := p.limits.(batchSize := q.limits.batchSize))
    ensures LineFlagged(p, flags, s, record, key) <==> LineFlagged(q, flags, s, record, key)
  {
    SameLimits(p, q, s, 0);
  }

  lemma {:induction false} SameLimits<V, E>(p: Pipeline<V, E>, q: Pipeline<V, E>, s: seq<Byte>, k: nat)
    requires q == p.(limits := p.limits.(batchSize := q.limits.batchSize))
    requires k <= |Records(p, s)|
    ensures Records(q, s) == Records(p, s) && ProcessedFrom(q, s, k) == ProcessedFrom(p, s, k)
    decreases |Records(p, s)| - k
  {
    assert q.Cap() == p.Cap() && q.decoder == p.decoder;
    if k < |Records(p, s)| && LimitAt(p, s, k).None? {
      SameLimits(p, q, s, k + 1);
    }
  }

  // ---- The order of the report ----

  lemma FindingOrder()
    ensures S.TotalPreorder(FindingLe)
  {
    forall a: Finding, b: Finding ensures FindingLe(a, b) || FindingLe(b, a) {
      StringLeTotal(a.column, b.column);
      StringLeTotal(a.check, b.check);
    }
    forall a: Finding, b: Finding, c: Finding | FindingLe(a, b) && FindingLe(b, c) ensures FindingLe(a, c) {
      FindingLeTransitive(a, b, c);
    }
  }

  lemma FindingLeTransitive(a: Finding, b: Finding, c: Finding)
    requires FindingLe(a, b) && FindingLe(b, c)
    ensures FindingLe(a, c)
  {
    if a.record == b.record == c.record {
      StringLeTotal(a.column, b.column);
      StringLeTotal(b.column, c.column);
      if StringLe(a.column, b.column) && StringLe(b.column, c.column) {
        StringLeTransitive(a.column, b.column, c.column);
      }
      if StringLe(a.check, b.check) && StringLe(b.check, c.check) {
        StringLeTransitive(a.check, b.check, c.check);
      }
      StringLeTotal(a.column, c.column);
      StringLeTotal(a.check, b.check);
    }
  }

  /** The report lists every finding of every batch, none twice or lost, ordered by record, column, check and batch. */
  lemma FindingsAreSorted<V, E>(p: Pipeline<V, E>, s: seq<Byte>)
    ensures S.Sorted(FindingLe, ReportOf(p, s).findings)
    ensures multiset(ReportOf(p, s).findings) == multiset(FindingsOf(p, Groups(p, s)))
  {
    FindingOrder();
    S.SortIsStable(FindingLe, FindingsOf(p, Groups(p, s)));
  }

  // ---- Streams made of given lines ----

  predicate NoLimits<V, E>(p: Pipeline<V, E>) { p.limits.maxRecords == None && p.limits.maxBytes == None }

  /** A complete line that the reader keeps. */
  ghost predicate KeptLine<V, E>(p: Pipeline<V, E>, line: seq<Byte>) {
    IsLine(line) && line[|line| - 1] == NEWLINE && !Skipped(p.decoder, p.Cap(), line)
  }

  lemma {:induction false} NothingSkipped(d: Decoder, cap: nat, lines: seq<seq<Byte>>)
    requires forall i :: 0 <= i < |lines| ==> !Skipped(d, cap, lines[i])
    ensures Kept(d, cap, lines) == lines
  {
    if lines == [] {
    } else {
      NothingSkipped(d, cap, lines[1..]);
      assert lines == [lines[0]] + lines[1..];
    }
  }

  lemma {:induction false} NoLimitStops<V, E>(p: Pipeline<V, E>, s: seq<Byte>, k: nat)
    requires NoLimits(p) && k <= |Records(p, s)|
    ensures ProcessedFrom(p, s, k) == |Records(p, s)|
    decreases |Records(p, s)| - k
  {
    if k == |Records(p, s)| {
    } else {
      NoLimitStops(p, s, k + 1);
    }
  }

  /** A stream of kept lines has exactly these records, and without limits all are processed. */
  lemma StreamOfLines<V, E>(p: Pipeline<V, E>, lines: seq<seq<Byte>>)
    requires NoLimits(p) && forall i :: 0 <= i < |lines| ==> KeptLine(p, lines[i])
    ensures |Processed(p, Flatten(lines))| == |lines|
    ensures forall i :: 0 <= i < |lines| ==> Processed(p, Flatten(lines))[i] == RawOf(p.decoder, p.Cap(), lines[i], i)
  {
    var s := Flatten(lines);
    NewlineSplitUnique(lines, s);
    NothingSkipped(p.decoder, p.Cap(), lines);
    RawLineAt(p.decoder, p.Cap(), lines, 0, 0);
    NoLimitStops(p, s, 0);
    assert Processed(p, s) == Records(p, s);
    forall i | 0 <= i < |lines| ensures Processed(p, s)[i] == RawOf(p.decoder, p.Cap(), lines[i], i) {
      RawLineAt(p.decoder, p.Cap(), lines, 0, i);
    }
  }

  // ---- Both limits ----

  /** The run may read record `k`: neither as many records nor as many bytes as a limit allows have been read. */
  predicate Allowed<V, E>(p: Pipeline<V, E>, s: seq<Byte>, k: nat) {
    && (p.limits.maxRecords.Some? ==> k < p.limits.maxRecords.value)
    && (p.limits.maxBytes.Some? ==> Offset(p, s, k) < p.limits.maxBytes.value)
  }

  /**
   * Whatever limits are set, the run processes exactly the records up to the first that is not allowed,
   * and names the limit that stopped it, the record limit before the byte limit.
   */
  lemma LimitsStop<V, E>(p: Pipeline<V, E>, s: seq<Byte>)
    ensures var n, r := |Processed(p, s)|, ReportOf(p, s);
            && (forall k :: 0 <= k < n ==> Allowed(p, s, k) && Processed(p, s)[k] == Records(p, s)[k])
            && (n == |Records(p, s)| || !Allowed(p, s, n))
            && (r.truncated <==> n < |Records(p, s)|)
            && (r.truncated ==> r.recordsRead == n + 1 && r.bytesConsumed == Offset(p, s, n + 1))
            && r.limitHit == if !r.truncated then None
                             else if p.limits.maxRecords.Some? && n >= p.limits.maxRecords.value then Some(MaxRecords(p.limits.maxRecords.value))
                             else if p.limits.maxBytes.Some? then Some(MaxBytes(p.limits.maxBytes.value)) else None
  {
    forall k | 0 <= k < |Processed(p, s)| ensures Allowed(p, s, k) {
      ProcessedIsLongest(p, s, 0, k);
    }
  }
}
