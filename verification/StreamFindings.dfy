/**
 * What the report of a run says about each batch, in terms of the violations that the engine returns for
 * the batch's records: which findings there are, how many, and when the run passes.
 */
module StreamFindings {
  import opened Sequences
  import opened Ast
  import opened Ndjson
  import opened StreamRun
  import opened StreamLaws
  import S = StableSort

  /** What the engine returns for a batch. */
  function Returned<V, E>(p: Pipeline<V, E>, s: seq<Byte>, b: nat): seq<Violation>
    requires b < |Groups(p, s)|
  {
    match p.execute(Values(Groups(p, s)[b]))
    case Ok(vs) => vs
    case Err(_) => []
  }

  predicate Holds(findings: seq<Finding>, record: Option<nat>, batch: nat, key: Key) {
    Finding(record, batch, key.column, key.check, key.severity) in findings
  }

  /** Some of the rows is within the batch and carries this record. */
  predicate Lists<V>(group: seq<Row<V>>, rows: seq<nat>, record: nat) {
    exists i :: 0 <= i < |group| && i in rows && group[i].record == record
  }

  /** A violation of the batch with this key that lists no rows, or lists the row of this record. */
  predicate Tells<V>(group: seq<Row<V>>, v: Violation, record: Option<nat>, key: Key) {
    && KeyOf(v) == key
    && match record
       case None => v.rows == []
       case Some(n) => Lists(group, v.rows, n)
  }

  ghost predicate SomeTells<V>(group: seq<Row<V>>, vs: seq<Violation>, record: Option<nat>, key: Key) {
    exists v :: v in vs && Tells(group, v, record, key)
  }

  lemma HoldsEither(a: seq<Finding>, b: seq<Finding>, record: Option<nat>, batch: nat, key: Key)
    ensures Holds(a + b, record, batch, key) <==> Holds(a, record, batch, key) || Holds(b, record, batch, key)
  {
  }

  lemma {:induction false} RowsHold<V>(group: seq<Row<V>>, batch: nat, v: Violation, rows: seq<nat>, record: Option<nat>, key: Key)
    ensures Holds(RowFindings(group, batch, v, rows), record, batch, key) <==>
            KeyOf(v) == key && record.Some? && Lists(group, rows, record.value)
  {
    if rows == [] {
    } else {
      var init, last := rows[..|rows| - 1], rows[|rows| - 1];
      RowsHold(group, batch, v, init, record, key);
      var more := if last < |group| then [Finding(Some(group[last].record), batch, v.column, v.check, v.severity)] else [];
      HoldsEither(RowFindings(group, batch, v, init), more, record, batch, key);
      LastRowHolds(group, init, last, record);
      assert rows == init + [last];
    }
  }

  lemma LastRowHolds<V>(group: seq<Row<V>>, init: seq<nat>, last: nat, record: Option<nat>)
    ensures record.Some? ==> (Lists(group, init + [last], record.value) <==>
                                Lists(group, init, record.value) || (last < |group| && group[last].record == record.value))
  {
    var rows := init + [last];
    assert forall i :: i in rows <==> i in init || i == last;
  }

  lemma ViolationHolds<V>(group: seq<Row<V>>, batch: nat, v: Violation, record: Option<nat>, key: Key)
    ensures Holds(ViolationFindings(group, batch, v), record, batch, key) <==> Tells(group, v, record, key)
  {
    if v.rows == [] {
      assert ViolationFindings(group, batch, v)[0] in ViolationFindings(group, batch, v);
    } else {
      RowsHold(group, batch, v, v.rows, record, key);
    }
  }

  lemma {:induction false} BatchHolds<V>(group: seq<Row<V>>, batch: nat, vs: seq<Violation>, record: Option<nat>, key: Key)
    ensures Holds(AllFindings(group, batch, vs), record, batch, key) <==> SomeTells(group, vs, record, key)
  {
    if vs == [] {
    } else {
      var init, last := vs[..|vs| - 1], vs[|vs| - 1];
      BatchHolds(group, batch, init, record, key);
      ViolationHolds(group, batch, last, record, key);
      HoldsEither(AllFindings(group, batch, init), ViolationFindings(group, batch, last), record, batch, key);
      assert forall v :: v in vs <==> v in init || v == last;
    }
  }

  lemma {:induction false} FindingsOfBatch<V>(group: seq<Row<V>>, batch: nat, vs: seq<Violation>)
    ensures forall f :: f in AllFindings(group, batch, vs) ==> f.batch == batch
  {
    if vs == [] {
    } else {
      FindingsOfBatch(group, batch, vs[..|vs| - 1]);
      var v := vs[|vs| - 1];
      RowsOfBatch(group, batch, v, v.rows);
    }
  }

  lemma {:induction false} RowsOfBatch<V>(group: seq<Row<V>>, batch: nat, v: Violation, rows: seq<nat>)
    ensures forall f :: f in RowFindings(group, batch, v, rows) ==> f.batch == batch
  {
    if rows == [] {
    } else {
      RowsOfBatch(group, batch, v, rows[..|rows| - 1]);
    }
  }

  lemma OneGroupHolds<V, E>(p: Pipeline<V, E>, group: seq<Row<V>>, n: nat, record: Option<nat>, b: nat, key: Key)
    requires p.execute(Values(group)).Ok?
    ensures Holds(BatchFindings(p, group, n), record, b, key) <==>
            b == n && SomeTells(group, p.execute(Values(group)).value, record, key)
  {
    BatchHolds(group, n, p.execute(Values(group)).value, record, key);
    FindingsOfBatch(group, n, p.execute(Values(group)).value);
  }

  lemma {:induction false} GroupsHold<V, E>(p: Pipeline<V, E>, groups: seq<seq<Row<V>>>, record: Option<nat>, b: nat, key: Key)
    requires AllMaterialize(p, groups)
    ensures Holds(FindingsOf(p, groups), record, b, key) <==>
            b < |groups| && SomeTells(groups[b], p.execute(Values(groups[b])).value, record, key)
  {
    if groups == [] {
    } else {
      var n := |groups| - 1;
      GroupsHold(p, groups[..n], record, b, key);
      OneGroupHolds(p, groups[n], n, record, b, key);
      HoldsEither(FindingsOf(p, groups[..n]), BatchFindings(p, groups[n], n), record, b, key);
    }
  }

  lemma SortingKeeps(findings: seq<Finding>, record: Option<nat>, b: nat, key: Key)
    ensures Holds(S.Sort(FindingLe, findings), record, b, key) <==> Holds(findings, record, b, key)
  {
  }

  /**
   * A successful run reports a finding for a batch exactly when the engine returned a violation with its
   * key: without a record when the violation lists no rows, and for a record when it lists the record's row.
   */
  lemma FindingsTellViolations<V, E>(p: Pipeline<V, E>, s: seq<Byte>, record: Option<nat>, b: nat, key: Key)
    requires Succeeds(p, s)
    ensures Holds(ReportOf(p, s).findings, record, b, key) <==>
            b < |Groups(p, s)| && SomeTells(Groups(p, s)[b], Returned(p, s, b), record, key)
  {
    GroupsHold(p, Groups(p, s), record, b, key);
    SortingKeeps(FindingsOf(p, Groups(p, s)), record, b, key);
  }

  /** A violation that the report shows: it lists no rows, or some row within the batch. */
  predicate Shown<V>(group: seq<Row<V>>, v: Violation) {
    v.rows == [] || exists i :: 0 <= i < |group| && i in v.rows
  }

  ghost predicate BlockingReturned<V, E>(p: Pipeline<V, E>, s: seq<Byte>) {
    exists b: nat, v :: b < |Groups(p, s)| && v in Returned(p, s, b) && v.severity == Blocking && Shown(Groups(p, s)[b], v)
  }

  /** The run fails exactly when the engine returns a Blocking violation that the report shows. */
  lemma FailsExactly<V, E>(p: Pipeline<V, E>, s: seq<Byte>)
    requires Succeeds(p, s)
    ensures !ReportOf(p, s).passed <==> BlockingReturned(p, s)
  {
    if HasBlocking(ReportOf(p, s).findings) {
      BlockingIsReturned(p, s);
    }
    if b: nat, v :| b < |Groups(p, s)| && v in Returned(p, s, b) && v.severity == Blocking && Shown(Groups(p, s)[b], v) {
      BlockingIsFound(p, s, b, v);
    }
  }

  lemma BlockingIsReturned<V, E>(p: Pipeline<V, E>, s: seq<Byte>)
    requires Succeeds(p, s) && HasBlocking(ReportOf(p, s).findings)
    ensures BlockingReturned(p, s)
  {
    var findings := ReportOf(p, s).findings;
    var i :| 0 <= i < |findings| && findings[i].severity == Blocking;
    var f := findings[i];
    var key := Key(f.column, f.check, f.severity);
    assert f == Finding(f.record, f.batch, key.column, key.check, key.severity);
    FindingsTellViolations(p, s, f.record, f.batch, key);
    var v :| v in Returned(p, s, f.batch) && Tells(Groups(p, s)[f.batch], v, f.record, key);
    assert Shown(Groups(p, s)[f.batch], v);
  }

  lemma BlockingIsFound<V, E>(p: Pipeline<V, E>, s: seq<Byte>, b: nat, v: Violation)
    requires Succeeds(p, s) && b < |Groups(p, s)| && v in Returned(p, s, b) && v.severity == Blocking && Shown(Groups(p, s)[b], v)
    ensures HasBlocking(ReportOf(p, s).findings)
  {
    var group, findings := Groups(p, s)[b], ReportOf(p, s).findings;
    var record := None;
    if v.rows != [] {
      var i :| 0 <= i < |group| && i in v.rows;
      record := Some(group[i].record);
    }
    assert Tells(group, v, record, KeyOf(v));
    FindingsTellViolations(p, s, record, b, KeyOf(v));
    var j :| 0 <= j < |findings| && findings[j] == Finding(record, b, v.column, v.check, v.severity);
  }

  // ---- How many findings ----

  /** The listed rows that lie within the batch. */
  ghost function Within(rows: seq<nat>, n: nat): set<nat> { set k: nat | k < |rows| && rows[k] < n }

  lemma {:induction false} OneForEachRow<V>(group: seq<Row<V>>, batch: nat, v: Violation, rows: seq<nat>)
    ensures |RowFindings(group, batch, v, rows)| == |Within(rows, |group|)|
  {
    if rows == [] {
      assert Within(rows, |group|) == {};
    } else {
      var n := |rows| - 1;
      OneForEachRow(group, batch, v, rows[..n]);
      assert Within(rows, |group|) == Within(rows[..n], |group|) + (if rows[n] < |group| then {n} else {});
    }
  }

  /** How many findings a batch adds: one for a violation without rows, else one for each row within the batch. */
  ghost function Shares(vs: seq<Violation>, n: nat): nat {
    if vs == [] then 0
    else (if vs[0].rows == [] then 1 else |Within(vs[0].rows, n)|) + Shares(vs[1..], n)
  }

  lemma {:induction false} SharesOfMore(vs: seq<Violation>, v: Violation, n: nat)
    ensures Shares(vs + [v], n) == Shares(vs, n) + (if v.rows == [] then 1 else |Within(v.rows, n)|)
  {
    if vs == [] {
      assert [v][1..] == [];
    } else {
      assert (vs + [v])[1..] == vs[1..] + [v];
      SharesOfMore(vs[1..], v, n);
    }
  }

  lemma {:induction false} NoneTwice<V>(group: seq<Row<V>>, batch: nat, vs: seq<Violation>)
    ensures |AllFindings(group, batch, vs)| == Shares(vs, |group|)
  {
    if vs == [] {
    } else {
      var init, v := vs[..|vs| - 1], vs[|vs| - 1];
      NoneTwice(group, batch, init);
      OneForEachRow(group, batch, v, v.rows);
      assert vs == init + [v];
      SharesOfMore(init, v, |group|);
    }
  }

  ghost function SharesOfBatches<V, E>(p: Pipeline<V, E>, groups: seq<seq<Row<V>>>): nat
    requires AllMaterialize(p, groups)
  {
    if groups == [] then 0
    else
      var n := |groups| - 1;
      SharesOfBatches(p, groups[..n]) + Shares(p.execute(Values(groups[n])).value, |groups[n]|)
  }

  lemma {:induction false} FindingsOfAll<V, E>(p: Pipeline<V, E>, groups: seq<seq<Row<V>>>)
    requires AllMaterialize(p, groups)
    ensures |FindingsOf(p, groups)| == SharesOfBatches(p, groups)
  {
    if groups == [] {
    } else {
      var n := |groups| - 1;
      FindingsOfAll(p, groups[..n]);
      NoneTwice(groups[n], n, p.execute(Values(groups[n])).value);
    }
  }

  /** The report has no more findings than the engine's violations ask for. */
  lemma FindingsAreCounted<V, E>(p: Pipeline<V, E>, s: seq<Byte>)
    requires Succeeds(p, s)
    ensures |ReportOf(p, s).findings| == SharesOfBatches(p, Groups(p, s))
  {
    FindingsOfAll(p, Groups(p, s));
  }

  // ---- The order of the report, and what an error names ----

  predicate SameColumn(f: Finding, g: Finding) { f.record == g.record && f.column == g.column }

  /** Findings come without a record first, then by record; among equals by column, check and batch. */
  lemma ReportIsOrdered<V, E>(p: Pipeline<V, E>, s: seq<Byte>, i: nat, j: nat)
    requires i < j < |ReportOf(p, s).findings|
    ensures var f, g := ReportOf(p, s).findings[i], ReportOf(p, s).findings[j];
            && (g.record.None? ==> f.record.None?)
            && (f.record.Some? && g.record.Some? ==> f.record.value <= g.record.value)
            && (f.record == g.record ==> StringLe(f.column, g.column))
            && (SameColumn(f, g) ==> StringLe(f.check, g.check))
            && (SameColumn(f, g) && f.check == g.check ==> f.batch <= g.batch)
  {
    FindingsAreSorted(p, s);
    var f, g := ReportOf(p, s).findings[i], ReportOf(p, s).findings[j];
    assert FindingLe(f, g);
    StringLeTotal(f.column, g.column);
    StringLeTotal(f.check, g.check);
  }

  /** A run that fails on a line names the line and what is wrong with it. */
  lemma ErrorNamesTheLine<V, E>(p: Pipeline<V, E>, s: seq<Byte>, e: RunError)
    requires Explains(p, s, e) && !e.Materialize?
    ensures e.record < |Processed(p, s)|
    ensures var line := Processed(p, s)[e.record];
            if line.exceeded then e == OversizedRecord(e.record, 0, 0) && p.oversized.FailFast?
            else
              p.malformed.FailFast? &&
              if !line.utf8 then e == InvalidUtf8(e.record)
              else p.parse(line.content).Err? && e == MalformedJson(e.record, "invalid JSON: " + p.parse(line.content).error)
  {
  }

  // ---- What becomes of a line ----

  /** Why a line is rejected: it is too long, not text, or not JSON; a raw preview is cut after 200 characters. */
  predicate IsReason<V, E>(p: Pipeline<V, E>, line: RawLine, why: Rejection) {
    if line.exceeded then
      why == Rejection(TooLong, "line exceeded max_record_bytes (" + Decimal(p.limits.maxRecordBytes) + ") and was discarded", None)
    else if !line.utf8 then why == Rejection(BadUtf8, "line is not valid UTF-8", None)
    else
      && p.parse(line.content).Err?
      && why.kind == BadJson && why.reason == "invalid JSON: " + p.parse(line.content).error
      && if !p.allowRaw then why.preview == None
         else
           var text := p.text(line.content);
           why.preview == Some(if |text| > 200 then text[..200] + "\U{2026}" else text)
  }

  /** A line is accepted, with its sanitised value and the events of that, when it fits, decodes and parses. */
  lemma LineIsJudged<V, E>(p: Pipeline<V, E>, line: RawLine)
    ensures match Judge(p, line)
            case Accept(v, events) =>
              !line.exceeded && line.utf8 && p.parse(line.content).Ok? && (v, events) == p.sanitize(p.parse(line.content).value)
            case Reject(why) => IsReason(p, line, why)
  {
  }

  /** When both kinds of malformed lines are collected up to the same maximum, the report lists the first ones. */
  lemma {:induction false} FirstAreCollected<V, E>(p: Pipeline<V, E>, ms: seq<Malformed>, max: nat)
    requires p.malformed == Collect(max) && p.oversized == Collect(max)
    ensures Diagnostics(p, ms) == if |ms| <= max then ms else ms[..max]
  {
    if ms == [] {
    } else {
      FirstAreCollected(p, ms[..|ms| - 1], max);
    }
  }

  /** Otherwise each kind is kept under its own policy: not at all when it is skipped, and up to its own maximum of the shared list. */
  lemma OneMoreDiagnostic<V, E>(p: Pipeline<V, E>, ms: seq<Malformed>, m: Malformed)
    ensures var kept, policy := Diagnostics(p, ms), if m.why.kind == TooLong then p.oversized else p.malformed;
            Diagnostics(p, ms + [m]) == match policy case Collect(max) => (if |kept| < max then kept + [m] else kept) case _ => kept
  {
    assert (ms + [m])[..|ms|] == ms;
  }

  // ---- Counters ----

  function IsExceeded(): RawLine -> bool { (line: RawLine) => line.exceeded }

  /** The line fits, decodes and parses. */
  function Parses<V, E>(p: Pipeline<V, E>): RawLine -> bool {
    (line: RawLine) => !line.exceeded && line.utf8 && p.parse(line.content).Ok?
  }

  lemma {:induction false} LinesAreCounted<V, E>(p: Pipeline<V, E>, lines: seq<RawLine>)
    ensures |Accepted(p, lines)| == |Positions(lines, Parses(p))|
    ensures OfKind(TooLong, Rejected(p, lines)) == |Positions(lines, IsExceeded())|
  {
    if lines == [] {
      assert Positions(lines, Parses(p)) == {} && Positions(lines, IsExceeded()) == {};
    } else {
      var init, last := lines[..|lines| - 1], lines[|lines| - 1];
      LinesAreCounted(p, init);
      assert lines == init + [last];
      PositionsOfMore(init, last, Parses(p));
      PositionsOfMore(init, last, IsExceeded());
      OneMoreLine(p, init, last);
      if Judge(p, last).Reject? {
        OneMoreRejection(p, Rejected(p, init), Malformed(last.record, Judge(p, last).why));
      }
    }
  }

  /** The counters of a report, in terms of the lines that were processed. */
  lemma ReportCounts<V, E>(p: Pipeline<V, E>, s: seq<Byte>)
    ensures var r, lines := ReportOf(p, s), Processed(p, s);
            && r.recordsValidated == |Positions(lines, Parses(p))|
            && r.malformedCount == |lines| - |Positions(lines, Parses(p))|
            && r.oversizedCount == |Positions(lines, IsExceeded())|
  {
    LinesAreCounted(p, Processed(p, s));
    EveryLineIsJudged(p, Processed(p, s));
    BatchesPartition(Accepted(p, Processed(p, s)), p.BatchSize());
  }

  /** The diagnostics and events of a report are those of the processed lines, in their order. */
  lemma ReportKeepsOrder<V, E>(p: Pipeline<V, E>, s: seq<Byte>)
    ensures ReportOf(p, s).malformed == Diagnostics(p, Rejected(p, Processed(p, s)))
    ensures ReportOf(p, s).events == Events(p, Processed(p, s))
  {
    DiagnosticsInOrder(p, s);
    S.SortOfSorted(RecordLe, Diagnostics(p, Rejected(p, Processed(p, s))));
  }
}
