/**
 * A stream validation run: `StreamValidator::validate_reader`, `flush_batch`, `RunState`
 * (crates/statguardian-stream/src/validator.rs).
 *
 * The specification describes a report as a function of the input's raw records: how many are
 * processed under the limits, which of them are accepted, how those fall into batches and what the
 * engine says about each batch.  JSON parsing, sanitising and the engine are functions supplied by
 * the pipeline; parsing and the engine return the library's error text when a line is not JSON or a
 * batch cannot be turned into a data frame.
 */
module StreamRun {
  import opened Sequences
  import opened Ast
  import opened Ndjson
  import S = StableSort

  datatype Limits = Limits(maxRecords: Option<nat>, maxBytes: Option<nat>, maxRecordBytes: nat, batchSize: nat)

  datatype Policy = FailFast | Skip | Collect(max: nat)

  datatype Kind = BadJson | BadUtf8 | TooLong

  /** A record waiting in, or validated with, a batch: its source record number and sanitised value. */
  datatype Row<V> = Row(record: nat, value: V)

  /** Why a line is rejected, and its raw text if the caller allows that. */
  datatype Rejection = Rejection(kind: Kind, reason: string, preview: Option<string>)

  datatype Malformed = Malformed(record: nat, why: Rejection)

  datatype Finding = Finding(record: Option<nat>, batch: nat, column: string, check: string, severity: Severity)

  datatype RunError =
    | OversizedRecord(record: nat, limit: nat, actual: nat)
    | InvalidUtf8(record: nat)
    | MalformedJson(record: nat, reason: string)
    | Materialize(batch: nat, reason: string)

  datatype LimitHit = MaxRecords(value: nat) | MaxBytes(value: nat)

  datatype Pipeline<!V, !E> = Pipeline(
    limits: Limits,
    malformed: Policy,
    oversized: Policy,
    decoder: Decoder,
    allowRaw: bool,
    text: seq<Byte> -> string,
    parse: seq<Byte> -> Result<V, string>,
    sanitize: V -> (V, seq<E>),
    execute: seq<V> -> Result<seq<Violation>, string>)
  {
    function Cap(): nat { if limits.maxRecordBytes == 0 then 1 else limits.maxRecordBytes }

    /** A batch is flushed once it holds at least `batch_size` records, so a size of 0 acts as 1. */
    function BatchSize(): (n: nat)
      ensures n >= 1
    {
      if limits.batchSize == 0 then 1 else limits.batchSize
    }

    function PolicyFor(kind: Kind): Policy { if kind.TooLong? then oversized else malformed }
  }

  datatype Report<E> = Report(
    recordsRead: nat, recordsValidated: nat, malformedCount: nat, oversizedCount: nat, batches: nat,
    bytesConsumed: nat, truncated: bool, passed: bool, findings: seq<Finding>, malformed: seq<Malformed>,
    events: seq<E>, limitHit: Option<LimitHit>)

  // ---- Specification: lines ----

  datatype Verdict<V, E> = Accept(value: V, events: seq<E>) | Reject(why: Rejection)

  /** At most `max` characters of a text, and an ellipsis if it is longer. */
  function Preview(text: string, max: nat): string {
    if |text| <= max then text else text[..max] + "\U{2026}"
  }

  function TooLongRejection<V, E>(p: Pipeline<V, E>): Rejection {
    var cap := Decimal(p.limits.maxRecordBytes);
    Rejection(TooLong, "line exceeded max_record_bytes (" + cap + ") and was discarded", None)
  }

  function BadUtf8Rejection(): Rejection { Rejection(BadUtf8, "line is not valid UTF-8", None) }

  function BadJsonRejection<V, E>(p: Pipeline<V, E>, content: seq<Byte>, error: string): Rejection {
    Rejection(BadJson, "invalid JSON: " + error, if p.allowRaw then Some(Preview(p.text(content), 200)) else None)
  }

  function Judge<V, E>(p: Pipeline<V, E>, line: RawLine): Verdict<V, E> {
    if line.exceeded then Reject(TooLongRejection(p))
    else if !line.utf8 then Reject(BadUtf8Rejection())
    else match p.parse(line.content)
      case Err(e) => Reject(BadJsonRejection(p, line.content, e))
      case Ok(v) => var (clean, events) := p.sanitize(v); Accept(clean, events)
  }

  predicate FailsFast<V, E>(p: Pipeline<V, E>, line: RawLine) {
    var verdict := Judge(p, line);
    verdict.Reject? && p.PolicyFor(verdict.why.kind).FailFast?
  }

  ghost predicate NoneFailsFast<V, E>(p: Pipeline<V, E>, lines: seq<RawLine>) {
    forall i :: 0 <= i < |lines| ==> !FailsFast(p, lines[i])
  }

  /** The accepted lines: source record number and sanitised value. */
  function Accepted<V, E>(p: Pipeline<V, E>, lines: seq<RawLine>): seq<Row<V>> {
    if lines == [] then [] else
      var init, last := lines[..|lines| - 1], lines[|lines| - 1];
      Accepted(p, init) + match Judge(p, last) case Accept(v, _) => [Row(last.record, v)] case Reject(_) => []
  }

  function Events<V, E>(p: Pipeline<V, E>, lines: seq<RawLine>): seq<E> {
    if lines == [] then [] else
      var init, last := lines[..|lines| - 1], lines[|lines| - 1];
      Events(p, init) + match Judge(p, last) case Accept(_, events) => events case Reject(_) => []
  }

  /** The rejected lines: source record number and reason. */
  function Rejected<V, E>(p: Pipeline<V, E>, lines: seq<RawLine>): seq<Malformed> {
    if lines == [] then [] else
      var init, last := lines[..|lines| - 1], lines[|lines| - 1];
      Rejected(p, init) + match Judge(p, last) case Accept(_, _) => [] case Reject(why) => [Malformed(last.record, why)]
  }

  function OfKind(kind: Kind, ms: seq<Malformed>): nat {
    if ms == [] then 0
    else OfKind(kind, ms[..|ms| - 1]) + if ms[|ms| - 1].why.kind == kind then 1 else 0
  }

  /** The rejected lines that are reported: each policy bounds the shared list by its own maximum. */
  function Diagnostics<V, E>(p: Pipeline<V, E>, ms: seq<Malformed>): seq<Malformed> {
    if ms == [] then [] else
      var kept, last := Diagnostics(p, ms[..|ms| - 1]), ms[|ms| - 1];
      match p.PolicyFor(last.why.kind)
      case Collect(max) => if |kept| < max then kept + [last] else kept
      case _ => kept
  }

  // ---- Specification: batches and findings ----

  function Batches<T>(s: seq<T>, size: nat): seq<seq<T>>
    requires size >= 1
    decreases |s|
  {
    if s == [] then [] else if |s| <= size then [s] else [s[..size]] + Batches(s[size..], size)
  }

  function Values<V>(batch: seq<Row<V>>): (r: seq<V>)
    ensures |r| == |batch|
    ensures forall i :: 0 <= i < |batch| ==> r[i] == batch[i].value
  {
    seq(|batch|, i requires 0 <= i < |batch| => batch[i].value)
  }

  function FindingFor(record: Option<nat>, batch: nat, v: Violation): Finding {
    Finding(record, batch, v.column, v.check, v.severity)
  }

  /** One finding for each row of a violation, under the number of the record in that row. */
  function RowFindings<V>(records: seq<Row<V>>, batch: nat, v: Violation, rows: seq<nat>): seq<Finding> {
    if rows == [] then [] else
      var last := rows[|rows| - 1];
      RowFindings(records, batch, v, rows[..|rows| - 1]) +
      if last < |records| then [FindingFor(Some(records[last].record), batch, v)] else []
  }

  function ViolationFindings<V>(records: seq<Row<V>>, batch: nat, v: Violation): seq<Finding> {
    if v.rows == [] then [FindingFor(None, batch, v)] else RowFindings(records, batch, v, v.rows)
  }

  function AllFindings<V>(records: seq<Row<V>>, batch: nat, vs: seq<Violation>): seq<Finding> {
    if vs == [] then [] else
      AllFindings(records, batch, vs[..|vs| - 1]) + ViolationFindings(records, batch, vs[|vs| - 1])
  }

  function BatchFindings<V, E>(p: Pipeline<V, E>, records: seq<Row<V>>, batch: nat): seq<Finding> {
    match p.execute(Values(records))
    case Err(_) => []
    case Ok(vs) => AllFindings(records, batch, vs)
  }

  function FindingsOf<V, E>(p: Pipeline<V, E>, groups: seq<seq<Row<V>>>): seq<Finding> {
    if groups == [] then [] else
      var n := |groups| - 1;
      FindingsOf(p, groups[..n]) + BatchFindings(p, groups[n], n)
  }

  ghost predicate AllMaterialize<V, E>(p: Pipeline<V, E>, groups: seq<seq<Row<V>>>) {
    forall i :: 0 <= i < |groups| ==> p.execute(Values(groups[i])).Ok?
  }

  /** The report order: record (aggregate findings first), column, check, batch. */
  predicate FindingLe(a: Finding, b: Finding) {
    if a.record != b.record then a.record.None? || (b.record.Some? && a.record.value <= b.record.value)
    else if a.column != b.column then StringLe(a.column, b.column)
    else if a.check != b.check then StringLe(a.check, b.check)
    else a.batch <= b.batch
  }

  predicate RecordLe(a: Malformed, b: Malformed) { a.record <= b.record }

  predicate HasBlocking(findings: seq<Finding>) {
    exists i :: 0 <= i < |findings| && findings[i].severity == Blocking
  }

  // ---- Specification: limits ----

  function Records<V, E>(p: Pipeline<V, E>, s: seq<Byte>): seq<RawLine> {
    RecordsFrom(p.decoder, p.Cap(), s, 0)
  }

  /** Bytes consumed once `k` records have been read. */
  function Offset<V, E>(p: Pipeline<V, E>, s: seq<Byte>, k: nat): nat {
    |s| - |RestAfter(p.decoder, p.Cap(), s, k)|
  }

  /** The limit, if any, that stops the run before reading record `k`. */
  function LimitAt<V, E>(p: Pipeline<V, E>, s: seq<Byte>, k: nat): Option<LimitHit> {
    if p.limits.maxRecords.Some? && k >= p.limits.maxRecords.value then Some(MaxRecords(p.limits.maxRecords.value))
    else if p.limits.maxBytes.Some? && Offset(p, s, k) >= p.limits.maxBytes.value then Some(MaxBytes(p.limits.maxBytes.value))
    else None
  }

  /** The number of records processed, given that the first `k` are. */
  function ProcessedFrom<V, E>(p: Pipeline<V, E>, s: seq<Byte>, k: nat): (n: nat)
    requires k <= |Records(p, s)|
    ensures k <= n <= |Records(p, s)|
    ensures n == |Records(p, s)| || LimitAt(p, s, n).Some?
    decreases |Records(p, s)| - k
  {
    if k == |Records(p, s)| || LimitAt(p, s, k).Some? then k else ProcessedFrom(p, s, k + 1)
  }

  /** The records the run processes: all of them, or those before the first limit. */
  function Processed<V, E>(p: Pipeline<V, E>, s: seq<Byte>): (lines: seq<RawLine>)
    ensures lines <= Records(p, s)
  {
    Records(p, s)[..ProcessedFrom(p, s, 0)]
  }

  function Groups<V, E>(p: Pipeline<V, E>, s: seq<Byte>): seq<seq<Row<V>>> {
    Batches(Accepted(p, Processed(p, s)), p.BatchSize())
  }

  /** Where a run stops reading.  A limit that stops it costs one probe record, which counts as read. */
  datatype Stop = Stop(recordsRead: nat, bytesConsumed: nat, truncated: bool, limitHit: Option<LimitHit>)

  function StopOf<V, E>(p: Pipeline<V, E>, s: seq<Byte>): Stop {
    var n := |Processed(p, s)|;
    if n < |Records(p, s)| then Stop(n + 1, Offset(p, s, n + 1), true, LimitAt(p, s, n))
    else Stop(n, |s|, false, None)
  }

  /** The counters of a run that has handled `done` and validated `groups`. */
  datatype Tally<E> = Tally(
    recordsValidated: nat, malformedCount: nat, oversizedCount: nat, batches: nat,
    findings: seq<Finding>, malformed: seq<Malformed>, events: seq<E>)

  function TallyOf<V, E>(p: Pipeline<V, E>, done: seq<RawLine>, groups: seq<seq<Row<V>>>): Tally<E> {
    var rejected := Rejected(p, done);
    Tally(|Flatten(groups)|, |rejected|, OfKind(TooLong, rejected), |groups|,
          FindingsOf(p, groups), Diagnostics(p, rejected), Events(p, done))
  }

  function Finish<E>(stop: Stop, t: Tally<E>): Report<E> {
    var findings := S.Sort(FindingLe, t.findings);
    Report(stop.recordsRead, t.recordsValidated, t.malformedCount, t.oversizedCount, t.batches, stop.bytesConsumed,
           stop.truncated, !HasBlocking(findings), findings, S.Sort(RecordLe, t.malformed), t.events, stop.limitHit)
  }

  /** The report of a successful run. */
  function ReportOf<V, E>(p: Pipeline<V, E>, s: seq<Byte>): Report<E> {
    Finish(StopOf(p, s), TallyOf(p, Processed(p, s), Groups(p, s)))
  }

  ghost predicate Succeeds<V, E>(p: Pipeline<V, E>, s: seq<Byte>) {
    NoneFailsFast(p, Processed(p, s)) && AllMaterialize(p, Groups(p, s))
  }

  /** The batches that are flushed while reading, because they are full. */
  function FullBatches<T>(s: seq<T>, size: nat): seq<seq<T>>
    requires size >= 1
    decreases |s|
  {
    if |s| < size then [] else [s[..size]] + FullBatches(s[size..], size)
  }

  /** The rows that are waiting for a batch, or have been flushed, before line `k` is read. */
  function AcceptedBefore<V, E>(p: Pipeline<V, E>, s: seq<Byte>, k: nat): seq<Row<V>>
    requires k <= |Processed(p, s)|
  {
    Accepted(p, Processed(p, s)[..k])
  }

  function ErrorFor(record: nat, why: Rejection): RunError {
    match why.kind
    case TooLong => OversizedRecord(record, 0, 0)
    case BadUtf8 => InvalidUtf8(record)
    case BadJson => MalformedJson(record, why.reason)
  }

  /** Line `k` is the first that fails fast, and every batch that was full by then materialises. */
  ghost predicate LineCause<V, E>(p: Pipeline<V, E>, s: seq<Byte>, k: nat) {
    && k < |Processed(p, s)|
    && FailsFast(p, Processed(p, s)[k])
    && NoneFailsFast(p, Processed(p, s)[..k])
    && AllMaterialize(p, FullBatches(AcceptedBefore(p, s, k), p.BatchSize()))
  }

  /** Batch `b` is the first that does not materialise, and it was full before any line failed fast. */
  ghost predicate BatchCause<V, E>(p: Pipeline<V, E>, s: seq<Byte>, b: nat) {
    && b < |Groups(p, s)|
    && p.execute(Values(Groups(p, s)[b])).Err?
    && AllMaterialize(p, Groups(p, s)[..b])
    && (forall k :: 0 <= k < |Processed(p, s)| && FailsFast(p, Processed(p, s)[k]) ==>
          b < |FullBatches(AcceptedBefore(p, s, k), p.BatchSize())|)
  }

  /** A run error names whatever fails first. */
  ghost predicate Explains<V, E>(p: Pipeline<V, E>, s: seq<Byte>, e: RunError) {
    if e.Materialize? then
      BatchCause(p, s, e.batch) && p.execute(Values(Groups(p, s)[e.batch])) == Err(e.reason)
    else
      LineCause(p, s, e.record) && e == ErrorFor(e.record, Judge(p, Processed(p, s)[e.record]).why)
  }

  // ---- The run ----

  ghost predicate AllOfSize<T>(groups: seq<seq<T>>, size: nat) {
    forall i :: 0 <= i < |groups| ==> |groups[i]| == size
  }

  /** Full groups and a remainder are a prefix of the batching. */
  lemma {:induction false} BatchesOfFull<T>(groups: seq<seq<T>>, rest: seq<T>, size: nat)
    requires size >= 1 && AllOfSize(groups, size)
    ensures Batches(Flatten(groups) + rest, size) == groups + Batches(rest, size)
  {
    if groups == [] {
      assert Flatten(groups) + rest == rest;
      assert groups + Batches(rest, size) == Batches(rest, size);
    } else {
      var tail := Flatten(groups[1..]) + rest;
      BatchesOfFull(groups[1..], rest, size);
      Regroup(groups[0], Flatten(groups[1..]), rest);
      var s := Flatten(groups) + rest;
      assert s == groups[0] + tail;
      assert s[..size] == groups[0] && s[size..] == tail;
      if tail == [] {
        assert groups[1..] + Batches(rest, size) == [];
        assert s == groups[0];
      }
      assert Batches(s, size) == [groups[0]] + Batches(tail, size);
      assert groups == [groups[0]] + groups[1..];
      Regroup([groups[0]], groups[1..], Batches(rest, size));
    }
  }

  /** What the accepted lines amount to so far: full groups that materialised, and an open batch. */
  ghost predicate Batched<V, E>(p: Pipeline<V, E>, done: seq<RawLine>, groups: seq<seq<Row<V>>>, batch: seq<Row<V>>) {
    var batched :=
      && Flatten(groups) + batch == Accepted(p, done)
      && AllOfSize(groups, p.BatchSize()) && |batch| < p.BatchSize()
      && AllMaterialize(p, groups)
      && NoneFailsFast(p, done);
    batched
  }

  class RunState<E> {
    var recordsValidated: nat
    var malformedCount: nat
    var oversizedCount: nat
    var batches: nat
    var findings: seq<Finding>
    var malformed: seq<Malformed>
    var events: seq<E>

    ghost function View(): Tally<E> reads this {
      Tally(recordsValidated, malformedCount, oversizedCount, batches, findings, malformed, events)
    }

    constructor ()
      ensures View() == Tally(0, 0, 0, 0, [], [], [])
    {
      recordsValidated, malformedCount, oversizedCount, batches := 0, 0, 0, 0;
      findings, malformed, events := [], [], [];
    }

    method RecordSanitization(more: seq<E>)
      modifies this
      ensures View() == old(View()).(events := old(events) + more)
    {
      events := events + more;
    }

    /** Counts a rejected line and applies its policy; the caller fails the run when it returns false. */
    method RejectLine(policy: Policy, record: nat, why: Rejection) returns (ok: bool)
      modifies this
      ensures ok == !policy.FailFast?
      ensures View() == old(View()).(
        malformedCount := old(malformedCount) + 1,
        oversizedCount := old(oversizedCount) + if why.kind == TooLong then 1 else 0,
        malformed := if policy.Collect? && |old(malformed)| < policy.max
                     then old(malformed) + [Malformed(record, why)] else old(malformed))
    {
      malformedCount := malformedCount + 1;
      if why.kind == TooLong {
        oversizedCount := oversizedCount + 1;
      }
      ok := true;
      match policy {
        case FailFast => ok := false;
        case Skip =>
        case Collect(max) =>
          if |malformed| < max {
            malformed := malformed + [Malformed(record, why)];
          }
      }
    }

    /** Validates one batch; local row `i` is reported as the batch's `i`-th source record. */
    method FlushBatch<V>(p: Pipeline<V, E>, batch: seq<Row<V>>) returns (r: Result<(), string>)
      modifies this
      ensures r.Ok? == (batch == [] || p.execute(Values(batch)).Ok?)
      ensures r.Err? ==> p.execute(Values(batch)) == Err(r.error)
      ensures r.Err? || batch == [] ==> View() == old(View())
      ensures r.Ok? && batch != [] ==> View() == old(View()).(
        recordsValidated := old(recordsValidated) + |batch|,
        batches := old(batches) + 1,
        findings := old(findings) + BatchFindings(p, batch, old(batches)))
    {
      if batch == [] {
        return Ok(());
      }
      var report := p.execute(Values(batch));
      if report.Err? {
        return Err(report.error);
      }
      var found := ExpandAll(batch, batches, report.value);
      findings := findings + found;
      recordsValidated := recordsValidated + |batch|;
      batches := batches + 1;
      return Ok(());
    }
  }

  method ExpandViolation<V>(records: seq<Row<V>>, batch: nat, v: Violation) returns (found: seq<Finding>)
    ensures found == ViolationFindings(records, batch, v)
  {
    if v.rows == [] {
      return [FindingFor(None, batch, v)];
    }
    found := [];
    for j := 0 to |v.rows|
      invariant found == RowFindings(records, batch, v, v.rows[..j])
    {
      var local := v.rows[j];
      assert v.rows[..j + 1][..j] == v.rows[..j];
      if local < |records| {
        found := found + [FindingFor(Some(records[local].record), batch, v)];
      }
    }
    assert v.rows[..|v.rows|] == v.rows;
  }

  method ExpandAll<V>(records: seq<Row<V>>, batch: nat, violations: seq<Violation>) returns (found: seq<Finding>)
    ensures found == AllFindings(records, batch, violations)
  {
    found := [];
    for i := 0 to |violations|
      invariant found == AllFindings(records, batch, violations[..i])
    {
      var more := ExpandViolation(records, batch, violations[i]);
      assert violations[..i + 1][..i] == violations[..i];
      found := found + more;
    }
    assert violations[..|violations|] == violations;
  }

  /** How one more line changes what the lines amount to. */
  lemma OneMoreLine<V, E>(p: Pipeline<V, E>, done: seq<RawLine>, line: RawLine)
    ensures var verdict := Judge(p, line); verdict.Accept? ==>
      && Accepted(p, done + [line]) == Accepted(p, done) + [Row(line.record, verdict.value)]
      && Events(p, done + [line]) == Events(p, done) + verdict.events
      && Rejected(p, done + [line]) == Rejected(p, done)
    ensures var verdict := Judge(p, line); verdict.Reject? ==>
      && Accepted(p, done + [line]) == Accepted(p, done) && Events(p, done + [line]) == Events(p, done)
      && Rejected(p, done + [line]) == Rejected(p, done) + [Malformed(line.record, verdict.why)]
    ensures NoneFailsFast(p, done) && !FailsFast(p, line) ==> NoneFailsFast(p, done + [line])
  {
  }

  lemma OneMoreRejection<V, E>(p: Pipeline<V, E>, ms: seq<Malformed>, m: Malformed)
    ensures OfKind(TooLong, ms + [m]) == OfKind(TooLong, ms) + if m.why.kind == TooLong then 1 else 0
    ensures var policy, kept := p.PolicyFor(m.why.kind), Diagnostics(p, ms);
      Diagnostics(p, ms + [m]) == if policy.Collect? && |kept| < policy.max then kept + [m] else kept
  {
  }

  lemma OneMoreGroup<V, E>(p: Pipeline<V, E>, groups: seq<seq<Row<V>>>, group: seq<Row<V>>)
    ensures Flatten(groups + [group]) == Flatten(groups) + group
    ensures FindingsOf(p, groups + [group]) == FindingsOf(p, groups) + BatchFindings(p, group, |groups|)
  {
    FlattenAppend(groups, [group]);
    assert Flatten([group]) == group;
    assert (groups + [group])[..|groups|] == groups;
  }

  /** A rejected line changes the counters and the diagnostics, and leaves the batches alone. */
  lemma RejectedTally<V, E>(p: Pipeline<V, E>, done: seq<RawLine>, groups: seq<seq<Row<V>>>, line: RawLine)
    requires Judge(p, line).Reject?
    ensures var why, t := Judge(p, line).why, TallyOf(p, done, groups);
      var policy := p.PolicyFor(why.kind);
      TallyOf(p, done + [line], groups) == t.(
        malformedCount := t.malformedCount + 1,
        oversizedCount := t.oversizedCount + (if why.kind == TooLong then 1 else 0),
        malformed := if policy.Collect? && |t.malformed| < policy.max
                     then t.malformed + [Malformed(line.record, why)] else t.malformed)
  {
    OneMoreLine(p, done, line);
    OneMoreRejection(p, Rejected(p, done), Malformed(line.record, Judge(p, line).why));
  }

  lemma RejectedBatched<V, E>(p: Pipeline<V, E>, done: seq<RawLine>, groups: seq<seq<Row<V>>>, batch: seq<Row<V>>, line: RawLine)
    requires Judge(p, line).Reject?
    ensures Batched(p, done, groups, batch) && !FailsFast(p, line) ==> Batched(p, done + [line], groups, batch)
  {
    OneMoreLine(p, done, line);
  }

  method HandleRejected<V, E>(p: Pipeline<V, E>, state: RunState<E>, line: RawLine, why: Rejection,
      ghost done: seq<RawLine>, ghost groups: seq<seq<Row<V>>>, ghost batch: seq<Row<V>>)
    returns (error: Option<RunError>)
    requires state.View() == TallyOf(p, done, groups) && Batched(p, done, groups, batch)
    requires Judge(p, line) == Reject(why)
    modifies state
    ensures error.None? ==> state.View() == TallyOf(p, done + [line], groups) && Batched(p, done + [line], groups, batch)
    ensures error.Some? ==> LineFails(p, done, line, groups, error.value)
  {
    RejectedTally(p, done, groups, line);
    RejectedBatched(p, done, groups, batch, line);
    var ok := state.RejectLine(p.PolicyFor(why.kind), line.record, why);
    error := if ok then None else Some(ErrorFor(line.record, why));
  }

  method HandleAccepted<V, E>(p: Pipeline<V, E>, state: RunState<E>, line: RawLine, value: V, events: seq<E>,
      batch: seq<Row<V>>, ghost done: seq<RawLine>, ghost groups: seq<seq<Row<V>>>)
    returns (error: Option<RunError>, batch': seq<Row<V>>, ghost groups': seq<seq<Row<V>>>)
    requires state.View() == TallyOf(p, done, groups) && Batched(p, done, groups, batch)
    requires Judge(p, line) == Accept(value, events)
    modifies state
    ensures error.None? ==> state.View() == TallyOf(p, done + [line], groups') && Batched(p, done + [line], groups', batch')
    ensures error.Some? ==> LineFails(p, done, line, groups, error.value)
  {
    BatchGrows(p, done, groups, batch, line);
    BadBatchFails(p, done, groups, batch, line);
    error, groups' := None, groups;
    state.RecordSanitization(events);
    batch' := batch + [Row(line.record, value)];
    if |batch'| >= p.BatchSize() {
      TallyFlushed(p, done + [line], groups, batch');
      var flushed := state.FlushBatch(p, batch');
      if flushed.Err? {
        return Some(Materialize(state.batches, flushed.error)), batch', groups;
      }
      batch', groups' := [], groups + [batch'];
    }
  }

  /** An accepted line joins the open batch, which is flushed as a group when that fills it. */
  lemma BatchGrows<V, E>(p: Pipeline<V, E>, done: seq<RawLine>, groups: seq<seq<Row<V>>>, batch: seq<Row<V>>, line: RawLine)
    requires Judge(p, line).Accept? && Batched(p, done, groups, batch)
    ensures var now, verdict := done + [line], Judge(p, line);
      var grown := batch + [Row(line.record, verdict.value)];
      && TallyOf(p, now, groups) == TallyOf(p, done, groups).(events := Events(p, done) + verdict.events)
      && (|grown| < p.BatchSize() ==> Batched(p, now, groups, grown))
      && (|grown| >= p.BatchSize() && p.execute(Values(grown)).Ok? ==> Batched(p, now, groups + [grown], []))
  {
    OneMoreLine(p, done, line);
    var row := Row(line.record, Judge(p, line).value);
    Regroup(Flatten(groups), batch, [row]);
    FlushGrown(p, done + [line], groups, batch + [row]);
  }

  lemma FlushGrown<V, E>(p: Pipeline<V, E>, done: seq<RawLine>, groups: seq<seq<Row<V>>>, grown: seq<Row<V>>)
    requires Flatten(groups) + grown == Accepted(p, done) && |grown| <= p.BatchSize()
    requires AllOfSize(groups, p.BatchSize()) && AllMaterialize(p, groups) && NoneFailsFast(p, done)
    ensures |grown| < p.BatchSize() ==> Batched(p, done, groups, grown)
    ensures |grown| == p.BatchSize() && p.execute(Values(grown)).Ok? ==> Batched(p, done, groups + [grown], [])
  {
    OneMoreGroup(p, groups, grown);
    assert Flatten(groups + [grown]) + [] == Flatten(groups) + grown;
  }

  /** If it does not materialise, handling the line fails. */
  lemma BadBatchFails<V, E>(p: Pipeline<V, E>, done: seq<RawLine>, groups: seq<seq<Row<V>>>, batch: seq<Row<V>>, line: RawLine)
    requires Judge(p, line).Accept? && Batched(p, done, groups, batch)
    ensures var grown := batch + [Row(line.record, Judge(p, line).value)];
      |grown| >= p.BatchSize() && p.execute(Values(grown)).Err? ==>
        LineFails(p, done, line, groups, Materialize(|groups|, p.execute(Values(grown)).error))
  {
    OneMoreLine(p, done, line);
    var grown := batch + [Row(line.record, Judge(p, line).value)];
    Regroup(Flatten(groups), batch, [Row(line.record, Judge(p, line).value)]);
    var accepted := Accepted(p, done + [line]);
    assert accepted == Flatten(groups) + grown;
    assert accepted[|Flatten(groups)|..] == grown;
  }

  lemma TallyFlushed<V, E>(p: Pipeline<V, E>, done: seq<RawLine>, groups: seq<seq<Row<V>>>, batch: seq<Row<V>>)
    ensures TallyOf(p, done, groups + [batch]) == TallyOf(p, done, groups).(
      recordsValidated := |Flatten(groups)| + |batch|,
      batches := |groups| + 1,
      findings := FindingsOf(p, groups) + BatchFindings(p, batch, |groups|))
  {
    OneMoreGroup(p, groups, batch);
  }

  /** Rejects or accepts one line, flushing the batch when it is full. */
  method HandleLine<V, E>(p: Pipeline<V, E>, state: RunState<E>, line: RawLine, batch: seq<Row<V>>,
                          ghost done: seq<RawLine>, ghost groups: seq<seq<Row<V>>>)
    returns (error: Option<RunError>, batch': seq<Row<V>>, ghost groups': seq<seq<Row<V>>>)
    requires state.View() == TallyOf(p, done, groups) && Batched(p, done, groups, batch)
    modifies state
    ensures error.None? ==> state.View() == TallyOf(p, done + [line], groups') && Batched(p, done + [line], groups', batch')
    ensures error.Some? ==> LineFails(p, done, line, groups, error.value)
  {
    batch', groups' := batch, groups;
    if line.exceeded {
      error := HandleRejected(p, state, line, TooLongRejection(p), done, groups, batch);
    } else if !line.utf8 {
      error := HandleRejected(p, state, line, BadUtf8Rejection(), done, groups, batch);
    } else {
      match p.parse(line.content) {
        case Err(e) =>
          error := HandleRejected(p, state, line, BadJsonRejection(p, line.content, e), done, groups, batch);
        case Ok(value) =>
          var (clean, events) := p.sanitize(value);
          error, batch', groups' := HandleAccepted(p, state, line, clean, events, batch, done, groups);
      }
    }
  }

  /** How handling `line` after `done` can fail. */
  ghost predicate LineFails<V, E>(p: Pipeline<V, E>, done: seq<RawLine>, line: RawLine,
                                  groups: seq<seq<Row<V>>>, e: RunError)
  {
    if e.Materialize? then e.batch == |groups| && FillsBadBatch(p, done, line, groups, e.reason)
    else FailsFast(p, line) && e == ErrorFor(line.record, Judge(p, line).why)
  }

  /** The line fills a batch after `groups` that does not materialise. */
  ghost predicate FillsBadBatch<V, E>(p: Pipeline<V, E>, done: seq<RawLine>, line: RawLine,
                                      groups: seq<seq<Row<V>>>, reason: string)
  {
    var accepted := Accepted(p, done + [line]);
    && !FailsFast(p, line)
    && |Flatten(groups)| + p.BatchSize() == |accepted|
    && accepted == Flatten(groups) + accepted[|Flatten(groups)|..]
    && p.execute(Values(accepted[|Flatten(groups)|..])) == Err(reason)
  }

  /** Where the source stands once `k` records have been read. */
  ghost predicate SourceAt<V, E>(p: Pipeline<V, E>, s: seq<Byte>, source: NdjsonSource, k: nat)
    reads source, source.reader
  {
    var positioned :=
      && source.Valid(|s|)
      && source.View() == SourceView(p.decoder, p.Cap(), k, RestAfter(p.decoder, p.Cap(), s, k))
      && k <= |Records(p, s)| && source.Pending() == Records(p, s)[k..];
    positioned
  }

  method ReadNext<V, E>(p: Pipeline<V, E>, source: NdjsonSource, ghost s: seq<Byte>, ghost k: nat)
    returns (line: Option<RawLine>)
    requires SourceAt(p, s, source, k)
    modifies source, source.reader
    ensures line.None? <==> k == |Records(p, s)|
    ensures line.None? ==> source.recordIndex == k && source.bytesConsumed == |s|
    ensures line.Some? ==> line.value == Records(p, s)[k] && line.value.record == k && SourceAt(p, s, source, k + 1)
  {
    line := source.NextLine(|s|);
    if line.Some? {
      assert Records(p, s)[k..][1..] == Records(p, s)[k + 1..];
      assert ([line.value] + source.Pending())[1..] == source.Pending();
      assert ([line.value] + source.Pending())[0] == line.value;
    }
  }

  /** The limits are checked before each read, the record limit first. */
  method CheckLimits<V, E>(p: Pipeline<V, E>, source: NdjsonSource, ghost s: seq<Byte>, ghost k: nat)
    returns (hit: Option<LimitHit>)
    requires SourceAt(p, s, source, k)
    ensures hit == LimitAt(p, s, k)
  {
    if p.limits.maxRecords.Some? && source.recordIndex >= p.limits.maxRecords.value {
      return Some(MaxRecords(p.limits.maxRecords.value));
    }
    if p.limits.maxBytes.Some? && source.bytesConsumed >= p.limits.maxBytes.value {
      return Some(MaxBytes(p.limits.maxBytes.value));
    }
    return None;
  }

  lemma OneMoreRecord<V, E>(p: Pipeline<V, E>, s: seq<Byte>, k: nat)
    requires k <= ProcessedFrom(p, s, 0) && k < |Records(p, s)| && LimitAt(p, s, k).None?
    ensures k < ProcessedFrom(p, s, 0)
    ensures Records(p, s)[..k + 1] == Records(p, s)[..k] + [Records(p, s)[k]]
    ensures Processed(p, s)[..k] == Records(p, s)[..k] && Processed(p, s)[k] == Records(p, s)[k]
  {
  }

  /** The run stops at the first record that a limit, or the end of the input, keeps from being read. */
  lemma {:induction false} StopsHere<V, E>(p: Pipeline<V, E>, s: seq<Byte>, from: nat, k: nat)
    requires from <= k <= |Records(p, s)|
    requires k == |Records(p, s)| || LimitAt(p, s, k).Some?
    ensures ProcessedFrom(p, s, from) <= k
    decreases k - from
  {
    if from == k || LimitAt(p, s, from).Some? {
    } else {
      StopsHere(p, s, from + 1, k);
    }
  }

  method OpenSource<V, E>(p: Pipeline<V, E>, reader: BufReader) returns (source: NdjsonSource)
    requires reader.Valid()
    ensures fresh(source) && source.reader == reader && SourceAt(p, reader.rest, source, 0)
  {
    source := new NdjsonSource(reader, p.decoder, p.limits.maxRecordBytes);
    assert Records(p, reader.rest)[0..] == Records(p, reader.rest);
  }

  /** A limit only counts as hit if there was another record to read. */
  method StopReading<V, E>(p: Pipeline<V, E>, source: NdjsonSource, hit: Option<LimitHit>, ghost s: seq<Byte>, ghost k: nat)
    returns (stop: Stop)
    requires hit.Some? ==> SourceAt(p, s, source, k) && hit == LimitAt(p, s, k)
    requires hit.None? ==> k == |Records(p, s)| && source.recordIndex == k && source.bytesConsumed == |s|
    requires k <= ProcessedFrom(p, s, 0)
    modifies source, source.reader
    ensures stop == StopOf(p, s)
    ensures Processed(p, s) == Records(p, s)[..k]
  {
    StopsHere(p, s, 0, k);
    var truncated := false;
    if hit.Some? {
      var probe := ReadNext(p, source, s, k);
      truncated := probe.Some?;
    }
    stop := Stop(source.recordIndex, source.bytesConsumed, truncated, if truncated then hit else None);
  }

  /**
   * The read loop: handles lines until a limit or the end of input stops it.  Leaves the open batch
   * to the caller.
   */
  method ReadLines<V, E>(p: Pipeline<V, E>, reader: BufReader, state: RunState<E>)
    returns (error: Option<RunError>, batch: seq<Row<V>>, stop: Stop, ghost groups: seq<seq<Row<V>>>)
    requires reader.Valid() && state.View() == TallyOf(p, [], [])
    modifies reader, state
    ensures error.Some? ==> Explains(p, old(reader.rest), error.value)
    ensures error.None? ==> stop == StopOf(p, old(reader.rest))
    ensures error.None? ==> state.View() == TallyOf(p, Processed(p, old(reader.rest)), groups)
    ensures error.None? ==> Batched(p, Processed(p, old(reader.rest)), groups, batch)
  {
    ghost var s := reader.rest;
    ghost var all, k := Records(p, s), 0;
    var source := OpenSource(p, reader);
    var hit := None;
    error, batch, groups, stop := None, [], [], Stop(0, 0, false, None);
    assert all[..0] == [];
    while true
      invariant fresh(source) && source.reader == reader && SourceAt(p, s, source, k)
      invariant error == None && k <= ProcessedFrom(p, s, 0)
      invariant state.View() == TallyOf(p, all[..k], groups)
      invariant Batched(p, all[..k], groups, batch)
      decreases |all| - k
    {
      hit := CheckLimits(p, source, s, k);
      if hit.Some? {
        break;
      }
      var line := ReadNext(p, source, s, k);
      if line.None? {
        break;
      }
      OneMoreRecord(p, s, k);
      ghost var before, open := groups, batch;
      error, batch, groups := HandleLine(p, state, line.value, batch, all[..k], groups);
      if error.Some? {
        FailureExplained(p, s, k, before, open, error.value);
        return;
      }
      k := k + 1;
    }
    stop := StopReading(p, source, hit, s, k);
  }

  /**
   * Validates a stream.  A run that returns `Ok` returns the report the specification describes;
   * a run that fails names whatever fails first.  Either way the result is determined by the bytes alone.
   */
  method ValidateReader<V, E>(p: Pipeline<V, E>, reader: BufReader) returns (r: Result<Report<E>, RunError>)
    requires reader.Valid()
    modifies reader
    ensures r.Ok? <==> Succeeds(p, old(reader.rest))
    ensures r.Ok? ==> r.value == ReportOf(p, old(reader.rest))
    ensures r.Err? ==> Explains(p, old(reader.rest), r.error)
  {
    ghost var s := reader.rest;
    var state := new RunState<E>();
    var error, batch, stop;
    ghost var groups;
    error, batch, stop, groups := ReadLines(p, reader, state);
    if error.Some? {
      FailureIsDetermined(p, s, error.value, error.value);
      return Err(error.value);
    }
    LastBatch(p, s, groups, batch);
    TallyFlushed(p, Processed(p, s), groups, batch);
    var flushed := state.FlushBatch(p, batch);
    if flushed.Err? {
      r := Err(Materialize(state.batches, flushed.error));
      FailureIsDetermined(p, s, r.error, r.error);
      return;
    }
    assert state.View() == TallyOf(p, Processed(p, s), Groups(p, s));
    var findings, malformed := S.Sort(FindingLe, state.findings), S.Sort(RecordLe, state.malformed);
    r := Ok(Report(stop.recordsRead, state.recordsValidated, state.malformedCount, state.oversizedCount,
      state.batches, stop.bytesConsumed, stop.truncated, !HasBlocking(findings), findings, malformed,
      state.events, stop.limitHit));
  }

  /** The groups flushed so far, and the open batch if it holds anything, are the batches of the run. */
  lemma LastBatch<V, E>(p: Pipeline<V, E>, s: seq<Byte>, groups: seq<seq<Row<V>>>, batch: seq<Row<V>>)
    requires Batched(p, Processed(p, s), groups, batch)
    ensures Groups(p, s) == if batch == [] then groups else groups + [batch]
    ensures batch == [] || p.execute(Values(batch)).Ok? ==> Succeeds(p, s)
    ensures batch != [] && p.execute(Values(batch)).Err? ==> Explains(p, s, Materialize(|groups|, p.execute(Values(batch)).error))
  {
    BatchesOfFull(groups, batch, p.BatchSize());
    if batch == [] {
      assert groups + Batches(batch, p.BatchSize()) == groups;
    } else {
      var all := groups + [batch];
      assert Batches(batch, p.BatchSize()) == [batch];
      assert all[..|groups|] == groups && all[|groups|] == batch;
    }
  }

  lemma {:induction false} AcceptedPrefix<V, E>(p: Pipeline<V, E>, lines: seq<RawLine>, k: nat)
    requires k <= |lines|
    ensures Accepted(p, lines[..k]) <= Accepted(p, lines)
  {
    if k < |lines| {
      var init := lines[..|lines| - 1];
      AcceptedPrefix(p, init, k);
      assert init[..k] == lines[..k];
    } else {
      assert lines[..k] == lines;
    }
  }

  /** Full groups are the full batches of what they hold, whatever follows. */
  lemma {:induction false} FullBatchesOf<T>(groups: seq<seq<T>>, rest: seq<T>, size: nat)
    requires size >= 1 && AllOfSize(groups, size)
    ensures FullBatches(Flatten(groups) + rest, size) == groups + FullBatches(rest, size)
  {
    if groups == [] {
      assert Flatten(groups) + rest == rest;
    } else {
      var tail := Flatten(groups[1..]) + rest;
      FullBatchesOf(groups[1..], rest, size);
      Regroup(groups[0], Flatten(groups[1..]), rest);
      var s := Flatten(groups) + rest;
      assert s[..size] == groups[0] && s[size..] == tail;
      assert groups == [groups[0]] + groups[1..];
      Regroup([groups[0]], groups[1..], FullBatches(rest, size));
    }
  }

  /** Reading on only adds batches, and full batches are batches. */
  lemma {:induction false} FullBatchesStay<T>(a: seq<T>, b: seq<T>, size: nat)
    requires size >= 1 && a <= b
    ensures FullBatches(a, size) <= FullBatches(b, size) <= Batches(b, size)
    decreases |b|
  {
    if |b| < size {
    } else if |b| == size {
      assert b[..size] == b && FullBatches(b[size..], size) == [];
      assert FullBatches(b, size) == [b];
      assert |a| == size ==> a == b;
    } else if |a| < size {
      FullBatchesStay([], b[size..], size);
    } else {
      assert a[..size] == b[..size] && a[size..] <= b[size..];
      FullBatchesStay(a[size..], b[size..], size);
    }
  }

  /** What has been flushed before line `k` are the full batches of the lines before it. */
  lemma FlushedBefore<V, E>(p: Pipeline<V, E>, done: seq<RawLine>, groups: seq<seq<Row<V>>>, batch: seq<Row<V>>)
    requires Batched(p, done, groups, batch)
    ensures FullBatches(Accepted(p, done), p.BatchSize()) == groups
  {
    FullBatchesOf(groups, batch, p.BatchSize());
    assert groups + [] == groups;
  }

  /** A failing line is the first cause of failure among all processed lines. */
  lemma FailureExplained<V, E>(p: Pipeline<V, E>, s: seq<Byte>, k: nat, groups: seq<seq<Row<V>>>, batch: seq<Row<V>>, e: RunError)
    requires k < |Processed(p, s)| && Processed(p, s)[k].record == k
    requires Batched(p, Processed(p, s)[..k], groups, batch)
    requires LineFails(p, Processed(p, s)[..k], Processed(p, s)[k], groups, e)
    ensures Explains(p, s, e)
  {
    if e.Materialize? {
      BadBatchExplains(p, s, k, groups, e.reason);
    } else {
      FlushedBefore(p, Processed(p, s)[..k], groups, batch);
    }
  }

  lemma BadBatchExplains<V, E>(p: Pipeline<V, E>, s: seq<Byte>, k: nat, groups: seq<seq<Row<V>>>, reason: string)
    requires k < |Processed(p, s)| && NoneFailsFast(p, Processed(p, s)[..k])
    requires AllOfSize(groups, p.BatchSize()) && AllMaterialize(p, groups)
    requires FillsBadBatch(p, Processed(p, s)[..k], Processed(p, s)[k], groups, reason)
    ensures Explains(p, s, Materialize(|groups|, reason))
  {
    var done := Processed(p, s);
    assert done[..k] + [done[k]] == done[..k + 1];
    var last := Accepted(p, done[..k + 1])[|Flatten(groups)|..];
    FilledBatchAt(p, s, k, groups, last);
    forall j | 0 <= j < |done| && FailsFast(p, done[j])
      ensures |groups| < |FullBatches(AcceptedBefore(p, s, j), p.BatchSize())|
    {
      NotFailingBefore(p, done, k, j);
      FilledBeforeFailing(p, done, k, j, groups, last);
    }
  }

  lemma FilledBatchAt<V, E>(p: Pipeline<V, E>, s: seq<Byte>, k: nat, groups: seq<seq<Row<V>>>, last: seq<Row<V>>)
    requires k < |Processed(p, s)| && AllOfSize(groups, p.BatchSize()) && |last| == p.BatchSize()
    requires Accepted(p, Processed(p, s)[..k + 1]) == Flatten(groups) + last
    ensures |groups| < |Groups(p, s)|
    ensures Groups(p, s)[..|groups|] == groups && Groups(p, s)[|groups|] == last
  {
    AcceptedPrefix(p, Processed(p, s), k + 1);
    var accepted, n := Accepted(p, Processed(p, s)), |Flatten(groups) + last|;
    assert accepted == (Flatten(groups) + last) + accepted[n..];
    FullBatchAt(p, s, groups, last, accepted[n..]);
  }

  lemma FilledBeforeFailing<V, E>(p: Pipeline<V, E>, done: seq<RawLine>, k: nat, j: nat, groups: seq<seq<Row<V>>>, last: seq<Row<V>>)
    requires k < j < |done| && AllOfSize(groups, p.BatchSize()) && |last| == p.BatchSize()
    requires Accepted(p, done[..k + 1]) == Flatten(groups) + last
    ensures |groups| < |FullBatches(Accepted(p, done[..j]), p.BatchSize())|
  {
    assert done[..j][..k + 1] == done[..k + 1];
    FilledBefore(p, done[..j], k, groups, last);
  }

  /** A batch that line `k` fills is among the full batches of any longer prefix. */
  lemma FilledBefore<V, E>(p: Pipeline<V, E>, lines: seq<RawLine>, k: nat, groups: seq<seq<Row<V>>>, last: seq<Row<V>>)
    requires k < |lines|
    requires AllOfSize(groups, p.BatchSize()) && |last| == p.BatchSize()
    requires Accepted(p, lines[..k + 1]) == Flatten(groups) + last
    ensures |groups| < |FullBatches(Accepted(p, lines), p.BatchSize())|
  {
    AcceptedPrefix(p, lines, k + 1);
    FilledStays(groups, last, Accepted(p, lines), p.BatchSize());
  }

  lemma FilledStays<T>(groups: seq<seq<T>>, last: seq<T>, longer: seq<T>, size: nat)
    requires size >= 1 && AllOfSize(groups, size) && |last| == size && Flatten(groups) + last <= longer
    ensures |groups| < |FullBatches(longer, size)|
  {
    FullBatchesStay(Flatten(groups) + last, longer, size);
    FullBatchesOf(groups, last, size);
    OneFullBatch(last);
  }

  lemma OneFullBatch<T>(s: seq<T>)
    requires s != []
    ensures FullBatches(s, |s|) == [s]
  {
    assert s[..|s|] == s && FullBatches(s[|s|..], |s|) == [];
  }

  lemma NotFailingBefore<V, E>(p: Pipeline<V, E>, lines: seq<RawLine>, k: nat, j: nat)
    requires k <= |lines| && NoneFailsFast(p, lines[..k]) && j < |lines|
    ensures j < k ==> !FailsFast(p, lines[j])
  {
    if j < k {
      assert lines[..k][j] == lines[j];
    }
  }

  lemma MaterializedBefore<V, E>(p: Pipeline<V, E>, groups: seq<seq<Row<V>>>, c: nat, b: nat)
    requires c <= |groups| && AllMaterialize(p, groups[..c]) && b < |groups|
    ensures b < c ==> p.execute(Values(groups[b])).Ok?
  {
    if b < c {
      assert groups[..c][b] == groups[b];
    }
  }

  /** An error excludes success, and there is only one that explains a run. */
  lemma FailureIsDetermined<V, E>(p: Pipeline<V, E>, s: seq<Byte>, e: RunError, f: RunError)
    requires Explains(p, s, e)
    ensures !Succeeds(p, s)
    ensures Explains(p, s, f) ==> e == f
  {
    if e.Materialize? && f.Materialize? {
      OneBatchCause(p, s, e.batch, f.batch);
    } else if e.Materialize? {
      CausesExclude(p, s, f.record, e.batch);
    } else if f.Materialize? {
      CausesExclude(p, s, e.record, f.batch);
    } else {
      OneLineCause(p, s, e.record, f.record);
    }
  }

  lemma OneLineCause<V, E>(p: Pipeline<V, E>, s: seq<Byte>, k: nat, j: nat)
    requires LineCause(p, s, k)
    ensures LineCause(p, s, j) ==> k == j
  {
    if j < |Processed(p, s)| {
      NotFailingBefore(p, Processed(p, s), k, j);
      if LineCause(p, s, j) {
        NotFailingBefore(p, Processed(p, s), j, k);
      }
    }
  }

  lemma OneBatchCause<V, E>(p: Pipeline<V, E>, s: seq<Byte>, b: nat, c: nat)
    requires BatchCause(p, s, b)
    ensures BatchCause(p, s, c) ==> b == c
  {
    if c < |Groups(p, s)| {
      MaterializedBefore(p, Groups(p, s), b, c);
      if BatchCause(p, s, c) {
        MaterializedBefore(p, Groups(p, s), c, b);
      }
    }
  }

  /** A line that fails fast and a batch that does not materialise cannot both come first. */
  lemma CausesExclude<V, E>(p: Pipeline<V, E>, s: seq<Byte>, k: nat, b: nat)
    ensures LineCause(p, s, k) ==> !BatchCause(p, s, b)
  {
    if k <= |Processed(p, s)| {
      AcceptedPrefix(p, Processed(p, s), k);
      FullBatchesStay(AcceptedBefore(p, s, k), Accepted(p, Processed(p, s)), p.BatchSize());
    }
  }

  /** A full group that starts the accepted lines, after other full groups, is a batch of the run. */
  lemma FullBatchAt<V, E>(p: Pipeline<V, E>, s: seq<Byte>, groups: seq<seq<Row<V>>>, last: seq<Row<V>>, rest: seq<Row<V>>)
    requires AllOfSize(groups, p.BatchSize()) && |last| == p.BatchSize()
    requires Accepted(p, Processed(p, s)) == (Flatten(groups) + last) + rest
    ensures |groups| < |Groups(p, s)|
    ensures Groups(p, s)[..|groups|] == groups && Groups(p, s)[|groups|] == last
  {
    OneMoreGroup(p, groups, last);
    BatchesOfFull(groups + [last], rest, p.BatchSize());
    Regroup(groups, [last], Batches(rest, p.BatchSize()));
  }

  lemma {:induction false} RejectedInOrder<V, E>(p: Pipeline<V, E>, lines: seq<RawLine>)
    requires forall i :: 0 <= i < |lines| ==> lines[i].record == i
    ensures S.Sorted(RecordLe, Rejected(p, lines))
    ensures forall m :: m in Rejected(p, lines) ==> m.record < |lines|
  {
    if lines == [] {
    } else {
      RejectedInOrder(p, lines[..|lines| - 1]);
    }
  }

  lemma {:induction false} DiagnosticsFrom<V, E>(p: Pipeline<V, E>, ms: seq<Malformed>)
    requires S.Sorted(RecordLe, ms)
    ensures S.Sorted(RecordLe, Diagnostics(p, ms))
    ensures forall m :: m in Diagnostics(p, ms) ==> m in ms
  {
    if ms == [] {
    } else {
      var init, last := ms[..|ms| - 1], ms[|ms| - 1];
      DiagnosticsFrom(p, init);
      forall m | m in Diagnostics(p, init) ensures RecordLe(m, last) {
        var i :| 0 <= i < |init| && init[i] == m;
        assert ms[i] == m;
      }
    }
  }

  /** Lines are rejected in reading order, so the final sort of the diagnostics has nothing to do. */
  lemma DiagnosticsInOrder<V, E>(p: Pipeline<V, E>, s: seq<Byte>)
    ensures S.TotalPreorder(RecordLe) && S.Sorted(RecordLe, Diagnostics(p, Rejected(p, Processed(p, s))))
  {
    RecordNumbers(p, s);
    RejectedInOrder(p, Processed(p, s));
    DiagnosticsFrom(p, Rejected(p, Processed(p, s)));
  }

  lemma RecordNumbers<V, E>(p: Pipeline<V, E>, s: seq<Byte>)
    ensures forall i :: 0 <= i < |Records(p, s)| ==> Records(p, s)[i].record == i
  {
    var kept := Kept(p.decoder, p.Cap(), Lines(s));
    forall i | 0 <= i < |Records(p, s)| ensures Records(p, s)[i].record == i {
      RawLineAt(p.decoder, p.Cap(), kept, 0, i);
    }
  }
}
