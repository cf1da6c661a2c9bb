/**
 * The sanitiser inside a stream run: what a report or an error may still say about a redacted value
 * (crates/statguardian-stream/src/validator.rs, crates/statguardian-stream/src/sanitize.rs).
 * Only the diagnostics of lines that are not JSON can, because those lines are never sanitised.
 */
module LeakSafety {
  import opened Sequences
  import opened Ndjson
  import opened StreamRun
  import Z = Sanitizer
  import opened StreamLaws
  import opened PlainText
  import S = StableSort
  import Laws = SanitizerLaws

  type JsonRun = Pipeline<Z.Json, Z.Event>

  /** The sanitiser as the run calls it: the clean record and its events. */
  function Sanitizing(policy: Z.Policy): Z.Json -> (Z.Json, seq<Z.Event>) {
    (v: Z.Json) => (Z.WalkValue(policy, v), Z.WalkEvents(policy, v, ""))
  }

  /** Two lines that are rejected alike, or hold records that differ only where the policy hides them. */
  ghost predicate SameLine(p: JsonRun, policy: Z.Policy, a: RawLine, b: RawLine) {
    && a.exceeded == b.exceeded
    && a.utf8 == b.utf8
    && (a.utf8 && !a.exceeded ==>
          var v, w := p.parse(a.content), p.parse(b.content);
          v.Ok? == w.Ok? && (v.Ok? ==> Laws.LowEqual(policy, v.value, w.value)))
  }

  ghost predicate SameStream(p: JsonRun, policy: Z.Policy, s: seq<Byte>, t: seq<Byte>) {
    && |Records(p, s)| == |Records(p, t)|
    && forall i :: 0 <= i < |Records(p, s)| ==> SameLine(p, policy, Records(p, s)[i], Records(p, t)[i])
  }

  /** Verdicts that agree in everything but what a diagnostic says. */
  predicate SimilarVerdict(p: JsonRun, a: RawLine, b: RawLine) {
    var v, w := Judge(p, a), Judge(p, b);
    && a.record == b.record
    && (if v.Accept? then v == w else w.Reject? && v.why.kind == w.why.kind)
  }

  lemma SameLinesAreSimilar(p: JsonRun, policy: Z.Policy, a: RawLine, b: RawLine)
    requires p.sanitize == Sanitizing(policy) && SameLine(p, policy, a, b) && a.record == b.record
    ensures SimilarVerdict(p, a, b)
  {
    if a.utf8 && !a.exceeded && p.parse(a.content).Ok? {
      Laws.Noninterference(policy, p.parse(a.content).value, p.parse(b.content).value, "");
    }
  }

  ghost predicate Similar(p: JsonRun, xs: seq<RawLine>, ys: seq<RawLine>) {
    |xs| == |ys| && forall i :: 0 <= i < |xs| ==> SimilarVerdict(p, xs[i], ys[i])
  }

  // ---- The report ----

  /** The diagnostics that the lines before line `n` leave. */
  function DiagnosticsBefore(p: JsonRun, lines: seq<RawLine>, n: nat): seq<Malformed>
    requires n <= |lines|
  {
    Diagnostics(p, Rejected(p, lines[..n]))
  }

  /** Line `i` is rejected, its policy collects, and the list has room for it. */
  predicate Diagnosed(p: JsonRun, lines: seq<RawLine>, i: nat)
    requires i < |lines|
  {
    var verdict := Judge(p, lines[i]);
    && verdict.Reject?
    && p.PolicyFor(verdict.why.kind).Collect?
    && |DiagnosticsBefore(p, lines, i)| < p.PolicyFor(verdict.why.kind).max
  }

  /** Among the first `n` lines, those that are diagnosed are diagnosed alike. */
  ghost predicate SameDiagnoses(p: JsonRun, xs: seq<RawLine>, ys: seq<RawLine>, n: nat)
    requires n <= |xs| == |ys|
  {
    forall i :: 0 <= i < n && Diagnosed(p, xs, i) ==> Judge(p, xs[i]) == Judge(p, ys[i])
  }

  lemma DiagnosticsStep(p: JsonRun, lines: seq<RawLine>, i: nat)
    requires i < |lines|
    ensures var before := DiagnosticsBefore(p, lines, i);
            DiagnosticsBefore(p, lines, i + 1) ==
              if Diagnosed(p, lines, i) then before + [Malformed(lines[i].record, Judge(p, lines[i]).why)] else before
  {
    assert lines[..i + 1] == lines[..i] + [lines[i]];
    OneMoreLine(p, lines[..i], lines[i]);
    if Judge(p, lines[i]).Reject? {
      OneMoreRejection(p, Rejected(p, lines[..i]), Malformed(lines[i].record, Judge(p, lines[i]).why));
    }
  }

  /** What one more line adds, when the verdicts are similar. */
  lemma SimilarAddition(p: JsonRun, xs: seq<RawLine>, ys: seq<RawLine>, x: RawLine, y: RawLine)
    requires SimilarVerdict(p, x, y)
    requires Accepted(p, xs) == Accepted(p, ys) && Events(p, xs) == Events(p, ys)
    requires |Rejected(p, xs)| == |Rejected(p, ys)| && OfKind(TooLong, Rejected(p, xs)) == OfKind(TooLong, Rejected(p, ys))
    ensures Accepted(p, xs + [x]) == Accepted(p, ys + [y]) && Events(p, xs + [x]) == Events(p, ys + [y])
    ensures |Rejected(p, xs + [x])| == |Rejected(p, ys + [y])|
    ensures OfKind(TooLong, Rejected(p, xs + [x])) == OfKind(TooLong, Rejected(p, ys + [y]))
  {
    OneMoreLine(p, xs, x);
    OneMoreLine(p, ys, y);
    if Judge(p, x).Reject? {
      OneMoreRejection(p, Rejected(p, xs), Malformed(x.record, Judge(p, x).why));
      OneMoreRejection(p, Rejected(p, ys), Malformed(y.record, Judge(p, y).why));
    }
  }

  lemma LastApart<T>(s: seq<T>)
    requires s != []
    ensures s == s[..|s| - 1] + [s[|s| - 1]]
  {
  }

  /** Similar lines lead to the same rows, events and counts. */
  lemma {:induction false} SimilarOutcome(p: JsonRun, xs: seq<RawLine>, ys: seq<RawLine>)
    requires Similar(p, xs, ys)
    ensures Accepted(p, xs) == Accepted(p, ys) && Events(p, xs) == Events(p, ys)
    ensures |Rejected(p, xs)| == |Rejected(p, ys)| && OfKind(TooLong, Rejected(p, xs)) == OfKind(TooLong, Rejected(p, ys))
  {
    if xs == [] {
    } else {
      var xi, x, yi, y := xs[..|xs| - 1], xs[|xs| - 1], ys[..|ys| - 1], ys[|ys| - 1];
      SimilarPrefix(p, xs, ys, |xs| - 1);
      SimilarOutcome(p, xi, yi);
      SimilarAddition(p, xi, yi, x, y);
      LastApart(xs);
      LastApart(ys);
    }
  }

  lemma SimilarStep(p: JsonRun, xs: seq<RawLine>, ys: seq<RawLine>, n: nat)
    requires n < |xs| == |ys| && SimilarVerdict(p, xs[n], ys[n])
    requires |DiagnosticsBefore(p, xs, n)| == |DiagnosticsBefore(p, ys, n)|
    ensures |DiagnosticsBefore(p, xs, n + 1)| == |DiagnosticsBefore(p, ys, n + 1)|
    ensures DiagnosticsBefore(p, xs, n + 1) == DiagnosticsBefore(p, ys, n + 1) <==>
            DiagnosticsBefore(p, xs, n) == DiagnosticsBefore(p, ys, n)
            && (Diagnosed(p, xs, n) ==> Judge(p, xs[n]) == Judge(p, ys[n]))
  {
    DiagnosticsStep(p, xs, n);
    DiagnosticsStep(p, ys, n);
    var a, b := DiagnosticsBefore(p, xs, n), DiagnosticsBefore(p, ys, n);
    if Diagnosed(p, xs, n) {
      LastsDecide(a, b, Malformed(xs[n].record, Judge(p, xs[n]).why), Malformed(ys[n].record, Judge(p, ys[n]).why));
    }
  }

  lemma LastsDecide<T>(a: seq<T>, b: seq<T>, x: T, y: T)
    requires |a| == |b|
    ensures a + [x] == b + [y] <==> a == b && x == y
  {
    if a + [x] == b + [y] {
      assert (a + [x])[..|a|] == a && (b + [y])[..|b|] == b;
      assert (a + [x])[|a|] == x && (b + [y])[|b|] == y;
    }
  }

  lemma SameDiagnosesStep(p: JsonRun, xs: seq<RawLine>, ys: seq<RawLine>, n: nat)
    requires n < |xs| == |ys|
    ensures SameDiagnoses(p, xs, ys, n + 1) <==>
            SameDiagnoses(p, xs, ys, n) && (Diagnosed(p, xs, n) ==> Judge(p, xs[n]) == Judge(p, ys[n]))
  {
  }

  lemma {:induction false} SimilarDiagnostics(p: JsonRun, xs: seq<RawLine>, ys: seq<RawLine>, n: nat)
    requires Similar(p, xs, ys) && n <= |xs|
    ensures |DiagnosticsBefore(p, xs, n)| == |DiagnosticsBefore(p, ys, n)|
    ensures DiagnosticsBefore(p, xs, n) == DiagnosticsBefore(p, ys, n) <==> SameDiagnoses(p, xs, ys, n)
  {
    if n == 0 {
      assert xs[..0] == [] && ys[..0] == [];
    } else {
      var k := n - 1;
      SimilarDiagnostics(p, xs, ys, k);
      SameDiagnosesStep(p, xs, ys, k);
      assert SimilarVerdict(p, xs[k], ys[k]);
      SimilarStep(p, xs, ys, k);
    }
  }

  // ---- The run ----

  /** Without a byte limit, where a run stops depends on the number of records alone. */
  lemma {:induction false} SameStop(p: JsonRun, s: seq<Byte>, t: seq<Byte>, k: nat)
    requires p.limits.maxBytes == None && |Records(p, s)| == |Records(p, t)| && k <= |Records(p, s)|
    ensures ProcessedFrom(p, s, k) == ProcessedFrom(p, t, k)
    decreases |Records(p, s)| - k
  {
    assert LimitAt(p, s, k) == LimitAt(p, t, k);
    if k == |Records(p, s)| || LimitAt(p, s, k).Some? {
    } else {
      SameStop(p, s, t, k + 1);
    }
  }

  /** The streams differ only where the policy hides it, and the run has no byte limit. */
  ghost predicate SameRun(p: JsonRun, policy: Z.Policy, s: seq<Byte>, t: seq<Byte>) {
    p.sanitize == Sanitizing(policy) && p.limits.maxBytes == None && SameStream(p, policy, s, t)
  }

  lemma SameRunsAreSimilar(p: JsonRun, policy: Z.Policy, s: seq<Byte>, t: seq<Byte>)
    requires SameRun(p, policy, s, t)
    ensures Similar(p, Processed(p, s), Processed(p, t))
    ensures |Records(p, s)| == |Records(p, t)|
  {
    SameStop(p, s, t, 0);
    RecordNumbers(p, s);
    RecordNumbers(p, t);
    forall i | 0 <= i < |Processed(p, s)| ensures SimilarVerdict(p, Processed(p, s)[i], Processed(p, t)[i]) {
      SameLinesAreSimilar(p, policy, Records(p, s)[i], Records(p, t)[i]);
    }
  }

  /** The report without its byte count, which depends on the length of the input. */
  function Visible(r: Report<Z.Event>): Report<Z.Event> { r.(bytesConsumed := 0) }

  lemma MalformedInReport(p: JsonRun, s: seq<Byte>)
    ensures ReportOf(p, s).malformed == DiagnosticsBefore(p, Processed(p, s), |Processed(p, s)|)
  {
    DiagnosticsInOrder(p, s);
    var kept := Diagnostics(p, Rejected(p, Processed(p, s)));
    S.SortOfSorted(RecordLe, kept);
    assert Processed(p, s)[..|Processed(p, s)|] == Processed(p, s);
  }

  /**
   * Two streams that differ only in redacted values, in blank lines, in the layout of their JSON or
   * inside lines that are not JSON both succeed or both fail, and their reports agree in every field
   * but the byte count and the diagnostics.  The diagnostics agree exactly when each line that gets
   * one gets the same one.
   */
  lemma ReportsShowNothingRedacted(p: JsonRun, policy: Z.Policy, s: seq<Byte>, t: seq<Byte>)
    requires SameRun(p, policy, s, t)
    ensures |Processed(p, s)| == |Processed(p, t)| && (Succeeds(p, s) <==> Succeeds(p, t))
    ensures Visible(ReportOf(p, s)).(malformed := []) == Visible(ReportOf(p, t)).(malformed := [])
    ensures Visible(ReportOf(p, s)) == Visible(ReportOf(p, t)) <==>
            SameDiagnoses(p, Processed(p, s), Processed(p, t), |Processed(p, s)|)
  {
    SameRunsAreSimilar(p, policy, s, t);
    SameSuccess(p, policy, s, t);
    SameButDiagnostics(p, policy, s, t);
    SameMalformed(p, policy, s, t);
    var a, b := Visible(ReportOf(p, s)), Visible(ReportOf(p, t));
    assert a == a.(malformed := []).(malformed := a.malformed) && b == b.(malformed := []).(malformed := b.malformed);
  }

  lemma SameSuccess(p: JsonRun, policy: Z.Policy, s: seq<Byte>, t: seq<Byte>)
    requires SameRun(p, policy, s, t)
    ensures Succeeds(p, s) <==> Succeeds(p, t)
  {
    var xs, ys := Processed(p, s), Processed(p, t);
    SameRunsAreSimilar(p, policy, s, t);
    SimilarOutcome(p, xs, ys);
    SimilarFailures(p, xs, ys, |xs|);
    assert xs[..|xs|] == xs && ys[..|ys|] == ys;
  }

  lemma SameButDiagnostics(p: JsonRun, policy: Z.Policy, s: seq<Byte>, t: seq<Byte>)
    requires SameRun(p, policy, s, t)
    ensures Visible(ReportOf(p, s)).(malformed := []) == Visible(ReportOf(p, t)).(malformed := [])
  {
    SameRunsAreSimilar(p, policy, s, t);
    SimilarOutcome(p, Processed(p, s), Processed(p, t));
    assert Groups(p, s) == Groups(p, t);
    assert LimitAt(p, s, |Processed(p, s)|) == LimitAt(p, t, |Processed(p, t)|);
  }

  lemma SameMalformed(p: JsonRun, policy: Z.Policy, s: seq<Byte>, t: seq<Byte>)
    requires SameRun(p, policy, s, t)
    ensures |Processed(p, s)| == |Processed(p, t)|
    ensures ReportOf(p, s).malformed == ReportOf(p, t).malformed <==>
            SameDiagnoses(p, Processed(p, s), Processed(p, t), |Processed(p, s)|)
  {
    SameRunsAreSimilar(p, policy, s, t);
    SimilarDiagnostics(p, Processed(p, s), Processed(p, t), |Processed(p, s)|);
    MalformedInReport(p, s);
    MalformedInReport(p, t);
  }

  lemma SimilarFailures(p: JsonRun, xs: seq<RawLine>, ys: seq<RawLine>, n: nat)
    requires Similar(p, xs, ys) && n <= |xs|
    ensures NoneFailsFast(p, xs[..n]) <==> NoneFailsFast(p, ys[..n])
    ensures forall i :: 0 <= i < |xs| ==> FailsFast(p, xs[i]) == FailsFast(p, ys[i])
  {
    forall i | 0 <= i < |xs| ensures FailsFast(p, xs[i]) == FailsFast(p, ys[i]) {
      assert SimilarVerdict(p, xs[i], ys[i]);
    }
    assert forall i :: 0 <= i < n ==> xs[..n][i] == xs[i] && ys[..n][i] == ys[i];
  }

  // ---- What a diagnosis says ----

  /** A rejected line is diagnosed like another exactly when it is not JSON for the same reason and shows the same text, if any. */
  lemma DiagnosesAgreeExactly(p: JsonRun, policy: Z.Policy, a: RawLine, b: RawLine)
    requires SameLine(p, policy, a, b) && Judge(p, a).Reject?
    ensures Judge(p, a) == Judge(p, b) <==>
            (a.exceeded || !a.utf8
             || (p.parse(a.content).error == p.parse(b.content).error
                 && (p.allowRaw ==> Preview(p.text(a.content), 200) == Preview(p.text(b.content), 200))))
  {
    if a.utf8 && !a.exceeded {
      var x, y := p.parse(a.content).error, p.parse(b.content).error;
      assert ("invalid JSON: " + x)[14..] == x && ("invalid JSON: " + y)[14..] == y;
    }
  }

  /** When malformed lines are not collected, reports show nothing of a redacted value at all. */
  lemma NothingCollectedNothingShown(p: JsonRun, policy: Z.Policy, s: seq<Byte>, t: seq<Byte>)
    requires SameRun(p, policy, s, t) && !p.malformed.Collect?
    ensures Visible(ReportOf(p, s)) == Visible(ReportOf(p, t))
  {
    ReportsShowNothingRedacted(p, policy, s, t);
    SameRunsAreSimilar(p, policy, s, t);
    UncollectedDiagnoses(p, Processed(p, s), Processed(p, t));
  }

  lemma UncollectedDiagnoses(p: JsonRun, xs: seq<RawLine>, ys: seq<RawLine>)
    requires Similar(p, xs, ys) && !p.malformed.Collect?
    ensures SameDiagnoses(p, xs, ys, |xs|)
  {
    forall i | 0 <= i < |xs| && Diagnosed(p, xs, i) ensures Judge(p, xs[i]) == Judge(p, ys[i]) {
      assert SimilarVerdict(p, xs[i], ys[i]);
    }
  }

  // ---- Errors ----

  /** The error of the other stream: the same, but for the reason why a line is not JSON. */
  function Counterpart(p: JsonRun, t: seq<Byte>, e: RunError): RunError {
    if e.MalformedJson? && e.record < |Processed(p, t)| && Judge(p, Processed(p, t)[e.record]).Reject? then
      MalformedJson(e.record, Judge(p, Processed(p, t)[e.record]).why.reason)
    else e
  }

  /** The streams fail alike as well: for the same cause, and with the same error unless it quotes why a line is not JSON. */
  lemma ErrorsShowNothingRedacted(p: JsonRun, policy: Z.Policy, s: seq<Byte>, t: seq<Byte>, e: RunError)
    requires SameRun(p, policy, s, t) && Explains(p, s, e)
    ensures Explains(p, t, Counterpart(p, t, e))
    ensures Explains(p, t, e) <==> Counterpart(p, t, e) == e
  {
    if e.Materialize? {
      SameBatchCause(p, policy, s, t, e.batch);
    } else {
      SameLineCause(p, policy, s, t, e.record);
    }
    if Explains(p, t, e) {
      FailureIsDetermined(p, t, e, Counterpart(p, t, e));
    }
  }

  lemma SameBefore(p: JsonRun, policy: Z.Policy, s: seq<Byte>, t: seq<Byte>, k: nat)
    requires SameRun(p, policy, s, t) && k < |Processed(p, s)|
    ensures |Processed(p, s)| == |Processed(p, t)| && SimilarVerdict(p, Processed(p, s)[k], Processed(p, t)[k])
    ensures AcceptedBefore(p, s, k) == AcceptedBefore(p, t, k)
    ensures NoneFailsFast(p, Processed(p, s)[..k]) <==> NoneFailsFast(p, Processed(p, t)[..k])
  {
    var xs, ys := Processed(p, s), Processed(p, t);
    SameRunsAreSimilar(p, policy, s, t);
    SimilarPrefix(p, xs, ys, k);
    SimilarOutcome(p, xs[..k], ys[..k]);
    SimilarFailures(p, xs, ys, k);
  }

  lemma SameLineCause(p: JsonRun, policy: Z.Policy, s: seq<Byte>, t: seq<Byte>, k: nat)
    requires SameRun(p, policy, s, t) && LineCause(p, s, k)
    ensures LineCause(p, t, k) && SimilarVerdict(p, Processed(p, s)[k], Processed(p, t)[k])
  {
    SameBefore(p, policy, s, t, k);
  }

  lemma SameBatchCause(p: JsonRun, policy: Z.Policy, s: seq<Byte>, t: seq<Byte>, b: nat)
    requires SameRun(p, policy, s, t) && BatchCause(p, s, b)
    ensures BatchCause(p, t, b) && Groups(p, s) == Groups(p, t)
  {
    SameRunsAreSimilar(p, policy, s, t);
    SimilarOutcome(p, Processed(p, s), Processed(p, t));
    forall k | 0 <= k < |Processed(p, t)| && FailsFast(p, Processed(p, t)[k])
      ensures b < |FullBatches(AcceptedBefore(p, t, k), p.BatchSize())|
    {
      SameBefore(p, policy, s, t, k);
    }
  }

  lemma SimilarPrefix(p: JsonRun, xs: seq<RawLine>, ys: seq<RawLine>, n: nat)
    requires Similar(p, xs, ys) && n <= |xs|
    ensures Similar(p, xs[..n], ys[..n])
    ensures forall i :: 0 <= i < |xs| ==> SimilarVerdict(p, xs[i], ys[i])
  {
    forall i | 0 <= i < n ensures SimilarVerdict(p, xs[..n][i], ys[..n][i]) {
      assert SimilarVerdict(p, xs[i], ys[i]);
    }
  }

  // ---- Lines that are not JSON show what is in them ----

  /** The report on one collected line that is not JSON quotes the parser and, if allowed, the line. */
  lemma UnparsableLineShows(p: JsonRun, line: seq<Byte>)
    requires NoLimits(p) && KeptLine(p, line) && !Oversized(p.Cap(), line) && p.decoder.utf8(line)
    requires p.parse(TrimEnd(line)).Err? && p.malformed.Collect? && p.malformed.max > 0
    ensures ReportOf(p, line).malformed ==
            [Malformed(0, BadJsonRejection(p, TrimEnd(line), p.parse(TrimEnd(line)).error))]
  {
    UnparsableLineIsRejected(p, line);
    MalformedInReport(p, line);
    OnlyDiagnosis(p, Processed(p, line));
  }

  lemma OnlyDiagnosis(p: JsonRun, xs: seq<RawLine>)
    requires |xs| == 1 && Judge(p, xs[0]).Reject?
    requires var policy := p.PolicyFor(Judge(p, xs[0]).why.kind); policy.Collect? && policy.max > 0
    ensures DiagnosticsBefore(p, xs, 1) == [Malformed(xs[0].record, Judge(p, xs[0]).why)]
  {
    assert xs[..0] == [] && DiagnosticsBefore(p, xs, 0) == [];
    DiagnosticsStep(p, xs, 0);
  }

  lemma UnparsableLineIsRejected(p: JsonRun, line: seq<Byte>)
    requires NoLimits(p) && KeptLine(p, line) && !Oversized(p.Cap(), line) && p.decoder.utf8(line)
    requires p.parse(TrimEnd(line)).Err?
    ensures |Processed(p, line)| == 1 && Processed(p, line)[0].record == 0
    ensures Judge(p, Processed(p, line)[0]) == Reject(BadJsonRejection(p, TrimEnd(line), p.parse(TrimEnd(line)).error))
  {
    assert Flatten([line]) == line;
    StreamOfLines(p, [line]);
  }

  /** A kept line that decodes, fits the cap and is not JSON. */
  ghost predicate NotJson(p: JsonRun, line: seq<Byte>) {
    KeptLine(p, line) && !Oversized(p.Cap(), line) && p.decoder.utf8(line) && p.parse(TrimEnd(line)).Err?
  }

  /** So two such lines are reported alike exactly when the parser and, if allowed, the previews say the same of both. */
  lemma UnparsableLinesReportAlike(p: JsonRun, a: seq<Byte>, b: seq<Byte>)
    requires NoLimits(p) && p.malformed.Collect? && p.malformed.max > 0 && NotJson(p, a) && NotJson(p, b)
    ensures ReportOf(p, a).malformed == ReportOf(p, b).malformed <==>
            p.parse(TrimEnd(a)).error == p.parse(TrimEnd(b)).error
            && (p.allowRaw ==> Preview(p.text(TrimEnd(a)), 200) == Preview(p.text(TrimEnd(b)), 200))
  {
    UnparsableLineShows(p, a);
    UnparsableLineShows(p, b);
    ReasonsDecide(p.parse(TrimEnd(a)).error, p.parse(TrimEnd(b)).error);
  }

  lemma ReasonsDecide(x: string, y: string)
    ensures "invalid JSON: " + x == "invalid JSON: " + y <==> x == y
  {
    assert ("invalid JSON: " + x)[14..] == x && ("invalid JSON: " + y)[14..] == y;
  }

  /** Yet the streams of the two lines differ only where any policy hides it. */
  lemma UnparsableLinesAreSame(p: JsonRun, policy: Z.Policy, a: seq<Byte>, b: seq<Byte>)
    requires NoLimits(p) && NotJson(p, a) && NotJson(p, b)
    ensures SameStream(p, policy, a, b)
  {
    RecordOfLine(p, a);
    RecordOfLine(p, b);
  }

  lemma RecordOfLine(p: JsonRun, line: seq<Byte>)
    requires NoLimits(p) && KeptLine(p, line)
    ensures Records(p, line) == [RawOf(p.decoder, p.Cap(), line, 0)]
  {
    assert Flatten([line]) == line;
    StreamOfLines(p, [line]);
    NoLimitStops(p, line, 0);
    assert Processed(p, line) == Records(p, line);
  }

  // ---- An example ----

  function EndOfString(): string { "EOF while parsing a string at line 1 column " }

  function EndsInString(): seq<Byte> -> Result<Z.Json, string> {
    (content: seq<Byte>) => Err(EndOfString() + Decimal(|content|))
  }

  /** A run that collects diagnostics over plain ASCII, with a parser that ends inside a string. */
  function CollectingRun(policy: Z.Policy, allowRaw: bool): JsonRun {
    Pipeline(Limits(None, None, 1000, 1), Collect(10), Skip, Decoder(_ => true, s => s == []), allowRaw, Text,
             EndsInString(), Sanitizing(policy), (_: seq<Z.Json>) => Ok([]))
  }

  lemma TruncatedLine(policy: Z.Policy, allowRaw: bool, text: string)
    requires OneLine(text) && |text| < 1000
    ensures var p := CollectingRun(policy, allowRaw);
            NotJson(p, LineOf(text)) && p.parse(TrimEnd(LineOf(text))) == Err(EndOfString() + Decimal(|text|))
  {
    var p, line, bytes := CollectingRun(policy, allowRaw), LineOf(text), Bytes(text);
    LineOfText(text);
    assert p.Cap() == 1000 && !Oversized(1000, line);
    assert !p.decoder.whitespace(bytes) && p.decoder.utf8(line);
    assert p.parse(bytes) == EndsInString()(bytes);
  }

  lemma ColumnsDiffer(prefix: string)
    ensures prefix + Decimal(11) != prefix + Decimal(13)
  {
    assert Decimal(11) == "11" && Decimal(13) == "13";
    assert (prefix + "11")[|prefix| + 1] == '1' && (prefix + "13")[|prefix| + 1] == '3';
  }

  /** A run that allows raw diagnostics quotes a line that is not JSON, whatever the policy redacts. */
  lemma RawDiagnosticsQuote(policy: Z.Policy, text: string)
    requires OneLine(text) && |text| <= 200
    ensures var malformed := ReportOf(CollectingRun(policy, true), LineOf(text)).malformed;
            |malformed| == 1 && malformed[0].why.preview == Some(text)
  {
    TruncatedLine(policy, true, text);
    LineOfText(text);
    UnparsableLineShows(CollectingRun(policy, true), LineOf(text));
  }

  /** Two truncated records with secrets of different lengths are reported differently, raw diagnostics or not. */
  lemma TruncatedRecordsLeak(policy: Z.Policy, allowRaw: bool, short: string, long: string)
    requires short == "{\"ssn\":\"123" && long == "{\"ssn\":\"98765"
    ensures var p := CollectingRun(policy, allowRaw);
            SameRun(p, policy, LineOf(short), LineOf(long))
            && ReportOf(p, LineOf(short)).malformed != ReportOf(p, LineOf(long)).malformed
  {
    var p := CollectingRun(policy, allowRaw);
    ExampleLines(short, long);
    TruncatedLine(policy, allowRaw, short);
    TruncatedLine(policy, allowRaw, long);
    UnparsableLinesAreSame(p, policy, LineOf(short), LineOf(long));
    UnparsableLinesReportAlike(p, LineOf(short), LineOf(long));
    ColumnsDiffer(EndOfString());
  }

  lemma ExampleLines(short: string, long: string)
    requires short == "{\"ssn\":\"123" && long == "{\"ssn\":\"98765"
    ensures OneLine(short) && |short| == 11 && OneLine(long) && |long| == 13
  {
  }
}
