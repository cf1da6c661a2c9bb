/**
 * Cutting a stream between its lines: whatever consecutive records a run accepts are themselves all
 * that a run accepts, so every batch of a run is the whole of another run.
 */
module StreamCuts {
  import opened Sequences
  import opened Ndjson
  import opened StreamRun
  import opened StreamLaws

  /** The rows and values that a run accepts. */
  function RowsIn<V, E>(p: Pipeline<V, E>, s: seq<Byte>): seq<Row<V>> { Accepted(p, Processed(p, s)) }

  function ValuesIn<V, E>(p: Pipeline<V, E>, s: seq<Byte>): seq<V> { Values(RowsIn(p, s)) }

  ghost predicate NothingFailsFast<V, E>(p: Pipeline<V, E>, s: seq<Byte>) { NoneFailsFast(p, Processed(p, s)) }

  // ---- What a line contributes ----

  /** The verdict on a line does not depend on its number. */
  function JudgeLine<V, E>(p: Pipeline<V, E>, line: seq<Byte>): Verdict<V, E> {
    Judge(p, RawOf(p.decoder, p.Cap(), line, 0))
  }

  lemma NumberIsIgnored<V, E>(p: Pipeline<V, E>, line: seq<Byte>, n: nat)
    ensures Judge(p, RawOf(p.decoder, p.Cap(), line, n)) == JudgeLine(p, line)
  {
  }

  function LineValue<V, E>(p: Pipeline<V, E>, line: seq<Byte>): seq<V> {
    var verdict := JudgeLine(p, line);
    if verdict.Accept? then [verdict.value] else []
  }

  function LineValueOf<V, E>(p: Pipeline<V, E>): seq<Byte> -> seq<V> { (line: seq<Byte>) => LineValue(p, line) }

  function Each<A, B>(f: A -> seq<B>, s: seq<A>): seq<B> {
    if s == [] then [] else Each(f, s[..|s| - 1]) + f(s[|s| - 1])
  }

  function LineValues<V, E>(p: Pipeline<V, E>, lines: seq<seq<Byte>>): seq<V> { Each(LineValueOf(p), lines) }

  lemma EachOfMore<A, B>(f: A -> seq<B>, s: seq<A>, x: A)
    ensures Each(f, s + [x]) == Each(f, s) + f(x)
  {
    assert (s + [x])[..|s|] == s;
  }

  lemma {:induction false} EachAppend<A, B>(f: A -> seq<B>, a: seq<A>, b: seq<A>)
    ensures Each(f, a + b) == Each(f, a) + Each(f, b)
  {
    if b == [] {
      assert a + b == a;
    } else {
      var init, last := b[..|b| - 1], b[|b| - 1];
      EachAppend(f, a, init);
      EachOfMore(f, a + init, last);
      Regroup(Each(f, a), Each(f, init), f(last));
      assert a + b == (a + init) + [last];
    }
  }

  lemma {:induction false} RawLinesAre<V, E>(p: Pipeline<V, E>, raw: seq<RawLine>, lines: seq<seq<Byte>>)
    requires |raw| == |lines| && forall k :: 0 <= k < |raw| ==> raw[k] == RawOf(p.decoder, p.Cap(), lines[k], k)
    ensures Values(Accepted(p, raw)) == LineValues(p, lines)
  {
    if raw == [] {
    } else {
      var n := |raw| - 1;
      RawLinesAre(p, raw[..n], lines[..n]);
      NumberIsIgnored(p, lines[n], n);
      assert raw == raw[..n] + [raw[n]] && lines == lines[..n] + [lines[n]];
      ValuesOfLine(p, raw[..n], raw[n]);
      EachOfMore(LineValueOf(p), lines[..n], lines[n]);
    }
  }

  lemma ValuesOfLine<V, E>(p: Pipeline<V, E>, raw: seq<RawLine>, line: RawLine)
    ensures Values(Accepted(p, raw + [line])) ==
            Values(Accepted(p, raw)) + if Judge(p, line).Accept? then [Judge(p, line).value] else []
  {
    OneMoreLine(p, raw, line);
    if Judge(p, line).Accept? {
      ValuesOfMore(Accepted(p, raw), Row(line.record, Judge(p, line).value));
    }
  }

  lemma ValuesOfMore<V>(rows: seq<Row<V>>, row: Row<V>)
    ensures Values(rows + [row]) == Values(rows) + [row.value]
  {
  }

  // ---- Streams of given lines ----

  /** The lines the reader keeps of a stream. */
  function KeptOf<V, E>(p: Pipeline<V, E>, s: seq<Byte>): seq<seq<Byte>> { Kept(p.decoder, p.Cap(), Lines(s)) }

  /** Lines that a stream can be made of: only the last may lack its newline, and none is skipped. */
  ghost predicate Streamable<V, E>(p: Pipeline<V, E>, lines: seq<seq<Byte>>) {
    && (forall i :: 0 <= i < |lines| ==> IsLine(lines[i]) && !Skipped(p.decoder, p.Cap(), lines[i]))
    && (forall i :: 0 <= i < |lines| - 1 ==> Ends(lines[i]))
  }

  predicate Ends(line: seq<Byte>) { line != [] && line[|line| - 1] == NEWLINE }

  lemma StreamOfStreamable<V, E>(p: Pipeline<V, E>, lines: seq<seq<Byte>>)
    requires Streamable(p, lines)
    ensures KeptOf(p, Flatten(lines)) == lines
  {
    assert forall i :: 0 <= i < |lines| - 1 ==> Ends(lines[i]);
    NewlineSplitUnique(lines, Flatten(lines));
    NothingSkipped(p.decoder, p.Cap(), lines);
  }

  lemma {:induction false} KeptAreStreamable<V, E>(p: Pipeline<V, E>, lines: seq<seq<Byte>>)
    requires forall i :: 0 <= i < |lines| ==> IsLine(lines[i])
    requires forall i :: 0 <= i < |lines| - 1 ==> Ends(lines[i])
    ensures Streamable(p, Kept(p.decoder, p.Cap(), lines))
  {
    if lines == [] {
    } else {
      var rest := lines[1..];
      assert forall i :: 0 <= i < |rest| ==> rest[i] == lines[i + 1];
      KeptAreStreamable(p, rest);
      if !Skipped(p.decoder, p.Cap(), lines[0]) {
        HeadIsStreamable(p, lines[0], Kept(p.decoder, p.Cap(), rest), rest == []);
      }
    }
  }

  lemma HeadIsStreamable<V, E>(p: Pipeline<V, E>, head: seq<Byte>, kept: seq<seq<Byte>>, alone: bool)
    requires IsLine(head) && !Skipped(p.decoder, p.Cap(), head) && Streamable(p, kept)
    requires if alone then kept == [] else Ends(head)
    ensures Streamable(p, [head] + kept)
  {
    var all := [head] + kept;
    assert forall i :: 0 < i < |all| ==> all[i] == kept[i - 1];
  }

  lemma KeptOfStream<V, E>(p: Pipeline<V, E>, s: seq<Byte>)
    ensures Streamable(p, KeptOf(p, s))
  {
    LinesSplit(s);
    forall i | 0 <= i < |Lines(s)| - 1 ensures Ends(Lines(s)[i]) {
    }
    KeptAreStreamable(p, Lines(s));
  }

  lemma SliceIsStreamable<V, E>(p: Pipeline<V, E>, lines: seq<seq<Byte>>, k: nat, m: nat)
    requires Streamable(p, lines) && k <= m <= |lines|
    ensures Streamable(p, lines[k..m])
  {
    var part := lines[k..m];
    assert forall i :: 0 <= i < |part| ==> part[i] == lines[k + i];
  }

  lemma RecordsAre<V, E>(p: Pipeline<V, E>, s: seq<Byte>)
    ensures |Records(p, s)| == |KeptOf(p, s)|
    ensures forall k :: 0 <= k < |KeptOf(p, s)| ==> Records(p, s)[k] == RawOf(p.decoder, p.Cap(), KeptOf(p, s)[k], k)
  {
    var kept := KeptOf(p, s);
    RawLineAt(p.decoder, p.Cap(), kept, 0, 0);
    forall k | 0 <= k < |kept| ensures Records(p, s)[k] == RawOf(p.decoder, p.Cap(), kept[k], k) {
      RawLineAt(p.decoder, p.Cap(), kept, 0, k);
    }
  }

  /** The lines that the run processes. */
  function LinesIn<V, E>(p: Pipeline<V, E>, s: seq<Byte>): seq<seq<Byte>> {
    RecordsAre(p, s);
    KeptOf(p, s)[..|Processed(p, s)|]
  }

  lemma ProcessedAre<V, E>(p: Pipeline<V, E>, s: seq<Byte>, k: nat)
    requires k < |LinesIn(p, s)|
    ensures |Processed(p, s)| == |LinesIn(p, s)| && Processed(p, s)[k] == RawOf(p.decoder, p.Cap(), LinesIn(p, s)[k], k)
  {
    RecordsAre(p, s);
    assert Processed(p, s)[k] == Records(p, s)[k];
  }

  lemma ValuesAre<V, E>(p: Pipeline<V, E>, s: seq<Byte>)
    ensures ValuesIn(p, s) == LineValues(p, LinesIn(p, s))
  {
    RecordsAre(p, s);
    forall k | 0 <= k < |LinesIn(p, s)| ensures Processed(p, s)[k] == RawOf(p.decoder, p.Cap(), LinesIn(p, s)[k], k) {
      ProcessedAre(p, s, k);
    }
    RawLinesAre(p, Processed(p, s), LinesIn(p, s));
  }

  // ---- Limits ----

  lemma {:induction false} NotLimitedBefore<V, E>(p: Pipeline<V, E>, s: seq<Byte>, k: nat, j: nat)
    requires k <= |Records(p, s)| && k <= j < ProcessedFrom(p, s, k)
    ensures LimitAt(p, s, j).None?
    decreases |Records(p, s)| - k
  {
    if j > k {
      NotLimitedBefore(p, s, k + 1, j);
    }
  }

  lemma {:induction false} NeverLimited<V, E>(p: Pipeline<V, E>, s: seq<Byte>, k: nat)
    requires k <= |Records(p, s)| && forall j :: k <= j < |Records(p, s)| ==> LimitAt(p, s, j).None?
    ensures ProcessedFrom(p, s, k) == |Records(p, s)|
    decreases |Records(p, s)| - k
  {
    if k == |Records(p, s)| {
    } else {
      NeverLimited(p, s, k + 1);
    }
  }

  /** The first record takes at least its line, and leaves the other records. */
  lemma {:induction false} RecordTakesItsLine(d: Decoder, cap: nat, s: seq<Byte>)
    requires Kept(d, cap, Lines(s)) != []
    ensures var kept, rest := Kept(d, cap, Lines(s)), AfterRecord(d, cap, s);
            |rest| + |kept[0]| <= |s| && Kept(d, cap, Lines(rest)) == kept[1..]
    decreases |s|
  {
    assert s != [] && Lines(s) == [FirstLine(s)] + Lines(AfterLine(s));
    if Skipped(d, cap, FirstLine(s)) {
      RecordTakesItsLine(d, cap, AfterLine(s));
    }
  }

  lemma {:induction false} RecordsTakeTheirLines<V, E>(p: Pipeline<V, E>, s: seq<Byte>, k: nat)
    requires k <= |KeptOf(p, s)|
    ensures KeptOf(p, RestAfter(p.decoder, p.Cap(), s, k)) == KeptOf(p, s)[k..]
    ensures Offset(p, s, k) >= |Flatten(KeptOf(p, s)[..k])|
  {
    var kept := KeptOf(p, s);
    if k == 0 {
    } else {
      RecordsTakeTheirLines(p, s, k - 1);
      var before := RestAfter(p.decoder, p.Cap(), s, k - 1);
      RecordTakesItsLine(p.decoder, p.Cap(), before);
      assert kept[k - 1..][1..] == kept[k..] && kept[..k] == kept[..k - 1] + [kept[k - 1]];
      LengthOfMore(kept[..k - 1], kept[k - 1]);
    }
  }

  lemma LengthOfMore<T>(parts: seq<seq<T>>, part: seq<T>)
    ensures |Flatten(parts + [part])| == |Flatten(parts)| + |part|
  {
    FlattenAppend(parts, [part]);
    assert Flatten([part]) == part + Flatten([part][1..]) == part;
  }

  /** A stream of lines that are all kept is consumed line by line. */
  lemma {:induction false} RestOfStreamable<V, E>(p: Pipeline<V, E>, lines: seq<seq<Byte>>, k: nat)
    requires Streamable(p, lines) && k <= |lines|
    ensures RestAfter(p.decoder, p.Cap(), Flatten(lines), k) == Flatten(lines[k..])
  {
    if k == 0 {
      assert lines[0..] == lines;
    } else {
      RestOfStreamable(p, lines, k - 1);
      var line, rest := lines[k - 1], lines[k..];
      assert lines[k - 1..][1..] == rest && lines[k - 1..][0] == line;
      assert rest != [] ==> Ends(line);
      LineIsHead(line, Flatten(rest));
    }
  }

  lemma OffsetOfStreamable<V, E>(p: Pipeline<V, E>, lines: seq<seq<Byte>>, k: nat)
    requires Streamable(p, lines) && k <= |lines|
    ensures Offset(p, Flatten(lines), k) == |Flatten(lines[..k])|
  {
    RestOfStreamable(p, lines, k);
    FlattenAppend(lines[..k], lines[k..]);
    assert lines == lines[..k] + lines[k..];
  }

  lemma PartIsNotLonger<T>(parts: seq<seq<T>>, k: nat, j: nat)
    requires k + j <= |parts|
    ensures |Flatten(parts[k..][..j])| <= |Flatten(parts[..k + j])|
  {
    assert parts[..k + j] == parts[..k] + parts[k..][..j];
    FlattenAppend(parts[..k], parts[k..][..j]);
  }

  /** Kept lines of a stream come no later when they are a stream of their own ... */
  lemma PartComesNoLater<V, E>(p: Pipeline<V, E>, s: seq<Byte>, k: nat, m: nat, j: nat)
    requires k <= m <= |KeptOf(p, s)| && j < m - k && Streamable(p, KeptOf(p, s)[k..m])
    ensures Offset(p, Flatten(KeptOf(p, s)[k..m]), j) <= Offset(p, s, k + j)
  {
    var kept := KeptOf(p, s);
    RecordsTakeTheirLines(p, s, k + j);
    OffsetOfStreamable(p, kept[k..m], j);
    assert kept[k..m][..j] == kept[k..][..j];
    PartIsNotLonger(kept, k, j);
  }

  /** ... so no limit that they were read under stops it. */
  lemma PartIsNotLimited<V, E>(p: Pipeline<V, E>, s: seq<Byte>, k: nat, m: nat, j: nat)
    requires k <= m <= |KeptOf(p, s)| && j < m - k && Streamable(p, KeptOf(p, s)[k..m]) && LimitAt(p, s, k + j).None?
    ensures LimitAt(p, Flatten(KeptOf(p, s)[k..m]), j).None?
  {
    PartComesNoLater(p, s, k, m, j);
  }

  lemma PartIsKept<V, E>(p: Pipeline<V, E>, s: seq<Byte>, k: nat, m: nat)
    requires k <= m <= |KeptOf(p, s)|
    ensures var part := KeptOf(p, s)[k..m]; Streamable(p, part) && KeptOf(p, Flatten(part)) == part
  {
    KeptOfStream(p, s);
    SliceIsStreamable(p, KeptOf(p, s), k, m);
    StreamOfStreamable(p, KeptOf(p, s)[k..m]);
  }

  lemma AllAreProcessed<V, E>(p: Pipeline<V, E>, t: seq<Byte>)
    requires forall j :: 0 <= j < |KeptOf(p, t)| ==> LimitAt(p, t, j).None?
    ensures LinesIn(p, t) == KeptOf(p, t)
  {
    RecordsAre(p, t);
    NeverLimited(p, t, 0);
  }

  lemma PartIsProcessed<V, E>(p: Pipeline<V, E>, s: seq<Byte>, k: nat, m: nat)
    requires k <= m <= |LinesIn(p, s)|
    ensures LinesIn(p, Flatten(LinesIn(p, s)[k..m])) == LinesIn(p, s)[k..m]
  {
    RecordsAre(p, s);
    var part := KeptOf(p, s)[k..m];
    assert LinesIn(p, s)[k..m] == part;
    PartIsKept(p, s, k, m);
    forall j | 0 <= j < |part| ensures LimitAt(p, Flatten(part), j).None? {
      NotLimitedBefore(p, s, 0, k + j);
      PartIsNotLimited(p, s, k, m, j);
    }
    AllAreProcessed(p, Flatten(part));
  }

  // ---- Cutting out the lines of given values ----

  lemma {:induction false} LinesBefore<V, E>(p: Pipeline<V, E>, lines: seq<seq<Byte>>, b: nat) returns (m: nat)
    requires b <= |LineValues(p, lines)|
    ensures m <= |lines| && LineValues(p, lines[..m]) == LineValues(p, lines)[..b]
  {
    if b == |LineValues(p, lines)| {
      m := |lines|;
      assert lines[..m] == lines;
    } else {
      var init := lines[..|lines| - 1];
      m := LinesBefore(p, init, b);
      assert lines[..m] == init[..m];
      assert LineValues(p, init)[..b] == LineValues(p, lines)[..b];
    }
  }

  lemma LinesBetween<V, E>(p: Pipeline<V, E>, lines: seq<seq<Byte>>, a: nat, b: nat) returns (k: nat, m: nat)
    requires a <= b <= |LineValues(p, lines)|
    ensures k <= m <= |lines| && LineValues(p, lines[k..m]) == LineValues(p, lines)[a..b]
  {
    m := LinesBefore(p, lines, b);
    var first := lines[..m];
    k := LinesBefore(p, first, a);
    assert first == first[..k] + first[k..];
    EachAppend(LineValueOf(p), first[..k], first[k..]);
    assert lines[k..m] == first[k..];
    AfterPrefix(LineValues(p, first[..k]), LineValues(p, first[k..]), a);
    assert LineValues(p, lines)[..b][a..] == LineValues(p, lines)[a..b];
  }

  lemma AfterPrefix<T>(a: seq<T>, b: seq<T>, n: nat)
    requires n == |a|
    ensures (a + b)[n..] == b
  {
  }

  /** Consecutive values that a run accepts are all that another run accepts, which does not fail fast either. */
  lemma SliceIsAStream<V, E>(p: Pipeline<V, E>, s: seq<Byte>, a: nat, b: nat) returns (t: seq<Byte>)
    requires NothingFailsFast(p, s) && a <= b <= |ValuesIn(p, s)|
    ensures NothingFailsFast(p, t) && ValuesIn(p, t) == ValuesIn(p, s)[a..b]
  {
    ValuesAre(p, s);
    var k, m := LinesBetween(p, LinesIn(p, s), a, b);
    t := Flatten(LinesIn(p, s)[k..m]);
    PartIsProcessed(p, s, k, m);
    ValuesAre(p, t);
    PartFailsNoFaster(p, s, t, k, m);
  }

  lemma JudgedAlike<V, E>(p: Pipeline<V, E>, s: seq<Byte>, t: seq<Byte>, i: nat, j: nat)
    requires i < |LinesIn(p, t)| && j < |LinesIn(p, s)| && LinesIn(p, t)[i] == LinesIn(p, s)[j]
    ensures i < |Processed(p, t)| && j < |Processed(p, s)|
    ensures Judge(p, Processed(p, t)[i]) == Judge(p, Processed(p, s)[j])
  {
    ProcessedAre(p, t, i);
    ProcessedAre(p, s, j);
    NumberIsIgnored(p, LinesIn(p, t)[i], i);
    NumberIsIgnored(p, LinesIn(p, s)[j], j);
  }

  lemma PartFailsNoFaster<V, E>(p: Pipeline<V, E>, s: seq<Byte>, t: seq<Byte>, k: nat, m: nat)
    requires NothingFailsFast(p, s) && k <= m <= |LinesIn(p, s)| && LinesIn(p, t) == LinesIn(p, s)[k..m]
    ensures NothingFailsFast(p, t)
  {
    RecordsAre(p, t);
    forall i | 0 <= i < |Processed(p, t)| ensures !FailsFast(p, Processed(p, t)[i]) {
      JudgedAlike(p, s, t, i, k + i);
      assert !FailsFast(p, Processed(p, s)[k + i]);
    }
  }
}
