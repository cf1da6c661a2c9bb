/**
 * The incremental NDJSON reader: `read_line_capped` and `NdjsonSource::next_line`
 * (crates/statguardian-stream/src/ndjson.rs).
 *
 * The specification is a function of the bytes alone: the newline split of the input, without its
 * blank lines, one raw record per line.  The methods read through a `BufReader` that hands the
 * bytes out in arbitrary non-empty pieces and are proved to produce exactly that.
 */
module Ndjson {
  import opened Sequences

  const NEWLINE: Byte := 10
  const CARRIAGE_RETURN: Byte := 13

  /** The decoder's view of a line: which bytes are valid UTF-8, and which valid text is all white space. */
  datatype Decoder = Decoder(utf8: seq<Byte> -> bool, whitespace: seq<Byte> -> bool)

  datatype RawLine = RawLine(record: nat, bytes: nat, exceeded: bool, utf8: bool, content: seq<Byte>)

  // ---- Specification: the newline split ----

  /** How many bytes the first line of `s` takes, its newline included. */
  function LineLength(s: seq<Byte>): (n: nat)
    ensures n <= |s|
    ensures s != [] ==> n > 0
  {
    if s == [] then 0 else if s[0] == NEWLINE then 1 else 1 + LineLength(s[1..])
  }

  function FirstLine(s: seq<Byte>): seq<Byte> { s[..LineLength(s)] }

  function AfterLine(s: seq<Byte>): seq<Byte> { s[LineLength(s)..] }

  function Lines(s: seq<Byte>): seq<seq<Byte>>
    decreases |s|
  {
    if s == [] then [] else [FirstLine(s)] + Lines(AfterLine(s))
  }

  ghost predicate IsLine(line: seq<Byte>) {
    line != [] && NEWLINE !in line[..|line| - 1]
  }

  /** A newline split: non-empty lines, a newline only at the end of a line, and there on all but the last. */
  ghost predicate IsNewlineSplit(lines: seq<seq<Byte>>, s: seq<Byte>) {
    && Flatten(lines) == s
    && (forall i :: 0 <= i < |lines| ==> IsLine(lines[i]))
    && (forall i :: 0 <= i < |lines| - 1 ==> lines[i] != [] && lines[i][|lines[i]| - 1] == NEWLINE)
  }

  lemma {:induction false} FirstLineIsLine(s: seq<Byte>)
    requires s != []
    ensures IsLine(FirstLine(s))
    ensures LineLength(s) < |s| ==> s[LineLength(s) - 1] == NEWLINE
  {
    if s[0] == NEWLINE || s[1..] == [] {
    } else {
      FirstLineIsLine(s[1..]);
      var n := LineLength(s[1..]);
      assert FirstLine(s)[..n] == [s[0]] + FirstLine(s[1..])[..n - 1];
    }
  }

  /** `Lines` is a newline split of the input. */
  lemma {:induction false} LinesSplit(s: seq<Byte>)
    ensures IsNewlineSplit(Lines(s), s)
    decreases |s|
  {
    if s == [] {
    } else {
      FirstLineIsLine(s);
      LinesSplit(AfterLine(s));
      SplitAfterLine(FirstLine(s), Lines(AfterLine(s)), AfterLine(s));
      assert s == FirstLine(s) + AfterLine(s);
    }
  }

  lemma SplitAfterLine(line: seq<Byte>, tail: seq<seq<Byte>>, after: seq<Byte>)
    requires IsLine(line) && IsNewlineSplit(tail, after)
    requires after == [] || line[|line| - 1] == NEWLINE
    ensures IsNewlineSplit([line] + tail, line + after)
  {
    var lines := [line] + tail;
    assert lines[1..] == tail;
    assert tail != [] ==> tail[0] != [] && Flatten(tail) != [];
  }

  /** ... and the only one, so every reader that splits at newlines finds the same lines. */
  lemma {:induction false} NewlineSplitUnique(lines: seq<seq<Byte>>, s: seq<Byte>)
    requires IsNewlineSplit(lines, s)
    ensures lines == Lines(s)
  {
    if lines == [] {
    } else {
      var head, tail := lines[0], lines[1..];
      assert IsLine(head);
      assert s == head + Flatten(tail);
      LineIsHead(head, Flatten(tail));
      assert forall i :: 0 <= i < |tail| ==> tail[i] == lines[i + 1];
      NewlineSplitUnique(tail, AfterLine(s));
    }
  }

  /** A line that ends in a newline, or is the whole input, is the first line. */
  lemma LineIsHead(line: seq<Byte>, after: seq<Byte>)
    requires IsLine(line)
    requires after == [] || line[|line| - 1] == NEWLINE
    ensures FirstLine(line + after) == line && AfterLine(line + after) == after
  {
    var body, last := line[..|line| - 1], line[|line| - 1];
    assert line + after == body + ([last] + after);
    LineAcrossPieces(body, [last] + after);
    assert ([last] + after)[1..] == after;
    assert LineLength(line + after) == |line|;
  }

  /** Extending a newline-free piece by a later piece extends its line by that piece's line. */
  lemma {:induction false} LineAcrossPieces(done: seq<Byte>, s: seq<Byte>)
    requires NEWLINE !in done
    ensures LineLength(done + s) == |done| + LineLength(s)
  {
    if done == [] {
      assert done + s == s;
    } else {
      assert (done + s)[1..] == done[1..] + s;
      assert done[0] in done;
      LineAcrossPieces(done[1..], s);
    }
  }

  // ---- Specification: raw records ----

  /** `trim_end_matches(['\n', '\r'])`. */
  function TrimEnd(line: seq<Byte>): seq<Byte> {
    if line != [] && (line[|line| - 1] == NEWLINE || line[|line| - 1] == CARRIAGE_RETURN)
    then TrimEnd(line[..|line| - 1]) else line
  }

  /** The cap counts every byte of the line, its newline included. */
  predicate Oversized(cap: nat, line: seq<Byte>) { |line| > cap }

  /** Only a line that fits the cap and decodes can be skipped as blank. */
  predicate Skipped(d: Decoder, cap: nat, line: seq<Byte>) {
    !Oversized(cap, line) && d.utf8(line) && d.whitespace(TrimEnd(line))
  }

  function Kept(d: Decoder, cap: nat, lines: seq<seq<Byte>>): seq<seq<Byte>> {
    if lines == [] then []
    else (if Skipped(d, cap, lines[0]) then [] else [lines[0]]) + Kept(d, cap, lines[1..])
  }

  function RawOf(d: Decoder, cap: nat, line: seq<Byte>, record: nat): RawLine {
    if Oversized(cap, line) then RawLine(record, |line|, true, false, [])
    else if !d.utf8(line) then RawLine(record, |line|, false, false, [])
    else RawLine(record, |line|, false, true, TrimEnd(line))
  }

  /** The records of an input, numbered from `first`. */
  function RecordsFrom(d: Decoder, cap: nat, s: seq<Byte>, first: nat): seq<RawLine> {
    RawLines(d, cap, Kept(d, cap, Lines(s)), first)
  }

  function RawLines(d: Decoder, cap: nat, kept: seq<seq<Byte>>, first: nat): seq<RawLine> {
    if kept == [] then [] else [RawOf(d, cap, kept[0], first)] + RawLines(d, cap, kept[1..], first + 1)
  }

  /** What is left of `s` after its first record; blank lines before it are passed over. */
  function AfterRecord(d: Decoder, cap: nat, s: seq<Byte>): (rest: seq<Byte>)
    ensures |rest| <= |s|
    decreases |s|
  {
    if s == [] then []
    else if Skipped(d, cap, FirstLine(s)) then AfterRecord(d, cap, AfterLine(s))
    else AfterLine(s)
  }

  /** What is left of `s` after its first `k` records. */
  function RestAfter(d: Decoder, cap: nat, s: seq<Byte>, k: nat): (rest: seq<Byte>)
    ensures |rest| <= |s|
  {
    if k == 0 then s else AfterRecord(d, cap, RestAfter(d, cap, s, k - 1))
  }

  /** What `read_line_capped` leaves in its buffer: the line, cut at the cap. */
  function Capped(cap: nat, line: seq<Byte>): (r: seq<Byte>)
    ensures |r| <= cap
  {
    if |line| <= cap then line else line[..cap]
  }

  // ---- The buffered reader ----

  /**
   * A buffered byte source.  `FillBuf` exposes some non-empty piece of what is left (any length at
   * all), or nothing at the end of input; `Consume` drops bytes that were exposed.
   */
  class BufReader {
    var rest: seq<Byte>   // not yet consumed
    var exposed: nat      // how much of it the buffer currently holds

    ghost predicate Valid() reads this { exposed <= |rest| }

    constructor (bytes: seq<Byte>)
      ensures Valid() && rest == bytes
    {
      rest, exposed := bytes, 0;
    }

    method FillBuf() returns (available: seq<Byte>)
      requires Valid()
      modifies this`exposed
      ensures Valid() && exposed == |available|
      ensures available <= rest
      ensures available == [] <==> rest == []
    {
      if exposed == 0 && rest != [] {
        var n: nat :| 0 < n <= |rest|;
        exposed := n;
      }
      available := rest[..exposed];
    }

    method Consume(n: nat)
      requires Valid() && n <= exposed
      modifies this
      ensures Valid() && rest == old(rest)[n..]
    {
      rest, exposed := rest[n..], exposed - n;
    }
  }

  /** The outcome of reading a line: `Ok(None)` or `Ok(Some((bytes, exceeded)))`. */
  datatype LineRead = EndOfInput | Line(bytes: nat, exceeded: bool)

  method PositionOfNewline(available: seq<Byte>) returns (newline: Option<nat>)
    ensures newline.Some? ==> newline.value < |available| && available[newline.value] == NEWLINE
    ensures newline.Some? ==> NEWLINE !in available[..newline.value]
    ensures newline.None? ==> NEWLINE !in available
  {
    for i := 0 to |available|
      invariant NEWLINE !in available[..i]
    {
      if available[i] == NEWLINE {
        return Some(i);
      }
    }
    return None;
  }

  /** A line ends at the first newline, and nowhere before the end of a newline-free input. */
  lemma {:induction false} LineEndsAt(input: seq<Byte>, n: nat)
    requires n <= |input| && NEWLINE !in input[..n]
    ensures n == |input| ==> LineLength(input) == n
    ensures n < |input| && input[n] == NEWLINE ==> LineLength(input) == n + 1
  {
    assert input == input[..n] + input[n..];
    LineAcrossPieces(input[..n], input[n..]);
  }

  /** The bytes exposed at offset `at` extend a prefix copied so far, and are newline-free if both parts are. */
  lemma ExposedBytes(input: seq<Byte>, at: nat, available: seq<Byte>, n: nat)
    requires at <= |input| && available <= input[at..] && n <= |available|
    ensures at + n <= |input| && input[..at] + available[..n] == input[..at + n]
    ensures input[at..][n..] == input[at + n..]
    ensures NEWLINE !in input[..at] && NEWLINE !in available[..n] ==> NEWLINE !in input[..at + n]
    ensures n < |available| ==> input[at + n] == available[n]
  {
  }

  /** Copying what still fits keeps the buffer at the capped prefix. */
  lemma CopyStep(cap: nat, input: seq<Byte>, at: nat, available: seq<Byte>, used: nat)
    requires at <= |input| && available <= input[at..] && used <= |available|
    ensures at > cap ==> Capped(cap, input[..at + used]) == Capped(cap, input[..at])
    ensures at <= cap ==>
      var copy := if used <= cap - at then used else cap - at;
      Capped(cap, input[..at + used]) == Capped(cap, input[..at]) + available[..copy]
  {
    ExposedBytes(input, at, available, used);
    if at <= cap {
      ExposedBytes(input, at, available, if used <= cap - at then used else cap - at);
    }
  }

  /** What the read loop knows after `total` bytes of `input` without a newline among them. */
  ghost predicate Partial(cap: nat, input: seq<Byte>, total: nat, out: seq<Byte>, exceeded: bool) {
    && total <= |input|
    && out == Capped(cap, input[..total])
    && exceeded == (total > cap)
  }

  /** The capped copy of the exposed bytes: extends the buffer up to the cap, or notices that it is full. */
  method CopyCapped(cap: nat, out: seq<Byte>, exceeded: bool, available: seq<Byte>, used: nat,
                    ghost input: seq<Byte>, ghost at: nat)
    returns (out': seq<Byte>, exceeded': bool)
    requires Partial(cap, input, at, out, exceeded)
    requires available <= input[at..] && used <= |available|
    ensures Partial(cap, input, at + used, out', exceeded')
    ensures input[at..][used..] == input[at + used..]
    ensures |out'| <= cap
  {
    out', exceeded' := out, exceeded;
    ExposedBytes(input, at, available, used);
    CopyStep(cap, input, at, available, used);
    if !exceeded {
      var remaining := if cap >= |out| then cap - |out| else 0;
      var copy := if used <= remaining then used else remaining;
      out' := out + available[..copy];
      if copy < used {
        exceeded' := true;
      }
    }
  }

  /** The first newline of an exposed piece ends the input's first line. */
  lemma PieceEndsLine(input: seq<Byte>, at: nat, available: seq<Byte>, newline: Option<nat>)
    requires at <= |input| && NEWLINE !in input[..at] && available <= input[at..]
    requires newline.Some? ==> newline.value < |available| && available[newline.value] == NEWLINE
    requires newline.Some? ==> NEWLINE !in available[..newline.value]
    requires newline.None? ==> NEWLINE !in available
    ensures newline.Some? ==> LineLength(input) == at + newline.value + 1
    ensures newline.None? ==> at + |available| <= |input| && NEWLINE !in input[..at + |available|]
  {
    var n := if newline.Some? then newline.value else |available|;
    assert available[..|available|] == available;
    ExposedBytes(input, at, available, n);
    LineEndsAt(input, at + n);
  }

  /** The specification of reading one line from `input`, leaving `rest`. */
  ghost predicate IsLineRead(cap: nat, input: seq<Byte>, read: LineRead, out: seq<Byte>, rest: seq<Byte>) {
    && (read.EndOfInput? <==> input == [])
    && (read.Line? ==> read == Line(|FirstLine(input)|, Oversized(cap, FirstLine(input))))
    && out == Capped(cap, FirstLine(input))
    && rest == AfterLine(input)
  }

  lemma LineIsRead(cap: nat, input: seq<Byte>, total: nat, out: seq<Byte>, exceeded: bool)
    requires Partial(cap, input, total, out, exceeded) && LineLength(input) == total
    ensures IsLineRead(cap, input, if total == 0 then EndOfInput else Line(total, exceeded), out, input[total..])
  {
  }

  /**
   * Reads one line, cutting the copy at `cap` bytes.  `out` is complete or a cap-sized prefix of the
   * line; the whole line is consumed either way, and the outcome does not depend on how `FillBuf`
   * cut it up.  `out` only ever grows, so it stays within the cap throughout.
   */
  method ReadLineCapped(reader: BufReader, cap: nat) returns (read: LineRead, out: seq<Byte>)
    requires reader.Valid()
    modifies reader
    ensures reader.Valid()
    ensures IsLineRead(cap, old(reader.rest), read, out, reader.rest)
  {
    ghost var input := reader.rest;
    var total: nat, exceeded, newline := 0, false, None;
    out := [];
    while newline.None?
      invariant reader.Valid() && total <= |input| && reader.rest == input[total..]
      invariant Partial(cap, input, total, out, exceeded)
      invariant newline.None? ==> NEWLINE !in input[..total]
      invariant newline.Some? ==> LineLength(input) == total > 0
      decreases newline.None?, |reader.rest|
    {
      var available := reader.FillBuf();
      if available == [] {
        LineEndsAt(input, total);
        break;
      }
      newline := PositionOfNewline(available);
      PieceEndsLine(input, total, available, newline);
      var used := match newline case Some(i) => i + 1 case None => |available|;
      out, exceeded := CopyCapped(cap, out, exceeded, available, used, input, total);
      total := total + used;
      assert reader.rest[used..] == input[total..];
      reader.Consume(used);
    }
    LineIsRead(cap, input, total, out, exceeded);
    read := if total == 0 then EndOfInput else Line(total, exceeded);
  }

  // ---- The record source ----

  datatype SourceView = SourceView(decoder: Decoder, maxRecordBytes: nat, recordIndex: nat, rest: seq<Byte>)

  class NdjsonSource {
    const reader: BufReader
    const decoder: Decoder
    const maxRecordBytes: nat
    var recordIndex: nat
    var bytesConsumed: nat

    /** `total` is the length of the whole input: consumed and remaining bytes always add up to it. */
    ghost predicate Valid(total: nat)
      reads this, reader
    {
      reader.Valid() && bytesConsumed + |reader.rest| == total && maxRecordBytes >= 1
    }

    ghost function View(): SourceView
      reads this, reader
    {
      SourceView(decoder, maxRecordBytes, recordIndex, reader.rest)
    }

    ghost function Pending(): seq<RawLine>
      reads this, reader
    {
      RecordsFrom(decoder, maxRecordBytes, reader.rest, recordIndex)
    }

    constructor (reader: BufReader, decoder: Decoder, maxRecordBytes: nat)
      requires reader.Valid()
      ensures Valid(|reader.rest|) && this.reader == reader && recordIndex == 0 && bytesConsumed == 0
      ensures this.decoder == decoder
      ensures this.maxRecordBytes == if maxRecordBytes == 0 then 1 else maxRecordBytes
    {
      this.reader, this.decoder := reader, decoder;
      this.maxRecordBytes := if maxRecordBytes == 0 then 1 else maxRecordBytes;
      recordIndex, bytesConsumed := 0, 0;
    }

    /**
     * Reads the next non-blank line.  The pending records are a function of the remaining bytes, so
     * two sources over the same bytes return the same line here whatever pieces their readers expose.
     */
    method NextLine(ghost total: nat) returns (line: Option<RawLine>)
      requires Valid(total)
      modifies this, reader
      ensures Valid(total)
      ensures line.None? <==> old(Pending()) == []
      ensures line.None? ==> reader.rest == [] && recordIndex == old(recordIndex)
      ensures line.Some? ==>
        && [line.value] + Pending() == old(Pending())
        && line.value.record == old(recordIndex)
        && recordIndex == old(recordIndex) + 1
      ensures reader.rest == AfterRecord(decoder, maxRecordBytes, old(reader.rest))
    {
      while true
        invariant Valid(total)
        invariant Pending() == old(Pending()) && recordIndex == old(recordIndex)
        invariant AfterRecord(decoder, maxRecordBytes, reader.rest) ==
                  AfterRecord(decoder, maxRecordBytes, old(reader.rest))
        decreases |reader.rest|
      {
        ghost var before := reader.rest;
        var read, buf := ReadLineCapped(reader, maxRecordBytes);
        if read.EndOfInput? {
          return None;
        }
        ghost var first := FirstLine(before);
        RecordsAhead(decoder, maxRecordBytes, before, recordIndex);
        var Line(bytes, exceeded) := read;
        bytesConsumed := bytesConsumed + bytes;
        if exceeded {
          recordIndex := recordIndex + 1;
          return Some(RawLine(recordIndex - 1, bytes, true, false, []));
        }
        assert buf == first;
        if !decoder.utf8(buf) {
          recordIndex := recordIndex + 1;
          return Some(RawLine(recordIndex - 1, bytes, false, false, []));
        }
        var trimmed := TrimEnd(buf);
        if decoder.whitespace(trimmed) {
          continue;
        }
        assert RawOf(decoder, maxRecordBytes, first, recordIndex) == RawLine(recordIndex, bytes, false, true, trimmed);
        recordIndex := recordIndex + 1;
        line := Some(RawLine(recordIndex - 1, bytes, false, true, trimmed));
        assert old(Pending()) == [line.value] + Pending();
        return line;
      }
    }
  }

  /** The records of `s` are its first line's record, if that line counts, then those after it. */
  lemma RecordsAhead(d: Decoder, cap: nat, s: seq<Byte>, first: nat)
    requires s != []
    ensures RecordsFrom(d, cap, s, first) ==
      if Skipped(d, cap, FirstLine(s)) then RecordsFrom(d, cap, AfterLine(s), first)
      else [RawOf(d, cap, FirstLine(s), first)] + RecordsFrom(d, cap, AfterLine(s), first + 1)
  {
    var head, tail := FirstLine(s), Kept(d, cap, Lines(AfterLine(s)));
    assert Lines(s)[1..] == Lines(AfterLine(s));
    assert Kept(d, cap, Lines(s)) == if Skipped(d, cap, head) then tail else [head] + tail;
    assert ([head] + tail)[0] == head && ([head] + tail)[1..] == tail;
    assert RawLines(d, cap, [head] + tail, first) == [RawOf(d, cap, head, first)] + RawLines(d, cap, tail, first + 1);
  }

  /**
   * Reading to the end returns exactly the non-blank lines of the newline split, numbered from 0,
   * and the byte count ends at the length of the input.
   */
  method ReadAll(bytes: seq<Byte>, decoder: Decoder, maxRecordBytes: nat) returns (lines: seq<RawLine>, consumed: nat)
    ensures lines == RecordsFrom(decoder, if maxRecordBytes == 0 then 1 else maxRecordBytes, bytes, 0)
    ensures consumed == |bytes|
  {
    var reader := new BufReader(bytes);
    var source := new NdjsonSource(reader, decoder, maxRecordBytes);
    ghost var all := source.Pending();
    lines := [];
    var line := source.NextLine(|bytes|);
    while line.Some?
      invariant fresh(source) && fresh(reader) && source.reader == reader && source.Valid(|bytes|)
      invariant line.None? ==> reader.rest == [] && lines == all
      invariant line.Some? ==> lines + ([line.value] + source.Pending()) == all
      decreases line.Some?, |source.Pending()|
    {
      Regroup(lines, [line.value], source.Pending());
      lines := lines + [line.value];
      line := source.NextLine(|bytes|);
    }
    consumed := source.bytesConsumed;
  }

  lemma {:induction false} RawLineAt(d: Decoder, cap: nat, kept: seq<seq<Byte>>, first: nat, i: nat)
    ensures |RawLines(d, cap, kept, first)| == |kept|
    ensures i < |kept| ==> RawLines(d, cap, kept, first)[i] == RawOf(d, cap, kept[i], first + i)
  {
    if kept == [] {
    } else {
      RawLineAt(d, cap, kept[1..], first + 1, if i == 0 then 0 else i - 1);
    }
  }

  /**
   * The cap is documented as counting bytes before the newline; the code counts the newline too.
   * A record of exactly `cap` bytes is accepted as the last line of the input and rejected before
   * a newline.
   */
  lemma CapCountsTheNewline(cap: nat, text: seq<Byte>)
    requires |text| == cap && NEWLINE !in text
    ensures Oversized(cap, FirstLine(text + [NEWLINE])) && !Oversized(cap, FirstLine(text))
  {
    LineAcrossPieces(text, [NEWLINE]);
    LineAcrossPieces(text, []);
    assert text + [] == text;
  }
}
