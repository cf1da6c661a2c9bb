/**
 * What the record source makes of each line, whatever newline split of the input is looked at: which
 * lines become records, under which number, and with which text.
 */
module NdjsonLaws {
  import opened Sequences
  import opened Ndjson

  predicate EndsLine(b: Byte) { b == 10 || b == 13 }

  /** The line without the newlines and carriage returns at its end. */
  ghost predicate IsText(line: seq<Byte>, text: seq<Byte>) {
    && text <= line
    && (forall i :: |text| <= i < |line| ==> EndsLine(line[i]))
    && (text == [] || !EndsLine(text[|text| - 1]))
  }

  lemma NoShorterThanText(line: seq<Byte>, text: seq<Byte>, other: seq<Byte>)
    requires IsText(line, text) && other <= line && forall i :: |other| <= i < |line| ==> EndsLine(line[i])
    ensures |text| <= |other|
  {
    assert text != [] ==> line[|text| - 1] == text[|text| - 1];
  }

  /** A line has only one text ... */
  lemma TextIsUnique(line: seq<Byte>, a: seq<Byte>, b: seq<Byte>)
    requires IsText(line, a) && IsText(line, b)
    ensures a == b
  {
    NoShorterThanText(line, a, b);
    NoShorterThanText(line, b, a);
  }

  /** ... and trimming finds it. */
  lemma {:induction false} TrimmingFindsTheText(line: seq<Byte>)
    ensures IsText(line, TrimEnd(line))
  {
    if line == [] {
    } else {
      TrimmingFindsTheText(line[..|line| - 1]);
    }
  }

  /** A line that fits, decodes and has white space for its text. */
  ghost predicate Blank(d: Decoder, cap: nat, line: seq<Byte>) {
    |line| <= cap && d.utf8(line) && exists text :: IsText(line, text) && d.whitespace(text)
  }

  lemma BlankLinesAreSkipped(d: Decoder, cap: nat, line: seq<Byte>)
    ensures Blank(d, cap, line) <==> Skipped(d, cap, line)
  {
    TrimmingFindsTheText(line);
    if text :| IsText(line, text) && d.whitespace(text) {
      TextIsUnique(line, text, TrimEnd(line));
    }
  }

  /** The positions of the lines that are not blank. */
  ghost function Counted(d: Decoder, cap: nat, lines: seq<seq<Byte>>): set<nat> {
    set k: nat | k < |lines| && !Blank(d, cap, lines[k])
  }

  /** The record that a line which is not blank becomes. */
  ghost predicate DescribesLine(d: Decoder, cap: nat, line: seq<Byte>, r: RawLine) {
    && r.bytes == |line|
    && (r.exceeded <==> |line| > cap)
    && (r.utf8 <==> |line| <= cap && d.utf8(line))
    && if r.utf8 then IsText(line, r.content) else r.content == []
  }

  lemma OneMoreCounted(d: Decoder, cap: nat, lines: seq<seq<Byte>>, line: seq<Byte>)
    ensures |Counted(d, cap, lines + [line])| == |Counted(d, cap, lines)| + (if Blank(d, cap, line) then 0 else 1)
  {
    var all, before := Counted(d, cap, lines + [line]), Counted(d, cap, lines);
    assert forall k: nat :: k < |lines| ==> (lines + [line])[k] == lines[k];
    assert all == before + (if Blank(d, cap, line) then {} else {|lines|});
  }

  lemma {:induction false} KeptAppend(d: Decoder, cap: nat, a: seq<seq<Byte>>, b: seq<seq<Byte>>)
    ensures Kept(d, cap, a + b) == Kept(d, cap, a) + Kept(d, cap, b)
  {
    if a == [] {
      assert a + b == b;
    } else {
      assert (a + b)[0] == a[0] && (a + b)[1..] == a[1..] + b;
      KeptAppend(d, cap, a[1..], b);
    }
  }

  lemma {:induction false} KeptAreCounted(d: Decoder, cap: nat, lines: seq<seq<Byte>>)
    ensures |Kept(d, cap, lines)| == |Counted(d, cap, lines)|
  {
    if lines == [] {
      assert Counted(d, cap, lines) == {};
    } else {
      var init, last := lines[..|lines| - 1], lines[|lines| - 1];
      KeptAreCounted(d, cap, init);
      assert lines == init + [last];
      OneMoreCounted(d, cap, init, last);
      KeptAppend(d, cap, init, [last]);
      BlankLinesAreSkipped(d, cap, last);
    }
  }

  /** A line that is not blank is kept after the lines before it that are not blank. */
  lemma KeptAt(d: Decoder, cap: nat, lines: seq<seq<Byte>>, j: nat)
    requires j < |lines| && !Blank(d, cap, lines[j])
    ensures var k := |Counted(d, cap, lines[..j])|; k < |Kept(d, cap, lines)| && Kept(d, cap, lines)[k] == lines[j]
  {
    KeptAreCounted(d, cap, lines[..j]);
    KeptAppend(d, cap, lines[..j], lines[j..]);
    assert lines == lines[..j] + lines[j..];
    BlankLinesAreSkipped(d, cap, lines[j]);
  }

  /**
   * For any newline split of the input, the records are exactly its lines that are not blank: each is
   * numbered by how many such lines precede it, and holds the line's length, flags and text.
   */
  lemma LinesBecomeRecords(d: Decoder, cap: nat, lines: seq<seq<Byte>>, s: seq<Byte>, j: nat)
    requires IsNewlineSplit(lines, s)
    ensures |RecordsFrom(d, cap, s, 0)| == |Counted(d, cap, lines)|
    ensures j < |lines| && !Blank(d, cap, lines[j]) ==>
              (var k, records := |Counted(d, cap, lines[..j])|, RecordsFrom(d, cap, s, 0);
               k < |records| && records[k].record == k && DescribesLine(d, cap, lines[j], records[k]))
  {
    NewlineSplitUnique(lines, s);
    KeptAreCounted(d, cap, lines);
    RawLineAt(d, cap, Kept(d, cap, lines), 0, 0);
    if j < |lines| && !Blank(d, cap, lines[j]) {
      KeptAt(d, cap, lines, j);
      RawLineAt(d, cap, Kept(d, cap, lines), 0, |Counted(d, cap, lines[..j])|);
      TrimmingFindsTheText(lines[j]);
    }
  }
}
