/** Lines of plain ASCII text as the reader sees them: for streams written out as examples. */
module PlainText {
  import opened Sequences
  import opened Ndjson

  function ByteOf(c: char): Byte { (c as int % 256) as Byte }

  function CharOf(b: Byte): char { (b as int) as char }

  function Bytes(text: string): (bytes: seq<Byte>)
    ensures |bytes| == |text|
    ensures forall i :: 0 <= i < |text| ==> bytes[i] == ByteOf(text[i])
  {
    if text == "" then [] else [ByteOf(text[0])] + Bytes(text[1..])
  }

  function Text(bytes: seq<Byte>): string {
    if bytes == [] then "" else [CharOf(bytes[0])] + Text(bytes[1..])
  }

  predicate OneLine(text: string) {
    text != "" && forall i :: 0 <= i < |text| ==> text[i] as int < 128 && text[i] != '\n' && text[i] != '\r'
  }

  function LineOf(text: string): seq<Byte> { Bytes(text) + [NEWLINE] }

  lemma LineOfText(text: string)
    requires OneLine(text)
    ensures IsLine(LineOf(text)) && TrimEnd(LineOf(text)) == Bytes(text) && Text(Bytes(text)) == text
  {
    PlainLine(Bytes(text));
    TextOfBytes(text);
  }

  lemma CharOfByte(c: char)
    requires c as int < 128
    ensures CharOf(ByteOf(c)) == c
  {
  }

  lemma {:induction false} TextOfBytes(text: string)
    requires forall i :: 0 <= i < |text| ==> text[i] as int < 128
    ensures Text(Bytes(text)) == text
  {
    if text == "" {
    } else {
      CharOfByte(text[0]);
      TextOfBytes(text[1..]);
      var bytes, rest := Bytes(text), Bytes(text[1..]);
      assert bytes == [ByteOf(text[0])] + rest;
      assert bytes[0] == ByteOf(text[0]) && bytes[1..] == rest;
      assert text == [text[0]] + text[1..];
    }
  }

  lemma PlainLine(bytes: seq<Byte>)
    requires bytes != [] && forall i :: 0 <= i < |bytes| ==> bytes[i] != NEWLINE && bytes[i] != CARRIAGE_RETURN
    ensures IsLine(bytes + [NEWLINE]) && TrimEnd(bytes + [NEWLINE]) == bytes
  {
    var line := bytes + [NEWLINE];
    assert line[..|line| - 1] == bytes && TrimEnd(bytes) == bytes;
  }
}
