/**
 * Comma-separated values in the style of section 2 of RFC 4180, with "\n" as the record
 * separator: the writer's quoting (`"` around the field, every `"` inside doubled) and a reader
 * that undoes it, so that what the exporter writes can be read back.
 */
module Csv {
  import opened Wrappers
  import opened Strings

  /** `s.replace(/"/g, '""')`: every double quote doubled, nothing else changed. */
  function Escape(s: string): (r: string)
    ensures |r| == |s| + Occurrences(s, '"')
    decreases |s|
  {
    if s == [] then []
    else (if s[0] == '"' then "\"\"" else [s[0]]) + Escape(s[1..])
  }

  /** `"${s.replace(/"/g, '""')}"`: a quoted field. */
  function Quote(s: string): string {
    "\"" + Escape(s) + "\""
  }

  /** The characters that force a field into quotes: the separators and the quote itself. */
  predicate IsSpecial(c: char) {
    c == ',' || c == '"' || c == '\n'
  }

  /** A field that can be written without quotes: no comma, double quote or line break in it. */
  predicate IsBare(s: string) {
    ',' !in s && '"' !in s && '\n' !in s
  }

  /** A text none of whose characters forces quotes is bare. */
  lemma BareByChars(s: string)
    requires forall i :: 0 <= i < |s| ==> !IsSpecial(s[i])
    ensures IsBare(s)
  {
    forall c | c in s
      ensures !IsSpecial(c)
    {
      var i :| 0 <= i < |s| && s[i] == c;
    }
  }

  /** `e` is how the writer puts down the value `x`: quoted, or bare when `x` allows it. */
  predicate Encodes(e: string, x: string) {
    e == Quote(x) || (e == x && IsBare(x))
  }

  /** Cell by cell, `cells` is how the writer puts down `record`. */
  predicate EncodesAll(cells: seq<string>, record: seq<string>) {
    |cells| == |record| && forall i :: 0 <= i < |cells| ==> Encodes(cells[i], record[i])
  }

  /** The text may end here or go on with a separator. */
  predicate AtBoundary(t: string) {
    t == [] || t[0] == ',' || t[0] == '\n'
  }

  /**
   * Reads the body of a quoted field, the opening quote already consumed: the value, with each
   * `""` read as one `"`, and the text after the closing quote. A missing closing quote fails.
   */
  function ReadQuoted(s: string): (r: Option<(string, string)>)
    ensures r.Some? ==> |r.value.1| < |s|
    decreases |s|
  {
    if s == [] then None
    else if s[0] == '"' then
      if |s| > 1 && s[1] == '"' then
        match ReadQuoted(s[2..])
        case None => None
        case Some((v, rest)) => Some(("\"" + v, rest))
      else Some(([], s[1..]))
    else
      match ReadQuoted(s[1..])
      case None => None
      case Some((v, rest)) => Some(([s[0]] + v, rest))
  }

  /** Length of the run of characters allowed in a bare field at the start of `s`. */
  function BareLength(s: string): (n: nat)
    ensures n <= |s| && IsBare(s[..n])
    ensures n < |s| ==> IsSpecial(s[n])
    decreases |s|
  {
    if s == [] || IsSpecial(s[0]) then 0
    else
      var n := BareLength(s[1..]);
      assert s[..n + 1] == [s[0]] + s[1..][..n];
      n + 1
  }

  /** Reads one field, quoted or bare, and returns it with the text that follows it. */
  function ReadField(s: string): (r: Option<(string, string)>)
    ensures r.Some? ==> |r.value.1| <= |s|
  {
    if |s| > 0 && s[0] == '"' then ReadQuoted(s[1..])
    else
      var n := BareLength(s);
      Some((s[..n], s[n..]))
  }

  /** Reads the fields of one record up to and including its line break, if any. */
  function ReadRecord(s: string): (r: Option<(seq<string>, string)>)
    ensures r.Some? ==> |r.value.1| <= |s| && (s != [] ==> |r.value.1| < |s|)
    decreases |s|
  {
    match ReadField(s)
    case None => None
    case Some((v, rest)) =>
      if rest == [] then Some(([v], []))
      else if rest[0] == ',' then
        match ReadRecord(rest[1..])
        case None => None
        case Some((vs, t)) => Some(([v] + vs, t))
      else if rest[0] == '\n' then Some(([v], rest[1..]))
      else None
  }

  /** Reads a whole text as records; the empty text holds none, and a final line break ends the last. */
  function ReadCsv(s: string): (r: Option<seq<seq<string>>>)
    decreases |s|
  {
    if s == [] then Some([])
    else
      match ReadRecord(s)
      case None => None
      case Some((record, rest)) =>
        match ReadCsv(rest)
        case None => None
        case Some(records) => Some([record] + records)
  }

  /** The body of a quoted field reads back as the value, provided no quote follows the closing one. */
  lemma {:induction false} ReadEscaped(x: string, t: string)
    requires t == [] || t[0] != '"'
    ensures ReadQuoted(Escape(x) + "\"" + t) == Some((x, t))
    decreases |x|
  {
    if x == [] {
      assert Escape(x) + "\"" + t == "\"" + t;
    } else {
      ReadEscaped(x[1..], t);
      EscapeCons(x, t);
    }
  }

  /** The escaped text splits into the escape of the first character and the escape of the rest. */
  lemma EscapeCons(x: string, t: string)
    requires x != []
    ensures x[0] == '"' ==> Escape(x) + "\"" + t == "\"\"" + (Escape(x[1..]) + "\"" + t)
    ensures x[0] != '"' ==> Escape(x) + "\"" + t == [x[0]] + (Escape(x[1..]) + "\"" + t)
    ensures x == [x[0]] + x[1..]
  {
    var head: string := if x[0] == '"' then "\"\"" else [x[0]];
    var e := Escape(x[1..]);
    EscapeHead(x);
    ConcatAssoc(head, e, "\"");
    ConcatAssoc(head, e + "\"", t);
  }

  lemma EscapeHead(x: string)
    requires x != []
    ensures Escape(x) == (if x[0] == '"' then "\"\"" else [x[0]]) + Escape(x[1..])
  {
  }

  /** Unquoting a quoted field gives back the original text. */
  lemma QuoteRoundTrip(x: string, t: string)
    requires AtBoundary(t)
    ensures ReadField(Quote(x) + t) == Some((x, t))
  {
    ReadEscaped(x, t);
    assert Quote(x) + t == "\"" + (Escape(x) + "\"" + t);
  }

  /** A bare field reads back as itself when a boundary follows it. */
  lemma {:induction false} BareRoundTrip(x: string, t: string)
    requires IsBare(x) && AtBoundary(t)
    ensures ReadField(x + t) == Some((x, t))
  {
    BareLengthOf(x, t);
    assert (x + t)[..|x|] == x && (x + t)[|x|..] == t;
  }

  lemma {:induction false} BareLengthOf(x: string, t: string)
    requires IsBare(x) && AtBoundary(t)
    ensures BareLength(x + t) == |x|
    decreases |x|
  {
    if x == [] {
      assert x + t == t;

    } else {
      BareLengthOf(x[1..], t);
      assert (x + t)[1..] == x[1..] + t;
      assert x[0] in x;
    }
  }

  lemma FieldRoundTrip(e: string, x: string, t: string)
    requires Encodes(e, x) && AtBoundary(t)
    ensures ReadField(e + t) == Some((x, t))
  {
    if e == Quote(x) {
      QuoteRoundTrip(x, t);
    } else {
      BareRoundTrip(x, t);
    }
  }

  /**
   * A line of encoded cells joined by commas reads back as the record, followed by what comes
   * after the line break that ends it.
   */
  lemma {:induction false} RecordRoundTrip(cells: seq<string>, record: seq<string>, t: string)
    requires |cells| >= 1 && EncodesAll(cells, record)
    requires t == [] || t[0] == '\n'
    ensures ReadRecord(Join(cells, ",") + t) == Some((record, if t == [] then [] else t[1..]))
    decreases |cells|
  {
    EncodesAllTail(cells, record);
    if |cells| == 1 {
      LastFieldRoundTrip(cells[0], record[0], t);
      assert Join(cells, ",") == cells[0];
      assert [record[0]] == record;
    } else {
      RecordRoundTrip(cells[1..], record[1..], t);
      RecordStep(cells, record, t, if t == [] then [] else t[1..]);
    }
  }

  /** One more encoded field in front of a record that reads back, joined by a comma, reads back too. */
  lemma RecordStep(cells: seq<string>, record: seq<string>, t: string, after: string)
    requires |cells| >= 2 && |record| == |cells| && Encodes(cells[0], record[0])
    requires ReadRecord(Join(cells[1..], ",") + t) == Some((record[1..], after))
    ensures ReadRecord(Join(cells, ",") + t) == Some((record, after))
  {
    var tail := Join(cells[1..], ",") + t;
    JoinCommaCons(cells, t);
    FieldRoundTrip(cells[0], record[0], "," + tail);
    ReadRecordAfterComma(cells[0] + ("," + tail), record[0], tail);
    assert [record[0]] + record[1..] == record;
  }

  lemma JoinCommaCons(cells: seq<string>, t: string)
    requires |cells| >= 2
    ensures Join(cells, ",") + t == cells[0] + ("," + (Join(cells[1..], ",") + t))
  {
  }

  /** The last field of a record reads back as a record of one value, and the line break is consumed. */
  lemma LastFieldRoundTrip(e: string, x: string, t: string)
    requires Encodes(e, x)
    requires t == [] || t[0] == '\n'
    ensures ReadRecord(e + t) == Some(([x], if t == [] then [] else t[1..]))
  {
    FieldRoundTrip(e, x, t);
  }

  lemma EncodesAllTail(cells: seq<string>, record: seq<string>)
    requires |cells| >= 1 && EncodesAll(cells, record)
    ensures Encodes(cells[0], record[0]) && EncodesAll(cells[1..], record[1..])
  {
    forall i | 0 <= i < |cells| - 1
      ensures Encodes(cells[1..][i], record[1..][i])
    {
      assert cells[1..][i] == cells[i + 1] && record[1..][i] == record[i + 1];
    }
  }

  /** A field followed by a comma: the record goes on with whatever the rest reads as. */
  lemma ReadRecordAfterComma(s: string, v: string, tail: string)
    requires ReadField(s) == Some((v, "," + tail))
    ensures ReadRecord(s) == match ReadRecord(tail)
                             case None => None
                             case Some((vs, t)) => Some(([v] + vs, t))
  {
    assert ("," + tail)[1..] == tail;
  }

  /** Every line is the comma-joined encoding of its record, with at least two cells. */
  ghost predicate LinesEncode(lines: seq<string>, cells: seq<seq<string>>, records: seq<seq<string>>) {
    && |lines| == |cells| == |records|
    && forall k :: 0 <= k < |lines| ==>
         lines[k] == Join(cells[k], ",") && |cells[k]| >= 2 && EncodesAll(cells[k], records[k])
  }

  /** Lines of encoded records joined by line breaks read back as the records, in order. */
  lemma {:induction false} LinesRoundTrip(lines: seq<string>, cells: seq<seq<string>>, records: seq<seq<string>>)
    requires |lines| >= 1 && LinesEncode(lines, cells, records)
    ensures ReadCsv(Join(lines, "\n")) == Some(records)
    decreases |lines|
  {
    var line, record := lines[0], records[0];
    assert line == Join(cells[0], ",") && |cells[0]| >= 2 && EncodesAll(cells[0], record);
    JoinOfTwoOrMore(cells[0]);
    if |lines| == 1 {
      RecordRoundTrip(cells[0], record, []);
      LastLine(lines, records);
    } else {
      var rest := Join(lines[1..], "\n");
      RecordRoundTrip(cells[0], record, "\n" + rest);
      assert ("\n" + rest)[1..] == rest;
      LinesEncodeTail(lines, cells, records);
      LinesRoundTrip(lines[1..], cells[1..], records[1..]);
      LinesStep(lines, records);
    }
  }

  /** A single non-empty line that reads as one record is a text of that one record. */
  lemma LastLine(lines: seq<string>, records: seq<seq<string>>)
    requires |lines| == 1 && |records| == 1 && lines[0] != []
    requires ReadRecord(lines[0] + []) == Some((records[0], []))
    ensures ReadCsv(Join(lines, "\n")) == Some(records)
  {
    assert lines[0] + [] == lines[0];
    assert ReadCsv([]) == Some([]);
    assert [records[0]] + [] == records;
  }

  /** A line that reads as a record, a line break, and lines that read as the other records. */
  lemma LinesStep(lines: seq<string>, records: seq<seq<string>>)
    requires |lines| >= 2 && |records| == |lines| && lines[0] != []
    requires ReadRecord(lines[0] + ("\n" + Join(lines[1..], "\n"))) == Some((records[0], Join(lines[1..], "\n")))
    requires ReadCsv(Join(lines[1..], "\n")) == Some(records[1..])
    ensures ReadCsv(Join(lines, "\n")) == Some(records)
  {
    JoinNewlineCons(lines);
    assert [records[0]] + records[1..] == records;
  }

  lemma JoinNewlineCons(lines: seq<string>)
    requires |lines| >= 2
    ensures Join(lines, "\n") == lines[0] + ("\n" + Join(lines[1..], "\n"))
  {
  }

  lemma JoinOfTwoOrMore(cells: seq<string>)
    requires |cells| >= 2
    ensures Join(cells, ",") != []
  {
  }

  lemma LinesEncodeTail(lines: seq<string>, cells: seq<seq<string>>, records: seq<seq<string>>)
    requires |lines| >= 1 && LinesEncode(lines, cells, records)
    ensures LinesEncode(lines[1..], cells[1..], records[1..])
  {
    forall k | 0 <= k < |lines| - 1
      ensures lines[1..][k] == Join(cells[1..][k], ",") && |cells[1..][k]| >= 2 && EncodesAll(cells[1..][k], records[1..][k])
    {
      assert lines[1..][k] == lines[k + 1] && cells[1..][k] == cells[k + 1] && records[1..][k] == records[k + 1];
    }
  }

  /**
   * A header line followed by a line break and the joined data lines, as the exporter lays out
   * its file, reads back as the header record followed by the data records; with no data lines
   * the file is the header line and its line break.
   */
  lemma FileRoundTrip(header: string, headerCells: seq<string>, headerRecord: seq<string>,
                      lines: seq<string>, cells: seq<seq<string>>, records: seq<seq<string>>)
    requires LinesEncode([header], [headerCells], [headerRecord])
    requires LinesEncode(lines, cells, records)
    ensures ReadCsv(header + "\n" + Join(lines, "\n")) == Some([headerRecord] + records)
  {
    if lines == [] {
      assert header + "\n" + Join(lines, "\n") == Join(headerCells, ",") + "\n";
      RecordRoundTrip(headerCells, headerRecord, "\n");
      assert "\n"[1..] == [];
      assert [headerRecord] + records == [headerRecord];
    } else {
      Strings.JoinCons(header, lines, "\n");
      LinesRoundTrip([header] + lines, [headerCells] + cells, [headerRecord] + records);
    }
  }
}
