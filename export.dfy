/**
 * The logic of src/utils/exportUtils.ts: the CSV file the exporter writes and the row layout of
 * the PDF report. Date formatting (`toLocaleString`, `toLocaleDateString`) is a parameter.
 */
module Export {
  import opened Wrappers
  import opened Types
  import opened Strings
  import opened Csv

  /** The twelve column names, in order. */
  const CsvHeaders: seq<string> := [
    "ID", "Type", "Title", "Description", "Location", "Affected Area", "Severity", "Status",
    "Reported At", "Reporter Name", "Reporter Contact", "Reporter Email"]

  /** The header line: the names joined by commas. */
  function CsvHeaderLine(): string {
    Join(CsvHeaders, ",")
  }

  /** `s || 'N/A'`: an empty text is replaced by `N/A`, any other is kept. */
  function OrNA(s: string): (r: string)
    ensures s == [] ==> r == "N/A"
    ensures s != [] ==> r == s
    ensures r != []
  {
    if s == [] then "N/A" else s
  }

  /** The values one report contributes, one per column, before any quoting. */
  function CsvValues(d: Report, formatTime: int -> string): (v: seq<string>)
    ensures |v| == |CsvHeaders|
  {
    [d.id, TypeLabel(d.kind), d.title, d.description, d.location, d.affectedArea,
     SeverityLabel(d.severity), StatusLabel(d.status), formatTime(d.reportedAt),
     d.reporter.name, OrNA(d.reporter.contact), OrNA(d.reporter.email)]
  }

  /**
   * The cells of one row as the exporter writes them: title, description, location, affected
   * area and reporter name quoted; id, the three labels, the time and the two contact fields bare.
   */
  function CsvCells(d: Report, formatTime: int -> string): (c: seq<string>)
    ensures |c| == |CsvHeaders|
  {
    [d.id, TypeLabel(d.kind), Quote(d.title), Quote(d.description), Quote(d.location),
     Quote(d.affectedArea), SeverityLabel(d.severity), StatusLabel(d.status),
     formatTime(d.reportedAt), Quote(d.reporter.name), OrNA(d.reporter.contact),
     OrNA(d.reporter.email)]
  }

  function CsvRow(d: Report, formatTime: int -> string): string {
    Join(CsvCells(d, formatTime), ",")
  }

  /** `data.map(...)`: one row per report, in the order of the list. */
  function CsvRows(ds: seq<Report>, formatTime: int -> string): (rows: seq<string>)
    ensures |rows| == |ds|
    ensures forall i :: 0 <= i < |ds| ==> rows[i] == CsvRow(ds[i], formatTime)
  {
    seq(|ds|, i requires 0 <= i < |ds| => CsvRow(ds[i], formatTime))
  }

  /** The file: the header line, a line break, then the rows joined by line breaks. */
  function CsvContent(ds: seq<Report>, formatTime: int -> string): (r: string)
    ensures |r| > |CsvHeaderLine()| && r[..|CsvHeaderLine()| + 1] == CsvHeaderLine() + "\n"
    ensures ds == [] ==> r == CsvHeaderLine() + "\n"
  {
    CsvHeaderLine() + "\n" + Join(CsvRows(ds, formatTime), "\n")
  }

  /** The records a reader should find in the export of `ds`: the header, then one per report. */
  function ExpectedRecords(ds: seq<Report>, formatTime: int -> string): (r: seq<seq<string>>)
    ensures |r| == |ds| + 1 && r[0] == CsvHeaders
    ensures forall i :: 0 <= i < |ds| ==> r[i + 1] == CsvValues(ds[i], formatTime)
  {
    [CsvHeaders] + seq(|ds|, i requires 0 <= i < |ds| => CsvValues(ds[i], formatTime))
  }

  /** The fixed labels need no quoting. */
  lemma LabelsAreBare(d: Report)
    ensures IsBare(TypeLabel(d.kind)) && IsBare(SeverityLabel(d.severity)) && IsBare(StatusLabel(d.status))
  {
    TypeLabelIsBare(d.kind);
    SeverityLabelIsBare(d.severity);
    StatusLabelIsBare(d.status);
  }

  lemma TypeLabelIsBare(k: DisasterType)
    ensures IsBare(TypeLabel(k))
  {
    if k.Earthquake? || k.Flood? || k.Wildfire? || k.Hurricane? || k.Tornado? || k.Tsunami? {
      NaturalLabelIsBare(k);
    } else if k.Landslide? || k.Avalanche? || k.VolcanicEruption? {
      MountainLabelIsBare(k);
    } else {
      OtherLabelIsBare(k);
    }
  }

  lemma NaturalLabelIsBare(k: DisasterType)
    requires k.Earthquake? || k.Flood? || k.Wildfire? || k.Hurricane? || k.Tornado? || k.Tsunami?
    ensures IsBare(TypeLabel(k))
  {
    BareByChars(TypeLabel(k));
  }

  lemma MountainLabelIsBare(k: DisasterType)
    requires k.Landslide? || k.Avalanche? || k.VolcanicEruption?
    ensures IsBare(TypeLabel(k))
  {
    BareByChars(TypeLabel(k));
  }

  lemma OtherLabelIsBare(k: DisasterType)
    requires k.Drought? || k.Epidemic? || k.IndustrialAccident? || k.Other?
    ensures IsBare(TypeLabel(k))
  {
    BareByChars(TypeLabel(k));
  }

  lemma SeverityLabelIsBare(s: Severity)
    ensures IsBare(SeverityLabel(s))
  {
    BareByChars(SeverityLabel(s));
  }

  lemma StatusLabelIsBare(s: Status)
    ensures IsBare(StatusLabel(s))
  {
    BareByChars(StatusLabel(s));
  }

  /** The header line is twelve bare cells. */
  lemma HeaderEncodes()
    ensures LinesEncode([CsvHeaderLine()], [CsvHeaders], [CsvHeaders])
  {
    HeadersAreBare();
  }

  lemma HeadersAreBare()
    ensures forall i :: 0 <= i < |CsvHeaders| ==> IsBare(CsvHeaders[i])
  {
    forall i | 0 <= i < |CsvHeaders|
      ensures IsBare(CsvHeaders[i])
    {
      BareByChars(CsvHeaders[i]);
    }
  }

  /** The report's cells that the exporter leaves unquoted contain nothing that needs quoting. */
  predicate BareCellsAreBare(d: Report, formatTime: int -> string) {
    IsBare(d.id) && IsBare(formatTime(d.reportedAt))
    && IsBare(OrNA(d.reporter.contact)) && IsBare(OrNA(d.reporter.email))
  }

  lemma RowEncodes(d: Report, formatTime: int -> string)
    requires BareCellsAreBare(d, formatTime)
    ensures EncodesAll(CsvCells(d, formatTime), CsvValues(d, formatTime))
  {
    var c, v := CsvCells(d, formatTime), CsvValues(d, formatTime);
    LabelsAreBare(d);
    forall i | 0 <= i < |c|
      ensures Encodes(c[i], v[i])
    {
      if i == 2 || i == 3 || i == 4 || i == 5 || i == 9 {
        assert c[i] == Quote(v[i]);
      } else {
        assert c[i] == v[i] && IsBare(v[i]);
      }
    }
  }

  /**
   * As written, the export reads back as the header and one record per report holding its
   * values, but only when the unquoted cells (id, time, contact, email) hold no comma, double
   * quote or line break.
   */
  lemma CsvRoundTrip(ds: seq<Report>, formatTime: int -> string)
    requires forall i :: 0 <= i < |ds| ==> BareCellsAreBare(ds[i], formatTime)
    ensures ReadCsv(CsvContent(ds, formatTime)) == Some(ExpectedRecords(ds, formatTime))
  {
    var rows := CsvRows(ds, formatTime);
    var cells := seq(|ds|, i requires 0 <= i < |ds| => CsvCells(ds[i], formatTime));
    var values := seq(|ds|, i requires 0 <= i < |ds| => CsvValues(ds[i], formatTime));
    forall k | 0 <= k < |ds|
      ensures EncodesAll(cells[k], values[k])
    {
      RowEncodes(ds[k], formatTime);
    }
    HeaderEncodes();
    FileRoundTrip(CsvHeaderLine(), CsvHeaders, CsvHeaders, rows, cells, values);
  }

  /** A text with no double quote and no line break: a reader can only cut it at its commas. */
  predicate NoQuoteOrBreak(s: string) {
    '"' !in s && '\n' !in s
  }

  /**
   * What the unquoted cells of a row as written need for a reader to find its fields again: an
   * id that needs no quoting, and a time, contact and email without quotes or line breaks.
   * Commas are allowed in the last three; each one cuts its cell into one more field.
   */
  predicate ReadableAsWritten(d: Report, formatTime: int -> string) {
    && IsBare(d.id) && NoQuoteOrBreak(formatTime(d.reportedAt))
    && NoQuoteOrBreak(OrNA(d.reporter.contact)) && NoQuoteOrBreak(OrNA(d.reporter.email))
  }

  /** The cells of a row as written, with the time, contact and email cut at their commas. */
  function CellsAsRead(d: Report, formatTime: int -> string): (r: seq<string>)
    ensures |r| >= |CsvHeaders|
  {
    var c := CsvCells(d, formatTime);
    c[..8] + Split(c[8], ',') + [c[9]] + Split(c[10], ',') + Split(c[11], ',')
  }

  /**
   * The fields a reader finds in a row as written: the first eight are the report's id, labels
   * and quoted texts; the time, contact and email come back cut at their commas.
   */
  function FieldsAsWritten(d: Report, formatTime: int -> string): (r: seq<string>)
    ensures |r| >= |CsvHeaders|
    ensures r[0] == d.id && r[1] == TypeLabel(d.kind) && r[2] == d.title && r[3] == d.description
    ensures r[4] == d.location && r[5] == d.affectedArea
    ensures r[6] == SeverityLabel(d.severity) && r[7] == StatusLabel(d.status)
  {
    var v := CsvValues(d, formatTime);
    var head := v[..8];
    assert head == [d.id, TypeLabel(d.kind), d.title, d.description, d.location, d.affectedArea,
                    SeverityLabel(d.severity), StatusLabel(d.status)];
    head + Split(v[8], ',') + [v[9]] + Split(v[10], ',') + Split(v[11], ',')
  }

  /** The records a reader finds in the export as written: the header, then each row's fields. */
  function RecordsAsWritten(ds: seq<Report>, formatTime: int -> string): (r: seq<seq<string>>)
    ensures |r| == |ds| + 1 && r[0] == CsvHeaders
    ensures forall i :: 0 <= i < |ds| ==> r[i + 1] == FieldsAsWritten(ds[i], formatTime)
  {
    [CsvHeaders] + seq(|ds|, i requires 0 <= i < |ds| => FieldsAsWritten(ds[i], formatTime))
  }

  /** The comma-separated pieces of a text without quotes or line breaks are bare fields. */
  lemma PiecesEncode(s: string)
    requires NoQuoteOrBreak(s)
    ensures EncodesAll(Split(s, ','), Split(s, ','))
  {
    var parts := Split(s, ',');
    SplitPiecesAreFree(s, ',');
    SplitPiecesFrom(s, ',');
    forall i | 0 <= i < |parts|
      ensures IsBare(parts[i])
    {
      BareByChars(parts[i]);
    }
  }

  lemma EncodesAllAppend(c1: seq<string>, r1: seq<string>, c2: seq<string>, r2: seq<string>)
    requires EncodesAll(c1, r1) && EncodesAll(c2, r2)
    ensures EncodesAll(c1 + c2, r1 + r2)
  {
    forall i | 0 <= i < |c1 + c2|
      ensures Encodes((c1 + c2)[i], (r1 + r2)[i])
    {
      if i >= |c1| {
        assert (c1 + c2)[i] == c2[i - |c1|] && (r1 + r2)[i] == r2[i - |r1|];
      }
    }
  }

  /** Joining five non-empty lists one after the other. */
  lemma JoinFive(a: seq<string>, b: seq<string>, c: seq<string>, d: seq<string>, e: seq<string>, sep: string)
    requires |a| >= 1 && |b| >= 1 && |c| >= 1 && |d| >= 1 && |e| >= 1
    ensures Join(a + b + c + d + e, sep)
         == Join(a, sep) + sep + Join(b, sep) + sep + Join(c, sep) + sep + Join(d, sep) + sep + Join(e, sep)
  {
    JoinAppend(a, b, sep);
    JoinAppend(a + b, c, sep);
    JoinAppend(a + b + c, d, sep);
    JoinAppend(a + b + c + d, e, sep);
  }

  /** Cutting the time, contact and email cells at their commas does not change the row's text. */
  lemma RowAsReadText(d: Report, formatTime: int -> string)
    ensures CsvRow(d, formatTime) == Join(CellsAsRead(d, formatTime), ",")
  {
    var c := CsvCells(d, formatTime);
    var head := c[..8];
    assert "," == [','];
    SplitJoin(c[8], ',');
    SplitJoin(c[10], ',');
    SplitJoin(c[11], ',');
    JoinFive(head, Split(c[8], ','), [c[9]], Split(c[10], ','), Split(c[11], ','), ",");
    JoinFive(head, [c[8]], [c[9]], [c[10]], [c[11]], ",");
    assert c == head + [c[8]] + [c[9]] + [c[10]] + [c[11]];
  }

  /** The first eight cells of a row whose id needs no quoting encode the first eight values. */
  lemma HeadEncodes(d: Report, formatTime: int -> string)
    requires IsBare(d.id)
    ensures EncodesAll(CsvCells(d, formatTime)[..8], CsvValues(d, formatTime)[..8])
  {
    var c, v := CsvCells(d, formatTime), CsvValues(d, formatTime);
    LabelsAreBare(d);
    forall i | 0 <= i < 8
      ensures Encodes(c[i], v[i])
    {
      if i == 2 || i == 3 || i == 4 || i == 5 {
        assert c[i] == Quote(v[i]);
      } else {
        assert c[i] == v[i] && IsBare(v[i]);
      }
    }
  }

  /** Five encoded stretches of a row, one after the other, encode the five stretches of values. */
  lemma EncodesFive(c1: seq<string>, c2: seq<string>, c3: seq<string>, c4: seq<string>, c5: seq<string>,
                    r1: seq<string>, r2: seq<string>, r3: seq<string>, r4: seq<string>, r5: seq<string>)
    requires EncodesAll(c1, r1) && EncodesAll(c2, r2) && EncodesAll(c3, r3)
    requires EncodesAll(c4, r4) && EncodesAll(c5, r5)
    ensures EncodesAll(c1 + c2 + c3 + c4 + c5, r1 + r2 + r3 + r4 + r5)
  {
    EncodesAllAppend(c1, r1, c2, r2);
    EncodesAllAppend(c1 + c2, r1 + r2, c3, r3);
    EncodesAllAppend(c1 + c2 + c3, r1 + r2 + r3, c4, r4);
    EncodesAllAppend(c1 + c2 + c3 + c4, r1 + r2 + r3 + r4, c5, r5);
  }

  /**
   * Twelve cells whose first eight encode the first eight values, whose name cell encodes the name,
   * and whose time, contact and email cells are those texts: cut at their commas, they encode the
   * values cut the same way, as long as those three texts hold no quote or line break.
   */
  lemma CutEncodes(c: seq<string>, v: seq<string>)
    requires |c| == 12 && |v| == 12 && EncodesAll(c[..8], v[..8]) && Encodes(c[9], v[9])
    requires c[8] == v[8] && c[10] == v[10] && c[11] == v[11]
    requires NoQuoteOrBreak(v[8]) && NoQuoteOrBreak(v[10]) && NoQuoteOrBreak(v[11])
    ensures EncodesAll(c[..8] + Split(c[8], ',') + [c[9]] + Split(c[10], ',') + Split(c[11], ','),
                       v[..8] + Split(v[8], ',') + [v[9]] + Split(v[10], ',') + Split(v[11], ','))
  {
    PiecesEncode(v[8]);
    PiecesEncode(v[10]);
    PiecesEncode(v[11]);
    assert EncodesAll([c[9]], [v[9]]);
    EncodesFive(c[..8], Split(v[8], ','), [c[9]], Split(v[10], ','), Split(v[11], ','),
                v[..8], Split(v[8], ','), [v[9]], Split(v[10], ','), Split(v[11], ','));
  }

  /** A readable row's cells, cut at the commas in its bare cells, encode the fields a reader finds. */
  lemma RowAsReadEncodes(d: Report, formatTime: int -> string)
    requires ReadableAsWritten(d, formatTime)
    ensures EncodesAll(CellsAsRead(d, formatTime), FieldsAsWritten(d, formatTime))
  {
    var c, v := CsvCells(d, formatTime), CsvValues(d, formatTime);
    assert c[8] == v[8] && c[10] == v[10] && c[11] == v[11] && c[9] == Quote(v[9]);
    HeadEncodes(d, formatTime);
    CutEncodes(c, v);
  }

  /**
   * The export as written reads back record by record whenever its id cells need no quoting
   * and its time, contact and email cells hold no quote or line break; commas there only cut
   * those cells into more fields, so the first eight fields of every row survive.
   */
  lemma CsvAsWrittenRoundTrip(ds: seq<Report>, formatTime: int -> string)
    requires forall i :: 0 <= i < |ds| ==> ReadableAsWritten(ds[i], formatTime)
    ensures ReadCsv(CsvContent(ds, formatTime)) == Some(RecordsAsWritten(ds, formatTime))
  {
    var rows := CsvRows(ds, formatTime);
    var cells := seq(|ds|, i requires 0 <= i < |ds| => CellsAsRead(ds[i], formatTime));
    var fields := seq(|ds|, i requires 0 <= i < |ds| => FieldsAsWritten(ds[i], formatTime));
    forall k | 0 <= k < |ds|
      ensures rows[k] == Join(cells[k], ",") && EncodesAll(cells[k], fields[k])
    {
      RowAsReadText(ds[k], formatTime);
      RowAsReadEncodes(ds[k], formatTime);
    }
    HeaderEncodes();
    FileRoundTrip(CsvHeaderLine(), CsvHeaders, CsvHeaders, rows, cells, fields);
  }

  /**
   * Records that start with the header and then hold, one per report and in order, the report's
   * id, title, location and status label in columns 0, 2, 4 and 7.
   */
  predicate KeepsText(recs: seq<seq<string>>, ds: seq<Report>) {
    && |recs| == |ds| + 1 && recs[0] == CsvHeaders
    && forall k :: 0 <= k < |ds| ==>
         && |recs[k + 1]| >= |CsvHeaders|
         && recs[k + 1][0] == ds[k].id && recs[k + 1][2] == ds[k].title
         && recs[k + 1][4] == ds[k].location && recs[k + 1][7] == StatusLabel(ds[k].status)
  }

  lemma RecordsAsWrittenKeepText(ds: seq<Report>, formatTime: int -> string)
    ensures KeepsText(RecordsAsWritten(ds, formatTime), ds)
  {
    var recs := RecordsAsWritten(ds, formatTime);
    forall k | 0 <= k < |ds|
      ensures && |recs[k + 1]| >= |CsvHeaders|
              && recs[k + 1][0] == ds[k].id && recs[k + 1][2] == ds[k].title
              && recs[k + 1][4] == ds[k].location && recs[k + 1][7] == StatusLabel(ds[k].status)
    {
      assert recs[k + 1] == FieldsAsWritten(ds[k], formatTime);
    }
  }

  /**
   * Read back, the export as written gives the header and one record per report, in order, whose
   * id, title, location and status are the report's own, as long as the rows are readable.
   */
  lemma CsvAsWrittenKeepsText(ds: seq<Report>, formatTime: int -> string)
    requires forall i :: 0 <= i < |ds| ==> ReadableAsWritten(ds[i], formatTime)
    ensures ReadCsv(CsvContent(ds, formatTime)).Some?
    ensures KeepsText(ReadCsv(CsvContent(ds, formatTime)).value, ds)
  {
    CsvAsWrittenRoundTrip(ds, formatTime);
    RecordsAsWrittenKeepText(ds, formatTime);
  }

  /** When the unquoted cells hold no comma either, the fields read back are exactly the values. */
  lemma FieldsAsWrittenWhenBare(d: Report, formatTime: int -> string)
    requires BareCellsAreBare(d, formatTime)
    ensures FieldsAsWritten(d, formatTime) == CsvValues(d, formatTime)
  {
    var v := CsvValues(d, formatTime);
    SplitOfFree(v[8], ',');
    SplitOfFree(v[10], ',');
    SplitOfFree(v[11], ',');
    assert v == v[..8] + [v[8]] + [v[9]] + [v[10]] + [v[11]];
  }

  /**
   * The unquoted contact and email cells make rows ambiguous: a contact `a,b` with email `c`
   * and a contact `a` with email `b,c` give the same row, so no reader can tell the two reports
   * apart.
   */
  lemma CsvRowAmbiguous(d: Report, formatTime: int -> string, a: string, b: string, c: string)
    requires a != [] && c != []
    ensures var d1 := d.(reporter := d.reporter.(contact := a + "," + b, email := c));
            var d2 := d.(reporter := d.reporter.(contact := a, email := b + "," + c));
            d1 != d2 && CsvRow(d1, formatTime) == CsvRow(d2, formatTime)
  {
    var d1 := d.(reporter := d.reporter.(contact := a + "," + b, email := c));
    var d2 := d.(reporter := d.reporter.(contact := a, email := b + "," + c));
    assert |d1.reporter.contact| != |d2.reporter.contact|;
    var c1, c2 := CsvCells(d1, formatTime), CsvCells(d2, formatTime);
    assert c1[..10] == c2[..10];
    JoinSnoc2(c1[..10], c1[10], c1[11], ",");
    JoinSnoc2(c2[..10], c2[10], c2[11], ",");
    assert c1 == c1[..10] + [c1[10], c1[11]];
    assert c2 == c2[..10] + [c2[10], c2[11]];
    assert c1[10] + "," + c1[11] == c2[10] + "," + c2[11];
  }

  lemma {:induction false} JoinSnoc2(init: seq<string>, x: string, y: string, sep: string)
    requires |init| >= 1
    ensures Join(init + [x, y], sep) == Join(init, sep) + sep + (x + sep + y)
    decreases |init|
  {
    assert Join([y], sep) == y;
    assert [x, y][1..] == [y];
    assert Join([x, y], sep) == x + sep + y;
    if |init| == 1 {
      assert (init + [x, y])[1..] == [x, y];
      assert Join(init, sep) == init[0];
    } else {
      assert (init + [x, y])[1..] == init[1..] + [x, y];
      JoinSnoc2(init[1..], x, y, sep);
    }
  }

  /**
   * The export with every free-text cell quoted, as section 2 of RFC 4180 recommends for fields
   * that may hold commas, quotes or line breaks; only the three fixed labels stay bare.
   */
  function CsvCellsQuoted(d: Report, formatTime: int -> string): (c: seq<string>)
    ensures |c| == |CsvHeaders|
  {
    [Quote(d.id), TypeLabel(d.kind), Quote(d.title), Quote(d.description), Quote(d.location),
     Quote(d.affectedArea), SeverityLabel(d.severity), StatusLabel(d.status),
     Quote(formatTime(d.reportedAt)), Quote(d.reporter.name), Quote(OrNA(d.reporter.contact)),
     Quote(OrNA(d.reporter.email))]
  }

  function CsvRowsQuoted(ds: seq<Report>, formatTime: int -> string): (rows: seq<string>)
    ensures |rows| == |ds|
    ensures forall i :: 0 <= i < |ds| ==> rows[i] == Join(CsvCellsQuoted(ds[i], formatTime), ",")
  {
    seq(|ds|, i requires 0 <= i < |ds| => Join(CsvCellsQuoted(ds[i], formatTime), ","))
  }

  function CsvContentQuoted(ds: seq<Report>, formatTime: int -> string): string {
    CsvHeaderLine() + "\n" + Join(CsvRowsQuoted(ds, formatTime), "\n")
  }

  lemma RowQuotedEncodes(d: Report, formatTime: int -> string)
    ensures EncodesAll(CsvCellsQuoted(d, formatTime), CsvValues(d, formatTime))
  {
    var c, v := CsvCellsQuoted(d, formatTime), CsvValues(d, formatTime);
    LabelsAreBare(d);
    assert c[1] == v[1] == TypeLabel(d.kind);
    assert c[6] == v[6] == SeverityLabel(d.severity);
    assert c[7] == v[7] == StatusLabel(d.status);
    forall i | 0 <= i < |c|
      ensures Encodes(c[i], v[i])
    {
      if i != 1 && i != 6 && i != 7 {
        assert c[i] == Quote(v[i]);
      }
    }
  }

  /** With every free-text cell quoted, every export reads back as the header and the reports' values. */
  lemma CsvQuotedRoundTrip(ds: seq<Report>, formatTime: int -> string)
    ensures ReadCsv(CsvContentQuoted(ds, formatTime)) == Some(ExpectedRecords(ds, formatTime))
  {
    var rows := CsvRowsQuoted(ds, formatTime);
    var cells := seq(|ds|, i requires 0 <= i < |ds| => CsvCellsQuoted(ds[i], formatTime));
    var values := seq(|ds|, i requires 0 <= i < |ds| => CsvValues(ds[i], formatTime));
    forall k | 0 <= k < |ds|
      ensures EncodesAll(cells[k], values[k])
    {
      RowQuotedEncodes(ds[k], formatTime);
    }
    HeaderEncodes();
    FileRoundTrip(CsvHeaderLine(), CsvHeaders, CsvHeaders, rows, cells, values);
  }

  /** The title column of the PDF: kept up to 20 characters, else its first 17 and "...". */
  function PdfTitle(t: string): (r: string)
    ensures |t| <= 20 ==> r == t
    ensures |t| > 20 ==> r == t[..17] + "..." && |r| == 20
    ensures |r| <= 20
  {
    if |t| > 20 then t[..17] + "..." else t
  }

  /** The location column of the PDF: kept up to 15 characters, else its first 12 and "...". */
  function PdfLocation(l: string): (r: string)
    ensures |l| <= 15 ==> r == l
    ensures |l| > 15 ==> r == l[..12] + "..." && |r| == 15
    ensures |r| <= 15
  {
    if |l| > 15 then l[..12] + "..." else l
  }

  /** The six cells of one PDF row. */
  function PdfCells(d: Report, formatDate: int -> string): (r: seq<string>)
    ensures |r| == 6 && r[0] == TypeLabel(d.kind) && r[5] == formatDate(d.reportedAt)
    ensures r[3] == SeverityLabel(d.severity) && r[4] == StatusLabel(d.status)
    ensures |r[1]| <= 20 && |r[2]| <= 15
  {
    [TypeLabel(d.kind), PdfTitle(d.title), PdfLocation(d.location), SeverityLabel(d.severity),
     StatusLabel(d.status), formatDate(d.reportedAt)]
  }

  /** Where the next row goes: a page (0 is the first) and the `yPos` on it. */
  datatype Position = Position(page: nat, y: int)

  /** A drawn row: its position, whether it has the shaded background, and its cells. */
  datatype PlacedRow = PlacedRow(at: Position, shaded: bool, cells: seq<string>)

  /** `yPos += 8`, then a new page starting at 20 once it passes 280. */
  function Advance(p: Position): (r: Position)
    ensures 20 <= p.y <= 280 ==> 20 <= r.y <= 280
    ensures r.page == p.page || (r.page == p.page + 1 && r.y == 20)
  {
    if p.y + 8 > 280 then Position(p.page + 1, 20) else Position(p.page, p.y + 8)
  }

  /** The position of row `n`: the first row at 50 (40 for the header, plus 10), then `Advance`. */
  function RowPosition(n: nat): (r: Position)
    ensures 20 <= r.y <= 280
  {
    if n == 0 then Position(0, 50) else Advance(RowPosition(n - 1))
  }

  /** Row `i` of the layout of `data`: at `RowPosition(i)`, shaded when `i` is even. */
  function RowAt(data: seq<Report>, formatDate: int -> string, i: nat): PlacedRow
    requires i < |data|
  {
    PlacedRow(RowPosition(i), i % 2 == 0, PdfCells(data[i], formatDate))
  }

  /**
   * The data-row loop of `exportAsPDF`: every row of `data` placed as `RowAt` says, so every row
   * lies between 20 and 280 on its page and exactly the even-numbered rows are shaded.
   */
  method LayoutPdfRows(data: seq<Report>, formatDate: int -> string) returns (rows: seq<PlacedRow>)
    ensures |rows| == |data|
    ensures forall i :: 0 <= i < |data| ==> rows[i] == RowAt(data, formatDate, i)
    ensures forall i :: 0 <= i < |rows| ==> 20 <= rows[i].at.y <= 280 && (rows[i].shaded <==> i % 2 == 0)
  {
    var page: nat := 0;
    var yPos := 40;
    yPos := yPos + 10;
    rows := [];
    var index := 0;
    while index < |data|
      invariant 0 <= index <= |data| && |rows| == index
      invariant Position(page, yPos) == RowPosition(index)
      invariant forall i :: 0 <= i < index ==> rows[i] == RowAt(data, formatDate, i)
    {
      var row := PlacedRow(Position(page, yPos), index % 2 == 0, PdfCells(data[index], formatDate));
      assert row == RowAt(data, formatDate, index);
      rows := rows + [row];
      yPos := yPos + 8;
      if yPos > 280 {
        page := page + 1;
        yPos := 20;
      }
      index := index + 1;
    }
  }

  /**
   * Where row `n` lands: the first page holds rows 0 to 28 from 50 down in steps of 8; every
   * later page holds 33 rows from 20 down to 276.
   */
  lemma {:induction false} RowPositionClosedForm(n: nat)
    ensures n < 29 ==> RowPosition(n) == Position(0, 50 + 8 * n)
    ensures n >= 29 ==> RowPosition(n) == Position(1 + (n - 29) / 33, 20 + 8 * ((n - 29) % 33))
  {
    if n > 0 {
      RowPositionClosedForm(n - 1);
      if n > 29 {
        var m := n - 30;
        assert m / 33 == (m + 1) / 33 || ((m + 1) % 33 == 0 && (m + 1) / 33 == m / 33 + 1);
        if (m + 1) % 33 == 0 {
          assert m % 33 == 32;
        } else {
          assert (m + 1) % 33 == m % 33 + 1 && (m + 1) / 33 == m / 33;
        }
      }
    }
  }
}
