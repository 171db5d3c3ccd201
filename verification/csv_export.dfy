/** The "Export" button (`exportDataToCSV`): the filtered comments as a CSV
    document, one record per comment after a header record. A small reader
    in the style of RFC 4180 (section 2), with LF line breaks, is the
    partner the export is checked against. */
module CsvExport {
  import opened Wrappers
  import opened Strings
  import opened Comments

  const DataUriPrefix: string := "data:text/csv;charset=utf-8,"
  /** The header line "ID,Sentiment,Provision,Keywords,Full Text" and its
      line break, written cell by cell. */
  const Header: string := "ID" + "," + "Sentiment" + "," + "Provision" + "," + "Keywords" + "," + "Full Text" + "\n"
  const HeaderFields: seq<string> := ["ID", "Sentiment", "Provision", "Keywords", "Full Text"]
  const NoDataMessage: string := "No data to export."
  const KeywordSeparator: string := ", "

  /** `s.replace(/"/g, '""')`. */
  function EscapeQuotes(s: string): (r: string)
    ensures |r| >= |s|
  {
    if |s| == 0 then ""
    else (if s[0] == '"' then "\"\"" else [s[0]]) + EscapeQuotes(s[1..])
  }

  function Quote(s: string): string
  {
    "\"" + s + "\""
  }

  /** The cells of one exported record: id, sentiment and provision as
      they are, the keywords joined and quoted, the text quoted with its
      quotes doubled. */
  function RowCells(c: Comment): seq<string>
  {
    [ NatToString(c.id),
      c.sentiment,
      c.provision,
      Quote(Join(c.keywords, KeywordSeparator)),
      Quote(EscapeQuotes(c.text)) ]
  }

  /** `row.join(',') + "\n"`. */
  function CsvRow(c: Comment): string
  {
    Join(RowCells(c), ",") + "\n"
  }

  function CsvBody(cs: seq<Comment>): string
  {
    if |cs| == 0 then "" else CsvRow(cs[0]) + CsvBody(cs[1..])
  }

  /** The export: refused with a notice when nothing is filtered, otherwise
      the data URI of the header followed by one record per comment. */
  function ExportCsv(filtered: seq<Comment>): (r: Result<string, string>)
    ensures r.Err? <==> |filtered| == 0
    ensures r.Err? ==> r.error == NoDataMessage
    ensures r.Ok? ==> StartsWith(r.value, DataUriPrefix)
  {
    if |filtered| == 0 then Err(NoDataMessage)
    else Ok(DataUriPrefix + (Header + CsvBody(filtered)))
  }

  // ---- Reading CSV back ----
  // In the style of RFC 4180, section 2, but records end with LF rather
  // than CRLF, and an unquoted field may hold a quote.

  /** An unquoted field: everything up to the next comma or line break. */
  function ReadPlain(s: string): (r: (string, string))
    ensures r.0 + r.1 == s
    ensures |r.1| > 0 ==> r.1[0] == ',' || r.1[0] == '\n'
  {
    if |s| == 0 || s[0] == ',' || s[0] == '\n' then ("", s)
    else
      var (f, rest) := ReadPlain(s[1..]);
      assert s == [s[0]] + s[1..];
      ([s[0]] + f, rest)
  }

  /** The inside of a quoted field, after its opening quote: a doubled quote
      stands for one quote, a single quote closes the field. */
  function ReadQuotedBody(s: string): (r: Option<(string, string)>)
    ensures r.Some? ==> |r.value.1| < |s|
  {
    if |s| == 0 then None
    else if s[0] == '"' then
      if |s| >= 2 && s[1] == '"' then
        match ReadQuotedBody(s[2..])
        case None => None
        case Some((f, rest)) => Some(("\"" + f, rest))
      else Some(("", s[1..]))
    else
      match ReadQuotedBody(s[1..])
      case None => None
      case Some((f, rest)) => Some(([s[0]] + f, rest))
  }

  function ReadField(s: string): (r: Option<(string, string)>)
    ensures r.Some? ==> |r.value.1| <= |s|
  {
    if |s| > 0 && s[0] == '"' then ReadQuotedBody(s[1..])
    else var (f, rest) := ReadPlain(s); assert |rest| <= |f + rest|; Some((f, rest))
  }

  /** The fields of one record, up to and including its line break. */
  function ReadRecord(s: string): (r: Option<(seq<string>, string)>)
    ensures r.Some? ==> |r.value.1| < |s|
    decreases |s|
  {
    match ReadField(s)
    case None => None
    case Some((f, rest)) =>
      if |rest| == 0 then None
      else if rest[0] == '\n' then Some(([f], rest[1..]))
      else if rest[0] == ',' then
        match ReadRecord(rest[1..])
        case None => None
        case Some((fs, rest')) => Some(([f] + fs, rest'))
      else None
  }

  /** All records of a document. */
  function ReadRecords(s: string): Option<seq<seq<string>>>
    decreases |s|
  {
    if |s| == 0 then Some([])
    else match ReadRecord(s)
      case None => None
      case Some((fs, rest)) =>
        match ReadRecords(rest)
        case None => None
        case Some(more) => Some([fs] + more)
  }

  /** A field the export writes unquoted reads back only when it holds no
      comma, quote or line break. */
  predicate PlainSafe(s: string)
  {
    forall i :: 0 <= i < |s| ==> s[i] != ',' && s[i] != '"' && s[i] != '\n'
  }

  predicate QuoteFree(s: string)
  {
    forall i :: 0 <= i < |s| ==> s[i] != '"'
  }

  /** What a record of the export reads back as. */
  function Fields(c: Comment): seq<string>
  {
    [NatToString(c.id), c.sentiment, c.provision, Join(c.keywords, KeywordSeparator), c.text]
  }

  /** The comments whose records read back: the fields written unquoted
      are plain-safe, and the keywords hold no quote, since the source
      quotes the keyword field without doubling the quotes inside it. */
  predicate Exportable(c: Comment)
  {
    PlainSafe(c.sentiment) && PlainSafe(c.provision) && QuoteFree(Join(c.keywords, KeywordSeparator))
  }

  lemma {:induction false} ReadPlainField(f: string, rest: string)
    requires PlainSafe(f)
    requires |rest| > 0 && (rest[0] == ',' || rest[0] == '\n')
    ensures ReadPlain(f + rest) == (f, rest)
  {
    if |f| > 0 {
      assert (f + rest)[0] == f[0];
      assert (f + rest)[1..] == f[1..] + rest;
      ReadPlainField(f[1..], rest);
      assert f == [f[0]] + f[1..];
    } else {
      assert f + rest == rest;
    }
  }

  /** Doubling the quotes and closing the field is undone by the reader:
      the escape round trip of the text field. */
  lemma {:induction false} ReadEscaped(t: string, rest: string)
    requires |rest| > 0 && rest[0] != '"'
    ensures ReadQuotedBody(EscapeQuotes(t) + "\"" + rest) == Some((t, rest))
  {
    var s := EscapeQuotes(t) + "\"" + rest;
    if |t| == 0 {
      assert s == "\"" + rest;
      assert s[1..] == rest;
    } else {
      ReadEscaped(t[1..], rest);
      var tail := EscapeQuotes(t[1..]) + "\"" + rest;
      assert t == [t[0]] + t[1..];
      if t[0] == '"' {
        assert s == "\"\"" + tail;
        assert s[2..] == tail;
      } else {
        assert s == [t[0]] + tail;
        assert s[1..] == tail;
      }
    }
  }

  lemma {:induction false} EscapeQuoteFree(t: string)
    requires QuoteFree(t)
    ensures EscapeQuotes(t) == t
  {
    if |t| > 0 {
      EscapeQuoteFree(t[1..]);
      assert t == [t[0]] + t[1..];
    }
  }

  lemma DigitsPlainSafe(n: nat)
    ensures PlainSafe(NatToString(n))
  {
  }

  /** `cell` is how the export writes field `f`: as it is when plain-safe,
      or quoted with its quotes doubled. */
  predicate Encodes(cell: string, f: string)
  {
    (PlainSafe(f) && cell == f) || cell == Quote(EscapeQuotes(f))
  }

  /** A written cell reads back as its field when a comma or line break
      follows it. */
  lemma ReadCell(cell: string, f: string, rest: string)
    requires Encodes(cell, f)
    requires |rest| > 0 && (rest[0] == ',' || rest[0] == '\n')
    ensures ReadField(cell + rest) == Some((f, rest))
  {
    if cell == Quote(EscapeQuotes(f)) {
      assert (cell + rest)[1..] == EscapeQuotes(f) + "\"" + rest;
      ReadEscaped(f, rest);
    } else {
      ReadPlainField(f, rest);
      if |f| > 0 {
        assert (f + rest)[0] == f[0];
      }
    }
  }

  /** The last field of a record, followed by its line break. */
  lemma ReadRecordLast(s: string, f: string, rest: string)
    requires ReadField(s) == Some((f, "\n" + rest))
    ensures ReadRecord(s) == Some(([f], rest))
  {
    assert ("\n" + rest)[1..] == rest;
  }

  /** One step of reading a record: a field followed by a comma. */
  lemma ReadRecordStep(s: string, f: string, rest: string, fs: seq<string>, rest': string)
    requires ReadField(s) == Some((f, "," + rest))
    requires ReadRecord(rest) == Some((fs, rest'))
    ensures ReadRecord(s) == Some(([f] + fs, rest'))
  {
    assert ("," + rest)[1..] == rest;
  }

  /** A joined line of one cell is that cell before the line break. */
  lemma JoinedOne(cells: seq<string>, rest: string)
    requires |cells| == 1
    ensures Join(cells, ",") + "\n" + rest == cells[0] + ("\n" + rest)
  {
  }

  /** A joined line of several cells is its first cell, a comma, and the
      line of the others. */
  lemma JoinedMore(cells: seq<string>, rest: string)
    requires |cells| > 1
    ensures Join(cells, ",") + "\n" + rest == cells[0] + ("," + (Join(cells[1..], ",") + "\n" + rest))
  {
  }

  /** Cells joined by commas and closed by a line break read back as the
      fields they encode. */
  lemma {:induction false} ReadJoined(cells: seq<string>, fields: seq<string>, rest: string)
    requires |cells| == |fields| > 0
    requires forall i :: 0 <= i < |cells| ==> Encodes(cells[i], fields[i])
    ensures ReadRecord(Join(cells, ",") + "\n" + rest) == Some((fields, rest))
  {
    if |cells| == 1 {
      JoinedOne(cells, rest);
      ReadCell(cells[0], fields[0], "\n" + rest);
      ReadRecordLast(cells[0] + ("\n" + rest), fields[0], rest);
      assert fields == [fields[0]];
    } else {
      var tail := Join(cells[1..], ",") + "\n" + rest;
      JoinedMore(cells, rest);
      ReadCell(cells[0], fields[0], "," + tail);
      assert forall i :: 0 <= i < |cells| - 1 ==> cells[1..][i] == cells[i + 1] && fields[1..][i] == fields[i + 1];
      ReadJoined(cells[1..], fields[1..], rest);
      ReadRecordStep(cells[0] + ("," + tail), fields[0], tail, fields[1..], rest);
      assert fields == [fields[0]] + fields[1..];
    }
  }

  /** Every exportable comment's record reads back as its five fields: the
      id in decimal, sentiment, provision, joined keywords and the exact
      text. */
  lemma RowReadsBack(c: Comment, rest: string)
    requires Exportable(c)
    ensures ReadRecord(CsvRow(c) + rest) == Some((Fields(c), rest))
  {
    var kw := Join(c.keywords, KeywordSeparator);
    DigitsPlainSafe(c.id);
    EscapeQuoteFree(kw);
    var cells, fields := RowCells(c), Fields(c);
    assert Encodes(cells[0], fields[0]);
    assert Encodes(cells[1], fields[1]);
    assert Encodes(cells[2], fields[2]);
    assert Encodes(cells[3], fields[3]);
    assert Encodes(cells[4], fields[4]);
    ReadJoined(cells, fields, rest);
  }

  /** The records a list of comments should read back as. */
  function FieldsOf(cs: seq<Comment>): (r: seq<seq<string>>)
    ensures |r| == |cs|
    ensures forall i :: 0 <= i < |cs| ==> r[i] == Fields(cs[i])
  {
    if |cs| == 0 then [] else [Fields(cs[0])] + FieldsOf(cs[1..])
  }

  lemma {:induction false} BodyReadsBack(cs: seq<Comment>)
    requires forall c :: c in cs ==> Exportable(c)
    ensures ReadRecords(CsvBody(cs)) == Some(FieldsOf(cs))
  {
    if |cs| > 0 {
      assert cs[0] in cs;
      assert forall c :: c in cs[1..] ==> c in cs;
      BodyReadsBack(cs[1..]);
      RowReadsBack(cs[0], CsvBody(cs[1..]));
      var row := CsvRow(cs[0]);
      assert |row| > 0 by { assert row[|row| - 1] == '\n'; }
      assert CsvBody(cs) == row + CsvBody(cs[1..]);
    }
  }

  /** Joining five cells puts the separator between neighbours. */
  lemma JoinFive(a: string, b: string, c: string, d: string, e: string, sep: string)
    ensures Join([a, b, c, d, e], sep) == a + sep + b + sep + c + sep + d + sep + e
  {
    var xs := [a, b, c, d, e];
    assert Join(xs[4..], sep) == e by { assert xs[4..] == [e]; }
    assert Join(xs[3..], sep) == d + sep + e by { assert xs[3..][1..] == xs[4..]; }
    assert Join(xs[2..], sep) == c + sep + (d + sep + e) by { assert xs[2..][1..] == xs[3..]; }
    assert Join(xs[1..], sep) == b + sep + (c + sep + (d + sep + e)) by { assert xs[1..][1..] == xs[2..]; }
    var t3 := d + sep + e;
    var t2 := c + sep + t3;
    assert c + sep + d + sep + e == t2;
    assert b + sep + t2 == b + sep + c + sep + d + sep + e;
    assert a + sep + (b + sep + t2) == a + sep + b + sep + c + sep + d + sep + e;
  }

  lemma HeaderIsJoined()
    ensures Join(HeaderFields, ",") + "\n" == Header
  {
    JoinFive("ID", "Sentiment", "Provision", "Keywords", "Full Text", ",");
  }

  lemma HeaderPlain()
    ensures forall i :: 0 <= i < |HeaderFields| ==> Encodes(HeaderFields[i], HeaderFields[i])
  {
    assert PlainSafe("ID") && PlainSafe("Sentiment") && PlainSafe("Provision");
    assert PlainSafe("Keywords") && PlainSafe("Full Text");
  }

  lemma HeaderReadsBack(rest: string)
    ensures ReadRecord(Header + rest) == Some((HeaderFields, rest))
  {
    HeaderIsJoined();
    HeaderPlain();
    ReadJoined(HeaderFields, HeaderFields, rest);
  }

  lemma SplitAt(a: string, b: string)
    ensures (a + b)[..|a|] == a && (a + b)[|a|..] == b
  {
  }

  lemma ReadRecordsCons(s: string, fs: seq<string>, rest: string, more: seq<seq<string>>)
    requires ReadRecord(s) == Some((fs, rest))
    requires ReadRecords(rest) == Some(more)
    ensures ReadRecords(s) == Some([fs] + more)
  {
  }

  /** The CSV part of an export reads back as header plus one record per
      comment. */
  lemma DocumentReadsBack(cs: seq<Comment>)
    requires forall c :: c in cs ==> Exportable(c)
    ensures ReadRecords(Header + CsvBody(cs)) == Some([HeaderFields] + FieldsOf(cs))
  {
    var body := CsvBody(cs);
    HeaderReadsBack(body);
    BodyReadsBack(cs);
    ReadRecordsCons(Header + body, HeaderFields, body, FieldsOf(cs));
  }

  /** A successful export of exportable comments is a data URI whose CSV
      reads back as the header followed by exactly one record per filtered
      comment, in order, each giving back the comment's fields. */
  lemma ExportReadsBack(filtered: seq<Comment>)
    requires |filtered| > 0
    requires forall c :: c in filtered ==> Exportable(c)
    ensures ExportCsv(filtered).Ok?
    ensures var doc := ExportCsv(filtered).value;
      && StartsWith(doc, DataUriPrefix)
      && ReadRecords(doc[|DataUriPrefix|..])
         == Some([HeaderFields] + FieldsOf(filtered))
  {
    var csv := Header + CsvBody(filtered);
    assert ExportCsv(filtered).value == DataUriPrefix + csv;
    SplitAt(DataUriPrefix, csv);
    DocumentReadsBack(filtered);
  }

  lemma ReadRecordStepFails(s: string, f: string, rest: string)
    requires ReadField(s) == Some((f, "," + rest))
    requires ReadRecord(rest).None?
    ensures ReadRecord(s).None?
  {
    assert ("," + rest)[1..] == rest;
  }

  /** No record can be read from `cell` followed by anything. */
  ghost predicate BreaksRecord(cell: string)
  {
    forall after :: ReadRecord(cell + after).None?
  }

  /** A quoted cell whose text has a lone quote followed by an ordinary
      character ends early, and the record cannot continue after it. */
  lemma LoneQuoteBreaksRecord(x: string, y: string)
    requires QuoteFree(x)
    requires |y| > 0 && y[0] != '"' && y[0] != ',' && y[0] != '\n'
    ensures BreaksRecord(Quote(x + "\"" + y))
  {
    forall after
      ensures ReadRecord(Quote(x + "\"" + y) + after).None?
    {
      var t := y + "\"" + after;
      EscapeQuoteFree(x);
      ReadEscaped(x, t);
      assert (Quote(x + "\"" + y) + after)[1..] == EscapeQuotes(x) + "\"" + t;
      assert ReadField(Quote(x + "\"" + y) + after) == Some((x, t));
      assert t[0] == y[0];
    }
  }

  /** Plain cells joined by commas up to one that breaks the record: the
      whole line fails to read. */
  lemma {:induction false} ReadJoinedFails(cells: seq<string>, k: nat, rest: string)
    requires k < |cells|
    requires forall i :: 0 <= i < k ==> PlainSafe(cells[i])
    requires BreaksRecord(cells[k])
    ensures ReadRecord(Join(cells, ",") + "\n" + rest).None?
  {
    if |cells| == 1 {
      JoinedOne(cells, rest);
    } else {
      var tail := Join(cells[1..], ",") + "\n" + rest;
      JoinedMore(cells, rest);
      if k > 0 {
        ReadCell(cells[0], cells[0], "," + tail);
        ReadJoinedFails(cells[1..], k - 1, rest);
        ReadRecordStepFails(cells[0] + ("," + tail), cells[0], tail);
      }
    }
  }

  /** The keyword cell is quoted but its quotes are not doubled, so a
      keyword holding a quote followed by an ordinary character closes the
      field early, and the record no longer reads at all. */
  lemma KeywordQuoteBreaksRecord(c: Comment, x: string, y: string, rest: string)
    requires PlainSafe(c.sentiment) && PlainSafe(c.provision)
    requires Join(c.keywords, KeywordSeparator) == x + "\"" + y
    requires QuoteFree(x)
    requires |y| > 0 && y[0] != '"' && y[0] != ',' && y[0] != '\n'
    ensures ReadRecord(CsvRow(c) + rest).None?
  {
    DigitsPlainSafe(c.id);
    LoneQuoteBreaksRecord(x, y);
    ReadJoinedFails(RowCells(c), 3, rest);
  }
}
