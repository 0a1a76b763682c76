/**
 * The CSV of the provisional summary (frontend/src/features/inventory/ReservationsPage.tsx), read back as
 * section 2 of RFC 4180 defines it, with a line feed between records.
 */
module CsvExport {
  import opened Wrappers
  import opened ProvisionalSummary
  import Decimal

  // ---------- writing ----------

  /** Every quote of the text doubled. */
  function Doubled(s: string): string {
    if s == "" then "" else (if s[0] == '"' then "\"\"" else [s[0]]) + Doubled(s[1..])
  }

  function Quoted(s: string): string {
    "\"" + Doubled(s) + "\""
  }

  function Join(parts: seq<string>, separator: char): string {
    if parts == [] then ""
    else if |parts| == 1 then parts[0]
    else parts[0] + [separator] + Join(parts[1..], separator)
  }

  const HEADER: seq<string> := [
    "project_id", "project_name", "active_provisional_reserved_qty", "active_provisional_reservation_count",
    "open_incoming_dedicated_qty", "open_incoming_uncommitted_qty", "generated_at"]

  function RowFields(row: Row, timestamp: string): seq<string> {
    [Decimal.OfInt(row.projectId), Quoted(row.name), Decimal.OfInt(row.reserved), Decimal.OfInt(row.count),
     Decimal.OfInt(row.incoming), "", timestamp]
  }

  function RowLine(row: Row, timestamp: string): string {
    Join(RowFields(row, timestamp), ',')
  }

  const POOL_NAME := "(UNCOMMITTED_INCOMING_POOL)"
  const POOL_FIELD := Quoted(POOL_NAME)

  function PoolFields(name: string, uncommitted: int, timestamp: string): seq<string> {
    ["", name, "", "", "", Decimal.OfInt(uncommitted), timestamp]
  }

  /** The lines of an export under a header, closed by a line for the uncommitted pool. */
  function Lines(header: seq<string>, pool: string, s: Summary, timestamp: string): seq<string> {
    [Join(header, ',')] + seq(|s.rows|, i requires 0 <= i < |s.rows| => RowLine(s.rows[i], timestamp))
    + [Join(PoolFields(pool, s.uncommitted, timestamp), ',')]
  }

  /** The export, line by line. */
  method ProvisionalSummaryCsv(header: seq<string>, pool: string, s: Summary, timestamp: string) returns (text: string)
    ensures text == Join(Lines(header, pool, s, timestamp), '\n')
  {
    var csvRows := [Join(header, ',')];
    for i := 0 to |s.rows|
      invariant csvRows == [Join(header, ',')] + seq(i, k requires 0 <= k < i => RowLine(s.rows[k], timestamp))
    {
      csvRows := csvRows + [RowLine(s.rows[i], timestamp)];
    }
    csvRows := csvRows + [Join(PoolFields(pool, s.uncommitted, timestamp), ',')];
    assert csvRows == Lines(header, pool, s, timestamp);
    text := Join(csvRows, '\n');
  }

  function RowRecord(row: Row, timestamp: string): seq<string> {
    [Decimal.OfInt(row.projectId), row.name, Decimal.OfInt(row.reserved), Decimal.OfInt(row.count),
     Decimal.OfInt(row.incoming), "", timestamp]
  }

  /** The records a reader is meant to get. */
  function Records(header: seq<string>, pool: string, s: Summary, timestamp: string): seq<seq<string>> {
    [header] + seq(|s.rows|, i requires 0 <= i < |s.rows| => RowRecord(s.rows[i], timestamp))
    + [PoolFields(pool, s.uncommitted, timestamp)]
  }

  // ---------- reading ----------

  predicate IsPlainChar(c: char) {
    c != '"' && c != ',' && c != '\n' && c != '\r'
  }

  /** The length of an unescaped field. */
  function PlainLen(s: string): (n: nat)
    ensures n <= |s|
  {
    if s == "" || !IsPlainChar(s[0]) then 0 else 1 + PlainLen(s[1..])
  }

  /** The rest of an escaped field after its opening quote: its text, and what follows the closing quote. */
  function ReadQuoted(s: string): (r: Option<(string, string)>)
    ensures r.Some? ==> |r.value.1| < |s|
    decreases |s|
  {
    if s == "" then None
    else if s[0] != '"' then
      var rest := ReadQuoted(s[1..]);
      if rest.None? then None else Some(([s[0]] + rest.value.0, rest.value.1))
    else if |s| > 1 && s[1] == '"' then
      var rest := ReadQuoted(s[2..]);
      if rest.None? then None else Some(("\"" + rest.value.0, rest.value.1))
    else Some(("", s[1..]))
  }

  /** One field, and what follows it. */
  function ReadField(s: string): (r: Option<(string, string)>)
    ensures r.Some? ==> |r.value.1| <= |s|
  {
    if s != "" && s[0] == '"' then ReadQuoted(s[1..]) else Some((s[..PlainLen(s)], s[PlainLen(s)..]))
  }

  /** All records: fields separated by commas, records by line feeds. */
  function ReadCsv(s: string): Option<seq<seq<string>>>
    decreases |s|
  {
    var field := ReadField(s);
    if field.None? then None
    else
      var text, rest := field.value.0, field.value.1;
      if rest == "" then Some([[text]])
      else if rest[0] == ',' then
        var more := ReadCsv(rest[1..]);
        if more.None? || more.value == [] then None else Some([[text] + more.value[0]] + more.value[1..])
      else if rest[0] == '\n' then
        var more := ReadCsv(rest[1..]);
        if more.None? then None else Some([[text]] + more.value)
      else None
  }

  // ---------- reading what was written ----------

  predicate PlainText(s: string) {
    forall i :: 0 <= i < |s| ==> IsPlainChar(s[i])
  }

  /** A written field: plain text, or any text quoted. */
  predicate Writes(written: string, text: string) {
    (written == text && PlainText(text)) || written == Quoted(text)
  }

  lemma {:induction false} ReadsQuoted(text: string, rest: string)
    requires rest == "" || rest[0] != '"'
    ensures ReadQuoted(Doubled(text) + "\"" + rest) == Some((text, rest))
  {
    var s := Doubled(text) + "\"" + rest;
    if text == "" {
      assert s[1..] == rest;
    } else {
      ReadsQuoted(text[1..], rest);
      var tail := Doubled(text[1..]) + "\"" + rest;
      assert [text[0]] + text[1..] == text;
      if text[0] == '"' {
        assert s[2..] == tail && s[0] == '"' && s[1] == '"';
      } else {
        assert s[1..] == tail && s[0] == text[0];
      }
    }
  }

  lemma {:induction false} ReadsPlain(text: string, rest: string)
    requires forall i :: 0 <= i < |text| ==> IsPlainChar(text[i])
    requires rest == "" || !IsPlainChar(rest[0])
    ensures PlainLen(text + rest) == |text|
  {
    if text == "" {
      assert text + rest == rest;
    } else {
      assert (text + rest)[1..] == text[1..] + rest;
      ReadsPlain(text[1..], rest);
    }
  }

  lemma ReadsField(written: string, text: string, rest: string)
    requires Writes(written, text)
    requires rest == "" || rest[0] == ',' || rest[0] == '\n'
    ensures ReadField(written + rest) == Some((text, rest))
  {
    if written == Quoted(text) {
      ReadsQuoted(text, rest);
      assert (written + rest)[1..] == Doubled(text) + "\"" + rest;
    } else {
      ReadsPlain(text, rest);
      assert (text + rest)[..|text|] == text && (text + rest)[|text|..] == rest;
    }
  }

  predicate WritesAll(written: seq<string>, texts: seq<string>) {
    |written| == |texts| && forall i :: 0 <= i < |texts| ==> Writes(written[i], texts[i])
  }

  lemma ReadsComma(written: string, text: string, tail: string, first: seq<string>, others: seq<seq<string>>)
    requires Writes(written, text) && ReadCsv(tail) == Some([first] + others)
    ensures ReadCsv(written + "," + tail) == Some([[text] + first] + others)
  {
    ReadsField(written, text, "," + tail);
    assert written + "," + tail == written + ("," + tail);
    assert ("," + tail)[1..] == tail;
    assert ([first] + others)[1..] == others;
  }

  lemma ReadsFeed(written: string, text: string, tail: string, others: seq<seq<string>>)
    requires Writes(written, text) && ReadCsv(tail) == Some(others)
    ensures ReadCsv(written + "\n" + tail) == Some([[text]] + others)
  {
    ReadsField(written, text, "\n" + tail);
    assert written + "\n" + tail == written + ("\n" + tail);
    assert ("\n" + tail)[1..] == tail;
  }

  /** The last record. */
  lemma {:induction false} ReadsLastLine(written: seq<string>, texts: seq<string>)
    requires WritesAll(written, texts) && texts != []
    ensures ReadCsv(Join(written, ',')) == Some([texts])
    decreases |texts|
  {
    if |texts| == 1 {
      ReadsField(written[0], texts[0], "");
      assert written[0] + "" == written[0];
      assert [texts[0]] == texts;
    } else {
      ReadsLastLine(written[1..], texts[1..]);
      assert [texts[1..]] == [texts[1..]] + [];
      ReadsComma(written[0], texts[0], Join(written[1..], ','), texts[1..], []);
      assert [texts[0]] + texts[1..] == texts;
      assert [texts] + [] == [texts];
    }
  }

  lemma LineTail(written: seq<string>, rest: string)
    requires |written| > 1
    ensures Join(written, ',') + "\n" + rest == written[0] + "," + (Join(written[1..], ',') + "\n" + rest)
  {
  }

  /** A record that a line feed follows. */
  lemma FirstAndTail<T>(s: seq<T>)
    requires s != []
    ensures [s[0]] + s[1..] == s
  {
  }

  lemma {:induction false} ReadsLine(written: seq<string>, texts: seq<string>, rest: string, others: seq<seq<string>>)
    requires WritesAll(written, texts) && texts != [] && ReadCsv(rest) == Some(others)
    ensures ReadCsv(Join(written, ',') + "\n" + rest) == Some([texts] + others)
    decreases |texts|
  {
    if |texts| == 1 {
      ReadsFeed(written[0], texts[0], rest, others);
      assert [texts[0]] == texts;
    } else {
      ReadsLine(written[1..], texts[1..], rest, others);
      LineTail(written, rest);
      ReadsComma(written[0], texts[0], Join(written[1..], ',') + "\n" + rest, texts[1..], others);
      FirstAndTail(texts);
    }
  }

  /** Lines of written fields read back as their records. */
  lemma {:induction false} ReadsLines(written: seq<seq<string>>, records: seq<seq<string>>, lines: seq<string>)
    requires |written| == |records| == |lines| && records != []
    requires forall i :: 0 <= i < |records| ==>
               records[i] != [] && WritesAll(written[i], records[i]) && lines[i] == Join(written[i], ',')
    ensures ReadCsv(Join(lines, '\n')) == Some(records)
    decreases |records|
  {
    if |records| == 1 {
      ReadsLastLine(written[0], records[0]);
      assert [records[0]] == records;
    } else {
      ReadsLines(written[1..], records[1..], lines[1..]);
      ReadsLine(written[0], records[0], Join(lines[1..], '\n'), records[1..]);
      assert Join(lines, '\n') == Join(written[0], ',') + "\n" + Join(lines[1..], '\n');
      assert [records[0]] + records[1..] == records;
    }
  }

  lemma NumbersPlain(n: int)
    ensures Writes(Decimal.OfInt(n), Decimal.OfInt(n))
  {
    var s := Decimal.OfInt(n);
    if n < 0 {
      assert forall i :: 1 <= i < |s| ==> s[i] == Decimal.OfNat(-n)[i - 1];
    }
    assert forall i :: 0 <= i < |s| ==> s[i] == '-' || Decimal.IsDigit(s[i]);
  }

  lemma RowReads(row: Row, timestamp: string)
    requires PlainText(timestamp)
    ensures WritesAll(RowFields(row, timestamp), RowRecord(row, timestamp))
  {
    NumbersPlain(row.projectId);
    NumbersPlain(row.reserved);
    NumbersPlain(row.count);
    NumbersPlain(row.incoming);
  }

  lemma PoolReads(name: string, uncommitted: int, timestamp: string)
    requires PlainText(timestamp)
    ensures WritesAll(PoolFields(Quoted(name), uncommitted, timestamp), PoolFields(name, uncommitted, timestamp))
  {
    NumbersPlain(uncommitted);
  }

  lemma HeaderReads()
    ensures WritesAll(HEADER, HEADER)
  {
    assert PlainText("project_id");
    assert PlainText("project_name");
    LongHeaders();
    assert PlainText("generated_at");
  }

  lemma LongHeaders()
    ensures PlainText("active_provisional_reserved_qty") && PlainText("active_provisional_reservation_count")
    ensures PlainText("open_incoming_dedicated_qty") && PlainText("open_incoming_uncommitted_qty")
  {
  }

  /**
   * A reader of RFC 4180 gets every field of the export back, for all project names, including those with
   * quotes, commas and line feeds; the timestamp is one without any of these.
   */
  lemma ExportReadsBack(s: Summary, timestamp: string)
    requires PlainText(timestamp)
    ensures ReadCsv(Join(Lines(HEADER, POOL_FIELD, s, timestamp), '\n')) == Some(Records(HEADER, POOL_NAME, s, timestamp))
  {
    HeaderReads();
    ReadsBackUnder(HEADER, POOL_NAME, s, timestamp);
  }

  lemma ReadsBackUnder(header: seq<string>, pool: string, s: Summary, timestamp: string)
    requires PlainText(timestamp) && header != [] && WritesAll(header, header)
    ensures ReadCsv(Join(Lines(header, Quoted(pool), s, timestamp), '\n')) == Some(Records(header, pool, s, timestamp))
  {
    var rows := seq(|s.rows|, i requires 0 <= i < |s.rows| => RowFields(s.rows[i], timestamp));
    var written := [header] + rows + [PoolFields(Quoted(pool), s.uncommitted, timestamp)];
    PoolReads(pool, s.uncommitted, timestamp);
    var records, lines := Records(header, pool, s, timestamp), Lines(header, Quoted(pool), s, timestamp);
    forall i | 0 <= i < |written|
      ensures records[i] != [] && WritesAll(written[i], records[i]) && lines[i] == Join(written[i], ',')
    {
      LineReads(header, pool, s, timestamp, written, i);
    }
    ReadsLines(written, records, lines);
  }

  lemma LineReads(header: seq<string>, pool: string, s: Summary, timestamp: string, written: seq<seq<string>>, i: nat)
    requires PlainText(timestamp) && header != [] && WritesAll(header, header)
    requires WritesAll(PoolFields(Quoted(pool), s.uncommitted, timestamp), PoolFields(pool, s.uncommitted, timestamp))
    requires i < |written| == |s.rows| + 2
    requires written[i] == if i == 0 then header else if i <= |s.rows| then RowFields(s.rows[i - 1], timestamp)
                           else PoolFields(Quoted(pool), s.uncommitted, timestamp)
    ensures |Records(header, pool, s, timestamp)| == |Lines(header, Quoted(pool), s, timestamp)| == |written|
    ensures var record := Records(header, pool, s, timestamp)[i];
            record != [] && WritesAll(written[i], record)
            && Lines(header, Quoted(pool), s, timestamp)[i] == Join(written[i], ',')
  {
    if 0 < i <= |s.rows| {
      RowReads(s.rows[i - 1], timestamp);
    }
  }

  /** The downloaded text reads back as the summary's records. */
  method DownloadProvisionalSummary(s: Summary, timestamp: string) returns (text: string)
    requires PlainText(timestamp)
    ensures ReadCsv(text) == Some(Records(HEADER, POOL_NAME, s, timestamp))
  {
    ExportReadsBack(s, timestamp);
    text := ProvisionalSummaryCsv(HEADER, POOL_FIELD, s, timestamp);
  }

  // ---------- which column says what ----------

  /** The record of a row has its figures under their headers. */
  lemma RowColumns(s: Summary, timestamp: string, i: nat)
    requires i < |s.rows|
    ensures |Records(HEADER, POOL_NAME, s, timestamp)| == |s.rows| + 2
    ensures var row, record := s.rows[i], Records(HEADER, POOL_NAME, s, timestamp)[i + 1];
            && |record| == |HEADER| == 7
            && HEADER[0] == "project_id" && Decimal.ReadInt(record[0]) == Some(row.projectId)
            && HEADER[1] == "project_name" && record[1] == row.name
            && HEADER[2] == "active_provisional_reserved_qty" && Decimal.ReadInt(record[2]) == Some(row.reserved)
            && HEADER[3] == "active_provisional_reservation_count" && Decimal.ReadInt(record[3]) == Some(row.count)
            && HEADER[4] == "open_incoming_dedicated_qty" && Decimal.ReadInt(record[4]) == Some(row.incoming)
            && HEADER[5] == "open_incoming_uncommitted_qty" && record[5] == ""
            && HEADER[6] == "generated_at" && record[6] == timestamp
  {
    RecordReads(s.rows[i], timestamp);
    Headers();
  }

  lemma RecordReads(row: Row, timestamp: string)
    ensures var record := RowRecord(row, timestamp);
            && |record| == 7 && Decimal.ReadInt(record[0]) == Some(row.projectId) && record[1] == row.name
            && Decimal.ReadInt(record[2]) == Some(row.reserved) && Decimal.ReadInt(record[3]) == Some(row.count)
            && Decimal.ReadInt(record[4]) == Some(row.incoming) && record[5] == "" && record[6] == timestamp
  {
    Decimal.OfIntReads(row.projectId);
    Decimal.OfIntReads(row.reserved);
    Decimal.OfIntReads(row.count);
    Decimal.OfIntReads(row.incoming);
  }

  lemma Headers()
    ensures |HEADER| == 7 && HEADER[0] == "project_id" && HEADER[1] == "project_name"
    ensures HEADER[2] == "active_provisional_reserved_qty" && HEADER[3] == "active_provisional_reservation_count"
    ensures HEADER[4] == "open_incoming_dedicated_qty" && HEADER[5] == "open_incoming_uncommitted_qty"
    ensures HEADER[6] == "generated_at"
  {
  }

  /** And the last record has the uncommitted quantity under its header, and nothing under the project's. */
  lemma PoolColumns(s: Summary, timestamp: string)
    ensures |Records(HEADER, POOL_NAME, s, timestamp)| == |s.rows| + 2
    ensures var record := Records(HEADER, POOL_NAME, s, timestamp)[|s.rows| + 1];
            && |record| == |HEADER| == 7
            && HEADER[1] == "project_name" && record[1] == "(UNCOMMITTED_INCOMING_POOL)"
            && HEADER[5] == "open_incoming_uncommitted_qty" && Decimal.ReadInt(record[5]) == Some(s.uncommitted)
            && HEADER[6] == "generated_at" && record[6] == timestamp
            && record[0] == record[2] == record[3] == record[4] == ""
  {
    Decimal.OfIntReads(s.uncommitted);
  }
}
