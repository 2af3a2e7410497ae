/** Batching rows into insert statements through two bounded character buffers. */
module QueryBuffer {
  import opened Options

  const QUERY_SIZE: nat := 128000
  const RECORD_SIZE: nat := 8192

  /** An event of a group, with its value as `%f` prints it. */
  datatype Event = Event(name: string, value: real, shown: string)

  /** An entry of a server's map: its time, or a group under a tag set that may fail to parse. */
  datatype Entry = Time(shown: string) | Group(tags: Option<map<string, string>>, events: seq<Event>)

  function Table(): string {
    "insert into host_data (time, "
  }

  function Columns(): string {
    "host, system, fid, jid, uid, "
  }

  function Values(): string {
    "client, event, value) values "
  }

  /** What every statement starts with. */
  function Head(): string {
    Table() + Columns() + Values()
  }

  lemma {:induction false} TableText()
    ensures |Table()| == 29 && '\0' !in Table()
  {
  }

  lemma {:induction false} ColumnsText()
    ensures |Columns()| == 29 && '\0' !in Columns()
  {
  }

  lemma {:induction false} ValuesText()
    ensures |Values()| == 29 && Values()[28] == ' ' && '\0' !in Values()
  {
  }

  lemma {:induction false} HeadEnds()
    ensures |Head()| == 87 && Head()[86] == ' ' && '\0' !in Head()
  {
    hide Table, Columns, Values;
    TableText();
    ColumnsText();
    ValuesText();
  }

  // ---------- rows ----------

  function Quoted(tags: map<string, string>, key: string): string {
    if key in tags then "'" + tags[key] + "', " else "'*', "
  }

  /** The columns all rows of a group share. */
  function TagText(time: string, host: string, tags: map<string, string>): string {
    "to_timestamp(" + time + "), " + "'" + host + "', " + Quoted(tags, "system") + Quoted(tags, "fid")
    + Quoted(tags, "jid") + Quoted(tags, "uid") + Quoted(tags, "client")
  }

  function Row(tagText: string, e: Event): string {
    "(" + tagText + " '" + e.name + "', " + e.shown + "), "
  }

  // ---------- columns ----------

  const COLUMNS: seq<string> := ["time", "host", "system", "fid", "jid", "uid", "client", "event", "value"]

  /** Values, each with what separates it from the next. */
  function Listed(values: seq<string>): string {
    if values == [] then "" else Listed(values[..|values| - 1]) + (values[|values| - 1] + ", ")
  }

  /** What belongs in a column: the tags by their names, `*` for a missing one. */
  function ColumnValue(column: string, time: string, host: string, tags: map<string, string>, e: Event): string {
    if column == "time" then "to_timestamp(" + time + ")"
    else if column == "value" then e.shown
    else "'" + (if column == "host" then host else if column == "event" then e.name
                else if column in tags then tags[column] else "*") + "'"
  }

  function ColumnValues(time: string, host: string, tags: map<string, string>, e: Event): (values: seq<string>)
    ensures |values| == 9
  {
    seq(9, k requires 0 <= k < 9 => ColumnValue(COLUMNS[k], time, host, tags, e))
  }

  lemma {:induction false} ListedStep(values: seq<string>, k: nat)
    requires k < |values|
    ensures Listed(values[..k + 1]) == Listed(values[..k]) + (values[k] + ", ") && Listed(values[..0]) == ""
  {
    assert values[..k + 1][..k] == values[..k];
  }

  lemma {:induction false} ListedSeven(values: seq<string>)
    requires |values| == 9
    ensures Listed(values[..7]) == values[0] + ", " + (values[1] + ", ") + (values[2] + ", ") + (values[3] + ", ")
        + (values[4] + ", ") + (values[5] + ", ") + (values[6] + ", ")
    ensures Listed(values[..8]) == Listed(values[..7]) + (values[7] + ", ")
  {
    hide Listed;
    ListedStep(values, 0);
    ListedStep(values, 1);
    ListedStep(values, 2);
    ListedStep(values, 3);
    ListedStep(values, 4);
    ListedStep(values, 5);
    ListedStep(values, 6);
    ListedStep(values, 7);
    assert "" + (values[0] + ", ") == values[0] + ", ";
  }

  /** The columns are named in this order. */
  lemma {:induction false} HeadNamesColumns()
    ensures Head() == "insert into host_data (" + Listed(COLUMNS[..8]) + COLUMNS[8] + ") values "
  {
    hide Listed, Table, Columns, Values;
    ListedSeven(COLUMNS);
    TableNames();
    ColumnsNames();
    ValuesNames();
  }

  lemma {:induction false} TableNames()
    ensures Table() == "insert into host_data (" + ("time" + ", ")
  {
  }

  lemma {:induction false} ColumnsNames()
    ensures Columns() == "host" + ", " + ("system" + ", ") + ("fid" + ", ") + ("jid" + ", ") + ("uid" + ", ")
  {
  }

  lemma {:induction false} ValuesNames()
    ensures Values() == "client" + ", " + ("event" + ", ") + "value" + ") values "
  {
  }

  lemma {:induction false} QuotedIs(time: string, host: string, tags: map<string, string>, e: Event, column: string)
    requires column in {"system", "fid", "jid", "uid", "client"}
    ensures Quoted(tags, column) == ColumnValue(column, time, host, tags, e) + ", "
  {
    if column in tags {
      assert "'" + tags[column] + "', " == "'" + tags[column] + "'" + ", ";
    } else {
      assert "'*', " == "'" + "*" + "'" + ", ";
    }
  }

  /** The k-th value of a row belongs to the k-th column. */
  lemma {:induction false} RowHasColumns(time: string, host: string, tags: map<string, string>, e: Event)
    ensures var values := ColumnValues(time, host, tags, e);
      Row(TagText(time, host, tags), e) == "(" + Listed(values[..7]) + " " + values[7] + ", " + values[8] + "), "
  {
    hide Listed, Quoted, ColumnValue;
    var values := ColumnValues(time, host, tags, e);
    ListedSeven(values);
    QuotedIs(time, host, tags, e, "system");
    QuotedIs(time, host, tags, e, "fid");
    QuotedIs(time, host, tags, e, "jid");
    QuotedIs(time, host, tags, e, "uid");
    QuotedIs(time, host, tags, e, "client");
    OtherValues(time, host, tags, e);
    assert TagText(time, host, tags) == Listed(values[..7]);
    assert Row(Listed(values[..7]), e)
        == "(" + Listed(values[..7]) + " " + ("'" + e.name + "'") + ", " + e.shown + "), ";
  }

  lemma {:induction false} OtherValues(time: string, host: string, tags: map<string, string>, e: Event)
    ensures ColumnValue("time", time, host, tags, e) + ", " == "to_timestamp(" + time + "), "
    ensures ColumnValue("host", time, host, tags, e) + ", " == "'" + host + "', "
    ensures ColumnValue("event", time, host, tags, e) == "'" + e.name + "'"
    ensures ColumnValue("value", time, host, tags, e) == e.shown
  {
    assert "to_timestamp(" + time + ")" + ", " == "to_timestamp(" + time + "), ";
    assert "'" + host + "'" + ", " == "'" + host + "', ";
  }

  /** One row for each positive value. */
  function Rows(tagText: string, events: seq<Event>): seq<string> {
    if events == [] then []
    else
      var e := events[|events| - 1];
      Rows(tagText, events[..|events| - 1]) + if e.value > 0.0 then [Row(tagText, e)] else []
  }

  function Joined(rows: seq<string>): string {
    if rows == [] then "" else Joined(rows[..|rows| - 1]) + rows[|rows| - 1]
  }

  function Flatten(lists: seq<seq<string>>): seq<string> {
    if lists == [] then [] else Flatten(lists[..|lists| - 1]) + lists[|lists| - 1]
  }

  predicate Parsed(entry: Entry) {
    entry.Group? && entry.tags.Some?
  }

  function GroupRows(time: string, host: string, entry: Entry): seq<string>
    requires Parsed(entry)
  {
    Rows(TagText(time, host, entry.tags.value), entry.events)
  }

  /** The rows of each group, in order. */
  function RowLists(time: string, host: string, entries: seq<Entry>): seq<seq<string>> {
    if entries == [] then []
    else
      var last := entries[|entries| - 1];
      RowLists(time, host, entries[..|entries| - 1]) + if Parsed(last) then [GroupRows(time, host, last)] else []
  }

  /** The record buffer after the events of a group with these rows: unchanged if there are none. */
  function RecordText(rows: seq<string>, left: string): string {
    if rows == [] then left else Joined(rows)
  }

  /** What the record buffer holds when each group is appended: a group without rows finds what was there before. */
  function Records(lists: seq<seq<string>>, stale: string): (records: seq<string>)
    ensures |records| == |lists|
  {
    if lists == [] then []
    else
      var before := Records(lists[..|lists| - 1], stale);
      var last := lists[|lists| - 1];
      before + [RecordText(last, Left(before, stale))]
  }

  function Left(records: seq<string>, stale: string): string {
    if records == [] then stale else records[|records| - 1]
  }

  // ---------- the query buffer ----------

  /** The text in the query buffer, the cursor, and the statements executed. */
  datatype Query = Query(text: string, cursor: nat, sent: seq<string>)

  function Start(): Query {
    Query(Head(), |Head()|, [])
  }

  /** The comma after the last row becomes the end of the statement. */
  function Finish(text: string): string
    requires |text| >= 2
  {
    text[|text| - 2 := ';']
  }

  function Flush(q: Query): seq<string> {
    if |q.text| > |Head()| && |q.text| >= 2 then q.sent + [Finish(q.text)] else q.sent
  }

  /** The cursor is at the end of the text, or a record has run up to the end of the buffer. */
  ghost predicate Proper(q: Query) {
    && |Head()| <= |q.text| < QUERY_SIZE && (q.cursor == |q.text| || q.cursor == QUERY_SIZE)
    && q.text[..|Head()|] == Head() && |q.text| != |Head()| + 1
  }

  /** Where a record goes: at the cursor, or after the head once the buffer has been flushed. */
  function Place(cursor: nat, size: nat): nat {
    if cursor + size > QUERY_SIZE then |Head()| else cursor
  }

  /** `snprintf` at a place in the buffer: what does not fit in front of the terminating NUL is cut off. */
  function Printed(text: string, at: nat, record: string): string
    requires at <= |text| < QUERY_SIZE || at == QUERY_SIZE
  {
    if at == QUERY_SIZE then text
    else text[..at] + if at + |record| < QUERY_SIZE then record else record[..QUERY_SIZE - at - 1]
  }

  /** The end of a row. */
  predicate RowEnd(s: string) {
    |s| >= 3 && s[|s| - 3..] == "), "
  }

  /** What the record buffer can hold: nothing, or rows that fit. */
  predicate IsRecord(s: string) {
    |s| < RECORD_SIZE && (s == "" || RowEnd(s))
  }

  /** Append one record, flushing first when it does not fit. */
  function Append(q: Query, record: string): Query
    requires Proper(q) && IsRecord(record)
  {
    var at := Place(q.cursor, |record|);
    if q.cursor + |record| > QUERY_SIZE then Query(Printed(Head(), at, record), at + |record|, Flush(q))
    else Query(Printed(q.text, at, record), at + |record|, q.sent)
  }

  ghost predicate AreRecords(records: seq<string>) {
    forall k :: 0 <= k < |records| ==> IsRecord(records[k])
  }

  lemma {:induction false} StartProper()
    ensures Proper(Start())
  {
    hide Head;
    HeadEnds();
    assert Head()[..|Head()|] == Head();
  }

  lemma {:induction false} AppendProper(q: Query, record: string)
    requires Proper(q) && IsRecord(record)
    ensures Proper(Append(q, record))
  {
    hide Head, Flush;
    HeadEnds();
    var r := Append(q, record);
    var before := if q.cursor + |record| > QUERY_SIZE then Head() else q.text;
    var at := Place(q.cursor, |record|);
    if at < QUERY_SIZE {
      assert before[..|before|] == before;
      assert r.text[..|Head()|] == before[..|Head()|];
    }
  }

  function Fill(records: seq<string>): (q: Query)
    requires AreRecords(records)
    ensures Proper(q)
  {
    if records == [] then StartProper(); Start()
    else
      var before, last := Fill(records[..|records| - 1]), records[|records| - 1];
      AppendProper(before, last);
      Append(before, last)
  }

  /** The statements executed for one server. */
  function Sent(records: seq<string>): seq<string>
    requires AreRecords(records)
  {
    Flush(Fill(records))
  }

  // ---------- what the statements say ----------

  /** A statement with these rows. */
  function Statement(rows: seq<string>): string {
    HeadEnds();
    Finish(Head() + Joined(rows))
  }

  function Statements(batches: seq<seq<string>>): seq<string> {
    seq(|batches|, i requires 0 <= i < |batches| => Statement(batches[i]))
  }

  /** The executed statements carry exactly these rows, each once and in order, in whole statements. */
  ghost predicate Carries(sent: seq<string>, rows: seq<string>) {
    exists batches :: Flatten(batches) == rows && sent == Statements(batches) && NoneEmpty(batches)
  }

  ghost predicate NoneEmpty(batches: seq<seq<string>>) {
    forall i :: 0 <= i < |batches| ==> batches[i] != []
  }

  /** Where the cursor is after some records. */
  function Cursor(records: seq<string>): nat {
    if records == [] then |Head()|
    else
      var size := |records[|records| - 1]|;
      Place(Cursor(records[..|records| - 1]), size) + size
  }

  /** Some record ends exactly at the end of the buffer. */
  ghost predicate HitsEnd(records: seq<string>) {
    exists k :: 0 <= k <= |records| && Cursor(records[..k]) == QUERY_SIZE
  }

  lemma {:induction false} JoinedAppend(a: seq<string>, b: seq<string>)
    ensures Joined(a + b) == Joined(a) + Joined(b)
    decreases |b|
  {
    if b == [] {
      assert a + b == a;
    } else {
      var k := |b| - 1;
      JoinedAppend(a, b[..k]);
      assert (a + b)[..|a| + k] == a + b[..k];
      assert Joined(a) + Joined(b[..k]) + b[k] == Joined(a) + (Joined(b[..k]) + b[k]);
    }
  }

  lemma {:induction false} FillCursor(records: seq<string>)
    requires AreRecords(records)
    ensures Fill(records).cursor == Cursor(records)
    decreases |records|
  {
    hide Head, Flush, Printed;
    if records != [] {
      FillCursor(records[..|records| - 1]);
    }
  }

  /** The text of each group's rows. */
  function Joins(lists: seq<seq<string>>): seq<string> {
    seq(|lists|, i requires 0 <= i < |lists| => Joined(lists[i]))
  }

  ghost predicate AreRows(rows: seq<string>) {
    forall i :: 0 <= i < |rows| ==> RowEnd(rows[i])
  }

  ghost predicate AllRows(lists: seq<seq<string>>) {
    forall k :: 0 <= k < |lists| ==> AreRows(lists[k])
  }

  lemma {:induction false} JoinedEnds(rows: seq<string>)
    requires AreRows(rows) && rows != []
    ensures RowEnd(Joined(rows))
  {
    var last := rows[|rows| - 1];
    var front := Joined(rows[..|rows| - 1]);
    assert RowEnd(last);
    assert (front + last)[|front + last| - 3..] == last[|last| - 3..];
  }

  lemma {:induction false} NoHitBefore(records: seq<string>, k: nat)
    requires k <= |records| && !HitsEnd(records)
    ensures !HitsEnd(records[..k]) && Cursor(records[..k]) != QUERY_SIZE
  {
    hide Cursor;
    forall j | 0 <= j <= k ensures Cursor(records[..k][..j]) != QUERY_SIZE {
      assert records[..k][..j] == records[..j];
    }
  }

  lemma {:induction false} StatementsAppend(batches: seq<seq<string>>, rows: seq<string>)
    ensures Statements(batches + [rows]) == Statements(batches) + [Statement(rows)]
    ensures Flatten(batches + [rows]) == Flatten(batches) + rows
  {
    hide Statement;
    assert (batches + [rows])[..|batches|] == batches;
  }

  /** One more record on a buffer that is the head and some rows. */
  lemma {:induction false} AppendRows(q: Query, pending: seq<string>, rows: seq<string>)
    requires Proper(q) && q.text == Head() + Joined(pending) && q.cursor == |q.text|
    requires AreRows(pending) && IsRecord(Joined(rows))
    requires Append(q, Joined(rows)).cursor != QUERY_SIZE
    ensures var r := Append(q, Joined(rows));
      if q.cursor + |Joined(rows)| > QUERY_SIZE then
        pending != [] && r.sent == q.sent + [Statement(pending)] && r.text == Head() + Joined(rows)
      else r.sent == q.sent && r.text == Head() + Joined(pending + rows)
  {
    hide Head, Joined, Finish;
    HeadEnds();
    var record := Joined(rows);
    if q.cursor + |record| > QUERY_SIZE {
      JoinedNothing();
      JoinedEnds(pending);
      assert Head()[..|Head()|] == Head();
    } else {
      JoinedAppend(pending, rows);
      assert q.text[..|q.text|] == q.text;
      assert Head() + Joined(pending) + record == Head() + (Joined(pending) + record);
    }
  }

  lemma {:induction false} JoinedLong(rows: seq<string>)
    requires AreRows(rows) && rows != []
    ensures |Joined(rows)| >= 3
  {
    hide Joined;
    JoinedEnds(rows);
  }

  lemma {:induction false} JoinedNothing()
    ensures Joined([]) == ""
  {
  }

  lemma {:induction false} JoinedOne(row: string)
    ensures Joined([row]) == row
  {
    assert [row][..0] == [] && "" + row == row;
  }

  lemma {:induction false} FillNone()
    ensures Fill([]) == Start()
  {
    hide Head;
  }

  lemma {:induction false} FillStep(records: seq<string>, record: string)
    requires AreRecords(records) && AreRecords(records + [record])
    ensures IsRecord(record) && Fill(records + [record]) == Append(Fill(records), record)
  {
    hide Append, IsRecord;
    assert (records + [record])[|records|] == record;
    assert (records + [record])[..|records|] == records;
  }

  /** The buffer is the head and the rows not yet sent. */
  ghost predicate Batched(q: Query, batches: seq<seq<string>>, pending: seq<string>) {
    && Proper(q) && q.cursor == |q.text| && AreRows(pending) && NoneEmpty(batches)
    && q.sent == Statements(batches) && q.text == Head() + Joined(pending)
  }

  lemma {:induction false} BatchStep(q: Query, batches: seq<seq<string>>, pending: seq<string>, rows: seq<string>)
    returns (moreBatches: seq<seq<string>>, left: seq<string>)
    requires Batched(q, batches, pending) && AreRows(rows) && IsRecord(Joined(rows))
    requires Append(q, Joined(rows)).cursor != QUERY_SIZE
    ensures Batched(Append(q, Joined(rows)), moreBatches, left)
    ensures Flatten(moreBatches) + left == Flatten(batches) + pending + rows
  {
    hide Head, RowEnd, Append, Joined, Statement, IsRecord, Statements;
    AppendRows(q, pending, rows);
    AppendProper(q, Joined(rows));
    if q.cursor + |Joined(rows)| > QUERY_SIZE {
      StatementsAppend(batches, pending);
      moreBatches, left := batches + [pending], rows;
    } else {
      moreBatches, left := batches, pending + rows;
    }
  }

  lemma {:induction false} JoinsStep(lists: seq<seq<string>>)
    requires lists != []
    ensures var k := |lists| - 1;
      |Joins(lists)| == |lists| && Joins(lists) == Joins(lists[..k]) + [Joined(lists[k])]
          && Joins(lists)[..k] == Joins(lists[..k])
  {
    hide Joined;
  }

  /** As long as no record ends at the end of the buffer, every row is in a statement or still in the buffer. */
  lemma {:induction false} FillBatches(lists: seq<seq<string>>)
    returns (batches: seq<seq<string>>, pending: seq<string>)
    requires AllRows(lists) && AreRecords(Joins(lists)) && !HitsEnd(Joins(lists))
    ensures Flatten(batches) + pending == Flatten(lists)
    ensures Batched(Fill(Joins(lists)), batches, pending)
    decreases |lists|
  {
    hide Head, IsRecord, Cursor, Append, Joined, HitsEnd, Fill, RowEnd, Batched, Joins;
    if lists == [] {
      batches, pending := [], [];
      EmptyBatched();
    } else {
      var k := |lists| - 1;
      var records, before := Joins(lists), Joins(lists[..k]);
      JoinsStep(lists);
      NoHitBefore(records, k);
      NoHitBefore(records, |records|);
      assert records[..|records|] == records;
      FillStep(before, Joined(lists[k]));
      FillCursor(records);
      batches, pending := FillBatches(lists[..k]);
      batches, pending := BatchStep(Fill(before), batches, pending, lists[k]);
    }
  }

  lemma {:induction false} EmptyBatched()
    ensures Joins([]) == [] && Flatten([]) == [] && Batched(Fill([]), [], [])
  {
    hide Head;
    HeadEnds();
    JoinedNothing();
    FillNone();
    assert Head() + "" == Head();
  }

  /** Nothing is lost, repeated or reordered when no record ends at the end of the buffer. */
  lemma {:induction false} SentCarries(lists: seq<seq<string>>)
    requires AllRows(lists) && AreRecords(Joins(lists)) && !HitsEnd(Joins(lists))
    ensures Carries(Sent(Joins(lists)), Flatten(lists))
  {
    hide Head, RowEnd, Cursor, Joined, HitsEnd, Fill, Finish;
    var batches, pending := FillBatches(lists);
    HeadEnds();
    JoinedNothing();
    if pending != [] {
      JoinedLong(pending);
      StatementsAppend(batches, pending);
      batches := batches + [pending];
    }
    assert Flatten(batches) == Flatten(lists) && Sent(Joins(lists)) == Statements(batches) && NoneEmpty(batches);
  }

  // ---------- and when they do not ----------

  /** A statement that was cut: it ends with a comma, where whole statements end with a blank. */
  predicate Cut(text: string) {
    text != "" && text[|text| - 1] == ','
  }

  ghost predicate SomeCut(sent: seq<string>) {
    exists i :: 0 <= i < |sent| && Cut(sent[i])
  }

  lemma {:induction false} StatementNotCut(rows: seq<string>)
    requires AreRows(rows)
    ensures !Cut(Statement(rows))
  {
    hide Head, Joined;
    HeadEnds();
    JoinedNothing();
    var text := Head() + Joined(rows);
    if rows != [] {
      JoinedEnds(rows);
      assert Joined(rows)[|Joined(rows)| - 3..][2] == ' ';
    }
    assert text[|text| - 1] == ' ';
    assert Statement(rows)[|text| - 1] == text[|text| - 1];
  }

  /** A statement is the head and its rows, the comma after the last being a semicolon. */
  lemma {:induction false} StatementText(rows: seq<string>)
    requires AreRows(rows) && rows != []
    ensures var joined := Joined(rows);
      && joined[|joined| - 2..] == ", "
      && Statement(rows) == Head() + joined[..|joined| - 2] + "; "
  {
    hide Head, Joined;
    HeadEnds();
    JoinedEnds(rows);
    var joined := Joined(rows);
    assert joined[|joined| - 2..] == joined[|joined| - 3..][1..];
  }

  lemma {:induction false} CarriedRows(batches: seq<seq<string>>, k: nat)
    requires k < |batches| && AreRows(Flatten(batches))
    ensures AreRows(batches[k])
    decreases |batches|
  {
    hide RowEnd;
    var last := |batches| - 1;
    var front := Flatten(batches[..last]);
    if k == last {
      forall i | 0 <= i < |batches[k]| ensures RowEnd(batches[k][i]) {
        assert Flatten(batches)[|front| + i] == batches[k][i];
      }
    } else {
      forall i | 0 <= i < |front| ensures RowEnd(front[i]) {
        assert Flatten(batches)[i] == front[i];
      }
      CarriedRows(batches[..last], k);
    }
  }

  lemma {:induction false} CarriesNoneCut(sent: seq<string>, rows: seq<string>)
    requires Carries(sent, rows) && AreRows(rows)
    ensures !SomeCut(sent)
  {
    hide Cut, RowEnd, Statement, Flatten;
    var batches :| Flatten(batches) == rows && sent == Statements(batches) && NoneEmpty(batches);
    forall i | 0 <= i < |sent| ensures !Cut(sent[i]) {
      CarriedRows(batches, i);
      StatementNotCut(batches[i]);
    }
  }

  /** A record that ends at the end of the buffer has been cut, or a statement that was cut has been sent. */
  ghost predicate Spoilt(q: Query) {
    SomeCut(q.sent) || (q.cursor == QUERY_SIZE && |q.text| == QUERY_SIZE - 1 && Cut(q.text))
  }

  lemma {:induction false} FlushSpoilt(q: Query)
    requires Spoilt(q) && Proper(q)
    ensures SomeCut(Flush(q))
  {
    hide Head, Cut;
    HeadEnds();
    if SomeCut(q.sent) {
      var i :| 0 <= i < |q.sent| && Cut(q.sent[i]);
      assert Flush(q)[i] == q.sent[i];
    } else {
      FinishCut(q.text);
      assert Flush(q)[|q.sent|] == Finish(q.text);
    }
  }

  lemma {:induction false} FinishCut(text: string)
    requires Cut(text) && |text| >= 2
    ensures Cut(Finish(text))
  {
  }

  lemma {:induction false} AppendToSpoilt(q: Query, record: string)
    requires Spoilt(q) && Proper(q) && IsRecord(record)
    ensures Spoilt(Append(q, record))
  {
    hide Head, Cut, Finish, Printed;
    var r := Append(q, record);
    if q.cursor + |record| > QUERY_SIZE {
      FlushSpoilt(q);
    } else if q.cursor == QUERY_SIZE {
      assert Printed(q.text, QUERY_SIZE, record) == q.text by { AtEnd(q.text, record); }
    }
  }

  lemma {:induction false} AtEnd(text: string, record: string)
    requires |text| < QUERY_SIZE
    ensures Printed(text, QUERY_SIZE, record) == text
  {
  }

  /** The record that ends there loses its last character, the blank after the comma. */
  lemma {:induction false} AppendSpoils(q: Query, record: string)
    requires Proper(q) && q.cursor < QUERY_SIZE && IsRecord(record) && record != ""
    requires Append(q, record).cursor == QUERY_SIZE
    ensures Spoilt(Append(q, record))
  {
    hide Head, Finish;
    HeadEnds();
    assert record[|record| - 3..][1] == record[|record| - 2] == ',';
  }

  lemma {:induction false} FillSpoilt(records: seq<string>, k: nat)
    requires AreRecords(records) && k <= |records| && Cursor(records[..k]) == QUERY_SIZE
    ensures Spoilt(Fill(records))
    decreases |records|
  {
    hide RowEnd, Cut, Cursor, Append, SomeCut;
    var n := |records|;
    HeadEnds();
    CursorOfNone(records);
    if k < n {
      assert records[..n - 1][..k] == records[..k];
      FillSpoilt(records[..n - 1], k);
      AppendToSpoilt(Fill(records[..n - 1]), records[n - 1]);
    } else {
      assert records[..n] == records;
      FillCursor(records);
      var q := Fill(records[..n - 1]);
      FillCursor(records[..n - 1]);
      if q.cursor == QUERY_SIZE {
        assert records[..n - 1][..n - 1] == records[..n - 1];
        FillSpoilt(records[..n - 1], n - 1);
        AppendToSpoilt(q, records[n - 1]);
      } else {
        AppendNothing(q);
        AppendSpoils(q, records[n - 1]);
      }
    }
  }

  lemma {:induction false} CursorOfNone(records: seq<string>)
    ensures Cursor(records[..0]) == |Head()|
  {
    hide Head;
  }

  lemma {:induction false} AppendNothing(q: Query)
    requires Proper(q)
    ensures Append(q, "").cursor == q.cursor
  {
    hide Head;
  }

  /** The characters of rows in some statements. */
  function BodyLength(sent: seq<string>): int {
    if sent == [] then 0 else BodyLength(sent[..|sent| - 1]) + |sent[|sent| - 1]| - |Head()|
  }

  lemma {:induction false} BodyLengthOf(batches: seq<seq<string>>)
    ensures BodyLength(Statements(batches)) == |Joined(Flatten(batches))|
    decreases |batches|
  {
    hide Head, Joined, Statement;
    if batches == [] {
      JoinedNothing();
    } else {
      var k := |batches| - 1;
      assert Statements(batches)[..k] == Statements(batches[..k]);
      BodyLengthOf(batches[..k]);
      JoinedAppend(Flatten(batches[..k]), batches[k]);
      StatementLength(batches[k]);
    }
  }

  lemma {:induction false} StatementLength(rows: seq<string>)
    ensures |Statement(rows)| == |Head()| + |Joined(rows)|
  {
    hide Head, Joined;
    HeadEnds();
  }

  lemma {:induction false} SameLength(sent: seq<string>, a: seq<string>, b: seq<string>)
    requires Carries(sent, a) && Carries(sent, b)
    ensures |Joined(a)| == |Joined(b)|
  {
    hide Head, Joined, Statement, Statements, BodyLength, Flatten;
    var x :| Flatten(x) == a && sent == Statements(x) && NoneEmpty(x);
    var y :| Flatten(y) == b && sent == Statements(y) && NoneEmpty(y);
    BodyLengthOf(x);
    BodyLengthOf(y);
  }

  // ---------- stale records ----------

  /** No group without rows comes behind rows, its server's or, unless the buffer was still clear, those before. */
  ghost predicate NoneStale(lists: seq<seq<string>>, clear: bool) {
    forall k :: 0 <= k < |lists| && lists[k] == [] ==> clear && forall j :: 0 <= j < k ==> lists[j] == []
  }

  lemma {:induction false} RecordsBefore(lists: seq<seq<string>>, stale: string, k: nat)
    requires k <= |lists|
    ensures Records(lists[..k], stale) == Records(lists, stale)[..k]
    decreases |lists|
  {
    hide Joined, Left;
    if k < |lists| {
      RecordsBefore(lists[..|lists| - 1], stale, k);
      assert lists[..|lists| - 1][..k] == lists[..k];
    } else {
      assert lists[..k] == lists;
    }
  }

  /** What a group finds in the record buffer: nothing exactly when no group before it had rows. */
  lemma {:induction false} FoundBy(lists: seq<seq<string>>, stale: string)
    requires AllRows(lists)
    ensures Left(Records(lists, stale), stale) == "" <==> stale == "" && forall j :: 0 <= j < |lists| ==> lists[j] == []
    decreases |lists|
  {
    hide RowEnd, Joined, Records, Left;
    if lists == [] {
      NothingLeft(stale);
    } else {
      var k := |lists| - 1;
      FoundBy(lists[..k], stale);
      RecordsStep(lists[..k], lists[k], stale);
      assert lists == lists[..k] + [lists[k]];
      LeftOf(Records(lists[..k], stale), RecordText(lists[k], Left(Records(lists[..k], stale), stale)), stale);
      if lists[k] != [] {
        JoinedLong(lists[k]);
      }
    }
  }

  lemma {:induction false} NothingLeft(stale: string)
    ensures Left(Records([], stale), stale) == stale
  {
  }

  /** A group without rows finds the record buffer empty exactly when only such groups come before it. */
  lemma {:induction false} StaleRecords(lists: seq<seq<string>>, stale: string)
    requires AllRows(lists)
    ensures NoneStale(lists, stale == "") <==>
            forall k :: 0 <= k < |lists| && lists[k] == [] ==> Records(lists, stale)[k] == ""
  {
    hide RowEnd, Joined, Records, Left;
    forall k | 0 <= k < |lists| && lists[k] == []
      ensures Records(lists, stale)[k] == "" <==> stale == "" && forall j :: 0 <= j < k ==> lists[j] == []
    {
      FoundBy(lists[..k], stale);
      RecordsBefore(lists, stale, k + 1);
      RecordsStep(lists[..k], lists[k], stale);
      assert lists[..k + 1] == lists[..k] + [lists[k]];
      assert Records(lists, stale)[k] == Records(lists[..k + 1], stale)[k];
      assert forall j :: 0 <= j < k ==> lists[..k][j] == lists[j];
    }
  }

  /** Each record as a list of rows: the group's own, or what was left as one. */
  ghost predicate Covers(lists: seq<seq<string>>, records: seq<string>) {
    && |lists| == |records|
    && forall k :: 0 <= k < |lists| ==> if lists[k] == [] then true else records[k] == Joined(lists[k])
  }

  lemma {:induction false} RecordsCover(lists: seq<seq<string>>, stale: string)
    ensures Covers(lists, Records(lists, stale))
    decreases |lists|
  {
    hide Joined;
    if lists != [] {
      RecordsCover(lists[..|lists| - 1], stale);
    }
  }

  /** The rows as they are inserted, where a record that was left counts as one row. */
  function Inserted(records: seq<string>): seq<seq<string>> {
    seq(|records|, i requires 0 <= i < |records| => if records[i] == "" then [] else [records[i]])
  }

  lemma {:induction false} InsertedJoins(records: seq<string>)
    ensures Joins(Inserted(records)) == records
  {
    forall i | 0 <= i < |records| ensures Joins(Inserted(records))[i] == records[i] {
      if records[i] != "" {
        JoinedOne(records[i]);
      }
    }
  }

  lemma {:induction false} LengthOfLists(lists: seq<seq<string>>)
    ensures |Joined(Flatten(lists))| == |Joined(Joins(lists))|
    decreases |lists|
  {
    hide Joined;
    if lists == [] {
      assert Joins(lists) == [];
    } else {
      var k := |lists| - 1;
      LengthOfLists(lists[..k]);
      JoinedAppend(Flatten(lists[..k]), lists[k]);
      assert Joins(lists) == Joins(lists[..k]) + [Joined(lists[k])];
      JoinedLast(Joins(lists));
      assert Joins(lists)[..k] == Joins(lists[..k]);
    }
  }

  lemma {:induction false} JoinedLast(rows: seq<string>)
    requires rows != []
    ensures |Joined(rows)| == |Joined(rows[..|rows| - 1])| + |rows[|rows| - 1]|
  {
  }

  /** Records are never shorter than the rows of their groups, and longer where a stale one is inserted. */
  lemma {:induction false} StaleIsLonger(lists: seq<seq<string>>, records: seq<string>)
    requires Covers(lists, records)
    ensures |Joined(records)| >= |Joined(Joins(lists))|
    ensures (exists k :: 0 <= k < |lists| && lists[k] == [] && records[k] != "") ==>
        |Joined(records)| > |Joined(Joins(lists))|
    decreases |lists|
  {
    hide Joined;
    if lists != [] {
      var k := |lists| - 1;
      StaleIsLonger(lists[..k], records[..k]);
      assert Joins(lists)[..k] == Joins(lists[..k]);
      JoinedLast(Joins(lists));
      JoinedLast(records);
      JoinedNothing();
      if j :| 0 <= j < |lists| && lists[j] == [] && records[j] != "" {
        if j < k {
          assert lists[..k][j] == [] && records[..k][j] != "";
        }
      }
    }
  }

  lemma {:induction false} NoneStaleJoins(lists: seq<seq<string>>, stale: string)
    requires AllRows(lists) && NoneStale(lists, stale == "")
    ensures Records(lists, stale) == Joins(lists)
  {
    hide Records, Joined, NoneStale, AllRows;
    StaleRecords(lists, stale);
    JoinedNothing();
    RecordsCover(lists, stale);
  }

  /** Without a record at the end of the buffer, what is sent is what was in the record buffer each time. */
  lemma {:induction false} SentIsInserted(lists: seq<seq<string>>, stale: string)
    requires AllRows(lists) && AreRecords(Records(lists, stale)) && !HitsEnd(Records(lists, stale))
    ensures var records := Records(lists, stale);
      && Carries(Sent(records), Flatten(Inserted(records)))
      && |Joined(Flatten(Inserted(records)))| >= |Joined(Flatten(lists))|
      && (!NoneStale(lists, stale == "") ==> |Joined(Flatten(Inserted(records)))| > |Joined(Flatten(lists))|)
  {
    hide Carries, AllRows, RowEnd, Records, Fill, Flush, Cursor, Flatten, Joins, Inserted, NoneStale;
    var records := Records(lists, stale);
    InsertedJoins(records);
    InsertedRows(records);
    SentCarries(Inserted(records));
    RecordsCover(lists, stale);
    StaleRecords(lists, stale);
    StaleIsLonger(lists, records);
    LengthOfLists(lists);
    LengthOfLists(Inserted(records));
  }

  /** If a record ends at the end of the buffer, a statement that was cut is sent. */
  lemma {:induction false} HitIsCut(records: seq<string>)
    requires AreRecords(records) && HitsEnd(records)
    ensures SomeCut(Sent(records))
  {
    hide Fill, Flush, Cursor, SomeCut;
    var k :| 0 <= k <= |records| && Cursor(records[..k]) == QUERY_SIZE;
    FillSpoilt(records, k);
    FlushSpoilt(Fill(records));
  }

  /**
   * Exactly when the executed statements carry the positive rows, each once and in order: when no group without rows
   * comes behind one that has some, and no record ends exactly at the end of the query buffer.
   */
  lemma {:induction false} InsertsExactly(lists: seq<seq<string>>, stale: string)
    requires AllRows(lists) && AreRecords(Records(lists, stale))
    ensures Carries(Sent(Records(lists, stale)), Flatten(lists))
      <==> NoneStale(lists, stale == "") && !HitsEnd(Records(lists, stale))
  {
    hide Carries, AllRows, RowEnd, Records, Fill, Flush, HitsEnd, Flatten, SomeCut, Joins, Inserted, Sent, NoneStale;
    var records := Records(lists, stale);
    if HitsEnd(records) {
      HitIsCut(records);
      RowsOfLists(lists);
      if Carries(Sent(records), Flatten(lists)) {
        CarriesNoneCut(Sent(records), Flatten(lists));
      }
    } else if NoneStale(lists, stale == "") {
      NoneStaleJoins(lists, stale);
      SentCarries(lists);
    } else {
      SentIsInserted(lists, stale);
      if Carries(Sent(records), Flatten(lists)) {
        SameLength(Sent(records), Flatten(lists), Flatten(Inserted(records)));
      }
    }
  }

  lemma {:induction false} InsertedRows(records: seq<string>)
    requires AreRecords(records)
    ensures AllRows(Inserted(records))
  {
    hide RowEnd;
  }

  lemma {:induction false} RowsOfLists(lists: seq<seq<string>>)
    requires AllRows(lists)
    ensures AreRows(Flatten(lists))
    decreases |lists|
  {
    hide RowEnd;
    if lists != [] {
      RowsOfLists(lists[..|lists| - 1]);
    }
  }

  // ---------- the buffers ----------

  /** The buffer holds this C string. */
  ghost predicate Holds(buf: array<char>, text: string)
    reads buf
  {
    |text| < buf.Length && buf[..|text|] == text && buf[|text|] == '\0' && '\0' !in text
  }

  method Strlen(buf: array<char>, ghost text: string) returns (n: nat)
    requires Holds(buf, text)
    ensures n == |text|
  {
    assert forall i :: 0 <= i < |text| ==> buf[i] == buf[..|text|][i] == text[i];
    n := 0;
    while buf[n] != '\0'
      invariant n <= |text|
      decreases |text| - n
    {
      n := n + 1;
    }
  }

  /** `snprintf(buf + at, size - at, "%s", text)`: the length it returns counts what did not fit. */
  method Snprintf(buf: array<char>, at: nat, text: string) returns (n: nat)
    requires at <= buf.Length
    modifies buf
    ensures n == |text|
    ensures at == buf.Length ==> buf[..] == old(buf[..])
    ensures at + |text| < buf.Length ==> buf[..at + |text| + 1] == old(buf[..at]) + text + ['\0']
    ensures at < buf.Length <= at + |text| ==> buf[..] == old(buf[..at]) + text[..buf.Length - at - 1] + ['\0']
  {
    n := |text|;
    if at < buf.Length {
      var m := if at + n < buf.Length then n else buf.Length - at - 1;
      for i := 0 to m
        invariant buf[..at + i] == old(buf[..at]) + text[..i]
      {
        buf[at + i] := text[i];
        assert buf[..at + i + 1] == buf[..at + i] + [text[i]];
        assert text[..i + 1] == text[..i] + [text[i]];
      }
      buf[at + m] := '\0';
      assert buf[..at + m + 1] == buf[..at + m] + ['\0'];
      if at + n < buf.Length {
        assert text[..m] == text;
      } else {
        assert buf[..at + m + 1] == buf[..];
      }
    }
  }

  // ---------- the loops ----------

  lemma {:induction false} RowIsRowEnd(tagText: string, events: seq<Event>)
    ensures AreRows(Rows(tagText, events))
    decreases |events|
  {
    if events != [] {
      RowIsRowEnd(tagText, events[..|events| - 1]);
      var row := Row(tagText, events[|events| - 1]);
      assert row[|row| - 3..] == "), ";
    }
  }

  /** The rows of a group fit the record buffer and are C strings. */
  ghost predicate Fits(rows: seq<string>) {
    '\0' !in Joined(rows) && |Joined(rows)| < RECORD_SIZE
  }

  lemma {:induction false} RowsSoFar(tagText: string, events: seq<Event>, i: nat)
    requires i <= |events|
    ensures Joined(Rows(tagText, events[..i])) <= Joined(Rows(tagText, events))
    decreases |events| - i
  {
    hide Row;
    if i < |events| {
      RowsSoFar(tagText, events, i + 1);
      RowsStep(tagText, events, i);
    } else {
      assert events[..i] == events;
    }
  }

  lemma {:induction false} RowsStep(tagText: string, events: seq<Event>, i: nat)
    requires i < |events|
    ensures var done, e := Rows(tagText, events[..i]), events[i];
      && Rows(tagText, events[..i + 1]) == (if e.value > 0.0 then done + [Row(tagText, e)] else done)
      && Joined(Rows(tagText, events[..i + 1])) == Joined(done) + if e.value > 0.0 then Row(tagText, e) else ""
  {
    hide Row;
    var done := Rows(tagText, events[..i]);
    assert events[..i + 1][..i] == events[..i];
    assert (done + [Row(tagText, events[i])])[..|done|] == done;
    assert done + [] == done;
  }

  /** The record buffer after the events of one group: its rows, or what was there before if it has none. */
  method PrintRecord(record: array<char>, tagText: string, events: seq<Event>, ghost stale: string)
    requires record.Length == RECORD_SIZE && Holds(record, stale)
    requires Fits(Rows(tagText, events))
    modifies record
    ensures Holds(record, RecordText(Rows(tagText, events), stale))
  {
    hide Row, Joined, Rows, Holds;
    var rcur := 0;
    JoinedNothing();
    NoRows(tagText);
    assert events[..0] == [];
    for i := 0 to |events|
      invariant rcur == |Joined(Rows(tagText, events[..i]))|
      invariant Holds(record, RecordText(Rows(tagText, events[..i]), stale))
    {
      var e := events[i];
      ghost var done := Rows(tagText, events[..i]);
      RowsStep(tagText, events, i);
      if e.value > 0.0 {
        RowsSoFar(tagText, events, i + 1);
        PartOf(Joined(done), Row(tagText, e), Joined(Rows(tagText, events)));
        var n := PrintNext(record, rcur, Row(tagText, e), RecordText(done, stale), Joined(done));
        rcur := rcur + n;
      }
    }
    assert events[..|events|] == events;
  }

  lemma {:induction false} PartOf(front: string, part: string, whole: string)
    requires front + part <= whole && '\0' !in whole
    ensures '\0' !in part
  {
    forall i | 0 <= i < |part| ensures part[i] != '\0' {
      assert part[i] == (front + part)[|front| + i] == whole[|front| + i];
    }
  }

  lemma {:induction false} NoRows(tagText: string)
    ensures Rows(tagText, []) == []
  {
  }

  /** One row after those already printed, overwriting what an earlier group left. */
  method PrintNext(record: array<char>, at: nat, row: string, ghost text: string, ghost done: string) returns (n: nat)
    requires Holds(record, text) && done <= text && at == |done|
    requires at + |row| < record.Length && '\0' !in row
    modifies record
    ensures n == |row| && Holds(record, done + row)
  {
    assert record[..at] == done;
    n := Snprintf(record, at, row);
    assert record[..at + |row| + 1] == done + row + ['\0'];
    assert record[at + |row|] == record[..at + |row| + 1][at + |row|];
    assert record[..at + |row|] == record[..at + |row| + 1][..at + |row|] == done + row;
  }

  /** Execute what has been gathered, if anything: the comma after the last row becomes the end of the statement. */
  method Execute(query: array<char>, sent: seq<string>, ghost q: Query) returns (executed: seq<string>)
    requires query.Length == QUERY_SIZE && Proper(q) && Holds(query, q.text) && sent == q.sent
    modifies query
    ensures executed == Flush(q)
    ensures query[..|Head()|] == Head()
  {
    var emptyLen := |Head()|;
    var queryLen := Strlen(query, q.text);
    executed := sent;
    HeadEnds();
    assert query[..emptyLen] == q.text[..emptyLen];
    if queryLen > emptyLen {
      query[queryLen - 2] := ';';
      assert query[..queryLen] == Finish(q.text);
      executed := executed + [query[..queryLen]];
    }
  }

  /** Append the record, flushing first if it does not fit. */
  method AppendRecord(query: array<char>, cursor: nat, record: array<char>, sent: seq<string>, ghost q: Query,
                      ghost text: string)
    returns (qcur: nat, executed: seq<string>)
    requires query != record && query.Length == QUERY_SIZE
    requires Proper(q) && IsRecord(text) && Holds(query, q.text) && Holds(record, text)
    requires cursor == q.cursor && sent == q.sent
    modifies query
    ensures var r := Append(q, text); Holds(query, r.text) && qcur == r.cursor && executed == r.sent
  {
    hide Head, Finish, RowEnd, Flush, Append;
    HeadEnds();
    qcur, executed := cursor, sent;
    var length := Strlen(record, text);
    if qcur + length > QUERY_SIZE {
      executed := Execute(query, executed, q);
      qcur := |Head()|;
      assert query[..qcur] == Head();
    } else if qcur < QUERY_SIZE {
      assert query[..qcur] == q.text;
    }
    assert record[..length] == text;
    ghost var before := query[..qcur];
    var n := Snprintf(query, qcur, record[..length]);
    Terminated(query, qcur, before, text);
    AppendedText(q, text, qcur, before);
    qcur := qcur + n;
  }

  /** The text of the query buffer in terms of what was in front of the record. */
  lemma {:induction false} AppendedText(q: Query, record: string, at: nat, before: string)
    requires Proper(q) && IsRecord(record) && at == Place(q.cursor, |record|)
    requires at < QUERY_SIZE ==> before == (if q.cursor + |record| > QUERY_SIZE then Head() else q.text)
    ensures var r := Append(q, record);
      && r.cursor == at + |record|
      && r.sent == (if q.cursor + |record| > QUERY_SIZE then Flush(q) else q.sent)
      && r.text == if at == QUERY_SIZE then q.text
         else if at + |record| < QUERY_SIZE then before + record else before + record[..QUERY_SIZE - at - 1]
  {
    hide Head, Flush, RowEnd;
    HeadEnds();
    assert Head()[..|Head()|] == Head() && q.text[..|q.text|] == q.text;
  }

  /** The C string in a buffer after `snprintf`. */
  lemma {:induction false} Terminated(buf: array<char>, at: nat, before: string, text: string)
    requires at == |before| && '\0' !in text && (at < buf.Length ==> '\0' !in before)
    requires at + |text| < buf.Length ==> buf[..at + |text| + 1] == before + text + ['\0']
    requires at < buf.Length <= at + |text| ==> buf[..] == before + text[..buf.Length - at - 1] + ['\0']
    ensures at + |text| < buf.Length ==> Holds(buf, before + text)
    ensures at < buf.Length <= at + |text| ==> Holds(buf, before + text[..buf.Length - at - 1])
  {
    if at < buf.Length {
      var m := if at + |text| < buf.Length then |text| else buf.Length - at - 1;
      assert text[..m] == if at + |text| < buf.Length then text else text[..m];
      assert buf[..at + m + 1] == before + text[..m] + ['\0'];
      assert buf[..at + m + 1][at + m] == '\0';
      assert buf[..at + m] == buf[..at + m + 1][..at + m] == before + text[..m];
    }
  }

  /** Every group whose tags parse has rows that fit. */
  ghost predicate AllFit(time: string, host: string, entries: seq<Entry>) {
    forall i :: 0 <= i < |entries| && Parsed(entries[i]) ==> Fits(GroupRows(time, host, entries[i]))
  }

  lemma {:induction false} RecordsStep(lists: seq<seq<string>>, rows: seq<string>, stale: string)
    ensures var before := Records(lists, stale);
      Records(lists + [rows], stale) == before + [RecordText(rows, Left(before, stale))]
  {
    hide Joined, Left;
    assert (lists + [rows])[..|lists|] == lists;
  }

  lemma {:induction false} RowListsStep(time: string, host: string, entries: seq<Entry>, i: nat)
    requires i < |entries|
    ensures var before := RowLists(time, host, entries[..i]);
      RowLists(time, host, entries[..i + 1])
      == if Parsed(entries[i]) then before + [GroupRows(time, host, entries[i])] else before
  {
    hide GroupRows;
    assert entries[..i + 1][..i] == entries[..i];
  }

  lemma {:induction false} ListsAreRows(time: string, host: string, entries: seq<Entry>, stale: string, i: nat)
    requires AllFit(time, host, entries) && IsRecord(stale) && i <= |entries|
    ensures var lists := RowLists(time, host, entries[..i]); AllRows(lists) && AreRecords(Records(lists, stale))
    decreases i
  {
    hide Joined, RowEnd, Rows, TagText, Records, RowLists, Left;
    if i == 0 {
      assert entries[..i] == [];
      NoLists(time, host, stale);
    } else {
      var k := i - 1;
      ListsAreRows(time, host, entries, stale, k);
      RowListsStep(time, host, entries, k);
      var lists := RowLists(time, host, entries[..k]);
      if Parsed(entries[k]) {
        var rows := GroupRows(time, host, entries[k]);
        RowIsRowEnd(TagText(time, host, entries[k].tags.value), entries[k].events);
        RecordsStep(lists, rows, stale);
        LeftIsRecord(Records(lists, stale), stale);
        if rows != [] {
          JoinedEnds(rows);
        }
      }
    }
  }

  lemma {:induction false} NoLists(time: string, host: string, stale: string)
    ensures RowLists(time, host, []) == [] && Records([], stale) == [] && Left([], stale) == stale
  {
  }

  lemma {:induction false} LeftIsRecord(records: seq<string>, stale: string)
    requires AreRecords(records) && IsRecord(stale)
    ensures IsRecord(Left(records, stale))
  {
  }

  /** One group: print its record, then append what is in the record buffer. */
  method InsertGroup(query: array<char>, cursor: nat, record: array<char>, sent: seq<string>, tagText: string,
                     events: seq<Event>, ghost q: Query, ghost left: string, ghost text: string)
    returns (qcur: nat, executed: seq<string>)
    requires query != record && query.Length == QUERY_SIZE && record.Length == RECORD_SIZE
    requires Proper(q) && Holds(query, q.text) && cursor == q.cursor && sent == q.sent
    requires Holds(record, left) && Fits(Rows(tagText, events))
    requires IsRecord(text) && text == RecordText(Rows(tagText, events), left)
    modifies query, record
    ensures var r := Append(q, text); Holds(query, r.text) && qcur == r.cursor && executed == r.sent
    ensures Holds(record, text)
  {
    hide Append, Rows, Joined, IsRecord, Fits, Holds, Proper;
    PrintRecord(record, tagText, events, left);
    qcur, executed := AppendRecord(query, cursor, record, sent, q, text);
  }

  /** One server's groups: a group whose tags do not parse is passed over, like the entry of the time. */
  method InsertServer(host: string, time: string, entries: seq<Entry>, record: array<char>, ghost stale: string)
    returns (sent: seq<string>)
    requires record.Length == RECORD_SIZE && Holds(record, stale) && IsRecord(stale)
    requires AllFit(time, host, entries)
    modifies record
    ensures var records := Records(RowLists(time, host, entries), stale);
      AreRecords(records) && sent == Sent(records) && Holds(record, Left(records, stale))
  {
    hide Append, Fill, Records, RowLists, Rows, Joined, TagText, Head, Flush, IsRecord, Left, AllFit, Fits, Holds,
        Proper;
    var query := StartQuery();
    var qcur := |Head()|;
    sent := [];
    NoLists(time, host, stale);
    FillNone();
    assert entries[..0] == [];
    ghost var records, q := [], Start();
    for i := 0 to |entries|
      invariant records == Records(RowLists(time, host, entries[..i]), stale) && AreRecords(records)
      invariant q == Fill(records) && qcur == q.cursor && sent == q.sent
      invariant Holds(query, q.text) && Holds(record, Left(records, stale))
    {
      var entry := entries[i];
      EntryStep(time, host, entries, stale, i);
      if !Parsed(entry) {
        continue;
      }
      ghost var text := RecordText(GroupRows(time, host, entry), Left(records, stale));
      FillStep(records, text);
      qcur, sent := InsertGroup(query, qcur, record, sent, TagText(time, host, entry.tags.value), entry.events, q,
                                Left(records, stale), text);
      LeftOf(records, text, stale);
      records, q := records + [text], Append(q, text);
    }
    assert entries[..|entries|] == entries;
    sent := Execute(query, sent, q);
  }

  lemma {:induction false} LeftOf(records: seq<string>, text: string, stale: string)
    ensures Left(records + [text], stale) == text
  {
  }

  /** What one entry does to the list of records. */
  lemma {:induction false} EntryStep(time: string, host: string, entries: seq<Entry>, stale: string, i: nat)
    requires AllFit(time, host, entries) && IsRecord(stale) && i < |entries|
    ensures var before := Records(RowLists(time, host, entries[..i]), stale);
      var after := Records(RowLists(time, host, entries[..i + 1]), stale);
      && AreRecords(after)
      && after == if Parsed(entries[i]) then before
          + [RecordText(GroupRows(time, host, entries[i]), Left(before, stale))] else before
    ensures Parsed(entries[i]) ==> Fits(GroupRows(time, host, entries[i]))
  {
    hide Records, RowLists, GroupRows, IsRecord, Joined, Left, Fits;
    RowListsStep(time, host, entries, i);
    ListsAreRows(time, host, entries, stale, i + 1);
    if Parsed(entries[i]) {
      RecordsStep(RowLists(time, host, entries[..i]), GroupRows(time, host, entries[i]), stale);
    }
  }

  /** The query buffer as it is declared: the head, and NUL characters behind it. */
  method StartQuery() returns (query: array<char>)
    ensures fresh(query) && query.Length == QUERY_SIZE && Holds(query, Head())
  {
    HeadEnds();
    query := new char[QUERY_SIZE](i => '\0');
    var n := Snprintf(query, 0, Head());
    assert query[..0] == "";
    Terminated(query, 0, "", Head());
    assert "" + Head() == Head();
  }

  // ---------- all servers ----------

  /** A server's entries under its host name. */
  datatype Server = Server(host: string, entries: seq<Entry>)

  /** The value under the key "time", if there is one. */
  function TimeOf(entries: seq<Entry>): Option<string> {
    if entries == [] then None else if entries[0].Time? then Some(entries[0].shown) else TimeOf(entries[1..])
  }

  /** The rows of a server's groups; a server without a time is passed over. */
  function ServerLists(s: Server): seq<seq<string>> {
    match TimeOf(s.entries)
    case None => []
    case Some(time) => RowLists(time, s.host, s.entries)
  }

  function AllServerRows(servers: seq<Server>): seq<string> {
    if servers == [] then []
    else AllServerRows(servers[..|servers| - 1]) + Flatten(ServerLists(servers[|servers| - 1]))
  }

  ghost predicate ServerFits(s: Server) {
    match TimeOf(s.entries)
    case None => true
    case Some(time) => AllFit(time, s.host, s.entries)
  }

  ghost predicate AllServersFit(servers: seq<Server>) {
    forall i :: 0 <= i < |servers| ==> ServerFits(servers[i])
  }

  lemma {:induction false} ServerRecords(s: Server, stale: string)
    requires ServerFits(s) && IsRecord(stale)
    ensures AllRows(ServerLists(s)) && AreRecords(Records(ServerLists(s), stale))
    ensures IsRecord(Left(Records(ServerLists(s), stale), stale))
  {
    hide IsRecord, RowLists, Left;
    if TimeOf(s.entries).Some? {
      assert s.entries[..|s.entries|] == s.entries;
      ListsAreRows(TimeOf(s.entries).value, s.host, s.entries, stale, |s.entries|);
    }
    LeftIsRecord(Records(ServerLists(s), stale), stale);
  }

  /** The record buffer after some servers. */
  ghost function LeftByServers(servers: seq<Server>, stale: string): (left: string)
    requires IsRecord(stale) && AllServersFit(servers)
    ensures IsRecord(left)
  {
    if servers == [] then stale
    else
      var before := LeftByServers(servers[..|servers| - 1], stale);
      var last := servers[|servers| - 1];
      ServerRecords(last, before);
      Left(Records(ServerLists(last), before), before)
  }

  /** All statements executed; nothing is sent for a server without a time. */
  ghost function AllSent(servers: seq<Server>, stale: string): seq<string>
    requires IsRecord(stale) && AllServersFit(servers)
  {
    if servers == [] then []
    else
      var before := LeftByServers(servers[..|servers| - 1], stale);
      var last := servers[|servers| - 1];
      ServerRecords(last, before);
      AllSent(servers[..|servers| - 1], stale) + Sent(Records(ServerLists(last), before))
  }

  lemma {:induction false} NothingSent(stale: string)
    ensures Records([], stale) == [] && Sent([]) == [] && Left([], stale) == stale
  {
    hide Head;
  }

  /** The loop over the servers; the record buffer keeps its contents from one group to the next. */
  method PqInsert(servers: seq<Server>, record: array<char>, ghost stale: string) returns (sent: seq<string>)
    requires record.Length == RECORD_SIZE && Holds(record, stale) && IsRecord(stale)
    requires AllServersFit(servers)
    modifies record
    ensures sent == AllSent(servers, stale) && Holds(record, LeftByServers(servers, stale))
  {
    hide Holds, IsRecord, Records, Sent, Left, RowLists, AllFit;
    sent := [];
    assert servers[..0] == [];
    for i := 0 to |servers|
      invariant sent == AllSent(servers[..i], stale)
      invariant Holds(record, LeftByServers(servers[..i], stale))
    {
      var s := servers[i];
      ghost var left := LeftByServers(servers[..i], stale);
      ServerRecords(s, left);
      NothingSent(left);
      assert servers[..i + 1][..i] == servers[..i];
      var time := TimeOf(s.entries);
      if time == None {
        assert sent + [] == sent;
        continue;
      }
      var more := InsertServer(s.host, time.value, s.entries, record, left);
      sent := sent + more;
    }
    assert servers[..|servers|] == servers;
  }
}
