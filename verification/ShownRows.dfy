/** From what a consumer shows of a server to the rows the database gets. */
module ShownRows {
  import opened Distinctness
  import opened Options
  import opened Load
  import opened Rates
  import opened HostMap
  import opened StatObjects
  import opened DerivedEvents
  import opened SecondShowing
  import opened Substrings
  import opened QueryBuffer
  import Apportionment

  /** An entry of the shown map: the group's events in whatever order, with the values `%f` prints. */
  ghost predicate Lists(entry: Entry, row: Grouping.Row, format: real -> string) {
    && entry.Group? && entry.tags == Some(row.tags)
    && (forall i, j :: 0 <= i < j < |entry.events| ==> entry.events[i].name != entry.events[j].name)
    && (forall e :: e in row.stats <==> exists i :: 0 <= i < |entry.events| && entry.events[i].name == e)
    && (forall i :: 0 <= i < |entry.events| ==> Valued(entry.events[i], row.stats, format))
  }

  predicate Valued(e: Event, stats: Grouping.Stats, format: real -> string) {
    e.name in stats && e == Event(e.name, stats[e.name], format(stats[e.name]))
  }

  /** A server in the shown map: its groups in order, then its time. */
  ghost predicate OnScreen(s: Server, time: real, rows: seq<Grouping.Row>, format: real -> string) {
    && |s.entries| == |rows| + 1 && s.entries[|rows|] == Time(format(time))
    && forall i :: 0 <= i < |rows| ==> Lists(s.entries[i], rows[i], format)
  }

  function RowTexts(tagText: string, names: seq<string>, stats: Grouping.Stats, format: real -> string): seq<string>
    requires forall i :: 0 <= i < |names| ==> names[i] in stats
  {
    seq(|names|, i requires 0 <= i < |names| =>
        Row(tagText, Event(names[i], stats[names[i]], format(stats[names[i]]))))
  }

  /** One database row for each event with a positive value, and no other. */
  ghost predicate Inserts(list: seq<string>, tagText: string, stats: Grouping.Stats, format: real -> string) {
    exists names :: Positive(names, stats) && list == RowTexts(tagText, names, stats, format)
  }

  /** The events with a positive value, each once. */
  ghost predicate Positive(names: seq<string>, stats: Grouping.Stats) {
    && Distinct(names) && (forall i :: 0 <= i < |names| ==> names[i] in stats)
    && forall e :: e in names <==> e in stats && stats[e] > 0.0
  }

  function PositiveNames(events: seq<Event>): seq<string> {
    if events == [] then []
    else
      var e := events[|events| - 1];
      PositiveNames(events[..|events| - 1]) + if e.value > 0.0 then [e.name] else []
  }

  lemma {:induction false} PositiveNamesAre(events: seq<Event>)
    ensures forall e :: e in PositiveNames(events) <==>
              exists i :: 0 <= i < |events| && events[i].name == e && events[i].value > 0.0
    decreases |events|
  {
    if events != [] {
      var k := |events| - 1;
      PositiveNamesAre(events[..k]);
      assert forall i :: 0 <= i < k ==> events[..k][i] == events[i];
    }
  }

  lemma {:induction false} RowsAreTexts(tagText: string, events: seq<Event>, stats: Grouping.Stats,
                                        format: real -> string)
    requires forall i :: 0 <= i < |events| ==> Valued(events[i], stats, format)
    requires forall i, j :: 0 <= i < j < |events| ==> events[i].name != events[j].name
    ensures var names := PositiveNames(events);
      && Distinct(names) && (forall i :: 0 <= i < |names| ==> names[i] in stats)
      && Rows(tagText, events) == RowTexts(tagText, names, stats, format)
    decreases |events|
  {
    hide Row;
    if events != [] {
      var k := |events| - 1;
      assert forall i :: 0 <= i < k ==> events[..k][i] == events[i];
      RowsAreTexts(tagText, events[..k], stats, format);
      PositiveNamesAre(events[..k]);
      var before, name := PositiveNames(events[..k]), events[k].name;
      assert name !in before;
      assert Valued(events[k], stats, format);
      assert RowTexts(tagText, before + [name], stats, format)
          == RowTexts(tagText, before, stats, format) + [Row(tagText, Event(name, stats[name], format(stats[name])))];
    }
  }

  lemma {:induction false} EntryInserts(time: string, host: string, entry: Entry, row: Grouping.Row,
                                        format: real -> string)
    requires Lists(entry, row, format)
    ensures Parsed(entry) && Inserts(GroupRows(time, host, entry), TagText(time, host, row.tags), row.stats, format)
    ensures GroupRows(time, host, entry) == [] <==> forall e :: e in row.stats ==> row.stats[e] <= 0.0
  {
    hide TagText, Rows, Row;
    var names := PositiveNames(entry.events);
    RowsAreTexts(TagText(time, host, row.tags), entry.events, row.stats, format);
    PositiveNamesAre(entry.events);
    assert Positive(names, row.stats) by { NamesArePositive(entry, row, format); }
    if GroupRows(time, host, entry) == [] {
      assert names == [];
      assert forall e :: e in row.stats ==> e !in names;
    } else {
      assert names[0] in names;
    }
  }

  lemma {:induction false} NamesArePositive(entry: Entry, row: Grouping.Row, format: real -> string)
    requires Lists(entry, row, format) && Distinct(PositiveNames(entry.events))
    ensures Positive(PositiveNames(entry.events), row.stats)
  {
    PositiveNamesAre(entry.events);
    var names := PositiveNames(entry.events);
    forall e ensures e in names <==> e in row.stats && row.stats[e] > 0.0 {
      if e in names {
        var i :| 0 <= i < |entry.events| && entry.events[i].name == e && entry.events[i].value > 0.0;
        assert Valued(entry.events[i], row.stats, format);
      }
      if e in row.stats && row.stats[e] > 0.0 {
        var i :| 0 <= i < |entry.events| && entry.events[i].name == e;
        assert Valued(entry.events[i], row.stats, format);
      }
    }
    forall i | 0 <= i < |names| ensures names[i] in row.stats {
      assert names[i] in names;
    }
  }

  // ---------- a server on the screen ----------

  lemma {:induction false} TimeIsLast(entries: seq<Entry>, n: nat)
    requires |entries| == n + 1 && entries[n].Time? && forall i :: 0 <= i < n ==> entries[i].Group?
    ensures TimeOf(entries) == Some(entries[n].shown)
    decreases n
  {
    if n > 0 {
      TimeIsLast(entries[1..], n - 1);
    }
  }

  /** As long as all tags parse, there is a list for each entry. */
  lemma {:induction false} ListsOfParsed(time: string, host: string, entries: seq<Entry>, n: nat)
    requires n <= |entries| && forall i :: 0 <= i < n ==> Parsed(entries[i])
    ensures var lists := RowLists(time, host, entries[..n]);
      |lists| == n && forall i :: 0 <= i < n ==> lists[i] == GroupRows(time, host, entries[i])
    decreases n
  {
    hide GroupRows, RowLists;
    if n == 0 {
      NoLists(time, host, "");
      assert entries[..0] == [];
    } else {
      ListsOfParsed(time, host, entries, n - 1);
      RowListsStep(time, host, entries, n - 1);
    }
  }

  /** The lists of a server are those of its shown groups. */
  lemma {:induction false} AllScreenLists(s: Server, time: real, rows: seq<Grouping.Row>, format: real -> string)
    requires OnScreen(s, time, rows, format)
    ensures TimeOf(s.entries) == Some(format(time)) && |ServerLists(s)| == |rows|
    ensures forall i :: 0 <= i < |rows| ==>
        Parsed(s.entries[i]) && ServerLists(s)[i] == GroupRows(format(time), s.host, s.entries[i])
  {
    hide GroupRows, RowLists;
    var n := |rows|;
    forall i | 0 <= i < n ensures Parsed(s.entries[i]) {
      assert Lists(s.entries[i], rows[i], format);
    }
    TimeIsLast(s.entries, n);
    ListsOfParsed(format(time), s.host, s.entries, n);
    RowListsStep(format(time), s.host, s.entries, n);
    assert s.entries[..n + 1] == s.entries;
  }

  /**
   * From the screen to the database: for every shown group, the rows to be inserted are one for each event with a
   * positive value, under the group's tags; and the statements carry exactly these rows iff no group without a
   * positive value comes behind one that has some and no record ends at the end of the buffer.
   */
  lemma {:induction false} ShownRowsInserted(s: Server, time: real, rows: seq<Grouping.Row>, format: real -> string,
                                             stale: string)
    requires OnScreen(s, time, rows, format) && ServerFits(s) && IsRecord(stale)
    ensures var lists := ServerLists(s);
      && |lists| == |rows|
      && (forall i :: 0 <= i < |rows| ==>
            && Inserts(lists[i], TagText(format(time), s.host, rows[i].tags), rows[i].stats, format)
            && (lists[i] == [] <==> forall e :: e in rows[i].stats ==> rows[i].stats[e] <= 0.0))
      && AreRecords(Records(lists, stale))
      && (Carries(Sent(Records(lists, stale)), Flatten(lists))
          <==> NoneStale(lists, stale == "") && !HitsEnd(Records(lists, stale)))
  {
    hide GroupRows, RowLists, Lists, Inserts, TagText, IsRecord, Records, Carries, Sent, HitsEnd, NoneStale, Flatten,
        ServerFits, ServerLists;
    AllScreenLists(s, time, rows, format);
    forall i | 0 <= i < |rows|
      ensures Inserts(ServerLists(s)[i], TagText(format(time), s.host, rows[i].tags), rows[i].stats, format)
      ensures ServerLists(s)[i] == [] <==> forall e :: e in rows[i].stats ==> rows[i].stats[e] <= 0.0
    {
      EntryInserts(format(time), s.host, s.entries[i], rows[i], format);
    }
    ServerRecords(s, stale);
    InsertsExactly(ServerLists(s), stale);
  }

  /**
   * From a run of the server to the database: if the kernel had any load when a server published, then no group is
   * without a positive value, and all its rows arrive iff no record ends exactly at the end of the query buffer.
   */
  lemma {:induction false} LoadedServerInserted(actions: seq<Action>, filters: Filters, wanted: set<string>, s: Server,
                                                format: real -> string, stale: string)
    requires EmissionOf(Run(actions), s.host).Some?
    requires AggregateRows(Apportionment.RatesOf(Run(actions), s.host), "cpu") != []
    requires Apportionment.KernelLoad(Apportionment.RatesOf(Run(actions), s.host), GROUP_TAGS) > 0.0
    requires var e := EmissionOf(Run(actions), s.host).value;
      OnScreen(s, e.time, Shown(e.groups, filters, s.host, wanted), format)
    requires ServerFits(s) && IsRecord(stale)
    ensures AreRecords(Records(ServerLists(s), stale))
    ensures Carries(Sent(Records(ServerLists(s), stale)), Flatten(ServerLists(s)))
      <==> !HitsEnd(Records(ServerLists(s), stale))
  {
    hide Run, EmissionOf, Shown, OnScreen, Inserts, TagText, IsRecord, Records, Carries, Sent, HitsEnd, Flatten,
        ServerFits, ServerLists, AggregateRows, Apportionment.KernelLoad, Apportionment.RatesOf;
    var e := EmissionOf(Run(actions), s.host).value;
    var rows, lists := Shown(e.groups, filters, s.host, wanted), ServerLists(s);
    Apportionment.ShownLoadsOfRun(actions, s.host, filters, wanted);
    ShownRowsInserted(s, e.time, rows, format, stale);
    forall i | 0 <= i < |lists| ensures lists[i] != [] {
      assert Grouping.Get(rows[i].stats, "load") > 0.0;
    }
  }

  // ---------- a server whose last record is cut ----------

  const ONE: string := "1.000000"

  /** The published tags of job `k`. */
  function LongTags(k: nat): Grouping.Tags
    requires k < 16
  {
    map["system" := "*", "fid" := "f", "server" := "s", "jid" := [('a' as int + k) as char], "uid" := "*"]
  }

  /** A latency with a long name, which counts neither as requests nor as bytes. */
  function LongName(k: nat): (name: string)
    ensures |name| == if k < 15 then 7850 else 7763
  {
    seq(if k < 15 then 7845 else 7758, _ => 'x') + "[usec"
  }

  /** Sixteen jobs of one client each, without load. */
  function LongRow(k: nat): Grouping.Row
    requires k < 16
  {
    Grouping.Row(LongTags(k), map[LongName(k) := 1.0, "nclients" := 1.0, "load" := 0.0])
  }

  function LongRows(): (rows: seq<Grouping.Row>)
    ensures |rows| == 16 && forall k :: 0 <= k < 16 ==> rows[k] == LongRow(k)
  {
    seq(16, k requires 0 <= k < 16 => LongRow(k))
  }

  /** What is shown of such a row. */
  function LongShown(k: nat): Grouping.Stats {
    map[LongName(k) := 1.0, "nclients" := 1.0, "load" := 0.0, "iops" := 0.0, "bytes" := 0.0]
  }

  function LongEntry(k: nat, format: real -> string): Entry
    requires k < 16
  {
    Group(Some(LongTags(k)), [Event(LongName(k), 1.0, format(1.0)), Event("nclients", 1.0, format(1.0)),
        Event("load", 0.0, format(0.0)), Event("iops", 0.0, format(0.0)), Event("bytes", 0.0, format(0.0))])
  }

  /** The first groups of the server. */
  function LongEntries(n: nat, format: real -> string): (entries: seq<Entry>)
    requires n <= 16
    ensures |entries| == n && forall k :: 0 <= k < n ==> entries[k] == LongEntry(k, format)
  {
    seq(n, k requires 0 <= k < 16 => LongEntry(k, format))
  }

  function LongServer(format: real -> string): Server {
    Server("s", LongEntries(16, format) + [Time(format(1.0))])
  }

  // ---------- what is shown of it ----------

  lemma {:induction false} EndsWith(s: string, sub: string)
    ensures Contains(s + sub, sub)
  {
    assert At(s + sub, |s|, sub);
  }

  lemma {:induction false} LongKinds(k: nat)
    ensures EventKind(LongName(k)) == EventKind("nclients") == Ignored && EventKind("load") == LoadValue
  {
    EndsWith(seq(if k < 15 then 7845 else 7758, _ => 'x'), "[usec");
    LoadKind("load");
  }

  lemma {:induction false} NoTraffic(k: nat)
    requires k < 16
    ensures Iops(LongRow(k).stats) == Megabytes(LongRow(k).stats) == 0.0
  {
    hide EventKind, LongName;
    LongKinds(k);
    var stats := LongRow(k).stats;
    SumAgrees(stats.Keys, stats, {}, stats, Requests);
    SumAgrees(stats.Keys, stats, {}, stats, Bytes);
  }

  lemma {:induction false} NoTrafficAtAll(groups: seq<Grouping.Stats>)
    requires |groups| <= 16 && forall k :: 0 <= k < |groups| ==> groups[k] == LongRow(k).stats
    ensures TotalIops(groups) == TotalMegabytes(groups) == 0.0
    decreases |groups|
  {
    hide Iops, Megabytes, LongRow;
    if groups != [] {
      var k := |groups| - 1;
      NoTrafficAtAll(groups[..k]);
      NoTraffic(k);
    }
  }

  lemma {:induction false} DerivedLong(k: nat)
    requires k < 16
    ensures Derived(LongRow(k).stats, StatsOf(LongRows())) == LongShown(k)
  {
    hide EventKind, LongName, Iops, Megabytes, TotalIops, TotalMegabytes, LongTags;
    LongKinds(k);
    NoTraffic(k);
    NoTrafficAtAll(StatsOf(LongRows()));
  }

  /** No two of these groups have the same tags, and they have all the tags that rows are published under. */
  lemma {:induction false} LongRowsSeparate()
    ensures Separate(LongRows(), GROUP_TAGS)
    ensures forall k :: 0 <= k < 16 ==> LongRows()[k].tags.Keys == GROUP_TAGS
  {
    hide LongName;
    var keys := Grouping.RowKeys(LongRows());
    forall i, j | 0 <= i < j < 16 ensures keys[i] != keys[j] {
      assert keys[i]["jid"][0] != keys[j]["jid"][0];
    }
  }

  lemma {:induction false} KeptAll(rows: seq<Grouping.Row>, server: string, wanted: set<string>)
    ensures Kept(rows, NO_FILTERS, server, wanted) == rows
  {
    hide Grouping.Restrict;
    if rows != [] {
      KeptAll(rows[..|rows| - 1], server, wanted);
    }
  }

  lemma {:induction false} ShownLong()
    ensures var shown := Shown(LongRows(), NO_FILTERS, "s", GROUP_TAGS);
      |shown| == 16 && forall k :: 0 <= k < 16 ==> shown[k] == Grouping.Row(LongTags(k), LongShown(k))
  {
    hide Derived, LongTags, LongShown, Separate, Grouping.GroupRows, Kept;
    LongRowsSeparate();
    KeptAll(LongRows(), "s", GROUP_TAGS);
    SeparateRowsAreGroups(LongRows(), GROUP_TAGS);
    forall k | 0 <= k < 16 ensures DerivedRows(LongRows())[k] == Grouping.Row(LongTags(k), LongShown(k)) {
      DerivedLong(k);
    }
  }

  lemma {:induction false} LongEntryLists(k: nat, format: real -> string)
    requires k < 16
    ensures Lists(LongEntry(k, format), Grouping.Row(LongTags(k), LongShown(k)), format)
  {
    hide LongTags;
    var entry, stats, name := LongEntry(k, format), LongShown(k), LongName(k);
    var names := [name, "nclients", "load", "iops", "bytes"];
    assert forall i :: 0 <= i < 5 ==> entry.events[i].name == names[i];
    forall e ensures e in stats <==> exists i :: 0 <= i < 5 && entry.events[i].name == e {
      assert e in stats <==> e in names;
    }
  }

  // ---------- how long its records are ----------

  lemma {:induction false} LongTagText(k: nat)
    requires k < 16
    ensures var t := TagText(ONE, "s", LongTags(k)); |t| == 54 && '\0' !in t
  {
    assert '\0' !in "to_timestamp(" && '\0' !in ONE && '\0' !in "'*', ";
  }

  lemma {:induction false} RowLength(tagText: string, e: Event)
    ensures |Row(tagText, e)| == |tagText| + |e.name| + |e.shown| + 9
    ensures '\0' !in tagText && '\0' !in e.name && '\0' !in e.shown ==> '\0' !in Row(tagText, e)
  {
  }

  lemma {:induction false} LongRecord(k: nat, format: real -> string)
    requires k < 16 && format(1.0) == ONE
    ensures Parsed(LongEntry(k, format))
    ensures var rows := GroupRows(ONE, "s", LongEntry(k, format));
      |rows| == 2 && |Joined(rows)| == (if k < 15 then 8000 else 7913) && Fits(rows)
  {
    hide TagText, Row, LongTags;
    LongTagText(k);
    var t, events := TagText(ONE, "s", LongTags(k)), LongEntry(k, format).events;
    RowLength(t, events[0]);
    RowLength(t, events[1]);
    assert '\0' !in LongName(k) && '\0' !in "nclients" && '\0' !in ONE;
    NoRowsBut(t, events);
    JoinedOne(Row(t, events[0]));
    JoinedAppend([Row(t, events[0])], [Row(t, events[1])]);
    JoinedOne(Row(t, events[1]));
    assert [Row(t, events[0])] + [Row(t, events[1])] == [Row(t, events[0]), Row(t, events[1])];
  }

  lemma {:induction false} NoRowsBut(tagText: string, events: seq<Event>)
    requires |events| == 5 && events[0].value > 0.0 && events[1].value > 0.0
    requires events[2].value <= 0.0 && events[3].value <= 0.0 && events[4].value <= 0.0
    ensures Rows(tagText, events) == [Row(tagText, events[0]), Row(tagText, events[1])]
  {
    hide Row;
    assert events[..0] == [];
    RowsStep(tagText, events, 0);
    RowsStep(tagText, events, 1);
    RowsStep(tagText, events, 2);
    RowsStep(tagText, events, 3);
    RowsStep(tagText, events, 4);
    assert events[..5] == events;
  }

  lemma {:induction false} PlaceInside(cursor: nat, size: nat)
    requires cursor + size <= QUERY_SIZE
    ensures Place(cursor, size) == cursor
  {
    hide Head;
  }

  /** One more record. */
  lemma {:induction false} CursorStep(lists: seq<seq<string>>, rows: seq<string>)
    requires rows != []
    ensures var before := Records(lists, ""); var size := |Joined(rows)|;
      Cursor(Records(lists + [rows], "")) == Place(Cursor(before), size) + size
  {
    hide Left, Head, Place, Joined, Records;
    RecordsStep(lists, rows, "");
    var before := Records(lists, "");
    assert (before + [Joined(rows)])[..|before|] == before;
  }

  lemma {:induction false} LongCursor(n: nat, format: real -> string)
    requires n <= 16 && format(1.0) == ONE
    ensures Cursor(Records(RowLists(ONE, "s", LongServer(format).entries[..n]), ""))
         == if n < 16 then 87 + 8000 * n else QUERY_SIZE
    decreases n
  {
    hide LongEntry, Head, Place, Cursor, Records, GroupRows, RowLists, Joined, Fits;
    var entries := LongServer(format).entries;
    if n == 0 {
      HeadEnds();
      NoLists(ONE, "s", "");
      assert entries[..0] == [];
      CursorOfNone([]);
    } else {
      var k := n - 1;
      LongCursor(k, format);
      assert entries[k] == LongEntry(k, format);
      LongRecord(k, format);
      RowListsStep(ONE, "s", entries, k);
      CursorStep(RowLists(ONE, "s", entries[..k]), GroupRows(ONE, "s", entries[k]));
      PlaceInside(87 + 8000 * k, |Joined(GroupRows(ONE, "s", entries[k]))|);
    }
  }

  lemma {:induction false} LongServerShown(format: real -> string)
    ensures OnScreen(LongServer(format), 1.0, Shown(LongRows(), NO_FILTERS, "s", GROUP_TAGS), format)
  {
    hide Lists, LongEntry, LongShown, LongTags, Shown;
    ShownLong();
    var s, shown := LongServer(format), Shown(LongRows(), NO_FILTERS, "s", GROUP_TAGS);
    forall k | 0 <= k < 16 ensures Lists(s.entries[k], shown[k], format) {
      LongEntryLists(k, format);
      assert s.entries[k] == LongEntry(k, format);
    }
  }

  lemma {:induction false} LongServerFits(format: real -> string)
    requires format(1.0) == ONE
    ensures TimeOf(LongServer(format).entries) == Some(ONE) && ServerFits(LongServer(format))
  {
    hide LongEntry, GroupRows, Fits;
    var entries := LongServer(format).entries;
    forall k | 0 <= k < 16
      ensures entries[k].Group? && Parsed(entries[k]) && Fits(GroupRows(ONE, "s", entries[k]))
    {
      LongRecord(k, format);
      assert entries[k] == LongEntry(k, format);
    }
    TimeIsLast(entries, 16);
  }

  /**
   * A server with sixteen jobs as it is shown from published rows, whose rows fill the query buffer to its last byte:
   * the last row is cut.
   */
  lemma {:induction false} CutRecord(format: real -> string)
    requires format(1.0) == ONE
    ensures Separate(LongRows(), GROUP_TAGS) && forall k :: 0 <= k < 16 ==> LongRows()[k].tags.Keys == GROUP_TAGS
    ensures OnScreen(LongServer(format), 1.0, Shown(LongRows(), NO_FILTERS, "s", GROUP_TAGS), format)
    ensures var s := LongServer(format); var records := Records(ServerLists(s), "");
      && ServerFits(s) && AreRecords(records) && Cursor(records) == QUERY_SIZE
      && !Carries(Sent(records), Flatten(ServerLists(s)))
  {
    hide LongEntry, Records, Cursor, Carries, Sent, Flatten, RowLists, GroupRows, ServerFits, AllRows, Left, Head,
        Place, OnScreen, Separate;
    var s := LongServer(format);
    LongRowsSeparate();
    LongServerShown(format);
    LongServerFits(format);
    LongCursor(16, format);
    RowListsStep(ONE, "s", s.entries, 16);
    assert s.entries[..17] == s.entries;
    ServerRecords(s, "");
    var records := Records(ServerLists(s), "");
    assert records[..|records|] == records && Cursor(records) == QUERY_SIZE;
    InsertsExactly(ServerLists(s), "");
  }
}
