/** Grouping of rates by tags, on values: what `add_stats` accumulates and what regrouping must keep. */
module Grouping {
  import opened Distinctness

  /** The tags of a row; printed as a JSON object they are the key of a group. */
  type Tags = map<string, string>

  /** Event values. */
  type Stats = map<string, real>

  datatype Row = Row(tags: Tags, stats: Stats)

  type Groups = map<Tags, Stats>

  function Restrict(tags: Tags, wanted: set<string>): Tags {
    map t | t in tags && t in wanted :: tags[t]
  }

  /** One event of `add_stats`: loads are replaced, everything else is summed. */
  function MergedValue(pre: Stats, stats: Stats, event: string): real
    requires event in stats
  {
    if event in pre && event != "load" then stats[event] + pre[event] else stats[event]
  }

  /** All events of `add_stats`. */
  function Merge(pre: Stats, stats: Stats): Stats {
    map e | e in pre.Keys + stats.Keys :: if e in stats then MergedValue(pre, stats, e) else pre[e]
  }

  function AddToGroup(groups: Groups, key: Tags, stats: Stats): Groups {
    groups[key := if key in groups then Merge(groups[key], stats) else stats]
  }

  /** The groups of the rows, row by row. */
  function Group(rows: seq<Row>, wanted: set<string>): Groups {
    if rows == [] then map[]
    else
      var k := |rows| - 1;
      AddToGroup(Group(rows[..k], wanted), Restrict(rows[k].tags, wanted), rows[k].stats)
  }

  /** The group keys in the order they first occur. */
  function GroupKeys(rows: seq<Row>, wanted: set<string>): seq<Tags> {
    if rows == [] then []
    else
      var k := |rows| - 1;
      var before, key := GroupKeys(rows[..k], wanted), Restrict(rows[k].tags, wanted);
      if key in before then before else before + [key]
  }

  lemma {:induction false} KeysOfGroup(rows: seq<Row>, wanted: set<string>)
    ensures Distinct(GroupKeys(rows, wanted))
    ensures forall key :: key in GroupKeys(rows, wanted) <==> key in Group(rows, wanted)
  {
    if rows != [] {
      KeysOfGroup(rows[..|rows| - 1], wanted);
    }
  }

  /** The restricted tags of all rows. */
  function RestrictedTags(rows: seq<Row>, wanted: set<string>): (all: seq<Tags>)
    ensures |all| == |rows|
  {
    seq(|rows|, i requires 0 <= i < |rows| => Restrict(rows[i].tags, wanted))
  }

  /** The groups stand in the order in which their first rows do. */
  lemma {:induction false} KeysInOrder(rows: seq<Row>, wanted: set<string>)
    ensures FirstsInOrder(RestrictedTags(rows, wanted), GroupKeys(rows, wanted))
    decreases |rows|
  {
    hide FirstsInOrder, Restrict;
    if rows == [] {
      assert FirstsInOrder(RestrictedTags(rows, wanted), []) by { NothingInOrder(RestrictedTags(rows, wanted)); }
    } else {
      var k := |rows| - 1;
      KeysInOrder(rows[..k], wanted);
      FirstsStep(RestrictedTags(rows[..k], wanted), GroupKeys(rows[..k], wanted), Restrict(rows[k].tags, wanted));
      assert RestrictedTags(rows, wanted) == RestrictedTags(rows[..k], wanted) + [Restrict(rows[k].tags, wanted)];
    }
  }

  lemma {:induction false} NothingInOrder(all: seq<Tags>)
    requires all == []
    ensures FirstsInOrder(all, [])
  {
  }

  // ---------- totals ----------

  function Get(stats: Stats, event: string): real {
    if event in stats then stats[event] else 0.0
  }

  /** The sum of an event over the rows whose wanted tags are `key`. */
  function Total(rows: seq<Row>, wanted: set<string>, key: Tags, event: string): real {
    if rows == [] then 0.0
    else
      var k := |rows| - 1;
      Total(rows[..k], wanted, key, event) +
      if Restrict(rows[k].tags, wanted) == key then Get(rows[k].stats, event) else 0.0
  }

  function GroupValue(groups: Groups, key: Tags, event: string): real {
    if key in groups then Get(groups[key], event) else 0.0
  }

  /** Every additive event of a group is the sum over the group's rows. */
  lemma {:induction false} GroupSums(rows: seq<Row>, wanted: set<string>, key: Tags, event: string)
    requires event != "load"
    ensures GroupValue(Group(rows, wanted), key, event) == Total(rows, wanted, key, event)
  {
    if rows != [] {
      GroupSums(rows[..|rows| - 1], wanted, key, event);
    }
  }

  /** Exactly the tag sets that occur are groups. */
  lemma {:induction false} GroupOccurs(rows: seq<Row>, wanted: set<string>, key: Tags)
    ensures key in Group(rows, wanted) <==> exists i :: 0 <= i < |rows| && Restrict(rows[i].tags, wanted) == key
  {
    if rows != [] {
      var k := |rows| - 1;
      GroupOccurs(rows[..k], wanted, key);
      assert forall i :: 0 <= i < k ==> rows[..k][i] == rows[i];
    }
  }

  /** A group records exactly the events its rows record. */
  lemma {:induction false} GroupEvents(rows: seq<Row>, wanted: set<string>, key: Tags, event: string)
    requires key in Group(rows, wanted)
    ensures event in Group(rows, wanted)[key] <==>
            exists i :: 0 <= i < |rows| && Restrict(rows[i].tags, wanted) == key && event in rows[i].stats
  {
    var k := |rows| - 1;
    var before := rows[..k];
    assert forall i :: 0 <= i < k ==> before[i] == rows[i];
    if key in Group(before, wanted) {
      GroupEvents(before, wanted, key, event);
    } else {
      GroupOccurs(before, wanted, key);
    }
  }

  // ---------- roll-up ----------

  /** The groups as rows again, in order: the input of the next grouping. */
  function GroupRows(rows: seq<Row>, wanted: set<string>): (r: seq<Row>)
    ensures |r| == |GroupKeys(rows, wanted)|
  {
    KeysOfGroup(rows, wanted);
    var keys, groups := GroupKeys(rows, wanted), Group(rows, wanted);
    seq(|keys|, i requires 0 <= i < |keys| && keys[i] in keys && keys[i] in groups => Row(keys[i], groups[keys[i]]))
  }

  lemma {:induction false} RestrictTwice(tags: Tags, a: set<string>, b: set<string>)
    ensures Restrict(Restrict(tags, a), b) == Restrict(tags, b * a)
  {
  }

  /** Changing one row changes the total by the difference. */
  lemma {:induction false} TotalUpdate(rows: seq<Row>, i: nat, row: Row, wanted: set<string>, key: Tags, event: string)
    requires i < |rows| && row.tags == rows[i].tags
    ensures Total(rows[i := row], wanted, key, event) == Total(rows, wanted, key, event)
            + if Restrict(row.tags, wanted) == key then Get(row.stats, event) - Get(rows[i].stats, event) else 0.0
  {
    var k := |rows| - 1;
    if i < k {
      assert rows[i := row][..k] == rows[..k][i := row];
      TotalUpdate(rows[..k], i, row, wanted, key, event);
    } else {
      assert rows[i := row][..k] == rows[..k];
    }
  }

  lemma {:induction false} TotalAppend(rows: seq<Row>, row: Row, wanted: set<string>, key: Tags, event: string)
    ensures Total(rows + [row], wanted, key, event) == Total(rows, wanted, key, event)
            + if Restrict(row.tags, wanted) == key then Get(row.stats, event) else 0.0
  {
    assert (rows + [row])[..|rows|] == rows;
  }

  /** Appending a raw row either updates its group's row or adds one. */
  lemma {:induction false} GroupRowsStep(rows: seq<Row>, row: Row, wanted: set<string>) returns (i: nat)
    ensures var before, after := GroupRows(rows, wanted), GroupRows(rows + [row], wanted);
      var key := Restrict(row.tags, wanted);
      if key in GroupKeys(rows, wanted) then
        i < |before| && before[i].tags == key && after == before[i := Row(key, Merge(before[i].stats, row.stats))]
      else after == before + [Row(key, row.stats)]
  {
    KeysOfGroup(rows, wanted);
    KeysOfGroup(rows + [row], wanted);
    var key, keys := Restrict(row.tags, wanted), GroupKeys(rows, wanted);
    assert (rows + [row])[..|rows|] == rows;
    i := 0;
    if key in keys {
      i :| 0 <= i < |keys| && keys[i] == key;
    }
  }

  function RowKeys(rows: seq<Row>): seq<Tags> {
    seq(|rows|, i requires 0 <= i < |rows| => rows[i].tags)
  }

  /** The row with the given tags, or the number of rows. */
  function FindRow(rows: seq<Row>, key: Tags): (i: nat)
    ensures i <= |rows| && (i < |rows| ==> rows[i].tags == key)
    ensures forall j :: 0 <= j < i ==> rows[j].tags != key
  {
    var i := IndexOf(RowKeys(rows), key);
    assert forall j :: 0 <= j < i ==> RowKeys(rows)[j] == rows[j].tags;
    i
  }

  /** What `add_stats` does to the rows of a tag map. */
  function AddRow(rows: seq<Row>, key: Tags, stats: Stats): seq<Row> {
    var i := FindRow(rows, key);
    if i < |rows| then rows[i := Row(key, Merge(rows[i].stats, stats))] else rows + [Row(key, stats)]
  }

  /** Adding rows one by one makes the groups' rows. */
  lemma {:induction false} GroupRowsAdd(rows: seq<Row>, row: Row, wanted: set<string>)
    ensures GroupRows(rows + [row], wanted) == AddRow(GroupRows(rows, wanted), Restrict(row.tags, wanted), row.stats)
  {
    var before, key := GroupRows(rows, wanted), Restrict(row.tags, wanted);
    KeysOfGroup(rows, wanted);
    var i := GroupRowsStep(rows, row, wanted);
    var f := FindRow(before, key);
    assert forall j :: 0 <= j < |before| ==> before[j].tags == GroupKeys(rows, wanted)[j];
  }

  /** Grouping by `fine` and summing by `coarse` sums the raw rows by the tags in both. */
  lemma {:induction false} RollUpTotals(rows: seq<Row>, fine: set<string>, coarse: set<string>, key: Tags,
                                        event: string)
    requires event != "load"
    ensures Total(GroupRows(rows, fine), coarse, key, event) == Total(rows, coarse * fine, key, event)
  {
    if rows != [] {
      var k := |rows| - 1;
      var before, row := rows[..k], rows[k];
      assert rows == before + [row];
      RollUpTotals(before, fine, coarse, key, event);
      RestrictTwice(row.tags, fine, coarse);
      var groups := GroupRows(before, fine);
      var i := GroupRowsStep(before, row, fine);
      var fineKey := Restrict(row.tags, fine);
      if fineKey in GroupKeys(before, fine) {
        TotalUpdate(groups, i, Row(fineKey, Merge(groups[i].stats, row.stats)), coarse, key, event);
      } else {
        TotalAppend(groups, Row(fineKey, row.stats), coarse, key, event);
      }
    }
  }

  /** Roll-up: regrouping groups by coarser tags is grouping the raw rows, on every additive event. */
  lemma {:induction false} RollUp(rows: seq<Row>, fine: set<string>, coarse: set<string>, key: Tags, event: string)
    requires event != "load"
    ensures GroupValue(Group(GroupRows(rows, fine), coarse), key, event)
         == GroupValue(Group(rows, coarse * fine), key, event)
    ensures key in Group(GroupRows(rows, fine), coarse) <==> key in Group(rows, coarse * fine)
  {
    var groups := GroupRows(rows, fine);
    GroupSums(groups, coarse, key, event);
    GroupSums(rows, coarse * fine, key, event);
    RollUpTotals(rows, fine, coarse, key, event);
    RollUpKeys(rows, fine, coarse, key);
  }

  lemma {:induction false} RollUpKeys(rows: seq<Row>, fine: set<string>, coarse: set<string>, key: Tags)
    ensures key in Group(GroupRows(rows, fine), coarse) <==> key in Group(rows, coarse * fine)
  {
    var groups := GroupRows(rows, fine);
    GroupOccurs(groups, coarse, key);
    GroupOccurs(rows, coarse * fine, key);
    KeysOfGroup(rows, fine);
    if i :| 0 <= i < |rows| && Restrict(rows[i].tags, coarse * fine) == key {
      RestrictTwice(rows[i].tags, fine, coarse);
      GroupOccurs(rows, fine, Restrict(rows[i].tags, fine));
      var j :| 0 <= j < |groups| && GroupKeys(rows, fine)[j] == Restrict(rows[i].tags, fine);
      assert groups[j].tags == Restrict(rows[i].tags, fine);
    }
    if j :| 0 <= j < |groups| && Restrict(groups[j].tags, coarse) == key {
      GroupOccurs(rows, fine, groups[j].tags);
      var i :| 0 <= i < |rows| && Restrict(rows[i].tags, fine) == groups[j].tags;
      RestrictTwice(rows[i].tags, fine, coarse);
    }
  }

  // ---------- sums over all groups ----------

  /** The sum of an event over all rows. */
  function RowSum(rows: seq<Row>, event: string): real {
    if rows == [] then 0.0 else RowSum(rows[..|rows| - 1], event) + Get(rows[|rows| - 1].stats, event)
  }

  lemma {:induction false} RowSumIsTotal(rows: seq<Row>, event: string)
    ensures RowSum(rows, event) == Total(rows, {}, map[], event)
  {
    if rows != [] {
      RowSumIsTotal(rows[..|rows| - 1], event);
      assert Restrict(rows[|rows| - 1].tags, {}) == map[];
    }
  }

  /** Conservation by grouping: the sum over the groups is the sum over the rows. */
  lemma {:induction false} GroupingConserves(rows: seq<Row>, wanted: set<string>, event: string)
    requires event != "load"
    ensures RowSum(GroupRows(rows, wanted), event) == RowSum(rows, event)
  {
    RowSumIsTotal(GroupRows(rows, wanted), event);
    RowSumIsTotal(rows, event);
    RollUpTotals(rows, wanted, {}, map[], event);
    assert {} * wanted == {};
  }

  // ---------- what grouping keeps ----------

  ghost predicate NonNegative(stats: Stats) {
    forall e :: e in stats ==> stats[e] >= 0.0
  }

  /** Non-negative rows give non-negative groups. */
  lemma {:induction false} GroupNonNegative(rows: seq<Row>, wanted: set<string>)
    requires forall i :: 0 <= i < |rows| ==> NonNegative(rows[i].stats)
    ensures forall key :: key in Group(rows, wanted) ==> NonNegative(Group(rows, wanted)[key])
  {
    if rows != [] {
      GroupNonNegative(rows[..|rows| - 1], wanted);
    }
  }

  ghost predicate HasLoad(stats: Stats, load: real) {
    "load" in stats && stats["load"] == load
  }

  /** A load shared by all rows is the load of every group. */
  lemma {:induction false} GroupLoad(rows: seq<Row>, wanted: set<string>, load: real)
    requires forall i :: 0 <= i < |rows| ==> HasLoad(rows[i].stats, load)
    ensures forall key :: key in Group(rows, wanted) ==> HasLoad(Group(rows, wanted)[key], load)
  {
    if rows != [] {
      GroupLoad(rows[..|rows| - 1], wanted, load);
    }
  }
}
