/**
 * The shared JSON objects of `stats.c`: maps from tags to event objects that are stored, aliased and added to in
 * place.
 */
module StatObjects {
  import opened Distinctness
  import opened Grouping
  import opened Options

  /** A JSON object from events to numbers. */
  class StatObject {
    var values: Stats

    constructor (values: Stats)
      ensures this.values == values
    {
      this.values := values;
    }
  }

  /** A JSON object from printed tags to event objects, in insertion order, with an optional time. */
  class TagMap {
    var time: Option<real>
    var keys: seq<Tags>
    var objects: seq<StatObject>

    constructor ()
      ensures Valid() && keys == [] && objects == [] && time == None
    {
      time, keys, objects := None, [], [];
    }

    /** Keys are unique and no object is stored under two keys. */
    ghost predicate Valid()
      reads this
    {
      |keys| == |objects| && Distinct(keys) && Distinct(objects)
    }

    ghost function Objects(): set<StatObject>
      reads this
    {
      set o | o in objects
    }

    /** The stored groups as rows, in order. */
    ghost function Rows(): (rows: seq<Row>)
      requires Valid()
      reads this, objects
      ensures |rows| == |keys|
    {
      seq(|keys|, i requires 0 <= i < |keys| && |keys| == |objects| reads this, objects =>
          Row(keys[i], objects[i].values))
    }

    /** The position of a key, or the number of keys. */
    function Find(key: Tags): (i: nat)
      reads this
      ensures i <= |keys| && (i < |keys| ==> keys[i] == key)
      ensures forall j :: 0 <= j < i ==> keys[j] != key
    {
      IndexOf(keys, key)
    }
  }

  /** The events already handled, added into `pre`. */
  ghost function MergePart(pre: Stats, stats: Stats, done: set<string>): Stats {
    map e | e in pre.Keys + (stats.Keys * done) :: if e in stats
        && e in done then MergedValue(pre, stats, e) else pre[e]
  }

  /** The event loop of `add_stats`: `stats` is added into `pre`, in place. */
  method AddEvents(pre: StatObject, stats: StatObject)
    requires pre != stats
    modifies pre
    ensures pre.values == old(Merge(pre.values, stats.values))
  {
    ghost var before := pre.values;
    var todo := stats.values.Keys;
    ghost var done := {};
    while todo != {}
      invariant todo <= stats.values.Keys && done == stats.values.Keys - todo
      invariant pre.values == MergePart(before, stats.values, done)
      decreases todo
    {
      var event :| event in todo;
      if event in pre.values && event != "load" {
        pre.values := pre.values[event := stats.values[event] + pre.values[event]];
      } else {
        pre.values := pre.values[event := stats.values[event]];
      }
      todo, done := todo - {event}, done + {event};
    }
  }

  /** `add_stats`: the caller's object is stored if the tags are new, otherwise added into the object stored first. */
  method AddStats(tagMap: TagMap, tags: Tags, stats: StatObject)
    requires tagMap.Valid() && stats !in tagMap.objects
    modifies tagMap, if tagMap.Find(tags) < |tagMap.keys| then {tagMap.objects[tagMap.Find(tags)]} else {}
    ensures tagMap.Valid() && tagMap.time == old(tagMap.time)
    ensures tagMap.Rows() == old(AddRow(tagMap.Rows(), tags, stats.values))
    ensures if old(tagMap.Find(tags)) < old(|tagMap.keys|) then
              tagMap.keys == old(tagMap.keys) && tagMap.objects == old(tagMap.objects)
            else tagMap.keys == old(tagMap.keys) + [tags] && tagMap.objects == old(tagMap.objects) + [stats]
  {
    var i := tagMap.Find(tags);
    ghost var rows := tagMap.Rows();
    assert FindRow(rows, tags) == i by {
      assert forall j :: 0 <= j < |rows| ==> rows[j].tags == tagMap.keys[j];
    }
    if i < |tagMap.keys| {
      AddEvents(tagMap.objects[i], stats);
    } else {
      tagMap.keys := tagMap.keys + [tags];
      tagMap.objects := tagMap.objects + [stats];
    }
  }

  // ---------- group_ratesbytags ----------

  datatype Filters = Filters(user: Option<string>, job: Option<string>, server: Option<string>)

  const NO_FILTERS := Filters(None, None, None)

  /** Whether a tag is absent or has the filter's value. */
  predicate Passes(tags: Tags, tag: string, filter: Option<string>) {
    filter.None? || tag !in tags || tags[tag] == filter.value
  }

  predicate Keep(filters: Filters, server: string, tags: Tags) {
    && Passes(tags, "uid", filters.user)
    && Passes(tags, "jid", filters.job)
    && (filters.server.None? || server == filters.server.value)
  }

  /** The rows whose restricted tags pass the filters. */
  function Kept(rows: seq<Row>, filters: Filters, server: string, wanted: set<string>): seq<Row> {
    if rows == [] then []
    else
      var k := |rows| - 1;
      Kept(rows[..k], filters, server, wanted) +
      if Keep(filters, server, Restrict(rows[k].tags, wanted)) then [rows[k]] else []
  }

  /** Filters act on whole groups: a group passes or is absent, its rows are never split. */
  lemma {:induction false} KeptGroups(rows: seq<Row>, filters: Filters, server: string, wanted: set<string>)
    ensures Group(Kept(rows, filters, server, wanted), wanted)
         == map key | key in Group(rows, wanted) && Keep(filters, server, key) :: Group(rows, wanted)[key]
  {
    hide Keep, Restrict, Merge;
    if rows != [] {
      var k := |rows| - 1;
      var before := Kept(rows[..k], filters, server, wanted);
      KeptGroups(rows[..k], filters, server, wanted);
      if Keep(filters, server, Restrict(rows[k].tags, wanted)) {
        assert (before + [rows[k]])[..|before|] == before;
      } else {
        assert before + [] == before;
      }
    }
  }

  /** One turn of the tag loop: restrict the tags, filter, accumulate. */
  method AddKept(dest: TagMap, tags: Tags, stats: StatObject, server: string, wanted: set<string>, filters: Filters)
    requires dest.Valid() && stats !in dest.Objects()
    modifies dest, dest.Objects()
    ensures dest.Valid() && dest.time == old(dest.time)
    ensures dest.Rows() == if Keep(filters, server, Restrict(tags, wanted))
                           then old(AddRow(dest.Rows(), Restrict(tags, wanted), stats.values)) else old(dest.Rows())
    ensures dest.Objects() <= old(dest.Objects()) + {stats}
    ensures if Keep(filters, server, Restrict(tags, wanted)) && Restrict(tags, wanted) !in old(dest.keys) then
              dest.keys == old(dest.keys) + [Restrict(tags, wanted)] && dest.objects == old(dest.objects) + [stats]
            else dest.keys == old(dest.keys) && dest.objects == old(dest.objects)
  {
    hide Keep, Restrict, AddRow, FindRow, IndexOf;
    var current := Restrict(tags, wanted);
    if Keep(filters, server, current) {
      ghost var stored := dest.Find(current);
      assert stored < |dest.keys| ==> dest.objects[stored] in dest.objects;
      AddStats(dest, current, stats);
    }
  }

  /** The row's object is the one its group is stored in: it is kept, and no row before it has its tags. */
  predicate Opens(tags: seq<Tags>, j: nat, filters: Filters, server: string, wanted: set<string>)
    requires j < |tags|
  {
    && Keep(filters, server, Restrict(tags[j], wanted))
    && forall i :: 0 <= i < j ==> Restrict(tags[i], wanted) != Restrict(tags[j], wanted)
  }

  /** Each group of the first `n` rows is stored in the object of the row that opens it; no other object is stored. */
  ghost predicate Shares(groups: seq<Tags>, stored: seq<StatObject>, keys: seq<Tags>, objects: seq<StatObject>,
                         n: nat, filters: Filters, server: string, wanted: set<string>)
    requires n <= |keys| == |objects|
  {
    && |groups| == |stored|
    && (forall j :: 0 <= j < n ==> Placed(groups, stored, keys, objects, j, filters, server, wanted))
    && (forall j :: n <= j < |keys| ==> objects[j] !in stored)
    && (forall key :: key in groups <==> exists j :: 0 <= j < n && HasKey(keys, j, key, filters, server, wanted))
  }

  predicate HasKey(keys: seq<Tags>, j: nat, key: Tags, filters: Filters, server: string, wanted: set<string>)
    requires j < |keys|
  {
    Restrict(keys[j], wanted) == key && Keep(filters, server, key)
  }

  /** A row that opens a group holds it; every other row's object is not stored. */
  ghost predicate Placed(groups: seq<Tags>, stored: seq<StatObject>, keys: seq<Tags>, objects: seq<StatObject>,
                         j: nat, filters: Filters, server: string, wanted: set<string>)
    requires j < |keys| == |objects| && |groups| == |stored|
  {
    if Opens(keys, j, filters, server, wanted) then
      exists g :: 0 <= g < |groups| && groups[g] == Restrict(keys[j], wanted) && stored[g] == objects[j]
    else objects[j] !in stored
  }

  lemma {:induction false} SharesStep(groups: seq<Tags>, stored: seq<StatObject>, keys: seq<Tags>,
                                      objects: seq<StatObject>, n: nat, filters: Filters, server: string,
                                      wanted: set<string>)
    requires n < |keys| == |objects| && Distinct(objects)
    requires Shares(groups, stored, keys, objects, n, filters, server, wanted)
    ensures var key := Restrict(keys[n], wanted);
      if Keep(filters, server, key) && key !in groups then
        Shares(groups + [key], stored + [objects[n]], keys, objects, n + 1, filters, server, wanted)
      else Shares(groups, stored, keys, objects, n + 1, filters, server, wanted)
  {
    hide Keep, Restrict;
    var key := Restrict(keys[n], wanted);
    Different(objects, n);
    assert Opens(keys, n, filters, server, wanted) <==> Keep(filters, server, key) && key !in groups by {
      forall i | 0 <= i < n && Restrict(keys[i], wanted) == key && Keep(filters, server, key) ensures key in groups {
        assert HasKey(keys, i, key, filters, server, wanted);
      }
    }
    var adds := Keep(filters, server, key) && key !in groups;
    var groups', stored' := if adds then groups + [key] else groups, if adds then stored + [objects[n]] else stored;
    forall j | 0 <= j < n + 1 ensures Placed(groups', stored', keys, objects, j, filters, server, wanted) {
      if j < n {
        assert Placed(groups, stored, keys, objects, j, filters, server, wanted);
        assert objects[j] != objects[n];
        if Opens(keys, j, filters, server, wanted) {
          var g :| 0 <= g < |groups| && groups[g] == Restrict(keys[j], wanted) && stored[g] == objects[j];
          assert groups'[g] == groups[g] && stored'[g] == stored[g];
        }
      } else if adds {
        assert groups'[|groups|] == key && stored'[|groups|] == objects[n];
      }
    }
    forall other
      ensures other in groups' <==> exists j :: 0 <= j < n + 1 && HasKey(keys, j, other, filters, server, wanted)
    {
      assert HasKey(keys, n, other, filters, server, wanted) <==> other == key && Keep(filters, server, key);
    }
  }

  /** A new map with the time of `source` and no groups. */
  method EmptyLike(source: TagMap) returns (dest: TagMap)
    ensures fresh(dest) && dest.Valid() && dest.time == source.time && dest.keys == [] && dest.objects == []
    ensures dest.Rows() == [] && dest.Objects() == {}
  {
    dest := new TagMap();
    dest.time := source.time;
  }

  /**
   * The tag loop of `group_ratesbytags` for one server. The result is about the old contents of the source: the new
   * map stores the source's own objects and sums into them, but each is read before it is changed.
   */
  method RegroupServer(source: TagMap, server: string, wanted: set<string>, filters: Filters) returns (dest: TagMap)
    requires source.Valid()
    modifies source.Objects()
    ensures fresh(dest) && dest.Valid() && dest.time == source.time
    ensures dest.Rows() == GroupRows(Kept(old(source.Rows()), filters, server, wanted), wanted)
    ensures dest.Objects() <= source.Objects()
    ensures Shares(dest.keys, dest.objects, source.keys, source.objects, |source.keys|, filters, server, wanted)
    ensures forall o :: o in source.Objects() && o !in dest.Objects() ==> o.values == old(o.values)
  {
    hide Keep, GroupRows, Restrict, AddRow, Distinct, Shares;
    ghost var rows := source.Rows();
    dest := EmptyLike(source);
    NoRows(wanted);
    NothingShared(source.keys, source.objects, filters, server, wanted);
    for i := 0 to |source.keys|
      invariant dest.Valid() && dest.time == source.time
      invariant dest.Objects() <= source.Objects()
      invariant Shares(dest.keys, dest.objects, source.keys, source.objects, i, filters, server, wanted)
      invariant forall j :: i <= j < |source.keys| ==> source.objects[j] !in dest.Objects()
      invariant forall j :: 0 <= j < |source.keys| && source.objects[j] !in dest.Objects() ==>
                  source.objects[j].values == rows[j].stats
      invariant dest.Rows() == GroupRows(Kept(rows[..i], filters, server, wanted), wanted)
    {
      Different(source.objects, i);
      KeptStep(rows, i, filters, server, wanted);
      SharesStep(dest.keys, dest.objects, source.keys, source.objects, i, filters, server, wanted);
      AddKept(dest, source.keys[i], source.objects[i], server, wanted, filters);
    }
    assert rows[..|rows|] == rows;
  }

  lemma {:induction false} Different(objects: seq<StatObject>, i: nat)
    requires Distinct(objects) && i < |objects|
    ensures forall j :: i < j < |objects| ==> objects[j] != objects[i]
  {
  }

  lemma {:induction false} NothingShared(keys: seq<Tags>, objects: seq<StatObject>, filters: Filters, server: string,
                                         wanted: set<string>)
    requires |keys| == |objects|
    ensures Shares([], [], keys, objects, 0, filters, server, wanted)
  {
  }

  lemma {:induction false} NoRows(wanted: set<string>)
    ensures GroupRows([], wanted) == []
  {
  }

  lemma {:induction false} KeptStep(rows: seq<Row>, i: nat, filters: Filters, server: string, wanted: set<string>)
    requires i < |rows|
    ensures var before, after := Kept(rows[..i], filters, server, wanted), Kept(rows[..i + 1], filters, server, wanted);
      var key := Restrict(rows[i].tags, wanted);
      if Keep(filters, server, key) then
        GroupRows(after, wanted) == AddRow(GroupRows(before, wanted), key, rows[i].stats)
      else after == before
  {
    hide Keep, GroupRows, Restrict;
    var kept := Kept(rows[..i], filters, server, wanted);
    assert rows[..i + 1][..i] == rows[..i];
    assert kept + [] == kept;
    GroupRowsAdd(kept, rows[i], wanted);
  }
}
