/** A group as the sum of its rows, in order: which row comes first matters once its object is overwritten. */
module GroupMembers {
  import opened Grouping
  import opened Load

  /** The events of the rows with these tags, in order. */
  function Under(rows: seq<Row>, wanted: set<string>, key: Tags): seq<Stats> {
    if rows == [] then []
    else
      var k := |rows| - 1;
      Under(rows[..k], wanted, key) + if Restrict(rows[k].tags, wanted) == key then [rows[k].stats] else []
  }

  /** Everything added into the first. */
  function Fold(all: seq<Stats>): Stats
    requires all != []
  {
    var k := |all| - 1;
    if k == 0 then all[0] else Merge(Fold(all[..k]), all[k])
  }

  lemma {:induction false} FoldStep(all: seq<Stats>, stats: Stats)
    ensures Fold(all + [stats]) == if all == [] then stats else Merge(Fold(all), stats)
  {
    hide Merge;
    assert (all + [stats])[..|all|] == all;
  }

  lemma {:induction false} UnderStep(rows: seq<Row>, row: Row, wanted: set<string>, key: Tags)
    ensures Under(rows + [row], wanted, key)
         == Under(rows, wanted, key) + if Restrict(row.tags, wanted) == key then [row.stats] else []
  {
    hide Restrict;
    assert (rows + [row])[..|rows|] == rows;
  }

  /** A group is its rows added into the first of them. */
  lemma {:induction false} GroupIsFold(rows: seq<Row>, wanted: set<string>, key: Tags)
    ensures var under, groups := Under(rows, wanted, key), Group(rows, wanted);
      (key in groups <==> under != []) && (key in groups ==> groups[key] == Fold(under))
    decreases |rows|
  {
    hide Restrict, Merge, Fold;
    if rows != [] {
      var k := |rows| - 1;
      GroupIsFold(rows[..k], wanted, key);
      FoldStep(Under(rows[..k], wanted, key), rows[k].stats);
      assert [] + [rows[k].stats] == [rows[k].stats];
      assert Under(rows[..k], wanted, key) + [] == Under(rows[..k], wanted, key);
    }
  }

  /** All events the rows record. */
  function Events(all: seq<Stats>): set<string> {
    if all == [] then {} else Events(all[..|all| - 1]) + all[|all| - 1].Keys
  }

  /** The sum of an event. */
  function SumOver(all: seq<Stats>, e: string): real {
    if all == [] then 0.0 else SumOver(all[..|all| - 1], e) + Get(all[|all| - 1], e)
  }

  /** The load of the last row that has one. */
  function LastLoad(all: seq<Stats>, default: real): real {
    if all == [] then default
    else if "load" in all[|all| - 1] then all[|all| - 1]["load"]
    else LastLoad(all[..|all| - 1], default)
  }

  /** What the events of a sum are, in terms of the first row and the others. */
  lemma {:induction false} FoldIs(first: Stats, rest: seq<Stats>)
    ensures var sum := Fold([first] + rest);
      && sum.Keys == first.Keys + Events(rest)
      && Get(sum, "load") == LastLoad(rest, Get(first, "load"))
      && forall e :: e != "load" ==> Get(sum, e) == Get(first, e) + SumOver(rest, e)
    decreases |rest|
  {
    hide Fold;
    if rest == [] {
      assert [first] + rest == [] + [first];
      FoldStep([], first);
    } else {
      var k := |rest| - 1;
      FoldIs(first, rest[..k]);
      FoldStep([first] + rest[..k], rest[k]);
      assert [first] + rest == [first] + rest[..k] + [rest[k]];
    }
  }

  // ---------- requests and bytes add up ----------

  lemma {:induction false} SumAdds(events: set<string>, sum: Stats, a: Stats, b: Stats, kind: Kind)
    requires events <= sum.Keys
    requires forall e :: e in events && EventKind(e) == kind ==> sum[e] == Get(a, e) + Get(b, e)
    ensures SumOf(events, sum, kind) == SumOf(events * a.Keys, a, kind) + SumOf(events * b.Keys, b, kind)
    decreases events
  {
    hide EventKind;
    if events == {} {
      assert events * a.Keys == {} && events * b.Keys == {};
    } else {
      var e :| e in events;
      var fewer := events - {e};
      SumAdds(fewer, sum, a, b, kind);
      SumPick(events, e, sum, kind);
      SumWithout(events, e, a, kind);
      SumWithout(events, e, b, kind);
    }
  }

  lemma {:induction false} SumWithout(events: set<string>, e: string, a: Stats, kind: Kind)
    requires e in events
    ensures SumOf(events * a.Keys, a, kind)
         == SumOf((events - {e}) * a.Keys, a, kind) + if EventKind(e) == kind then Get(a, e) else 0.0
  {
    hide EventKind;
    if e in a {
      SumPick(events * a.Keys, e, a, kind);
      assert events * a.Keys - {e} == (events - {e}) * a.Keys;
    } else {
      assert events * a.Keys == (events - {e}) * a.Keys;
    }
  }

  lemma {:induction false} NotLoad()
    ensures EventKind("load") != Requests && EventKind("load") != Bytes
  {
    LoadKind("load");
  }

  lemma {:induction false} MergeAdds(a: Stats, b: Stats)
    ensures Iops(Merge(a, b)) == Iops(a) + Iops(b)
    ensures Megabytes(Merge(a, b)) == Megabytes(a) + Megabytes(b)
  {
    hide EventKind, SumOf;
    NotLoad();
    var sum := Merge(a, b);
    SumAdds(sum.Keys, sum, a, b, Requests);
    SumAdds(sum.Keys, sum, a, b, Bytes);
    assert sum.Keys * a.Keys == a.Keys && sum.Keys * b.Keys == b.Keys;
  }

  /** The requests and the bytes of a group are the sums over its rows. */
  lemma {:induction false} FoldAdds(all: seq<Stats>)
    requires all != []
    ensures Iops(Fold(all)) == TotalIops(all) && Megabytes(Fold(all)) == TotalMegabytes(all)
    decreases |all|
  {
    hide Merge, Iops, Megabytes;
    var k := |all| - 1;
    if k == 0 {
      assert all[..0] == [];
    } else {
      FoldAdds(all[..k]);
      MergeAdds(Fold(all[..k]), all[k]);
    }
  }
}
