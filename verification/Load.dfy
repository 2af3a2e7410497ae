/** Derived events of a server's groups, on values: iops, bytes and the share of the server's load. */
module Load {
  import opened Grouping
  import opened Substrings

  datatype Kind = Ignored | Bytes | LoadValue | Requests

  /** How `derived_events` classifies an event by its name. */
  function EventKind(event: string): Kind {
    if Contains(event, "[usec") || event in {"read_bytes", "write_bytes", "nclients", "bytes", "iops"} then Ignored
    else if Contains(event, "[bytes") then Bytes
    else if event == "load" then LoadValue
    else Requests
  }

  lemma {:induction false} LoadKind(event: string)
    ensures EventKind(event) == LoadValue <==> event == "load"
  {
    assert !Contains("load", "[usec") && !Contains("load", "[bytes");
  }

  const BYTES_FACTOR: real := 1.0 / 1048576.0
  const LOAD_FACTOR: real := 0.01

  /** The sum of the values of one kind over a set of events. */
  ghost function SumOf(events: set<string>, stats: Stats, kind: Kind): real
    requires events <= stats.Keys
  {
    if events == {} then 0.0
    else
      var e :| e in events;
      SumOf(events - {e}, stats, kind) + if EventKind(e) == kind then stats[e] else 0.0
  }

  /** Any event may be taken last: the order of the JSON object does not matter. */
  lemma {:induction false} SumPick(events: set<string>, e: string, stats: Stats, kind: Kind)
    requires events <= stats.Keys && e in events
    ensures SumOf(events, stats, kind) == SumOf(events - {e}, stats, kind) + if EventKind(e) == kind then stats[e]
        else 0.0
    decreases events
  {
    hide EventKind;
    var d :| d in events && SumOf(events, stats, kind)
                            == SumOf(events - {d}, stats, kind) + if EventKind(d) == kind then stats[d] else 0.0;
    if d != e {
      SumPick(events - {d}, e, stats, kind);
      SumPick(events - {e}, d, stats, kind);
      assert events - {d} - {e} == events - {e} - {d};
    }
  }

  lemma {:induction false} SumNonNegative(events: set<string>, stats: Stats, kind: Kind)
    requires events <= stats.Keys && NonNegative(stats)
    ensures SumOf(events, stats, kind) >= 0.0
    decreases events
  {
    hide EventKind;
    if e :| e in events {
      SumPick(events, e, stats, kind);
      SumNonNegative(events - {e}, stats, kind);
    }
  }

  /** Events that are new or of another kind change no sum. */
  lemma {:induction false} SumAgrees(big: set<string>, a: Stats, small: set<string>, b: Stats, kind: Kind)
    requires small <= big <= a.Keys && small <= b.Keys
    requires forall e :: e in small && EventKind(e) == kind ==> a[e] == b[e]
    requires forall e :: e in big - small && EventKind(e) == kind ==> a[e] == 0.0
    ensures SumOf(big, a, kind) == SumOf(small, b, kind)
    decreases big
  {
    hide EventKind;
    if big == {} {
      assert small == {};
    } else {
      var e :| e in big;
      SumPick(big, e, a, kind);
      if e in small {
        SumPick(small, e, b, kind);
        SumAgrees(big - {e}, a, small - {e}, b, kind);
      } else {
        SumAgrees(big - {e}, a, small, b, kind);
      }
    }
  }

  ghost function Iops(stats: Stats): real {
    SumOf(stats.Keys, stats, Requests)
  }

  ghost function Megabytes(stats: Stats): real {
    SumOf(stats.Keys, stats, Bytes) * BYTES_FACTOR
  }

  function Scaled(stats: Stats): Stats {
    map e | e in stats :: if EventKind(e) == Bytes then stats[e] * BYTES_FACTOR else stats[e]
  }

  /** A group after the first loop: bytes in megabytes, load, iops and bytes recorded. */
  ghost function Summarised(stats: Stats): Stats {
    Scaled(stats)["load" := Get(stats, "load") * LOAD_FACTOR]["iops" := Iops(stats)]["bytes" := Megabytes(stats)]
  }

  ghost function TotalIops(groups: seq<Stats>): real {
    if groups == [] then 0.0 else TotalIops(groups[..|groups| - 1]) + Iops(groups[|groups| - 1])
  }

  ghost function TotalMegabytes(groups: seq<Stats>): real {
    if groups == [] then 0.0 else TotalMegabytes(groups[..|groups| - 1]) + Megabytes(groups[|groups| - 1])
  }

  /** The share of a group with the given iops and bytes, per kind of traffic that occurs at all. */
  function Share(iops: real, bytes: real, totalIops: real, totalBytes: real): real {
    (if totalIops > 0.0 then iops * (1.0 / totalIops) else 0.0) +
    (if totalBytes > 0.0 then bytes * (1.0 / totalBytes) else 0.0)
  }

  function Norm(totalIops: real, totalBytes: real): int {
    (if totalIops > 0.0 then 1 else 0) + (if totalBytes > 0.0 then 1 else 0)
  }

  /** The part of a load that a share makes. */
  function Part(load: real, share: real, norm: int): real
    requires norm > 0
  {
    load * share / norm as real
  }

  /** A group after the second loop. */
  function Apportioned(stats: Stats, totalIops: real, totalBytes: real): Stats
    requires "load" in stats && "iops" in stats && "bytes" in stats
  {
    var norm := Norm(totalIops, totalBytes);
    if norm > 0 then
      stats["load_eff" := Part(stats["load"], Share(stats["iops"], stats["bytes"], totalIops, totalBytes), norm)]
    else stats
  }

  /** What `derived_events` makes of one group among all groups of a server. */
  ghost function Derived(stats: Stats, groups: seq<Stats>): Stats {
    Apportioned(Summarised(stats), TotalIops(groups), TotalMegabytes(groups))
  }

  ghost function EffectiveLoad(stats: Stats, groups: seq<Stats>): real {
    Get(Derived(stats, groups), "load_eff")
  }

  ghost function EffectiveSum(some: seq<Stats>, groups: seq<Stats>): real {
    if some == [] then 0.0 else EffectiveSum(some[..|some| - 1], groups) + EffectiveLoad(some[|some| - 1], groups)
  }

  // ---------- the load is shared out completely ----------

  lemma {:induction false} TotalsNonNegative(groups: seq<Stats>)
    requires forall i :: 0 <= i < |groups| ==> NonNegative(groups[i])
    ensures TotalIops(groups) >= 0.0 && TotalMegabytes(groups) >= 0.0
    ensures forall i :: 0 <= i < |groups| ==>
              0.0 <= Iops(groups[i]) <= TotalIops(groups) && 0.0 <= Megabytes(groups[i]) <= TotalMegabytes(groups)
  {
    hide SumOf, NonNegative;
    if groups != [] {
      var k := |groups| - 1;
      TotalsNonNegative(groups[..k]);
      assert forall i :: 0 <= i < k ==> groups[i] == groups[..k][i];
      SumNonNegative(groups[k].Keys, groups[k], Requests);
      SumNonNegative(groups[k].Keys, groups[k], Bytes);
    }
  }

  lemma {:induction false} EffectiveLoadIs(stats: Stats, groups: seq<Stats>)
    requires Norm(TotalIops(groups), TotalMegabytes(groups)) > 0
    ensures var a, b := TotalIops(groups), TotalMegabytes(groups);
      EffectiveLoad(stats, groups)
      == (Get(stats, "load") * LOAD_FACTOR) * Share(Iops(stats), Megabytes(stats), a, b) / Norm(a, b) as real
  {
    hide SumOf, TotalIops, TotalMegabytes, Share, Scaled;
  }

  lemma {:induction false} ShareAdds(i: real, b: real, i': real, b': real, totalIops: real, totalBytes: real)
    ensures Share(i + i', b + b', totalIops, totalBytes) == Share(i, b, totalIops, totalBytes)
        + Share(i', b', totalIops, totalBytes)
  {
  }

  lemma {:induction false} PartialSum(some: seq<Stats>, groups: seq<Stats>, load: real)
    requires Norm(TotalIops(groups), TotalMegabytes(groups)) > 0
    requires forall i :: 0 <= i < |some| ==> HasLoad(some[i], load)
    ensures var a, b := TotalIops(groups), TotalMegabytes(groups);
      EffectiveSum(some, groups)
      == (load * LOAD_FACTOR) * Share(TotalIops(some), TotalMegabytes(some), a, b) / Norm(a, b) as real
  {
    hide SumOf, Share, EffectiveLoad;
    var a, b := TotalIops(groups), TotalMegabytes(groups);
    if some == [] {
      assert Share(0.0, 0.0, a, b) == 0.0 by {
        ShareAdds(0.0, 0.0, 0.0, 0.0, a, b);
      }
    } else {
      var k := |some| - 1;
      PartialSum(some[..k], groups, load);
      EffectiveLoadIs(some[k], groups);
      ShareAdds(TotalIops(some[..k]), TotalMegabytes(some[..k]), Iops(some[k]), Megabytes(some[k]), a, b);
      Distribute(load * LOAD_FACTOR, Share(TotalIops(some[..k]), TotalMegabytes(some[..k]), a, b),
                 Share(Iops(some[k]), Megabytes(some[k]), a, b), Norm(a, b) as real);
    }
  }

  lemma {:induction false} Distribute(l: real, x: real, y: real, n: real)
    requires n > 0.0
    ensures l * x / n + l * y / n == l * (x + y) / n
  {
  }

  /** Every group carries the one load of the server, and no value is negative. */
  ghost predicate Loaded(groups: seq<Stats>, load: real) {
    forall i :: 0 <= i < |groups| ==> NonNegative(groups[i]) && HasLoad(groups[i], load)
  }

  /** The effective loads of a server's groups sum exactly to its load as soon as there is any traffic. */
  lemma {:induction false} LoadIsSharedOut(groups: seq<Stats>, load: real)
    requires Loaded(groups, load)
    requires TotalIops(groups) > 0.0 || TotalMegabytes(groups) > 0.0
    ensures EffectiveSum(groups, groups) == load * LOAD_FACTOR
  {
    hide SumOf, NonNegative, EffectiveSum;
    PartialSum(groups, groups, load);
    TotalsNonNegative(groups);
  }

  /** No group gets less than nothing or more than the whole load. */
  lemma {:induction false} ShareIsBounded(groups: seq<Stats>, load: real, i: nat)
    requires Loaded(groups, load) && i < |groups| && load >= 0.0
    requires TotalIops(groups) > 0.0 || TotalMegabytes(groups) > 0.0
    ensures 0.0 <= EffectiveLoad(groups[i], groups) <= load * LOAD_FACTOR
  {
    hide SumOf, NonNegative, EffectiveLoad, TotalIops, TotalMegabytes, Share;
    var a, b := TotalIops(groups), TotalMegabytes(groups);
    TotalsNonNegative(groups);
    EffectiveLoadIs(groups[i], groups);
    ShareBounded(Iops(groups[i]), Megabytes(groups[i]), a, b);
    Weighted(load * LOAD_FACTOR, Share(Iops(groups[i]), Megabytes(groups[i]), a, b), Norm(a, b) as real);
  }

  lemma {:induction false} ShareBounded(iops: real, bytes: real, totalIops: real, totalBytes: real)
    requires 0.0 <= iops <= totalIops && 0.0 <= bytes <= totalBytes
    ensures 0.0 <= Share(iops, bytes, totalIops, totalBytes) <= Norm(totalIops, totalBytes) as real
  {
    FractionBounded(iops, totalIops);
    FractionBounded(bytes, totalBytes);
    assert Norm(totalIops, totalBytes) as real
        == (if totalIops > 0.0 then 1.0 else 0.0) + (if totalBytes > 0.0 then 1.0 else 0.0);
  }

  lemma {:induction false} FractionBounded(x: real, total: real)
    requires 0.0 <= x <= total
    ensures total > 0.0 ==> 0.0 <= x * (1.0 / total) <= 1.0
  {
    if total > 0.0 {
      assert total * (1.0 / total) == 1.0;
      assert 1.0 / total > 0.0;
      var gap := (total - x) * (1.0 / total);
      assert gap >= 0.0;
      assert x * (1.0 / total) == 1.0 - gap;
    }
  }

  lemma {:induction false} Weighted(l: real, s: real, n: real)
    requires l >= 0.0 && 0.0 <= s <= n && n > 0.0
    ensures 0.0 <= l * s / n <= l
  {
    var gap := l * (n - s);
    assert gap >= 0.0 && l * s >= 0.0;
    assert l * s == l * n - gap;
    assert l * n / n == l;
    assert gap / n >= 0.0;
    assert (l * n - gap) / n == l * n / n - gap / n;
  }

  /** A group is given nothing of the load exactly when it carries none, or has no traffic. */
  lemma {:induction false} NoShareExactly(groups: seq<Stats>, i: nat)
    requires i < |groups| && "load_eff" !in groups[i] && forall j :: 0 <= j < |groups| ==> NonNegative(groups[j])
    ensures EffectiveLoad(groups[i], groups) == 0.0
      <==> Get(groups[i], "load") == 0.0 || Iops(groups[i]) == Megabytes(groups[i]) == 0.0
  {
    hide SumOf, NonNegative, TotalIops, TotalMegabytes, Share, Scaled;
    var a, b := TotalIops(groups), TotalMegabytes(groups);
    TotalsNonNegative(groups);
    if Norm(a, b) > 0 {
      EffectiveLoadIs(groups[i], groups);
      ShareIsNothing(Iops(groups[i]), Megabytes(groups[i]), a, b);
      ProductIsNothing(Get(groups[i], "load") * LOAD_FACTOR, Share(Iops(groups[i]), Megabytes(groups[i]), a, b),
                       Norm(a, b) as real);
    } else {
      NoShare(groups[i], groups);
    }
  }

  lemma {:induction false} NoShare(stats: Stats, groups: seq<Stats>)
    requires "load_eff" !in stats && Norm(TotalIops(groups), TotalMegabytes(groups)) == 0
    ensures EffectiveLoad(stats, groups) == 0.0
  {
    hide TotalIops, TotalMegabytes, Iops, Megabytes;
  }

  lemma {:induction false} ShareIsNothing(iops: real, bytes: real, totalIops: real, totalBytes: real)
    requires 0.0 <= iops <= totalIops && 0.0 <= bytes <= totalBytes
    ensures Share(iops, bytes, totalIops, totalBytes) == 0.0 <==> iops == bytes == 0.0
  {
    FractionIsNothing(iops, totalIops);
    FractionIsNothing(bytes, totalBytes);
  }

  lemma {:induction false} FractionIsNothing(x: real, total: real)
    requires 0.0 <= x <= total
    ensures total > 0.0 ==> x * (1.0 / total) >= 0.0 && (x * (1.0 / total) == 0.0 <==> x == 0.0)
  {
    if total > 0.0 {
      assert 1.0 / total > 0.0;
      Positive(x, 1.0 / total);
    }
  }

  lemma {:induction false} Positive(x: real, y: real)
    requires x >= 0.0 && y > 0.0
    ensures x * y >= 0.0 && (x * y == 0.0 <==> x == 0.0)
  {
  }

  lemma {:induction false} ProductIsNothing(l: real, s: real, n: real)
    requires n > 0.0
    ensures l * s / n == 0.0 <==> l == 0.0 || s == 0.0
  {
    assert (l * s / n) * n == l * s;
  }

  // ---------- independently of the classification ----------

  /**
   * What one event contributes: latencies, plain byte counts, client counts, earlier results and the load contribute
   * nothing; of the others, names with `[bytes` contribute to the bytes, in megabytes, and all else to the requests.
   */
  lemma {:induction false} EventCounts(stats: Stats, e: string, value: real)
    ensures var more, change := stats[e := value], value - Get(stats, e);
      var counts := !Contains(e, "[usec") && e != "read_bytes" && e != "write_bytes" && e != "nclients" && e != "bytes"
          && e != "iops" && e != "load";
      && Iops(more) == Iops(stats) + (if counts && !Contains(e, "[bytes") then change else 0.0)
      && Megabytes(more) == Megabytes(stats) + (if counts && Contains(e, "[bytes") then change / 1048576.0 else 0.0)
  {
    LoadKind("load");
    SumChanges(stats, e, value, Requests);
    SumChanges(stats, e, value, Bytes);
  }

  lemma {:induction false} SumChanges(stats: Stats, e: string, value: real, kind: Kind)
    ensures var more := stats[e := value];
      SumOf(more.Keys, more, kind)
      == SumOf(stats.Keys, stats, kind) + if EventKind(e) == kind then value - Get(stats, e) else 0.0
  {
    hide EventKind;
    var more := stats[e := value];
    SumPick(more.Keys, e, more, kind);
    SumAgrees(more.Keys - {e}, more, stats.Keys - {e}, stats, kind);
    if e in stats {
      SumPick(stats.Keys, e, stats, kind);
    } else {
      assert stats.Keys - {e} == stats.Keys;
    }
  }

  /**
   * The effective load of a group: its load, scaled, times the mean of its shares of the requests and of the bytes,
   * where only traffic that occurs at all has a share; without any traffic none is recorded.
   */
  lemma {:induction false} EffectiveLoadIsMean(stats: Stats, groups: seq<Stats>)
    ensures var load, iops, bytes := Get(stats, "load") * 0.01, TotalIops(groups), TotalMegabytes(groups);
      && (iops > 0.0 && bytes > 0.0 ==>
            EffectiveLoad(stats, groups) == load * ((Iops(stats) / iops + Megabytes(stats) / bytes) / 2.0))
      && (iops > 0.0 && bytes <= 0.0 ==> EffectiveLoad(stats, groups) == load * (Iops(stats) / iops))
      && (iops <= 0.0 && bytes > 0.0 ==> EffectiveLoad(stats, groups) == load * (Megabytes(stats) / bytes))
      && (iops <= 0.0 && bytes <= 0.0 && "load_eff" !in stats ==> "load_eff" !in Derived(stats, groups))
  {
    hide SumOf, TotalIops, TotalMegabytes, Scaled, Iops, Megabytes;
    var a, b := TotalIops(groups), TotalMegabytes(groups);
    if Norm(a, b) > 0 {
      EffectiveLoadIs(stats, groups);
      if a > 0.0 {
        Inverse(Iops(stats), a);
      }
      if b > 0.0 {
        Inverse(Megabytes(stats), b);
      }
      MeanOf(Get(stats, "load") * LOAD_FACTOR, Iops(stats) * (1.0 / (if a > 0.0 then a else 1.0)),
             Megabytes(stats) * (1.0 / (if b > 0.0 then b else 1.0)));
    } else if "load_eff" !in stats {
      NothingRecorded(stats, groups);
    }
  }

  lemma {:induction false} Inverse(x: real, total: real)
    requires total > 0.0
    ensures x * (1.0 / total) == x / total
  {
  }

  lemma {:induction false} MeanOf(l: real, x: real, y: real)
    ensures l * (x + y) / 2.0 == l * ((x + y) / 2.0)
    ensures l * (x + 0.0) / 1.0 == l * x && l * (0.0 + y) / 1.0 == l * y
  {
  }

  lemma {:induction false} NothingRecorded(stats: Stats, groups: seq<Stats>)
    requires "load_eff" !in stats && Norm(TotalIops(groups), TotalMegabytes(groups)) == 0
    ensures "load_eff" !in Derived(stats, groups)
  {
    hide TotalIops, TotalMegabytes, Iops, Megabytes;
  }
}
