/** From counters to rates, on values: joining new and old counters, clipping, scaling, aggregating. */
module Rates {
  import opened Grouping
  import opened Options

  /** One entry of a data array as the client reports it. */
  datatype Counters = Counters(
    nid: Option<string>,
    target: Option<string>,
    statsType: Option<string>,
    stats: Option<map<string, int>>)

  /** An entry with the tags the server has put on it. */
  datatype Tagged = Tagged(core: Counters, tags: Tags)

  /** One entry of a rate array. */
  datatype RateRow = RateRow(statsType: string, nid: Option<string>, tags: Tags, stats: Stats)

  // ---------- the index over the old counters ----------

  function JoinKey(nid: string, target: string, statsType: string): string {
    nid + "_" + target + "_" + statsType
  }

  /** The index key of an entry, if it has one. */
  function KeyOf(c: Counters): Option<string> {
    if c.statsType.None? then None
    else if c.statsType.value == "cpu" then Some("cpu")
    else if c.nid.None? || c.target.None? then None
    else Some(JoinKey(c.nid.value, c.target.value, c.statsType.value))
  }

  /** The string-keyed map of old values; later entries replace earlier ones. */
  function OldIndex(olds: seq<Counters>): map<string, map<string, int>> {
    if olds == [] then map[]
    else
      var k := |olds| - 1;
      var before, key := OldIndex(olds[..k]), KeyOf(olds[k]);
      if key.Some? && olds[k].stats.Some? then before[key.value := olds[k].stats.value] else before
  }

  function Indexed(olds: seq<Counters>, c: Counters): Option<map<string, int>> {
    var key := KeyOf(c);
    if key.Some? && key.value in OldIndex(olds) then Some(OldIndex(olds)[key.value]) else None
  }

  /** Whether two entries count the same thing: the server's cpu, or one client's traffic with one target. */
  predicate SameSource(a: Counters, b: Counters) {
    && a.statsType.Some? && a.statsType == b.statsType
    && (a.statsType.value == "cpu" || (a.nid.Some? && a.target.Some? && a.nid == b.nid && a.target == b.target))
  }

  /** The counters of the last old entry for the same source: the nested search the index stands for. */
  function LastMatch(olds: seq<Counters>, c: Counters): Option<map<string, int>> {
    if olds == [] then None
    else
      var k := |olds| - 1;
      if SameSource(olds[k], c) && olds[k].stats.Some? then olds[k].stats else LastMatch(olds[..k], c)
  }

  /** No underscore in the client or the type, as Lustre forms them. */
  predicate Plain(c: Counters) {
    && (c.nid.Some? ==> '_' !in c.nid.value)
    && (c.statsType.Some? ==> '_' !in c.statsType.value)
  }

  function FirstUnderscore(s: string): (k: nat)
    ensures k <= |s|
  {
    if s == "" || s[0] == '_' then 0 else 1 + FirstUnderscore(s[1..])
  }

  lemma {:induction false} FirstUnderscoreOf(a: string, b: string)
    requires '_' !in a
    ensures FirstUnderscore(a + "_" + b) == |a|
  {
    if a != "" {
      assert a[0] in a && (a + "_" + b)[1..] == a[1..] + "_" + b;
      FirstUnderscoreOf(a[1..], b);
    }
  }

  /** What follows the last underscore has no underscore and is as long as possible. */
  lemma {:induction false} SameTail(a: string, t: string, a': string, t': string)
    requires '_' !in t && '_' !in t' && a + "_" + t == a' + "_" + t'
    ensures a == a' && t == t'
  {
    var s, s' := a + "_" + t, a' + "_" + t';
    assert s[|a|] == '_' && s'[|a'|] == '_';
    assert forall i :: |a| < i < |s| ==> s[i] == t[i - |a| - 1];
    assert forall i :: |a'| < i < |s| ==> s'[i] == t'[i - |a'| - 1];
    assert a == s[..|a|] && a' == s'[..|a'|];
    assert t == s[|a| + 1..] && t' == s'[|a'| + 1..];
  }

  /** The key is injective without underscores in client and type, whatever the target. */
  lemma {:induction false} JoinKeyInjective(n: string, g: string, t: string, n': string, g': string, t': string)
    requires '_' !in n && '_' !in n' && '_' !in t && '_' !in t'
    requires JoinKey(n, g, t) == JoinKey(n', g', t')
    ensures n == n' && g == g' && t == t'
  {
    SameTail(n + "_" + g, t, n' + "_" + g', t');
    FirstUnderscoreOf(n, g);
    FirstUnderscoreOf(n', g');
    var s := n + "_" + g;
    assert n == s[..|n|] && n' == s[..|n'|] && g == s[|n| + 1..] && g' == s[|n'| + 1..];
  }

  /** A client's key is never the key of the cpu. */
  lemma {:induction false} NeverCpu(n: string, g: string, t: string)
    ensures JoinKey(n, g, t) != "cpu"
  {
    var key := JoinKey(n, g, t);
    assert key[|n|] == '_';
    assert forall i :: 0 <= i < |"cpu"| ==> "cpu"[i] != '_';
  }

  lemma {:induction false} SameKey(a: Counters, b: Counters)
    requires Plain(a) && Plain(b) && KeyOf(b).Some?
    ensures KeyOf(a) == KeyOf(b) <==> SameSource(a, b)
  {
    if KeyOf(a) == KeyOf(b) {
      if a.statsType.value != "cpu" {
        NeverCpu(a.nid.value, a.target.value, a.statsType.value);
      }
      if b.statsType.value != "cpu" {
        NeverCpu(b.nid.value, b.target.value, b.statsType.value);
        JoinKeyInjective(a.nid.value, a.target.value, a.statsType.value, b.nid.value, b.target.value,
            b.statsType.value);
      }
    }
  }

  /** The index join is the nested search for the last old entry of the same source. */
  lemma {:induction false} JoinIsSearch(olds: seq<Counters>, c: Counters)
    requires Plain(c) && forall i :: 0 <= i < |olds| ==> Plain(olds[i])
    ensures KeyOf(c).Some? ==> Indexed(olds, c) == LastMatch(olds, c)
  {
    if olds != [] && KeyOf(c).Some? {
      var k := |olds| - 1;
      JoinIsSearch(olds[..k], c);
      SameKey(olds[k], c);
    }
  }

  /** The last old entry with counters under the key of `c`, or -1. */
  function LastWithKey(olds: seq<Counters>, c: Counters): (i: int)
    ensures -1 <= i < |olds|
  {
    if olds == [] then -1
    else
      var k := |olds| - 1;
      if KeyOf(olds[k]) == KeyOf(c) && olds[k].stats.Some? then k else LastWithKey(olds[..k], c)
  }

  /** The last old entry with counters of the source of `c`, or -1. */
  function LastOfSource(olds: seq<Counters>, c: Counters): (i: int)
    ensures -1 <= i < |olds|
  {
    if olds == [] then -1
    else
      var k := |olds| - 1;
      if SameSource(olds[k], c) && olds[k].stats.Some? then k else LastOfSource(olds[..k], c)
  }

  /**
   * Exactly when the join takes the entry that the nested search takes, whatever the names: when the last old entry
   * under the key, if there is one, is of the same source.
   */
  lemma {:induction false} JoinExactly(olds: seq<Counters>, c: Counters)
    requires KeyOf(c).Some?
    ensures var i, j := LastWithKey(olds, c), LastOfSource(olds, c);
      && Indexed(olds, c) == (if i < 0 then None else olds[i].stats)
      && LastMatch(olds, c) == (if j < 0 then None else olds[j].stats)
      && (i == j <==> i < 0 || SameSource(olds[i], c))
  {
    if olds != [] {
      var k := |olds| - 1;
      JoinExactly(olds[..k], c);
      LastIsBelow(olds, c);
    }
  }

  /** A condition on names alone: no old entry of another source has the key of `c`. */
  lemma {:induction false} JoinWithoutCollision(olds: seq<Counters>, c: Counters)
    requires KeyOf(c).Some?
    requires forall i :: 0 <= i < |olds| && KeyOf(olds[i]) == KeyOf(c) ==> SameSource(olds[i], c)
    ensures Indexed(olds, c) == LastMatch(olds, c)
  {
    hide KeyOf, SameSource;
    JoinExactly(olds, c);
    LastWithKeyHas(olds, c);
  }

  lemma {:induction false} LastWithKeyHas(olds: seq<Counters>, c: Counters)
    ensures var i := LastWithKey(olds, c); i >= 0 ==> KeyOf(olds[i]) == KeyOf(c) && olds[i].stats.Some?
  {
    hide KeyOf;
    if olds != [] {
      LastWithKeyHas(olds[..|olds| - 1], c);
    }
  }

  /** An entry of the same source is under the same key. */
  lemma {:induction false} LastIsBelow(olds: seq<Counters>, c: Counters)
    requires KeyOf(c).Some?
    ensures LastOfSource(olds, c) <= LastWithKey(olds, c)
  {
    if olds != [] {
      LastIsBelow(olds[..|olds| - 1], c);
    }
  }

  /** With underscores in clients the join can take another client's counters. */
  lemma {:induction false} UnderscoresCollide()
    ensures var a := Counters(Some("a_b"), Some("c"), Some("oss"), Some(map["reads" := 5]));
      var b := Counters(Some("a"), Some("b_c"), Some("oss"), Some(map["reads" := 9]));
      Indexed([a], b) == a.stats && LastMatch([a], b) == None
  {
    var a := Counters(Some("a_b"), Some("c"), Some("oss"), Some(map["reads" := 5]));
    assert "a_b" + "_" + "c" + "_" + "oss" == "a_b_c_oss" == "a" + "_" + "b_c" + "_" + "oss";
    assert [a][..0] == [];
    assert OldIndex([a]) == map["a_b_c_oss" := map["reads" := 5]];
    assert LastMatch([], a) == None;
  }

  // ---------- rates ----------

  /** The increase of an event, never negative, 0 if it was not counted before. */
  function Delta(news: map<string, int>, olds: map<string, int>, event: string): int
    requires event in news
  {
    if event in olds && news[event] > olds[event] then news[event] - olds[event] else 0
  }

  function Rate(delta: int, idt: real): real {
    delta as real * idt
  }

  function RateStats(news: map<string, int>, olds: map<string, int>, idt: real): Stats {
    map e | e in news :: Rate(Delta(news, olds, e), idt)
  }

  function CopiedTags(e: Tagged, statsType: string): Tags {
    var copied := if statsType == "cpu" then {"server"} else {"server", "client", "system", "jid", "uid", "fid"};
    var own := if statsType == "cpu" || e.core.nid.None? then map["stats_type" := statsType]
               else map["stats_type" := statsType, "client_nid" := e.core.nid.value];
    (map t | t in copied && t in e.tags :: e.tags[t]) + own
  }

  /** The rate row of a new entry, if it has counters and its source was counted before. */
  function RateOf(e: Tagged, olds: seq<Counters>, idt: real): Option<RateRow> {
    var before := Indexed(olds, e.core);
    if before.None? || e.core.stats.None? then None
    else
      var statsType := e.core.statsType.value;
      Some(RateRow(statsType, if statsType == "cpu" then None else e.core.nid, CopiedTags(e, statsType),
                   RateStats(e.core.stats.value, before.value, idt)))
  }

  /** `calc_rates` */
  function CalcRates(news: seq<Tagged>, olds: seq<Counters>, idt: real): seq<RateRow> {
    if news == [] then []
    else
      var k := |news| - 1;
      var row := RateOf(news[k], olds, idt);
      CalcRates(news[..k], olds, idt) + if row.Some? then [row.value] else []
  }

  /** Clipping makes every rate non-negative. */
  lemma {:induction false} RatesNonNegative(news: seq<Tagged>, olds: seq<Counters>, idt: real)
    requires idt > 0.0
    ensures forall i :: 0 <= i < |CalcRates(news, olds, idt)| ==> NonNegative(CalcRates(news, olds, idt)[i].stats)
  {
    hide Indexed, CopiedTags;
    if news != [] {
      RatesNonNegative(news[..|news| - 1], olds, idt);
    }
  }

  // ---------- aggregation by type ----------

  /** The clients seen among the rows of a type. */
  function Clients(rows: seq<RateRow>, statsType: string): set<string> {
    if rows == [] then {}
    else
      var r := rows[|rows| - 1];
      Clients(rows[..|rows| - 1], statsType) + if r.statsType == statsType && r.nid.Some? then {r.nid.value} else {}
  }

  /** The rows of a type with their client count: 1 where a client is seen first, else 0. */
  function AggregateRows(rows: seq<RateRow>, statsType: string): seq<Row> {
    if rows == [] then []
    else
      var k := |rows| - 1;
      var r, before := rows[k], AggregateRows(rows[..k], statsType);
      if r.statsType != statsType then before
      else before + [Row(r.tags, r.stats["nclients" := NewClient(r, Clients(rows[..k], statsType))])]
  }

  /** A client is counted in the first row of its type, and only there. */
  lemma {:induction false} CountedFirst(rows: seq<RateRow>, r: RateRow, statsType: string)
    requires r.statsType == statsType
    ensures var first := r.nid.Some? && forall i :: 0 <= i < |rows| && rows[i].statsType == statsType ==>
          rows[i].nid != r.nid;
      AggregateRows(rows + [r], statsType)
      == AggregateRows(rows, statsType) + [Row(r.tags, r.stats["nclients" := if first then 1.0 else 0.0])]
  {
    assert (rows + [r])[..|rows|] == rows;
    if r.nid.Some? {
      SeenBefore(rows, statsType, r.nid.value);
    }
  }

  lemma {:induction false} SeenBefore(rows: seq<RateRow>, statsType: string, nid: string)
    ensures nid in Clients(rows, statsType) <==>
            exists i :: 0 <= i < |rows| && rows[i].statsType == statsType && rows[i].nid == Some(nid)
    decreases |rows|
  {
    if rows != [] {
      var k := |rows| - 1;
      SeenBefore(rows[..k], statsType, nid);
      assert forall i :: 0 <= i < k ==> rows[..k][i] == rows[i];
    }
  }

  function NewClient(r: RateRow, seen: set<string>): real {
    if r.nid.Some? && r.nid.value !in seen then 1.0 else 0.0
  }

  /** The client counts of a server's groups add up to the number of different clients. */
  lemma {:induction false} ClientsCounted(rows: seq<RateRow>, statsType: string)
    ensures RowSum(AggregateRows(rows, statsType), "nclients") == |Clients(rows, statsType)| as real
  {
    if rows != [] {
      var k := |rows| - 1;
      var before, seen := AggregateRows(rows[..k], statsType), Clients(rows[..k], statsType);
      ClientsCounted(rows[..k], statsType);
      if rows[k].statsType == statsType {
        assert AggregateRows(rows, statsType)[..|before|] == before;
        if rows[k].nid.Some? && rows[k].nid.value in seen {
          assert Clients(rows, statsType) == seen;
        }
      } else {
        assert Clients(rows, statsType) == seen;
      }
    }
  }

  /** Distinct-client conservation, through aggregation and any number of regroupings. */
  lemma {:induction false} ClientsConserved(rows: seq<RateRow>, statsType: string, wanted: set<string>,
                                            coarser: set<string>)
    ensures var groups := GroupRows(AggregateRows(rows, statsType), wanted);
      && RowSum(groups, "nclients") == |Clients(rows, statsType)| as real
      && RowSum(GroupRows(groups, coarser), "nclients") == |Clients(rows, statsType)| as real
  {
    var raw := AggregateRows(rows, statsType);
    ClientsCounted(rows, statsType);
    GroupingConserves(raw, wanted, "nclients");
    GroupingConserves(GroupRows(raw, wanted), coarser, "nclients");
  }
}
