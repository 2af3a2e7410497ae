/** From shown rows to database rows: all servers of a consumer's map, and when their rows do not arrive. */
module Insertion {
  import opened QueryBuffer

  // ---------- all servers ----------

  lemma {:induction false} CarriesBoth(a: seq<string>, x: seq<string>, b: seq<string>, y: seq<string>)
    requires Carries(a, x) && Carries(b, y)
    ensures Carries(a + b, x + y)
  {
    hide Statement, Flatten;
    var p :| Flatten(p) == x && a == Statements(p) && NoneEmpty(p);
    var q :| Flatten(q) == y && b == Statements(q) && NoneEmpty(q);
    FlattenAppend(p, q);
    assert Statements(p + q) == Statements(p) + Statements(q) && NoneEmpty(p + q);
  }

  lemma {:induction false} FlattenAppend(p: seq<seq<string>>, q: seq<seq<string>>)
    ensures Flatten(p + q) == Flatten(p) + Flatten(q)
    decreases |q|
  {
    if q == [] {
      assert p + q == p;
    } else {
      var k := |q| - 1;
      FlattenAppend(p, q[..k]);
      assert (p + q)[..|p| + k] == p + q[..k];
      assert Flatten(p) + (Flatten(q[..k]) + q[k]) == Flatten(p) + Flatten(q[..k]) + q[k];
    }
  }

  lemma {:induction false} CarriesNothing()
    ensures Carries([], [])
  {
    assert Flatten([]) == [] && Statements([]) == [] && NoneEmpty([]);
  }

  /** The rows of all servers as they are inserted, where a record that was left counts as one row. */
  ghost function AllInserted(servers: seq<Server>, stale: string): seq<string>
    requires IsRecord(stale) && AllServersFit(servers)
  {
    if servers == [] then []
    else
      var k := |servers| - 1;
      AllInserted(servers[..k], stale)
      + Flatten(Inserted(Records(ServerLists(servers[k]), LeftByServers(servers[..k], stale))))
  }

  lemma {:induction false} AllRowsAreRows(servers: seq<Server>, stale: string)
    requires IsRecord(stale) && AllServersFit(servers)
    ensures AreRows(AllServerRows(servers))
    decreases |servers|
  {
    hide IsRecord, ServerFits, ServerLists, RowEnd, Records, Flatten;
    if servers != [] {
      var k := |servers| - 1;
      assert forall i :: 0 <= i < k ==> servers[..k][i] == servers[i];
      AllRowsAreRows(servers[..k], stale);
      ServerRecords(servers[k], stale);
      RowsOfLists(ServerLists(servers[k]));
    }
  }

  lemma {:induction false} CutIn(a: seq<string>, b: seq<string>)
    ensures SomeCut(a + b) <==> SomeCut(a) || SomeCut(b)
  {
    hide Cut;
    if i :| 0 <= i < |a| && Cut(a[i]) {
      assert (a + b)[i] == a[i];
    }
    if i :| 0 <= i < |b| && Cut(b[i]) {
      assert (a + b)[|a| + i] == b[i];
    }
    if i :| 0 <= i < |a + b| && Cut((a + b)[i]) {
      assert (a + b)[i] == if i < |a| then a[i] else b[i - |a|];
    }
  }

  lemma {:induction false} AllSentStep(servers: seq<Server>, stale: string)
    requires IsRecord(stale) && AllServersFit(servers) && servers != []
    ensures var k := |servers| - 1;
      AllServersFit(servers[..k])
    ensures var k := |servers| - 1; var left, lists := LeftByServers(servers[..k], stale), ServerLists(servers[k]);
      && AllRows(lists) && AreRecords(Records(lists, left))
      && AllSent(servers, stale) == AllSent(servers[..k], stale) + Sent(Records(lists, left))
      && AllServerRows(servers) == AllServerRows(servers[..k]) + Flatten(lists)
      && AllInserted(servers, stale) == AllInserted(servers[..k], stale) + Flatten(Inserted(Records(lists, left)))
  {
    hide IsRecord, ServerFits, ServerLists, RowEnd, Records, Flatten, Sent, Inserted, Left;
    var k := |servers| - 1;
    assert forall i :: 0 <= i < k ==> servers[..k][i] == servers[i];
    ServerRecords(servers[k], LeftByServers(servers[..k], stale));
  }

  /** A record at the end of the buffer is cut, whatever else is sent. */
  lemma {:induction false} SomeHitIsCut(servers: seq<Server>, stale: string, k: nat)
    requires IsRecord(stale) && AllServersFit(servers) && k < |servers|
    requires HitsEnd(Records(ServerLists(servers[k]), LeftByServers(servers[..k], stale)))
    ensures SomeCut(AllSent(servers, stale))
    decreases |servers|
  {
    hide IsRecord, ServerFits, ServerLists, RowEnd, Records, Flatten, Sent, Inserted, HitsEnd, SomeCut, AllSent,
        AllRows;
    var last := |servers| - 1;
    AllSentStep(servers, stale);
    var records := Records(ServerLists(servers[last]), LeftByServers(servers[..last], stale));
    CutIn(AllSent(servers[..last], stale), Sent(records));
    if k < last {
      assert servers[..last][..k] == servers[..k] && servers[..last][k] == servers[k];
      SomeHitIsCut(servers[..last], stale, k);
    } else {
      HitIsCut(records);
    }
  }

  /** No record of any server ends at the end of the buffer. */
  ghost predicate NoneHits(servers: seq<Server>, stale: string)
    requires IsRecord(stale) && AllServersFit(servers)
  {
    forall k :: 0 <= k < |servers| ==> !HitsEnd(Records(ServerLists(servers[k]), LeftByServers(servers[..k], stale)))
  }

  /** No group without rows comes behind rows, of its own server or of one before. */
  ghost predicate NoServerStale(servers: seq<Server>, stale: string) {
    forall k :: 0 <= k < |servers| ==>
      NoneStale(ServerLists(servers[k]), stale == "" && AllServerRows(servers[..k]) == [])
  }

  lemma {:induction false} FlattenNothing(lists: seq<seq<string>>)
    ensures Flatten(lists) == [] <==> forall j :: 0 <= j < |lists| ==> lists[j] == []
    decreases |lists|
  {
    if lists != [] {
      FlattenNothing(lists[..|lists| - 1]);
    }
  }

  /** The record buffer is clear until some server has a row. */
  lemma {:induction false} ClearUntilRows(servers: seq<Server>, stale: string)
    requires IsRecord(stale) && AllServersFit(servers)
    ensures LeftByServers(servers, stale) == "" <==> stale == "" && AllServerRows(servers) == []
    decreases |servers|
  {
    hide IsRecord, ServerFits, ServerLists, RowEnd, Records, Flatten, Left, AllRows;
    if servers != [] {
      var k := |servers| - 1;
      assert forall i :: 0 <= i < k ==> servers[..k][i] == servers[i];
      ClearUntilRows(servers[..k], stale);
      var before, lists := LeftByServers(servers[..k], stale), ServerLists(servers[k]);
      ServerRecords(servers[k], before);
      FoundBy(lists, before);
      FlattenNothing(lists);
    }
  }

  /** Then what is sent is what was in the record buffer each time; it is longer if a group repeats a record. */
  lemma {:induction false} AllSentIsInserted(servers: seq<Server>, stale: string)
    requires IsRecord(stale) && AllServersFit(servers) && NoneHits(servers, stale)
    ensures Carries(AllSent(servers, stale), AllInserted(servers, stale))
    ensures |Joined(AllInserted(servers, stale))| >= |Joined(AllServerRows(servers))|
    ensures !NoServerStale(servers, stale) ==>
              |Joined(AllInserted(servers, stale))| > |Joined(AllServerRows(servers))|
    ensures NoServerStale(servers, stale) ==> Carries(AllSent(servers, stale), AllServerRows(servers))
    decreases |servers|
  {
    hide IsRecord, ServerFits, ServerLists, RowEnd, Records, Flatten, Sent, Inserted, HitsEnd, AllRows,
        NoneStale, Carries, Joined, LeftByServers;
    if servers == [] {
      CarriesNothing();
    } else {
      var k := |servers| - 1;
      AllSentStep(servers, stale);
      assert forall i :: 0 <= i < k ==> servers[..k][..i] == servers[..i] && servers[..k][i] == servers[i];
      AllSentIsInserted(servers[..k], stale);
      var lists, left := ServerLists(servers[k]), LeftByServers(servers[..k], stale);
      SentIsInserted(lists, left);
      InsertsExactly(lists, left);
      ClearUntilRows(servers[..k], stale);
      CarriesBoth(AllSent(servers[..k], stale), AllInserted(servers[..k], stale), Sent(Records(lists, left)),
          Flatten(Inserted(Records(lists, left))));
      JoinedAppend(AllInserted(servers[..k], stale), Flatten(Inserted(Records(lists, left))));
      JoinedAppend(AllServerRows(servers[..k]), Flatten(lists));
      if NoServerStale(servers, stale) {
        CarriesBoth(AllSent(servers[..k], stale), AllServerRows(servers[..k]), Sent(Records(lists, left)),
            Flatten(lists));
      }
    }
  }

  /**
   * Over all servers, the executed statements carry exactly the positive rows, each once and in order, exactly when no
   * group without rows comes behind one that has some, of its own server or of one before, and no record ends exactly
   * at the end of its query buffer.
   */
  lemma {:induction false} InsertConservesRows(servers: seq<Server>, stale: string)
    requires IsRecord(stale) && AllServersFit(servers)
    ensures Carries(AllSent(servers, stale), AllServerRows(servers))
      <==> NoServerStale(servers, stale) && NoneHits(servers, stale)
  {
    hide IsRecord, ServerFits, ServerLists, RowEnd, Records, Sent, Inserted, HitsEnd, NoneStale, Carries, Joined,
        LeftByServers, SomeCut, AllSent, AllInserted, NoServerStale;
    if !NoneHits(servers, stale) {
      var k :| 0 <= k < |servers| && HitsEnd(Records(ServerLists(servers[k]), LeftByServers(servers[..k], stale)));
      SomeHitIsCut(servers, stale, k);
      AllRowsAreRows(servers, stale);
      if Carries(AllSent(servers, stale), AllServerRows(servers)) {
        CarriesNoneCut(AllSent(servers, stale), AllServerRows(servers));
      }
    } else {
      AllSentIsInserted(servers, stale);
      if Carries(AllSent(servers, stale), AllServerRows(servers)) {
        SameLength(AllSent(servers, stale), AllServerRows(servers), AllInserted(servers, stale));
      }
    }
  }

  // ---------- servers whose rows do not arrive ----------

  /** A group without positive values repeats the record of the group before it. */
  lemma {:induction false} RepeatedRecord(time: string, host: string, full: Entry, empty: Entry)
    requires Parsed(full) && Parsed(empty) && Fits(GroupRows(time, host, full))
    requires GroupRows(time, host, full) != [] && GroupRows(time, host, empty) == []
    ensures var lists, record := RowLists(time, host, [full, empty]), Joined(GroupRows(time, host, full));
      && Records(lists, "") == [record, record] && AreRecords(Records(lists, ""))
      && !Carries(Sent(Records(lists, "")), Flatten(lists))
  {
    hide RowEnd, Carries, Sent, Flatten, HitsEnd, Records, Joined, Cursor, RowLists, GroupRows, AllRows;
    var rows := GroupRows(time, host, full);
    assert AreRows(rows) by { GroupRowsAreRows(time, host, full); }
    TwoLists(time, host, full, empty);
    var lists := [rows, []];
    TwoRecords(rows);
    JoinedEnds(rows);
    assert AllRows(lists) by { TwoAreRows(rows); }
    assert lists[1] == [] && lists[0] != [];
    InsertsExactly(lists, "");
  }

  lemma {:induction false} GroupRowsAreRows(time: string, host: string, entry: Entry)
    requires Parsed(entry)
    ensures AreRows(GroupRows(time, host, entry))
  {
    RowIsRowEnd(TagText(time, host, entry.tags.value), entry.events);
  }

  lemma {:induction false} TwoAreRows(rows: seq<string>)
    requires AreRows(rows)
    ensures AllRows([rows, []])
  {
  }

  lemma {:induction false} TwoLists(time: string, host: string, full: Entry, empty: Entry)
    requires Parsed(full) && Parsed(empty) && GroupRows(time, host, empty) == []
    ensures RowLists(time, host, [full, empty]) == [GroupRows(time, host, full), []]
  {
    hide GroupRows;
    NoLists(time, host, "");
    RowListsStep(time, host, [full, empty], 0);
    RowListsStep(time, host, [full, empty], 1);
    assert [full, empty][..0] == [] && [full, empty][..2] == [full, empty];
    assert [full, empty][..1] == [full];
  }

  lemma {:induction false} TwoRecords(rows: seq<string>)
    requires rows != []
    ensures Records([rows, []], "") == [Joined(rows), Joined(rows)]
  {
    hide Records, Joined;
    RecordsStep([], rows, "");
    RecordsStep([rows], [], "");
    NothingSent("");
    assert [] + [rows] == [rows] && [rows] + [[]] == [rows, []];
  }
}
