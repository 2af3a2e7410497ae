/** Sequences without repetition. */
module Distinctness {

  ghost predicate Distinct<T>(s: seq<T>) {
    forall i, j :: 0 <= i < j < |s| ==> s[i] != s[j]
  }

  /** Some `x` stands in front of every `y`. */
  ghost predicate ComesBefore<T(!new)>(all: seq<T>, x: T, y: T) {
    exists p :: 0 <= p < |all| && all[p] == x && forall q :: 0 <= q < |all| && all[q] == y ==> p < q
  }

  /** The members of a sequence, each once, in the order of their first positions. */
  ghost predicate FirstsInOrder<T(!new)>(all: seq<T>, firsts: seq<T>) {
    && Distinct(firsts) && (forall x :: x in firsts <==> x in all)
    && forall i, j :: 0 <= i < j < |firsts| ==> ComesBefore(all, firsts[i], firsts[j])
  }

  lemma {:induction false} FirstsStep<T(!new)>(all: seq<T>, firsts: seq<T>, x: T)
    requires FirstsInOrder(all, firsts)
    ensures FirstsInOrder(all + [x], if x in firsts then firsts else firsts + [x])
  {
    var more, r := all + [x], if x in firsts then firsts else firsts + [x];
    assert more[|all|] == x;
    forall i, j | 0 <= i < j < |r| ensures ComesBefore(more, r[i], r[j]) {
      if j < |firsts| {
        assert ComesBefore(all, firsts[i], firsts[j]);
        var p :| 0 <= p < |all| && all[p] == firsts[i] && forall q :: 0 <= q < |all| && all[q] == firsts[j] ==> p < q;
        assert more[p] == r[i];
      } else {
        assert r[i] in all;
        var p :| 0 <= p < |all| && all[p] == r[i];
        assert more[p] == r[i];
      }
    }
  }

  /** The first index of an element, or the length. */
  function IndexOf<T(==)>(s: seq<T>, x: T): (i: nat)
    ensures i <= |s| && (i < |s| ==> s[i] == x)
    ensures forall j :: 0 <= j < i ==> s[j] != x
  {
    if s == [] || s[0] == x then 0
    else
      var i := 1 + IndexOf(s[1..], x);
      assert forall j :: 0 < j < i ==> s[j] == s[1..][j - 1];
      i
  }

  lemma {:induction false} DistinctCounts<T(!new)>(s: seq<T>)
    ensures Distinct(s) <==> forall x :: multiset(s)[x] <= 1
  {
    if s != [] {
      var k := |s| - 1;
      DistinctCounts(s[..k]);
      assert s == s[..k] + [s[k]];
      assert forall x :: multiset(s)[x] == multiset(s[..k])[x] + if x == s[k] then 1 else 0;
      assert s[k] in s[..k] <==> multiset(s[..k])[s[k]] > 0;
      if Distinct(s) {
        assert Distinct(s[..k]);
      } else if Distinct(s[..k]) {
        var i, j :| 0 <= i < j < |s| && s[i] == s[j];
        assert s[i] in s[..k];
        assert multiset(s)[s[k]] >= 2;
      } else {
        var x :| multiset(s[..k])[x] > 1;
        assert multiset(s)[x] > 1;
      }
    }
  }

  /** Without repetition, the same members are the same multiset. */
  lemma {:induction false} SameMembers<T(!new)>(a: seq<T>, b: seq<T>)
    requires Distinct(a) && Distinct(b) && forall x :: x in a <==> x in b
    ensures multiset(a) == multiset(b)
  {
    DistinctCounts(a);
    DistinctCounts(b);
    forall x ensures multiset(a)[x] == multiset(b)[x] {
      assert x in a <==> multiset(a)[x] > 0;
      assert x in b <==> multiset(b)[x] > 0;
    }
  }

  lemma {:induction false} DistinctSame<T(!new)>(a: seq<T>, b: seq<T>)
    requires Distinct(a) && multiset(a) == multiset(b)
    ensures Distinct(b) && forall x :: x in a <==> x in b
  {
    DistinctCounts(a);
    DistinctCounts(b);
    forall x ensures x in a <==> x in b {
      assert x in a <==> x in multiset(a);
    }
  }

  lemma {:induction false} DistinctAppend<T(!new)>(a: seq<T>, b: seq<T>)
    requires Distinct(a) && Distinct(b) && forall x :: x in a ==> x !in b
    ensures Distinct(a + b)
  {
    forall i, j | 0 <= i < j < |a + b| ensures (a + b)[i] != (a + b)[j] {
      if i < |a| <= j {
        assert a[i] in a && b[j - |a|] in b;
      }
    }
  }

  lemma {:induction false} DistinctSize<T(!new)>(s: seq<T>, members: set<T>)
    requires Distinct(s) && forall x :: x in s <==> x in members
    ensures |s| == |members|
    decreases |s|
  {
    if s == [] {
      assert members == {};
    } else {
      var x, rest := s[0], s[1..];
      assert x in s && forall y :: y in s <==> y == x || y in rest;
      DistinctSize(rest, members - {x});
    }
  }

  lemma {:induction false} DistinctParts<T(!new)>(a: seq<T>, b: seq<T>)
    requires Distinct(a + b)
    ensures Distinct(a) && Distinct(b) && forall x :: x in a ==> x !in b
  {
    var s := a + b;
    assert forall i :: 0 <= i < |a| ==> s[i] == a[i];
    assert forall j :: 0 <= j < |b| ==> s[|a| + j] == b[j];
  }

  /** `run` lists, each once, exactly what was taken from `before` to leave `after`. */
  ghost predicate Takes<T(!new)>(before: set<T>, run: seq<T>, after: set<T>) {
    && Distinct(run)
    && (forall x :: x in run ==> x in before)
    && (forall x :: x in after <==> x in before && x !in run)
  }

  lemma {:induction false} TakesOne<T(!new)>(before: set<T>, x: T)
    requires x in before
    ensures Takes(before, [x], before - {x})
  {
  }

  lemma {:induction false} TakesBoth<T(!new)>(before: set<T>, a: seq<T>, middle: set<T>, b: seq<T>, after: set<T>)
    requires Takes(before, a, middle) && Takes(middle, b, after)
    ensures Takes(before, a + b, after)
  {
    DistinctAppend(a, b);
    assert forall x :: x in a + b <==> x in a || x in b;
  }
}
