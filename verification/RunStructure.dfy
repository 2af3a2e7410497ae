/** How a host text splits into runs, a run being a digit run or a bracket group. */
module RunStructure {
  import opened Decimal
  import opened Expansion

  datatype State = Text | Number | Group

  function Next(state: State, c: char): State {
    if state == Group then if c == ']' then Text else Group
    else if c == '[' then Group
    else if IsDigit(c) then Number
    else Text
  }

  /** The number of runs that begin in `s` when it is read from `state`. */
  function RunsFrom(state: State, s: string): nat
    decreases |s|
  {
    if s == "" then 0
    else
      var next := Next(state, s[0]);
      (if next != state && next != Text then 1 else 0) + RunsFrom(next, s[1..])
  }

  function StateAfter(state: State, s: string): State
    decreases |s|
  {
    if s == "" then state else StateAfter(Next(state, s[0]), s[1..])
  }

  function Runs(s: string): nat {
    RunsFrom(Text, s)
  }

  predicate EndsInDigit(s: string) {
    s != "" && IsDigit(s[|s| - 1])
  }

  predicate StartsWithDigit(s: string) {
    s != "" && IsDigit(s[0])
  }

  predicate HasDigit(s: string) {
    exists i :: 0 <= i < |s| && IsDigit(s[i])
  }

  lemma {:induction false} RunsConcat(state: State, a: string, b: string)
    ensures RunsFrom(state, a + b) == RunsFrom(state, a) + RunsFrom(StateAfter(state, a), b)
    ensures StateAfter(state, a + b) == StateAfter(StateAfter(state, a), b)
    decreases |a|
  {
    if a == "" {
      assert a + b == b;
    } else {
      assert (a + b)[1..] == a[1..] + b;
      RunsConcat(Next(state, a[0]), a[1..], b);
    }
  }

  lemma {:induction false} AfterUnmarked(state: State, s: string)
    requires state != Group && Unmarked(s) && s != ""
    ensures StateAfter(state, s) == if EndsInDigit(s) then Number else Text
    decreases |s|
  {
    if |s| > 1 {
      AfterUnmarked(Next(state, s[0]), s[1..]);
    } else {
      assert StateAfter(Next(state, s[0]), s[1..]) == Next(state, s[0]);
    }
  }

  /** Text that does not end in a digit separates: the runs on both sides add up. */
  lemma {:induction false} RunsSeparated(p: string, t: string)
    requires Unmarked(p) && !EndsInDigit(p)
    ensures Runs(p + t) == Runs(p) + Runs(t)
  {
    RunsConcat(Text, p, t);
    if p != "" {
      AfterUnmarked(Text, p);
    }
  }

  lemma {:induction false} NumeralRuns(state: State, d: string)
    requires IsNumeral(d) && state != Group
    ensures RunsFrom(state, d) == (if state == Text then 1 else 0) && StateAfter(state, d) == Number
    decreases |d|
  {
    if |d| > 1 {
      NumeralRuns(Number, d[1..]);
    } else {
      assert RunsFrom(Number, d[1..]) == 0 && StateAfter(Number, d[1..]) == Number;
    }
  }

  /** A numeral that ends where it should is one more run. */
  lemma {:induction false} RunsNumeral(d: string, t: string)
    requires IsNumeral(d) && !StartsWithDigit(t)
    ensures Runs(d + t) == 1 + Runs(t)
  {
    RunsConcat(Text, d, t);
    NumeralRuns(Text, d);
  }

  lemma {:induction false} InsideGroup(s: string)
    requires ']' !in s
    ensures RunsFrom(Group, s) == 0 && StateAfter(Group, s) == Group
  {
    if s != "" {
      assert s == [s[0]] + s[1..];
      InsideGroup(s[1..]);
    }
  }

  /** A bracket group is one more run, whatever it holds. */
  lemma {:induction false} RunsGroup(inside: string, t: string)
    requires ']' !in inside
    ensures Runs("[" + inside + "]" + t) == 1 + Runs(t)
  {
    assert "[" + inside + "]" + t == "[" + (inside + ("]" + t));
    RunsConcat(Text, "[", inside + ("]" + t));
    RunsConcat(Group, inside, "]" + t);
    RunsConcat(Group, "]", t);
    InsideGroup(inside);
    assert ""[..] == "" && "["[1..] == "" && "]"[1..] == "";
  }

  lemma {:induction false} NoRuns(s: string)
    requires Unmarked(s) && !HasDigit(s)
    ensures Runs(s) == 0
  {
    if s != "" {
      assert !IsDigit(s[0]) && forall i :: 0 <= i < |s[1..]| ==> s[1..][i] == s[i + 1];
      NoRuns(s[1..]);
    }
  }

  /**
   * The key fact of the passes: with the number of runs behind it fixed, the place where a text splits into prefix,
   * numeral and suffix is a function of the text.
   */
  lemma {:induction false} SplitUnique(p: string, d: string, s: string, p': string, d': string, s': string)
    requires p + d + s == p' + d' + s'
    requires Unmarked(p) && !EndsInDigit(p) && IsNumeral(d) && !StartsWithDigit(s)
    requires Unmarked(p') && !EndsInDigit(p') && IsNumeral(d') && !StartsWithDigit(s')
    requires Runs(s) == Runs(s')
    ensures p == p' && d == d' && s == s'
  {
    if |p| < |p'| {
      NotLonger(p, d, s, p', d', s');
    } else if |p'| < |p| {
      NotLonger(p', d', s', p, d, s);
    } else {
      var text, text' := p + d + s, p' + d' + s';
      assert p == text[..|p|] == p';
      assert d + s == text[|p|..] == d' + s';
      LeadingNumeral(d, s);
      LeadingNumeral(d', s');
      assert d == (d + s)[..|d|] && d' == (d' + s')[..|d'|];
      assert s == (d + s)[|d|..] && s' == (d' + s')[|d'|..];
    }
  }

  /** Where the digits at the front of a text end. */
  function DigitsLength(t: string): nat {
    if StartsWithDigit(t) then 1 + DigitsLength(t[1..]) else 0
  }

  lemma {:induction false} LeadingNumeral(d: string, t: string)
    requires AllDigits(d) && !StartsWithDigit(t)
    ensures DigitsLength(d + t) == |d|
  {
    if d == "" {
      assert d + t == t;
    } else {
      assert (d + t)[1..] == d[1..] + t;
      LeadingNumeral(d[1..], t);
    }
  }

  /** A longer prefix would hold the other numeral and so leave fewer runs behind. */
  lemma {:induction false} NotLonger(p: string, d: string, s: string, p': string, d': string, s': string)
    requires p + d + s == p' + d' + s' && |p| < |p'|
    requires IsNumeral(d) && !StartsWithDigit(s)
    requires Unmarked(p') && !EndsInDigit(p') && IsNumeral(d') && !StartsWithDigit(s')
    ensures Runs(s) > Runs(s')
  {
    var text, text' := p + d + s, p' + d' + s';
    var k := |p| + |d|;
    assert text[|p'| - 1] == text'[|p'| - 1] == p'[|p'| - 1];
    assert forall i :: |p| <= i < k ==> text[i] == d[i - |p|];
    assert text[|p'|] == text'[|p'|] == d'[0];
    assert forall i :: k <= i < |text| ==> text[i] == s[i - k];
    if |p'| > k {
      var x := p'[k..];
      assert s == text[k..] == x + (d' + s');
      RunsSeparated(x, d' + s');
      RunsNumeral(d', s');
    }
  }
}
