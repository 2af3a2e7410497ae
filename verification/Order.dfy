/** The sort list's order is total, so sorting keeps equal keys together and is canonical. */
module Order {
  import opened Collection

  lemma {:induction false} StrTotal(a: string, b: string)
    ensures a == b || StrLess(a, b) || StrLess(b, a)
    ensures !(StrLess(a, b) && StrLess(b, a)) && !StrLess(a, a)
    decreases |a|
  {
    if a != "" {
      StrTotal(a[1..], a[1..]);
      if b != "" {
        StrTotal(a[1..], b[1..]);
        assert a == [a[0]] + a[1..] && b == [b[0]] + b[1..];
      }
    }
  }

  lemma {:induction false} StrTransitive(a: string, b: string, c: string)
    requires StrLess(a, b) && StrLess(b, c)
    ensures StrLess(a, c)
    decreases |a|
  {
    if a != "" && a[0] == b[0] == c[0] {
      StrTransitive(a[1..], b[1..], c[1..]);
    }
  }

  lemma {:induction false} LessTotal(a: Item, b: Item)
    ensures a == b || Less(a, b) || Less(b, a)
    ensures !(Less(a, b) && Less(b, a)) && !Less(a, a)
  {
    StrTotal(a.First(), b.First());
    StrTotal(a.host, b.host);
    if a.Numeric? && b.Numeric? {
      StrTotal(a.suffix, b.suffix);
    }
  }

  lemma {:induction false} LessTransitive(a: Item, b: Item, c: Item)
    requires Less(a, b) && Less(b, c)
    ensures Less(a, c)
  {
    StrTotal(a.First(), b.First());
    StrTotal(b.First(), c.First());
    if a.First() != b.First() && b.First() != c.First() {
      StrTransitive(a.First(), b.First(), c.First());
    } else if a.First() == b.First() == c.First() && a.Numeric? {
      NumericTransitive(a, b, c);
    }
  }

  lemma {:induction false} NumericTransitive(a: Item, b: Item, c: Item)
    requires a.Numeric? && b.Numeric? && c.Numeric? && a.prefix == b.prefix == c.prefix
    requires Less(a, b) && Less(b, c)
    ensures Less(a, c)
  {
    StrTotal(a.suffix, b.suffix);
    StrTotal(b.suffix, c.suffix);
    if a.suffix != b.suffix && b.suffix != c.suffix {
      StrTransitive(a.suffix, b.suffix, c.suffix);
    } else if a.suffix == b.suffix == c.suffix && a.num == b.num == c.num && a.width == b.width == c.width {
      StrTransitive(a.host, b.host, c.host);
    }
  }

  lemma {:induction false} InsertSorted(x: Item, items: seq<Item>)
    requires Sorted(items)
    ensures Sorted(Insert(x, items))
    ensures forall y :: y in Insert(x, items) <==> y == x || y in items
  {
    if items != [] {
      if Less(items[0], x) {
        InsertSorted(x, items[1..]);
        LessTotal(items[0], x);
        forall y | y in items[1..] ensures !Less(y, items[0]) {
          var j :| 0 <= j < |items[1..]| && items[1..][j] == y;
          assert items[j + 1] == y;
        }
      } else {
        forall y | y in items ensures !Less(y, x) {
          if Less(y, x) {
            if y != items[0] {
              LessTotal(y, items[0]);
              LessTotal(x, items[0]);
              if x != items[0] {
                LessTransitive(y, x, items[0]);
              }
            }
          }
        }
      }
    }
  }

  lemma {:induction false} SortSorted(items: seq<Item>)
    ensures Sorted(Sort(items))
  {
    if items != [] {
      SortSorted(items[1..]);
      InsertSorted(items[0], Sort(items[1..]));
    }
  }

  /** In a sorted list an item between two of one key has that key: what `groupby` relies on. */
  lemma {:induction false} BetweenKeys(a: Item, b: Item, c: Item)
    requires !Less(b, a) && !Less(c, b) && a.Key() == c.Key()
    ensures b.Key() == a.Key()
  {
    StrTotal(a.First(), b.First());
    if a.Numeric? && b.Numeric? {
      StrTotal(a.suffix, b.suffix);
    }
  }
}
