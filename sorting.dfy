/**
  `sorted(recordings, key=lambda r: r.timestamp)`: a stable ascending sort.
  The sort compares minute counts, which for valid datetimes is the same as
  comparing the datetimes themselves (`Calendar.Chronological`).
 */
module Sorting {
  import opened Calendar
  import opened Locator

  /** The sort key. */
  function Key(r: Recording): int { MinuteOf(r.timestamp) }

  predicate AllValid(s: seq<Recording>) { forall r :: r in s ==> Valid(r.timestamp) }

  predicate Sorted(s: seq<Recording>)
  {
    forall i, j :: 0 <= i < j < |s| ==> Key(s[i]) <= Key(s[j])
  }

  /** The recordings of `s` stamped `t`, in their order in `s`. */
  function At(s: seq<Recording>, t: DateTime): seq<Recording>
  {
    if s == [] then []
    else (if s[0].timestamp == t then [s[0]] else []) + At(s[1..], t)
  }

  /** Place `x` before the first recording that is not earlier than it. */
  function Insert(x: Recording, s: seq<Recording>): seq<Recording>
  {
    if s == [] then [x]
    else if Key(x) <= Key(s[0]) then [x] + s
    else [s[0]] + Insert(x, s[1..])
  }

  /** Insertion sort: each recording goes in after the sorted rest of the list. */
  function SortByTime(s: seq<Recording>): (r: seq<Recording>)
    ensures multiset(r) == multiset(s)
  {
    if s == [] then []
    else
      assert s == [s[0]] + s[1..];
      InsertPermutes(s[0], SortByTime(s[1..]));
      Insert(s[0], SortByTime(s[1..]))
  }

  lemma {:induction false} InsertPermutes(x: Recording, s: seq<Recording>)
    ensures multiset(Insert(x, s)) == multiset(s) + multiset{x}
  {
    if s != [] && Key(x) > Key(s[0]) {
      InsertPermutes(x, s[1..]);
      assert s == [s[0]] + s[1..];
    }
  }

  lemma {:induction false} InsertSorted(x: Recording, s: seq<Recording>)
    requires Sorted(s)
    ensures Sorted(Insert(x, s))
  {
    if s != [] && Key(x) > Key(s[0]) {
      InsertSorted(x, s[1..]);
      InsertPermutes(x, s[1..]);
      var r := Insert(x, s[1..]);
      forall i | 0 <= i < |r| ensures Key(s[0]) <= Key(r[i]) {
        assert r[i] in multiset(r);
        assert r[i] == x || r[i] in multiset(s[1..]);
      }
    }
  }

  lemma {:induction false} InsertKeepsOrder(x: Recording, s: seq<Recording>, t: DateTime)
    ensures At(Insert(x, s), t) == (if x.timestamp == t then [x] else []) + At(s, t)
  {
    if s == [] {
    } else if Key(x) <= Key(s[0]) {
      assert ([x] + s)[1..] == s;
    } else {
      var r := Insert(x, s[1..]);
      InsertKeepsOrder(x, s[1..], t);
      assert ([s[0]] + r)[1..] == r;
    }
  }

  /** The sort returns a permutation of its input, in ascending time order. */
  lemma {:induction false} SortSortsAndPermutes(s: seq<Recording>)
    ensures Sorted(SortByTime(s))
    ensures multiset(SortByTime(s)) == multiset(s)
  {
    if s != [] {
      SortSortsAndPermutes(s[1..]);
      InsertSorted(s[0], SortByTime(s[1..]));
      InsertPermutes(s[0], SortByTime(s[1..]));
      assert s == [s[0]] + s[1..];
    }
  }

  /** Stability: recordings with equal timestamps keep their discovery order. */
  lemma {:induction false} SortIsStable(s: seq<Recording>, t: DateTime)
    ensures At(SortByTime(s), t) == At(s, t)
  {
    if s != [] {
      SortIsStable(s[1..], t);
      InsertKeepsOrder(s[0], SortByTime(s[1..]), t);
    }
  }

  lemma SortKeepsValid(s: seq<Recording>)
    requires AllValid(s)
    ensures AllValid(SortByTime(s))
  {
    SortSortsAndPermutes(s);
    forall r | r in SortByTime(s) ensures Valid(r.timestamp) {
      assert r in multiset(SortByTime(s));
    }
  }

  lemma {:induction false} AtNonEmptyIsLater(s: seq<Recording>, t: DateTime)
    requires Sorted(s) && s != [] && At(s, t) != []
    ensures Key(s[0]) <= MinuteOf(t)
  {
    if s[0].timestamp != t {
      AtNonEmptyIsLater(s[1..], t);
    }
  }

  /** `a` and `b` list every group of equally-stamped recordings in the same order. */
  ghost predicate SameTies(a: seq<Recording>, b: seq<Recording>)
  {
    forall t :: At(a, t) == At(b, t)
  }

  lemma SameTiesHead(a: seq<Recording>, b: seq<Recording>)
    requires AllValid(a) && AllValid(b) && Sorted(a) && Sorted(b) && SameTies(a, b)
    requires a != [] && b != []
    ensures a[0] == b[0]
  {
    var ta, tb := a[0].timestamp, b[0].timestamp;
    assert At(a, ta) == At(b, ta) && At(a, tb) == At(b, tb);
    assert At(a, ta)[0] == a[0] && At(b, tb)[0] == b[0];
    AtNonEmptyIsLater(a, tb);
    AtNonEmptyIsLater(b, ta);
    Chronological(ta, tb);
  }

  lemma SameTiesTail(a: seq<Recording>, b: seq<Recording>)
    requires SameTies(a, b) && a != [] && b != [] && a[0] == b[0]
    ensures SameTies(a[1..], b[1..])
  {
    forall t ensures At(a[1..], t) == At(b[1..], t) {
      var h := if a[0].timestamp == t then [a[0]] else [];
      assert At(a, t) == h + At(a[1..], t) && At(b, t) == h + At(b[1..], t);
      assert (h + At(a[1..], t))[|h|..] == At(a[1..], t);
      assert (h + At(b[1..], t))[|h|..] == At(b[1..], t);
    }
  }

  lemma SameTiesEmpty(a: seq<Recording>, b: seq<Recording>)
    requires SameTies(a, b) && a == []
    ensures b == []
  {
    assert b != [] ==> At(b, b[0].timestamp) != [];
  }

  lemma TailStaysSorted(a: seq<Recording>)
    requires AllValid(a) && Sorted(a) && a != []
    ensures AllValid(a[1..]) && Sorted(a[1..]) && a == [a[0]] + a[1..]
  {
    assert forall r :: r in a[1..] ==> r in a;
  }

  /**
    A stable sort has only one possible result: two sorted lists that agree
    on the order of every group of equal timestamps are the same list. So
    `SortByTime` returns exactly what Python's `sorted` returns.
   */
  lemma {:induction false} StableSortIsUnique(a: seq<Recording>, b: seq<Recording>)
    requires AllValid(a) && AllValid(b) && Sorted(a) && Sorted(b) && SameTies(a, b)
    ensures a == b
  {
    if a == [] {
      SameTiesEmpty(a, b);
    } else if b == [] {
      SameTiesEmpty(b, a);
    } else {
      SameTiesHead(a, b);
      SameTiesTail(a, b);
      TailStaysSorted(a);
      TailStaysSorted(b);
      StableSortIsUnique(a[1..], b[1..]);
    }
  }

  /** `SortByTime` is the stable sort of its input. */
  lemma SortIsTheStableSort(s: seq<Recording>, r: seq<Recording>)
    requires AllValid(s) && AllValid(r) && Sorted(r) && SameTies(r, s)
    ensures r == SortByTime(s)
  {
    SortSortsAndPermutes(s);
    SortKeepsValid(s);
    forall t ensures At(r, t) == At(SortByTime(s), t) {
      SortIsStable(s, t);
      assert At(r, t) == At(s, t);
    }
    StableSortIsUnique(r, SortByTime(s));
  }
}
