/** The library's stable sort, as stable insertion: an element goes after everything not greater. */
module Sorting {
  function Insert<T>(leq: (T, T) -> bool, x: T, s: seq<T>): seq<T> {
    if s == [] then [x]
    else if leq(s[|s| - 1], x) then s + [x]
    else Insert(leq, x, s[..|s| - 1]) + [s[|s| - 1]]
  }

  function Sort<T>(leq: (T, T) -> bool, s: seq<T>): seq<T> {
    if s == [] then [] else Insert(leq, s[|s| - 1], Sort(leq, s[..|s| - 1]))
  }

  ghost predicate Ordered<T>(leq: (T, T) -> bool, s: seq<T>) {
    forall i, j :: 0 <= i < j < |s| ==> leq(s[i], s[j])
  }

  ghost predicate TotalPreorder<T(!new)>(leq: (T, T) -> bool) {
    && (forall x, y :: leq(x, y) || leq(y, x))
    && (forall x, y, z :: leq(x, y) && leq(y, z) ==> leq(x, z))
  }

  lemma SnocMultiset<T>(s: seq<T>)
    requires s != []
    ensures multiset(s) == multiset(s[..|s| - 1]) + multiset{s[|s| - 1]}
  {
    assert s == s[..|s| - 1] + [s[|s| - 1]];
  }

  lemma {:induction false} InsertPermutes<T>(leq: (T, T) -> bool, x: T, s: seq<T>)
    ensures multiset(Insert(leq, x, s)) == multiset(s) + multiset{x}
    decreases |s|
  {
    if s != [] && !leq(s[|s| - 1], x) {
      InsertPermutes(leq, x, s[..|s| - 1]);
      SnocMultiset(s);
    }
  }

  lemma {:induction false} SortPermutes<T>(leq: (T, T) -> bool, s: seq<T>)
    ensures multiset(Sort(leq, s)) == multiset(s)
    decreases |s|
  {
    if s != [] {
      var q, x := s[..|s| - 1], s[|s| - 1];
      assert Sort(leq, s) == Insert(leq, x, Sort(leq, q));
      SnocMultiset(s);
      SortPermutes(leq, q);
      hide *;
      InsertPermutes(leq, x, Sort(leq, q));
    }
  }

  lemma {:induction false} InsertOrdered<T(!new)>(leq: (T, T) -> bool, x: T, s: seq<T>)
    requires TotalPreorder(leq) && Ordered(leq, s)
    ensures Ordered(leq, Insert(leq, x, s))
    decreases |s|
  {
    if s != [] {
      var q, last := s[..|s| - 1], s[|s| - 1];
      if leq(last, x) {
        assert forall i :: 0 <= i < |q| ==> leq(s[i], last);
      } else {
        InsertOrdered(leq, x, q);
        var r := Insert(leq, x, q);
        InsertPermutes(leq, x, q);
        forall i | 0 <= i < |r|
          ensures leq(r[i], last)
        {
          assert r[i] in multiset(q) + multiset{x};
          if r[i] in multiset(q) { assert r[i] in q; }
        }
      }
    }
  }

  lemma {:induction false} SortOrders<T(!new)>(leq: (T, T) -> bool, s: seq<T>)
    requires TotalPreorder(leq)
    ensures Ordered(leq, Sort(leq, s))
    decreases |s|
  {
    if s != [] {
      SortOrders(leq, s[..|s| - 1]);
      InsertOrdered(leq, s[|s| - 1], Sort(leq, s[..|s| - 1]));
    }
  }

  /** Sorting what is already in order changes nothing. */
  lemma {:induction false} SortKeepsOrdered<T>(leq: (T, T) -> bool, s: seq<T>)
    requires Ordered(leq, s)
    ensures Sort(leq, s) == s
    decreases |s|
  {
    if s != [] {
      SortKeepsOrdered(leq, s[..|s| - 1]);
      assert s == s[..|s| - 1] + [s[|s| - 1]];
    }
  }

  // ---- Stability ----------------------------------------------------------------------

  /** The elements of s that tie with x, in order. */
  function Ties<T>(leq: (T, T) -> bool, x: T, s: seq<T>): seq<T> {
    if s == [] then []
    else
      var y := s[|s| - 1];
      Ties(leq, x, s[..|s| - 1]) + (if leq(x, y) && leq(y, x) then [y] else [])
  }

  lemma TiesSnoc<T>(leq: (T, T) -> bool, x: T, s: seq<T>, y: T)
    ensures Ties(leq, x, s + [y]) == Ties(leq, x, s) + (if leq(x, y) && leq(y, x) then [y] else [])
  {
    assert (s + [y])[..|s|] == s;
  }

  lemma {:induction false} InsertKeepsTies<T(!new)>(leq: (T, T) -> bool, x: T, y: T, s: seq<T>)
    requires TotalPreorder(leq)
    ensures Ties(leq, x, Insert(leq, y, s)) == Ties(leq, x, s) + (if leq(x, y) && leq(y, x) then [y] else [])
    decreases |s|
  {
    hide Ties;
    if s == [] {
      TiesSnoc(leq, x, [], y);
      assert [] + [y] == [y];
    } else {
      var q, last := s[..|s| - 1], s[|s| - 1];
      assert s == q + [last];
      TiesSnoc(leq, x, q, last);
      if leq(last, y) {
        TiesSnoc(leq, x, s, y);
      } else {
        InsertKeepsTies(leq, x, y, q);
        TiesSnoc(leq, x, Insert(leq, y, q), last);
        assert leq(last, x) && leq(x, y) ==> leq(last, y);
      }
    }
  }

  /** Elements that tie stay in the order they came in. */
  lemma {:induction false} SortIsStable<T(!new)>(leq: (T, T) -> bool, x: T, s: seq<T>)
    requires TotalPreorder(leq)
    ensures Ties(leq, x, Sort(leq, s)) == Ties(leq, x, s)
    decreases |s|
  {
    hide Ties;
    if s != [] {
      var q, y := s[..|s| - 1], s[|s| - 1];
      SortIsStable(leq, x, q);
      InsertKeepsTies(leq, x, y, Sort(leq, q));
      TiesSnoc(leq, x, q, y);
      assert s == q + [y];
    }
  }
}
