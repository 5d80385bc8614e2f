/** Datatypes and sequence functions shared by the models. */
module Prelude {
  datatype Option<+T> = None | Some(value: T)

  predicate NoDup<T(==)>(s: seq<T>) {
    forall i, j :: 0 <= i < j < |s| ==> s[i] != s[j]
  }

  function Filter<T(!new)>(s: seq<T>, p: T -> bool): (r: seq<T>)
    ensures forall x :: x in r <==> x in s && p(x)
    ensures |r| <= |s|
  {
    if s == [] then []
    else if p(s[0]) then [s[0]] + Filter(s[1..], p)
    else Filter(s[1..], p)
  }

  lemma {:induction false} FilterAppend<T(!new)>(a: seq<T>, b: seq<T>, p: T -> bool)
    ensures Filter(a + b, p) == Filter(a, p) + Filter(b, p)
  {
    if a == [] {
      assert a + b == b;
    } else {
      assert (a + b)[1..] == a[1..] + b;
      FilterAppend(a[1..], b, p);
    }
  }

  /** What a filter keeps first is the first thing that passes. */
  lemma {:induction false} FilterFirst<T(!new)>(s: seq<T>, p: T -> bool, i: nat)
    requires i < |s| && p(s[i]) && forall j :: 0 <= j < i ==> !p(s[j])
    ensures Filter(s, p) != [] && Filter(s, p)[0] == s[i]
  {
    if i > 0 {
      assert !p(s[0]);
      FilterFirst(s[1..], p, i - 1);
    }
  }

  lemma {:induction false} FilterNone<T(!new)>(s: seq<T>, p: T -> bool)
    requires forall x :: x in s ==> !p(x)
    ensures Filter(s, p) == []
  {
    if s != [] {
      FilterNone(s[1..], p);
    }
  }

  lemma {:induction false} FilterAll<T(!new)>(s: seq<T>, p: T -> bool)
    requires forall x :: x in s ==> p(x)
    ensures Filter(s, p) == s
  {
    if s != [] {
      FilterAll(s[1..], p);
      assert s == [s[0]] + s[1..];
    }
  }

  lemma {:induction false} FilterNoDup<T(!new)>(s: seq<T>, p: T -> bool)
    requires NoDup(s)
    ensures NoDup(Filter(s, p))
  {
    if s != [] {
      FilterNoDup(s[1..], p);
    }
  }

  /** Filters that agree on the elements give the same result. */
  lemma {:induction false} FilterSame<T(!new)>(s: seq<T>, p: T -> bool, q: T -> bool)
    requires forall x :: x in s ==> p(x) == q(x)
    ensures Filter(s, p) == Filter(s, q)
  {
    if s != [] {
      FilterSame(s[1..], p, q);
    }
  }

  function Both<T>(p: T -> bool, q: T -> bool): T -> bool {
    x => p(x) && q(x)
  }

  lemma {:induction false} FilterTwice<T(!new)>(s: seq<T>, p: T -> bool, q: T -> bool)
    ensures Filter(Filter(s, p), q) == Filter(s, Both(p, q))
  {
    if s != [] {
      FilterTwice(s[1..], p, q);
    }
  }

  function Map<T, U>(s: seq<T>, f: T -> U): (r: seq<U>)
    ensures |r| == |s| && forall i :: 0 <= i < |s| ==> r[i] == f(s[i])
  {
    if s == [] then [] else [f(s[0])] + Map(s[1..], f)
  }

  lemma {:induction false} FilterCountMono<T(!new)>(s: seq<T>, p: T -> bool, q: T -> bool)
    requires forall x :: p(x) ==> q(x)
    ensures |Filter(s, p)| <= |Filter(s, q)|
  {
    if s != [] {
      FilterCountMono(s[1..], p, q);
    }
  }

  // ── A stable sort ─────────────────────────────────────────────────────────

  function InsertBy<T>(le: (T, T) -> bool, x: T, s: seq<T>): seq<T> {
    if s == [] || le(x, s[0]) then [x] + s else [s[0]] + InsertBy(le, x, s[1..])
  }

  function SortBy<T>(le: (T, T) -> bool, s: seq<T>): seq<T> {
    if s == [] then [] else InsertBy(le, s[0], SortBy(le, s[1..]))
  }

  predicate SortedBy<T>(le: (T, T) -> bool, s: seq<T>) {
    forall i, j :: 0 <= i < j < |s| ==> le(s[i], s[j])
  }

  ghost predicate TotalPreorder<T(!new)>(le: (T, T) -> bool) {
    (forall a, b :: le(a, b) || le(b, a)) && forall a, b, c :: le(a, b) && le(b, c) ==> le(a, c)
  }

  lemma {:induction false} InsertByPermutes<T>(le: (T, T) -> bool, x: T, s: seq<T>)
    ensures multiset(InsertBy(le, x, s)) == multiset{x} + multiset(s)
  {
    if s != [] && !le(x, s[0]) {
      InsertByPermutes(le, x, s[1..]);
      assert s == [s[0]] + s[1..];
    }
  }

  lemma {:induction false} InsertByCounts<T(!new)>(le: (T, T) -> bool, x: T, s: seq<T>, q: T -> bool)
    ensures |Filter(InsertBy(le, x, s), q)| == (if q(x) then 1 else 0) + |Filter(s, q)|
  {
    if s != [] && !le(x, s[0]) {
      InsertByCounts(le, x, s[1..], q);
    } else {
      assert ([x] + s)[1..] == s;
    }
  }

  lemma {:induction false} InsertBySorts<T(!new)>(le: (T, T) -> bool, x: T, s: seq<T>)
    requires TotalPreorder(le) && SortedBy(le, s)
    ensures SortedBy(le, InsertBy(le, x, s))
  {
    if s != [] && !le(x, s[0]) {
      InsertBySorts(le, x, s[1..]);
      InsertByPermutes(le, x, s[1..]);
      var rest := InsertBy(le, x, s[1..]);
      forall j | 0 <= j < |rest|
        ensures le(s[0], rest[j])
      {
        assert rest[j] in multiset(rest);
        assert rest[j] == x || rest[j] in s[1..];
      }
    }
  }

  lemma {:induction false} SortByPermutes<T>(le: (T, T) -> bool, s: seq<T>)
    ensures multiset(SortBy(le, s)) == multiset(s)
  {
    if s != [] {
      SortByPermutes(le, s[1..]);
      InsertByPermutes(le, s[0], SortBy(le, s[1..]));
      assert s == [s[0]] + s[1..];
    }
  }

  lemma {:induction false} SortByOrders<T(!new)>(le: (T, T) -> bool, s: seq<T>)
    requires TotalPreorder(le)
    ensures SortedBy(le, SortBy(le, s))
  {
    if s != [] {
      SortByOrders(le, s[1..]);
      InsertBySorts(le, s[0], SortBy(le, s[1..]));
    }
  }

  lemma {:induction false} SortByCounts<T(!new)>(le: (T, T) -> bool, s: seq<T>, q: T -> bool)
    ensures |Filter(SortBy(le, s), q)| == |Filter(s, q)|
  {
    if s != [] {
      SortByCounts(le, s[1..], q);
      InsertByCounts(le, s[0], SortBy(le, s[1..]), q);
    }
  }

  /** Sorted, a permutation, and blind to the count of any filter. */
  lemma {:induction false} SortBySorts<T(!new)>(le: (T, T) -> bool, s: seq<T>, q: T -> bool)
    requires TotalPreorder(le)
    ensures SortedBy(le, SortBy(le, s)) && multiset(SortBy(le, s)) == multiset(s)
    ensures |Filter(SortBy(le, s), q)| == |Filter(s, q)|
    ensures forall x :: x in SortBy(le, s) <==> x in s
  {
    SortByOrders(le, s);
    SortByPermutes(le, s);
    SortByCounts(le, s, q);
    forall x
      ensures x in SortBy(le, s) <==> x in s
    {
      assert x in SortBy(le, s) <==> x in multiset(SortBy(le, s));
    }
  }

  /** Inserting into what a filter leaves, and filtering after the insertion. */
  lemma {:induction false} InsertByFilters<T(!new)>(le: (T, T) -> bool, x: T, s: seq<T>, p: T -> bool)
    requires TotalPreorder(le) && SortedBy(le, s)
    ensures Filter(InsertBy(le, x, s), p) == if p(x) then InsertBy(le, x, Filter(s, p)) else Filter(s, p)
  {
    if s == [] || le(x, s[0]) {
      assert ([x] + s)[1..] == s;
      if Filter(s, p) != [] {
        var y := Filter(s, p)[0];
        assert y in s;
        assert le(s[0], y);
      }
    } else {
      InsertByFilters(le, x, s[1..], p);
      assert ([s[0]] + InsertBy(le, x, s[1..]))[1..] == InsertBy(le, x, s[1..]);
      assert p(s[0]) ==> Filter(s, p)[1..] == Filter(s[1..], p);
    }
  }

  /** The sort is stable: it and a filter may change places. */
  lemma {:induction false} SortOfFilter<T(!new)>(le: (T, T) -> bool, s: seq<T>, p: T -> bool)
    requires TotalPreorder(le)
    ensures SortBy(le, Filter(s, p)) == Filter(SortBy(le, s), p)
  {
    if s != [] {
      SortOfFilter(le, s[1..], p);
      SortByOrders(le, s[1..]);
      InsertByFilters(le, s[0], SortBy(le, s[1..]), p);
      assert p(s[0]) ==> Filter(s, p)[1..] == Filter(s[1..], p);
    }
  }
}
