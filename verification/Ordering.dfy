/**
 Python's `sorted`, string comparison, list slicing and set sizes, as far as the models use them.
 `SortBy` is a stable sort; a ranking that sorts by a key passes the order on that key.
 */
module Ordering {
  /** Python compares strings code point by code point. */
  predicate StringLe(a: string, b: string) {
    if a == [] then true
    else if b == [] then false
    else if a[0] != b[0] then a[0] < b[0]
    else StringLe(a[1..], b[1..])
  }

  lemma {:induction false} StringLeTotal(a: string, b: string)
    ensures StringLe(a, b) || StringLe(b, a)
    ensures StringLe(a, b) && StringLe(b, a) ==> a == b
  {
    if a != [] && b != [] && a[0] == b[0] {
      StringLeTotal(a[1..], b[1..]);
      assert a == [a[0]] + a[1..] && b == [b[0]] + b[1..];
    }
  }

  lemma {:induction false} StringLeTransitive(a: string, b: string, c: string)
    requires StringLe(a, b) && StringLe(b, c)
    ensures StringLe(a, c)
  {
    if a != [] && b != [] && c != [] && a[0] == b[0] == c[0] {
      StringLeTransitive(a[1..], b[1..], c[1..]);
    }
  }

  lemma StringOrder()
    ensures forall a, b :: StringLe(a, b) || StringLe(b, a)
    ensures forall a, b :: StringLe(a, b) && StringLe(b, a) ==> a == b
    ensures forall a, b, c :: StringLe(a, b) && StringLe(b, c) ==> StringLe(a, c)
  {
    forall a, b ensures (StringLe(a, b) || StringLe(b, a)) && (StringLe(a, b) && StringLe(b, a) ==> a == b) {
      StringLeTotal(a, b);
    }
    forall a, b, c | StringLe(a, b) && StringLe(b, c) ensures StringLe(a, c) {
      StringLeTransitive(a, b, c);
    }
  }

  ghost predicate TotalPreorder<T(!new)>(le: (T, T) -> bool) {
    && (forall x, y :: le(x, y) || le(y, x))
    && (forall x, y, z :: le(x, y) && le(y, z) ==> le(x, z))
  }

  ghost predicate SortedBy<T>(le: (T, T) -> bool, s: seq<T>) {
    forall i, j :: 0 <= i < j < |s| ==> le(s[i], s[j])
  }

  function InsertBy<T>(le: (T, T) -> bool, x: T, s: seq<T>): seq<T> {
    if s == [] then [x]
    else if le(x, s[0]) then [x] + s
    else [s[0]] + InsertBy(le, x, s[1..])
  }

  /** A stable sort: an element never moves past one it ties with. */
  function SortBy<T>(le: (T, T) -> bool, s: seq<T>): seq<T> {
    if s == [] then [] else InsertBy(le, s[0], SortBy(le, s[1..]))
  }

  lemma {:induction false} InsertPermutes<T>(le: (T, T) -> bool, x: T, s: seq<T>)
    ensures multiset(InsertBy(le, x, s)) == multiset(s) + multiset{x}
    ensures |InsertBy(le, x, s)| == |s| + 1
  {
    if s != [] && !le(x, s[0]) {
      InsertPermutes(le, x, s[1..]);
      assert s == [s[0]] + s[1..];
    }
  }

  lemma {:induction false} SortPermutes<T>(le: (T, T) -> bool, s: seq<T>)
    ensures multiset(SortBy(le, s)) == multiset(s)
    ensures |SortBy(le, s)| == |s|
  {
    if s != [] {
      SortPermutes(le, s[1..]);
      InsertPermutes(le, s[0], SortBy(le, s[1..]));
      assert s == [s[0]] + s[1..];
    }
  }

  lemma SortMembers<T>(le: (T, T) -> bool, s: seq<T>, x: T)
    ensures x in SortBy(le, s) <==> x in s
  {
    SortPermutes(le, s);
    assert x in SortBy(le, s) <==> x in multiset(SortBy(le, s));
    assert x in s <==> x in multiset(s);
  }

  lemma {:induction false} InsertSorted<T(!new)>(le: (T, T) -> bool, x: T, s: seq<T>)
    requires TotalPreorder(le) && SortedBy(le, s)
    ensures SortedBy(le, InsertBy(le, x, s))
  {
    if s != [] && !le(x, s[0]) {
      InsertSorted(le, x, s[1..]);
      var rest := InsertBy(le, x, s[1..]);
      InsertPermutes(le, x, s[1..]);
      forall j | 0 <= j < |rest| ensures le(s[0], rest[j]) {
        assert rest[j] in multiset(rest);
        assert rest[j] == x || rest[j] in multiset(s[1..]);
      }
    }
  }

  lemma {:induction false} SortSorts<T(!new)>(le: (T, T) -> bool, s: seq<T>)
    requires TotalPreorder(le)
    ensures SortedBy(le, SortBy(le, s))
  {
    if s != [] {
      SortSorts(le, s[1..]);
      InsertSorted(le, s[0], SortBy(le, s[1..]));
    }
  }

  ghost predicate DistinctBy<T, K>(key: T -> K, s: seq<T>) {
    forall i, j :: 0 <= i < j < |s| ==> key(s[i]) != key(s[j])
  }

  lemma {:induction false} InsertDistinct<T, K>(le: (T, T) -> bool, key: T -> K, x: T, s: seq<T>)
    requires DistinctBy(key, s) && forall y :: y in s ==> key(y) != key(x)
    ensures DistinctBy(key, InsertBy(le, x, s))
  {
    if s != [] && !le(x, s[0]) {
      InsertDistinct(le, key, x, s[1..]);
      var rest := InsertBy(le, x, s[1..]);
      InsertPermutes(le, x, s[1..]);
      forall j | 0 <= j < |rest| ensures key(s[0]) != key(rest[j]) {
        assert rest[j] in multiset(rest);
        assert rest[j] == x || rest[j] in multiset(s[1..]);
      }
    }
  }

  /** Sorting keeps keys distinct. */
  lemma {:induction false} SortDistinct<T, K>(le: (T, T) -> bool, key: T -> K, s: seq<T>)
    requires DistinctBy(key, s)
    ensures DistinctBy(key, SortBy(le, s))
  {
    if s != [] {
      SortDistinct(le, key, s[1..]);
      forall y | y in SortBy(le, s[1..]) ensures key(y) != key(s[0]) {
        SortMembers(le, s[1..], y);
      }
      InsertDistinct(le, key, s[0], SortBy(le, s[1..]));
    }
  }

  lemma WithoutHead<T>(s: seq<T>)
    requires s != []
    ensures s == [s[0]] + s[1..] && multiset(s[1..]) == multiset(s) - multiset{s[0]}
  {
    assert s == [s[0]] + s[1..];
  }

  lemma HeadLeast<T(!new)>(le: (T, T) -> bool, s: seq<T>, x: T)
    requires s != [] && SortedBy(le, s) && x in multiset(s) && x != s[0]
    ensures le(s[0], x)
  {
    assert x in s;
    var i :| 0 <= i < |s| && s[i] == x;
  }

  lemma SameHead<T(!new)>(le: (T, T) -> bool, s: seq<T>, t: seq<T>)
    requires s != [] && t != []
    requires SortedBy(le, s) && SortedBy(le, t) && multiset(s) == multiset(t)
    requires forall x, y | x in multiset(s) && y in multiset(s) && le(x, y) && le(y, x) :: x == y
    ensures s[0] == t[0]
  {
    if s[0] != t[0] {
      HeadLeast(le, s, t[0]);
      HeadLeast(le, t, s[0]);
    }
  }

  /** Under an order that leaves no ties there is only one sorted arrangement. */
  lemma {:induction false} SortedUnique<T(!new)>(le: (T, T) -> bool, s: seq<T>, t: seq<T>)
    requires SortedBy(le, s) && SortedBy(le, t) && multiset(s) == multiset(t)
    requires forall x, y | x in multiset(s) && y in multiset(s) && le(x, y) && le(y, x) :: x == y
    ensures s == t
  {
    assert |s| == |multiset(s)| == |multiset(t)| == |t|;
    if s != [] {
      SameHead(le, s, t);
      WithoutHead(s);
      WithoutHead(t);
      SortedUnique(le, s[1..], t[1..]);
    }
  }

  /** Python's `s[:k]`, which counts a negative `k` from the end. */
  function Take<T>(s: seq<T>, k: int): (r: seq<T>)
    ensures r <= s && |r| == if k >= |s| then |s| else if k >= 0 then k else if |s| + k >= 0 then |s| + k else 0
  {
    if k >= |s| then s
    else if k >= 0 then s[..k]
    else if |s| + k >= 0 then s[..|s| + k]
    else []
  }

  /** `[x for x in s if keep(x)]` */
  function Filter<T>(keep: T -> bool, s: seq<T>): seq<T> {
    if s == [] then []
    else Filter(keep, s[..|s| - 1]) + if keep(s[|s| - 1]) then [s[|s| - 1]] else []
  }

  lemma {:induction false} FilterMembers<T>(keep: T -> bool, s: seq<T>, x: T)
    ensures x in Filter(keep, s) <==> x in s && keep(x)
    ensures |Filter(keep, s)| <= |s|
  {
    if s != [] {
      FilterMembers(keep, s[..|s| - 1], x);
      assert s == s[..|s| - 1] + [s[|s| - 1]];
    }
  }

  lemma {:induction false} FilterDistinct<T, K>(keep: T -> bool, key: T -> K, s: seq<T>)
    requires DistinctBy(key, s)
    ensures DistinctBy(key, Filter(keep, s))
  {
    if s != [] {
      var n := |s| - 1;
      FilterDistinct(keep, key, s[..n]);
      forall x | x in Filter(keep, s[..n]) ensures key(x) != key(s[n]) {
        FilterMembers(keep, s[..n], x);
      }
    }
  }

  lemma {:induction false} FilterSorted<T>(keep: T -> bool, le: (T, T) -> bool, s: seq<T>)
    requires SortedBy(le, s)
    ensures SortedBy(le, Filter(keep, s))
  {
    if s != [] {
      var n := |s| - 1;
      FilterSorted(keep, le, s[..n]);
      forall x | x in Filter(keep, s[..n]) ensures le(x, s[n]) {
        FilterMembers(keep, s[..n], x);
      }
    }
  }

  // ---- Sets ----

  lemma SubsetSize<T>(a: set<T>, b: set<T>)
    requires a <= b
    ensures |a| <= |b|
    ensures |a| == |b| ==> a == b
  {
    assert b == a + (b - a);
  }
}
