/**
 * Orders and the two list operations the SQL queries are built from: a
 * filter (a `WHERE` clause) and a sort (an `ORDER BY` clause).
 *
 * Strings compare code point by code point, which is the order of sqlite's
 * default BINARY collation (UTF-8 byte order is code point order).
 */
module Ordering {

  /** Lexicographic order on strings, a prefix before its extensions. */
  predicate StrLe(a: string, b: string)
    decreases |a|
  {
    a == [] || (b != [] && (a[0] < b[0] || (a[0] == b[0] && StrLe(a[1..], b[1..]))))
  }

  lemma {:induction false} StrLeRefl(a: string)
    ensures StrLe(a, a)
    decreases |a|
  {
    if a != [] {
      StrLeRefl(a[1..]);
    }
  }

  lemma {:induction false} StrLeTotal(a: string, b: string)
    ensures StrLe(a, b) || StrLe(b, a)
    decreases |a|
  {
    if a != [] && b != [] && a[0] == b[0] {
      StrLeTotal(a[1..], b[1..]);
    }
  }

  lemma {:induction false} StrLeTrans(a: string, b: string, c: string)
    requires StrLe(a, b) && StrLe(b, c)
    ensures StrLe(a, c)
    decreases |a|
  {
    if a != [] && a[0] == b[0] && b[0] == c[0] {
      StrLeTrans(a[1..], b[1..], c[1..]);
    }
  }

  lemma {:induction false} StrLeAntisym(a: string, b: string)
    requires StrLe(a, b) && StrLe(b, a)
    ensures a == b
    decreases |a|
  {
    if a != [] {
      StrLeAntisym(a[1..], b[1..]);
      assert a == [a[0]] + a[1..] && b == [b[0]] + b[1..];
    }
  }

  /**
   * A sort key of two strings compared major first: (group, device) for
   * device states, (param_name, "") for parameters.
   */
  datatype Key = Key(major: string, minor: string)

  predicate KeyLe(x: Key, y: Key)
  {
    (StrLe(x.major, y.major) && x.major != y.major) || (x.major == y.major && StrLe(x.minor, y.minor))
  }

  /** Keys ordered by `KeyLe` have ordered major parts. */
  lemma KeyLeMajor(x: Key, y: Key)
    requires KeyLe(x, y)
    ensures StrLe(x.major, y.major)
  {
    if x.major == y.major {
      StrLeRefl(x.major);
    }
  }

  lemma KeyLeTotal(x: Key, y: Key)
    ensures KeyLe(x, y) || KeyLe(y, x)
  {
    StrLeTotal(x.major, y.major);
    StrLeTotal(x.minor, y.minor);
  }

  lemma KeyLeTrans(x: Key, y: Key, z: Key)
    requires KeyLe(x, y) && KeyLe(y, z)
    ensures KeyLe(x, z)
  {
    if x.major == y.major && y.major == z.major {
      StrLeTrans(x.minor, y.minor, z.minor);
    } else if x.major != y.major && y.major != z.major {
      StrLeTrans(x.major, y.major, z.major);
      if x.major == z.major {
        StrLeAntisym(x.major, y.major);
      }
    }
  }

  lemma KeyLeAntisym(x: Key, y: Key)
    requires KeyLe(x, y) && KeyLe(y, x)
    ensures x == y
  {
    if x.major == y.major {
      StrLeAntisym(x.minor, y.minor);
    } else {
      StrLeAntisym(x.major, y.major);
    }
  }

  /** `le` orders every pair and is transitive: what `ORDER BY` needs of its comparison. */
  ghost predicate TotalPreorder<R(!new)>(le: (R, R) -> bool)
  {
    && (forall a, b :: le(a, b) || le(b, a))
    && (forall a, b, c :: le(a, b) && le(b, c) ==> le(a, c))
  }

  ghost predicate SortedBy<R>(s: seq<R>, le: (R, R) -> bool)
  {
    forall i, j :: 0 <= i < j < |s| ==> le(s[i], s[j])
  }

  /** No two elements of `s` share the same image under `f`. */
  ghost predicate DistinctBy<R, K>(s: seq<R>, f: R -> K)
  {
    forall i, j :: 0 <= i < j < |s| ==> f(s[i]) != f(s[j])
  }

  /** The elements of `s` that satisfy `p`, in their original order. */
  function Filter<R(==,!new)>(s: seq<R>, p: R -> bool): (r: seq<R>)
    ensures forall x :: x in r <==> x in s && p(x)
    ensures forall x :: multiset(r)[x] == if p(x) then multiset(s)[x] else 0
  {
    if s == [] then []
    else
      assert s == [s[0]] + s[1..];
      (if p(s[0]) then [s[0]] else []) + Filter(s[1..], p)
  }

  /** Filtering by a weaker condition keeps at least as many copies of every element. */
  lemma FilterMono<R(!new)>(s: seq<R>, p: R -> bool, q: R -> bool)
    requires forall x :: p(x) ==> q(x)
    ensures multiset(Filter(s, p)) <= multiset(Filter(s, q))
  {
    var a, b := multiset(Filter(s, p)), multiset(Filter(s, q));
    forall x ensures a[x] <= b[x] {
    }
  }

  /** Insertion of `x` in front of the first element it is ordered before. */
  function Insert<R(==,!new)>(x: R, s: seq<R>, le: (R, R) -> bool): (r: seq<R>)
    ensures multiset(r) == multiset(s) + multiset{x}
  {
    if s == [] then [x]
    else if le(x, s[0]) then [x] + s
    else
      assert s == [s[0]] + s[1..];
      [s[0]] + Insert(x, s[1..], le)
  }

  /** Insertion sort; stands for the engine's `ORDER BY`. */
  function Sort<R(==,!new)>(s: seq<R>, le: (R, R) -> bool): (r: seq<R>)
    ensures multiset(r) == multiset(s)
  {
    if s == [] then []
    else
      assert s == [s[0]] + s[1..];
      Insert(s[0], Sort(s[1..], le), le)
  }

  /** Sorting neither adds nor loses an element. */
  lemma SortMembers<R(!new)>(s: seq<R>, le: (R, R) -> bool)
    ensures forall x :: x in Sort(s, le) <==> x in s
  {
    forall x ensures x in Sort(s, le) <==> x in s {
      assert x in Sort(s, le) <==> x in multiset(Sort(s, le));
      assert x in s <==> x in multiset(s);
    }
  }

  /** Inserting adds `x` and nothing else. */
  lemma InsertMembers<R(!new)>(x: R, s: seq<R>, le: (R, R) -> bool)
    ensures forall y :: y in Insert(x, s, le) ==> y == x || y in s
  {
    forall y | y in Insert(x, s, le)
      ensures y == x || y in s
    {
      assert y in multiset(Insert(x, s, le));
      assert y in multiset(s) || y == x;
    }
  }

  lemma {:induction false} InsertSorted<R(!new)>(x: R, s: seq<R>, le: (R, R) -> bool)
    requires TotalPreorder(le) && SortedBy(s, le)
    ensures SortedBy(Insert(x, s, le), le)
  {
    if s != [] && !le(x, s[0]) {
      var tail := s[1..];
      InsertSorted(x, tail, le);
      var t := Insert(x, tail, le);
      assert le(s[0], x);
      InsertMembers(x, tail, le);
      forall j | 0 <= j < |t|
        ensures le(s[0], t[j])
      {
        assert t[j] in t;
        if t[j] != x {
          assert t[j] in tail;
          var k :| 0 <= k < |tail| && tail[k] == t[j];
          assert s[k + 1] == t[j];
        }
      }
      var r := [s[0]] + t;
      assert Insert(x, s, le) == r;
      forall i, j | 0 <= i < j < |r|
        ensures le(r[i], r[j])
      {
        if i == 0 {
          assert r[j] == t[j - 1];
        } else {
          assert r[i] == t[i - 1] && r[j] == t[j - 1];
        }
      }
    }
  }

  lemma {:induction false} SortSorted<R(!new)>(s: seq<R>, le: (R, R) -> bool)
    requires TotalPreorder(le)
    ensures SortedBy(Sort(s, le), le)
  {
    if s != [] {
      SortSorted(s[1..], le);
      InsertSorted(s[0], Sort(s[1..], le), le);
    }
  }

  lemma {:induction false} InsertDistinct<R(!new), K>(x: R, s: seq<R>, le: (R, R) -> bool, f: R -> K)
    requires DistinctBy(s, f)
    requires forall y :: y in s ==> f(y) != f(x)
    ensures DistinctBy(Insert(x, s, le), f)
  {
    if s != [] && !le(x, s[0]) {
      var tail := s[1..];
      assert forall y :: y in tail ==> y in s;
      InsertDistinct(x, tail, le, f);
      var t := Insert(x, tail, le);
      forall j | 0 <= j < |t|
        ensures f(s[0]) != f(t[j])
      {
        assert t[j] in multiset(t);
        if t[j] != x {
          assert t[j] in multiset(tail);
          var k :| 0 <= k < |tail| && tail[k] == t[j];
          assert s[k + 1] == t[j];
        }
      }
    }
  }

  lemma {:induction false} SortDistinct<R(!new), K>(s: seq<R>, le: (R, R) -> bool, f: R -> K)
    requires DistinctBy(s, f)
    ensures DistinctBy(Sort(s, le), f)
  {
    if s != [] {
      var tail := s[1..];
      SortDistinct(tail, le, f);
      var t := Sort(tail, le);
      forall y | y in t
        ensures f(y) != f(s[0])
      {
        assert y in multiset(t);
        assert y in multiset(tail);
        var k :| 0 <= k < |tail| && tail[k] == y;
        assert s[k + 1] == y;
      }
      InsertDistinct(s[0], t, le, f);
    }
  }
}
