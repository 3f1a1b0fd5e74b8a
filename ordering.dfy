/** The two orders the core sorts by: SQL `ORDER BY <key> DESC` over integer keys, and
    Python's `sorted()` over strings (lexicographic by code point). Both are insertion sorts
    proved to return an ordered permutation of their input. */
module Ordering {

  // ---- descending order on an integer key ---------------------------------------------

  predicate SortedDesc<T>(s: seq<T>, key: T -> int) {
    forall i, j :: 0 <= i < j < |s| ==> key(s[i]) >= key(s[j])
  }

  function InsertDesc<T(==)>(x: T, s: seq<T>, key: T -> int): (r: seq<T>)
    requires SortedDesc(s, key)
    ensures SortedDesc(r, key)
    ensures forall y :: y in r ==> y == x || y in s
    ensures multiset(r) == multiset(s) + multiset{x}
    decreases |s|
  {
    if s == [] || key(s[0]) <= key(x) then
      ConsDesc(x, s, key);
      [x] + s
    else
      var t := s[1..];
      var rest := InsertDesc(x, t, key);
      assert s == [s[0]] + t;
      assert key(rest[0]) <= key(s[0]) by {
        assert rest[0] in rest;
        if rest[0] != x {
          var j :| 0 <= j < |t| && t[j] == rest[0];
          assert t[j] == s[j + 1];
        }
      }
      ConsDesc(s[0], rest, key);
      [s[0]] + rest
  }

  /** A row whose key is at least the first key of a descending sequence keeps it
      descending when put in front. */
  lemma ConsDesc<T>(h: T, t: seq<T>, key: T -> int)
    requires SortedDesc(t, key) && (t != [] ==> key(t[0]) <= key(h))
    ensures SortedDesc([h] + t, key)
  {
    var r := [h] + t;
    forall i, j | 0 <= i < j < |r| ensures key(r[i]) >= key(r[j]) {
      assert r[j] == t[j - 1];
      if i == 0 {
        assert j - 1 == 0 || key(t[0]) >= key(t[j - 1]);
      } else {
        assert r[i] == t[i - 1];
      }
    }
  }

  /** The rows of `s` ordered by descending `key`; rows with equal keys keep their
      relative order (SQL leaves that order unspecified). */
  function SortDesc<T(==)>(s: seq<T>, key: T -> int): (r: seq<T>)
    ensures SortedDesc(r, key)
    ensures multiset(r) == multiset(s)
    decreases |s|
  {
    if s == [] then []
    else
      assert s == [s[0]] + s[1..];
      InsertDesc(s[0], SortDesc(s[1..], key), key)
  }

  /** Sorting neither adds nor drops a row. */
  lemma SortDescMembers<T>(s: seq<T>, key: T -> int)
    ensures forall k :: 0 <= k < |SortDesc(s, key)| ==> SortDesc(s, key)[k] in s
    ensures forall k :: 0 <= k < |s| ==> s[k] in SortDesc(s, key)
  {
    var r := SortDesc(s, key);
    forall k | 0 <= k < |r| ensures r[k] in s {
      assert r[k] in multiset(r);
    }
    forall k | 0 <= k < |s| ensures s[k] in r {
      assert s[k] in multiset(s);
    }
  }

  /** A sequence read from its end. */
  function Reversed<T>(s: seq<T>): (r: seq<T>)
    ensures |r| == |s| && forall k :: 0 <= k < |r| ==> r[k] == s[|s| - 1 - k]
    decreases |s|
  {
    if s == [] then [] else [s[|s| - 1]] + Reversed(s[..|s| - 1])
  }

  lemma {:induction false} ReversedMultiset<T>(s: seq<T>, r: seq<T>)
    requires |r| == |s| && forall k :: 0 <= k < |r| ==> r[k] == s[|s| - 1 - k]
    ensures multiset(r) == multiset(s)
    decreases |s|
  {
    if s != [] {
      var n := |s| - 1;
      assert forall k :: 0 <= k < n ==> r[1..][k] == s[..n][n - 1 - k];
      ReversedMultiset(s[..n], r[1..]);
      assert s == s[..n] + [s[n]];
      assert r == [r[0]] + r[1..];
    }
  }

  /** SQLite's `LIMIT limit OFFSET offset` over an already ordered result: a negative
      limit means no limit and a negative offset counts as zero. */
  function LimitOffset<T>(s: seq<T>, limit: int, offset: int): (r: seq<T>)
    ensures limit >= 0 ==> |r| <= limit
    ensures var start := if offset < 0 then 0 else offset;
            && (start <= |s| && (limit < 0 || |s| - start <= limit) ==> |r| == |s| - start)
            && (start <= |s| && 0 <= limit < |s| - start ==> |r| == limit)
            && (start >= |s| ==> r == [])
            && forall k :: 0 <= k < |r| ==> start + k < |s| && r[k] == s[start + k]
  {
    var start := if offset < 0 then 0 else offset;
    if start >= |s| then []
    else if limit < 0 || |s| - start <= limit then s[start..]
    else s[start..start + limit]
  }

  // ---- Python string order ------------------------------------------------------------

  /** Python's `a < b` on `str`. */
  predicate StrLess(a: string, b: string)
    decreases |a|
  {
    if a == [] then b != []
    else if b == [] then false
    else if a[0] != b[0] then a[0] < b[0]
    else StrLess(a[1..], b[1..])
  }

  predicate StrLeq(a: string, b: string) {
    a == b || StrLess(a, b)
  }

  lemma {:induction false} StrLessTotal(a: string, b: string)
    ensures a == b || StrLess(a, b) || StrLess(b, a)
    decreases |a|
  {
    if a != [] && b != [] && a[0] == b[0] {
      StrLessTotal(a[1..], b[1..]);
      if a[1..] == b[1..] {
        assert a == [a[0]] + a[1..] && b == [b[0]] + b[1..];
      }
    }
  }

  lemma {:induction false} StrLessTrans(a: string, b: string, c: string)
    requires StrLess(a, b) && StrLess(b, c)
    ensures StrLess(a, c)
    decreases |a|
  {
    if a != [] && a[0] == b[0] && b[0] == c[0] {
      StrLessTrans(a[1..], b[1..], c[1..]);
    }
  }

  lemma StrLeqTrans(a: string, b: string, c: string)
    requires StrLeq(a, b) && StrLeq(b, c)
    ensures StrLeq(a, c)
  {
    if a != b && b != c {
      StrLessTrans(a, b, c);
    }
  }

  predicate SortedStr(s: seq<string>) {
    forall i, j :: 0 <= i < j < |s| ==> StrLeq(s[i], s[j])
  }

  function InsertStr(x: string, s: seq<string>): (r: seq<string>)
    requires SortedStr(s)
    ensures SortedStr(r)
    ensures forall y :: y in r ==> y == x || y in s
    ensures multiset(r) == multiset(s) + multiset{x}
    decreases |s|
  {
    if s == [] || StrLeq(x, s[0]) then
      ConsStr(x, s);
      [x] + s
    else
      StrLessTotal(x, s[0]);
      var t := s[1..];
      var rest := InsertStr(x, t);
      assert s == [s[0]] + t;
      assert StrLeq(s[0], rest[0]) by {
        assert rest[0] in rest;
        if rest[0] != x {
          var j :| 0 <= j < |t| && t[j] == rest[0];
          assert t[j] == s[j + 1];
        }
      }
      ConsStr(s[0], rest);
      [s[0]] + rest
  }

  /** A string not above the first of an ascending sequence keeps it ascending when put
      in front. */
  lemma ConsStr(h: string, t: seq<string>)
    requires SortedStr(t) && (t != [] ==> StrLeq(h, t[0]))
    ensures SortedStr([h] + t)
  {
    var r := [h] + t;
    forall i, j | 0 <= i < j < |r| ensures StrLeq(r[i], r[j]) {
      assert r[j] == t[j - 1];
      if i == 0 {
        if j > 1 {
          StrLeqTrans(h, t[0], t[j - 1]);
        }
      } else {
        assert r[i] == t[i - 1];
      }
    }
  }

  /** Python's `sorted()` on a list of strings. */
  function SortStr(s: seq<string>): (r: seq<string>)
    ensures SortedStr(r)
    ensures multiset(r) == multiset(s)
    decreases |s|
  {
    if s == [] then []
    else
      assert s == [s[0]] + s[1..];
      InsertStr(s[0], SortStr(s[1..]))
  }

  /** Sorting neither adds nor drops a string. */
  lemma SortStrMembers(s: seq<string>)
    ensures forall k :: 0 <= k < |SortStr(s)| ==> SortStr(s)[k] in s
    ensures forall k :: 0 <= k < |s| ==> s[k] in SortStr(s)
  {
    var r := SortStr(s);
    forall k | 0 <= k < |r| ensures r[k] in s {
      assert r[k] in multiset(r);
    }
    forall k | 0 <= k < |s| ensures s[k] in r {
      assert s[k] in multiset(s);
    }
  }
}
