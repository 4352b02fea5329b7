/** `ORDER BY key [ASC|DESC] LIMIT n` over an in-memory table.

    Rows with equal keys keep their table order (a stable sort); a descending
    order is an ascending order on the negated key.
 */
module Sorting {
  predicate SortedBy<T>(s: seq<T>, key: T -> int)
  {
    forall i, j :: 0 <= i < j < |s| ==> key(s[i]) <= key(s[j])
  }

  /** Places `x` before the first element whose key is not smaller than its own. */
  function Insert<T>(x: T, s: seq<T>, key: T -> int): (r: seq<T>)
    requires SortedBy(s, key)
    ensures |r| == |s| + 1
    ensures multiset(r) == multiset(s) + multiset{x}
    ensures SortedBy(r, key)
    ensures |s| == 0 || key(x) <= key(s[0]) ==> r == [x] + s
  {
    if |s| == 0 || key(x) <= key(s[0]) then [x] + s
    else
      TailSorted(s, key);
      var rest := Insert(x, s[1..], key);
      assert s == [s[0]] + s[1..];
      InsertAbove(x, s, key, rest);
      ConsSorted(s[0], rest, key);
      [s[0]] + rest
  }

  lemma TailSorted<T>(s: seq<T>, key: T -> int)
    requires |s| > 0 && SortedBy(s, key)
    ensures SortedBy(s[1..], key)
  {
    assert forall i :: 0 <= i < |s| - 1 ==> s[1..][i] == s[i + 1];
  }


  /** Every row of `rest`, the tail with `x` inserted, is at or above the head. */
  lemma InsertAbove<T>(x: T, s: seq<T>, key: T -> int, rest: seq<T>)
    requires |s| > 0 && SortedBy(s, key) && key(s[0]) < key(x)
    requires multiset(rest) == multiset(s[1..]) + multiset{x}
    ensures forall j :: 0 <= j < |rest| ==> key(s[0]) <= key(rest[j])
  {
    forall j | 0 <= j < |rest|
      ensures key(s[0]) <= key(rest[j])
    {
      assert rest[j] in multiset(rest);
      if rest[j] != x {
        assert rest[j] in multiset(s[1..]);
        var k :| 0 <= k < |s[1..]| && s[1..][k] == rest[j];
        assert s[k + 1] == rest[j];
      }
    }
  }

  /** `ORDER BY key ASC`. */
  function SortBy<T>(s: seq<T>, key: T -> int): (r: seq<T>)
    ensures |r| == |s|
    ensures multiset(r) == multiset(s)
    ensures SortedBy(r, key)
  {
    if |s| == 0 then []
    else
      assert s == [s[0]] + s[1..];
      Insert(s[0], SortBy(s[1..], key), key)
  }

  /** Sorting an already ordered table changes nothing. */
  lemma {:induction false} SortBySorted<T>(s: seq<T>, key: T -> int)
    requires SortedBy(s, key)
    ensures SortBy(s, key) == s
  {
    if |s| > 0 {
      assert SortedBy(s[1..], key);
      SortBySorted(s[1..], key);
      assert s == [s[0]] + s[1..];
    }
  }

  /** Sequences with the same multiset have the same members. */
  lemma SameMembers<T>(a: seq<T>, b: seq<T>)
    requires multiset(a) == multiset(b)
    ensures forall x :: x in a ==> x in b
    ensures forall x :: x in b ==> x in a
  {
    forall x | x in a
      ensures x in b
    {
      assert x in multiset(a);
    }
    forall x | x in b
      ensures x in a
    {
      assert x in multiset(b);
    }
  }

  /** Index-wise membership is transitive. */
  lemma Within<T>(a: seq<T>, b: seq<T>, c: seq<T>)
    requires forall i :: 0 <= i < |a| ==> a[i] in b
    requires forall i :: 0 <= i < |b| ==> b[i] in c
    ensures forall i :: 0 <= i < |a| ==> a[i] in c
  {
    forall i | 0 <= i < |a|
      ensures a[i] in c
    {
      var j :| 0 <= j < |b| && b[j] == a[i];
    }
  }

  /** What holds of every row of `b` holds of every row drawn from `b`. */
  lemma Carry<T>(a: seq<T>, b: seq<T>, p: T -> bool)
    requires forall i :: 0 <= i < |a| ==> a[i] in b
    requires forall i :: 0 <= i < |b| ==> p(b[i])
    ensures forall i :: 0 <= i < |a| ==> p(a[i])
  {
    forall i | 0 <= i < |a|
      ensures p(a[i])
    {
      var j :| 0 <= j < |b| && b[j] == a[i];
    }
  }

  /** `LIMIT n`. */
  function Take<T>(s: seq<T>, n: nat): (r: seq<T>)
    ensures |r| == if n < |s| then n else |s|
    ensures r == s[..|r|]
  {
    if n < |s| then s[..n] else s
  }

  /** `ORDER BY key LIMIT n`, where a limit of 0 (falsy) means no limit: the
      first `n` rows in key order, so every row left out sorts at or after
      every row returned. */
  function OrderLimit<T>(s: seq<T>, key: T -> int, limit: nat): (r: seq<T>)
    ensures |r| == if 0 < limit < |s| then limit else |s|
    ensures multiset(r) <= multiset(s)
    ensures limit == 0 ==> multiset(r) == multiset(s)
    ensures SortedBy(r, key)
    ensures forall i :: 0 <= i < |r| ==> r[i] in s
    ensures (limit == 0 || |r| < limit) ==> forall i :: 0 <= i < |s| ==> s[i] in r
    ensures forall x :: x in s && x !in r ==> forall j :: 0 <= j < |r| ==> key(r[j]) <= key(x)
  {
    var sorted := SortBy(s, key);
    var r := if limit == 0 then sorted else Take(sorted, limit);
    PrefixFacts(s, sorted, key, limit, r);
    r
  }

  /** The promises of `OrderLimit` for a prefix of the sorted table. */
  lemma PrefixFacts<T>(s: seq<T>, sorted: seq<T>, key: T -> int, limit: nat, r: seq<T>)
    requires |sorted| == |s| && multiset(sorted) == multiset(s) && SortedBy(sorted, key)
    requires r == if limit == 0 then sorted else Take(sorted, limit)
    ensures |r| == if 0 < limit < |s| then limit else |s|
    ensures multiset(r) <= multiset(s)
    ensures limit == 0 ==> multiset(r) == multiset(s)
    ensures SortedBy(r, key)
    ensures forall i :: 0 <= i < |r| ==> r[i] in s
    ensures (limit == 0 || |r| < limit) ==> forall i :: 0 <= i < |s| ==> s[i] in r
    ensures forall x :: x in s && x !in r ==> forall j :: 0 <= j < |r| ==> key(r[j]) <= key(x)
  {
    SameMembers(s, sorted);
    assert r == sorted[..|r|];
    assert sorted == r + sorted[|r|..];
    forall i | 0 <= i < |r|
      ensures r[i] in s
    {
      assert r[i] == sorted[i];
    }
    LeftOutSortsAfter(sorted, key, r);
  }

  /** `WHERE p ORDER BY key LIMIT n`, its promises stated over the unfiltered table. */
  function FilterOrderLimit<T>(s: seq<T>, p: T -> bool, key: T -> int, limit: nat): (r: seq<T>)
    ensures |r| == if 0 < limit < |Filter(s, p)| then limit else |Filter(s, p)|
    ensures multiset(r) <= multiset(Filter(s, p))
    ensures limit == 0 ==> multiset(r) == multiset(Filter(s, p))
    ensures forall i :: 0 <= i < |r| ==> r[i] in s && p(r[i])
    ensures SortedBy(r, key)
    ensures (limit == 0 || |r| < limit) ==> forall i :: 0 <= i < |s| && p(s[i]) ==> s[i] in r
    ensures forall i :: 0 <= i < |s| && p(s[i]) && s[i] !in r ==> forall j :: 0 <= j < |r| ==> key(r[j]) <= key(s[i])
  {
    var kept := Filter(s, p);
    var r := OrderLimit(kept, key, limit);
    forall i | 0 <= i < |r|
      ensures r[i] in s && p(r[i])
    {
      InFilter(s, p, r[i]);
    }
    r
  }

  /** A prefix of an ordered sequence holds nothing that sorts after what it leaves out. */
  lemma LeftOutSortsAfter<T>(sorted: seq<T>, key: T -> int, r: seq<T>)
    requires SortedBy(sorted, key) && |r| <= |sorted| && r == sorted[..|r|]
    ensures forall x :: x in sorted && x !in r ==> forall j :: 0 <= j < |r| ==> key(r[j]) <= key(x)
  {
    forall x, j | x in sorted && x !in r && 0 <= j < |r|
      ensures key(r[j]) <= key(x)
    {
      var k :| 0 <= k < |sorted| && sorted[k] == x;
      assert forall i :: 0 <= i < |r| ==> r[i] == sorted[i];
      assert |r| <= k;
      assert r[j] == sorted[j];
    }
  }

  /** Keeps the rows satisfying `p`, in order. */
  function Filter<T>(s: seq<T>, p: T -> bool): (r: seq<T>)
    ensures |r| <= |s|
    ensures forall i :: 0 <= i < |r| ==> p(r[i])
    ensures forall i :: 0 <= i < |r| ==> r[i] in s
    ensures forall i :: 0 <= i < |s| && p(s[i]) ==> s[i] in r
  {
    if |s| == 0 then []
    else
      assert s == [s[0]] + s[1..];
      (if p(s[0]) then [s[0]] else []) + Filter(s[1..], p)
  }

  /** A subsequence of an ordered table is ordered. */
  lemma {:induction false} FilterSorted<T>(s: seq<T>, p: T -> bool, key: T -> int)
    requires SortedBy(s, key)
    ensures SortedBy(Filter(s, p), key)
  {
    if |s| > 0 {
      var tail := s[1..];
      assert SortedBy(tail, key);
      FilterSorted(tail, p, key);
      var rest := Filter(tail, p);
      if p(s[0]) {
        forall j | 0 <= j < |rest|
          ensures key(s[0]) <= key(rest[j])
        {
          var k :| 0 <= k < |tail| && tail[k] == rest[j];
        }
        ConsSorted(s[0], rest, key);
      }
    }
  }

  /** An element no larger than anything in an ordered sequence can go in front. */
  lemma ConsSorted<T>(x: T, s: seq<T>, key: T -> int)
    requires SortedBy(s, key)
    requires forall j :: 0 <= j < |s| ==> key(x) <= key(s[j])
    ensures SortedBy([x] + s, key)
  {
    forall i, j | 0 <= i < j < |[x] + s|
      ensures key(([x] + s)[i]) <= key(([x] + s)[j])
    {
      assert ([x] + s)[j] == s[j - 1];
      if i > 0 {
        assert ([x] + s)[i] == s[i - 1];
      }
    }
  }

  /** Tests that agree on every row select the same rows. */
  lemma {:induction false} FilterSame<T>(s: seq<T>, p: T -> bool, q: T -> bool)
    requires forall i :: 0 <= i < |s| ==> p(s[i]) == q(s[i])
    ensures Filter(s, p) == Filter(s, q)
  {
    if |s| > 0 {
      assert forall i :: 0 <= i < |s[1..]| ==> s[1..][i] == s[i + 1];
      FilterSame(s[1..], p, q);
    }
  }

  /** Whatever a filter keeps comes from its input and passes the test. */
  lemma InFilter<T>(s: seq<T>, p: T -> bool, x: T)
    requires x in Filter(s, p)
    ensures x in s && p(x)
  {
  }

  /** ... and it keeps every such element. */
  lemma FilterKeeps<T>(s: seq<T>, p: T -> bool, x: T)
    ensures x in s && p(x) ==> x in Filter(s, p)
  {
    if x in s {
      var i :| 0 <= i < |s| && s[i] == x;
    }
  }

  /** The members of a filter are exactly the passing members of its input. */
  lemma FilterMembers<T>(s: seq<T>, p: T -> bool)
    ensures forall x :: x in Filter(s, p) <==> x in s && p(x)
  {
    forall x
      ensures x in Filter(s, p) <==> x in s && p(x)
    {
      FilterKeeps(s, p, x);
    }
  }

  /** The rows satisfying `p`, or all rows when none does: the pages'
      "show everything rather than nothing" fallback. */
  function FilterOrAll<T>(s: seq<T>, p: T -> bool): (r: seq<T>)
    ensures |s| > 0 ==> |r| > 0
    ensures forall i :: 0 <= i < |s| && p(s[i]) ==> s[i] in r
    ensures r == s || forall i :: 0 <= i < |r| ==> r[i] in s && p(r[i])
    ensures (forall i :: 0 <= i < |s| ==> !p(s[i])) <==> r == s && forall i :: 0 <= i < |r| ==> !p(r[i])
  {
    var kept := Filter(s, p);
    if |kept| > 0 then
      assert kept[0] in s && p(kept[0]);
      kept
    else s
  }

  /** A non-empty sequence is its prefix followed by its last element. */
  lemma SplitLast<T>(s: seq<T>)
    requires |s| > 0
    ensures s[..|s| - 1] + [s[|s| - 1]] == s
  {
  }

  /** No row passes, so nothing is kept. */
  lemma FilterNone<T>(s: seq<T>, p: T -> bool)
    requires forall i :: 0 <= i < |s| ==> !p(s[i])
    ensures Filter(s, p) == []
  {
  }

  /** How many rows pass, counted from the first. */
  lemma FilterCountCons<T>(s: seq<T>, p: T -> bool)
    requires |s| > 0
    ensures |Filter(s, p)| == (if p(s[0]) then 1 else 0) + |Filter(s[1..], p)|
  {
  }

  lemma {:induction false} FilterSnoc<T>(s: seq<T>, x: T, p: T -> bool)
    ensures Filter(s + [x], p) == Filter(s, p) + (if p(x) then [x] else [])
  {
    if |s| == 0 {
      assert s + [x] == [x];
      assert Filter([x], p) == (if p(x) then [x] else []) + Filter([x][1..], p);
    } else {
      var t := s + [x];
      var head := if p(s[0]) then [s[0]] else [];
      assert t[0] == s[0] && t[1..] == s[1..] + [x];
      assert Filter(t, p) == head + Filter(t[1..], p);
      assert Filter(s, p) == head + Filter(s[1..], p);
      FilterSnoc(s[1..], x, p);
    }
  }

  /** Turning the first passing row `x` (which occurs once) into a failing one
      removes exactly the head of the filtered table. */
  lemma {:induction false} FilterRemoveHead<T>(s: seq<T>, s': seq<T>, p: T -> bool)
    requires |s'| == |s| && |Filter(s, p)| > 0
    requires forall j :: 0 <= j < |s| && s[j] == Filter(s, p)[0] ==> !p(s'[j])
    requires forall j :: 0 <= j < |s| && s[j] != Filter(s, p)[0] ==> s'[j] == s[j]
    requires forall i, j :: 0 <= i < j < |s| && s[i] == Filter(s, p)[0] ==> s[j] != s[i]
    ensures Filter(s', p) == Filter(s, p)[1..]
  {
    var x := Filter(s, p)[0];
    assert s == [s[0]] + s[1..] && s' == [s'[0]] + s'[1..];
    if s[0] == x {
      assert p(s[0]);
      assert Filter(s, p) == [s[0]] + Filter(s[1..], p);
      assert s'[1..] == s[1..];
    } else {
      assert s'[0] == s[0];
      assert !p(s[0]);
      assert Filter(s, p) == Filter(s[1..], p);
      FilterRemoveHead(s[1..], s'[1..], p);
    }
  }

  /** Elements with pairwise distinct keys occur at most once each. */
  lemma {:induction false} DistinctKeysOnce<T>(a: seq<T>, key: T -> int)
    requires forall i, j :: 0 <= i < j < |a| ==> key(a[i]) != key(a[j])
    ensures forall x :: multiset(a)[x] <= 1
  {
    if |a| > 0 {
      var init, last := a[..|a| - 1], a[|a| - 1];
      assert a == init + [last];
      DistinctKeysOnce(init, key);
      assert last !in init;
    }
  }

  /** Reordering a sequence keeps its keys pairwise distinct. */
  lemma DistinctKeysPermute<T>(a: seq<T>, b: seq<T>, key: T -> int)
    requires multiset(a) == multiset(b)
    requires forall i, j :: 0 <= i < j < |a| ==> key(a[i]) != key(a[j])
    ensures forall i, j :: 0 <= i < j < |b| ==> key(b[i]) != key(b[j])
  {
    DistinctKeysOnce(a, key);
    forall i, j | 0 <= i < j < |b|
      ensures key(b[i]) != key(b[j])
    {
      assert b[i] != b[j] by {
        assert b == b[..j] + [b[j]] + b[j + 1..];
        assert b[i] in b[..j];
      }
      assert b[i] in multiset(a) && b[j] in multiset(a);
      var k :| 0 <= k < |a| && a[k] == b[i];
      var l :| 0 <= l < |a| && a[l] == b[j];
      if k < l {
        assert key(a[k]) != key(a[l]);
      } else {
        assert key(a[l]) != key(a[k]);
      }
    }
  }
}
