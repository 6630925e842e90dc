/**
  Top-K by group average: the generic ranking the use case calls, which keeps
  records whose group average is null (they sort last), and the Group A
  ranking that first drops them.
*/
module Ranking {
  import opened Wrappers
  import opened Numbers
  import opened Students

  /** `$limit` only accepts a positive count. */
  datatype RankingError = LimitNotPositive

  /** The order of a descending `$sort` on an average: null is below every number. */
  predicate AtMost(a: Option<real>, b: Option<real>)
  {
    a.None? || (b.Some? && a.value <= b.value)
  }

  /** The `$addFields` stage: the null-skipping average over the given subjects. */
  function AverageKey(g: seq<Subject>): Student -> Option<real>
  {
    s => CalculateAverage(s, g)
  }

  predicate SortedDesc(r: seq<Student>, key: Student -> Option<real>)
  {
    forall i, j :: 0 <= i < j < |r| ==> AtMost(key(r[j]), key(r[i]))
  }

  /**
    Places `x` ahead of the first record ranking no higher than it. Ties keep
    store order; the store itself leaves the order of equal averages open.
  */
  function Insert(x: Student, t: seq<Student>, key: Student -> Option<real>): (r: seq<Student>)
    ensures |r| == |t| + 1
  {
    if |t| == 0 then [x]
    else if AtMost(key(t[0]), key(x)) then [x] + t
    else [t[0]] + Insert(x, t[1..], key)
  }

  /** The `$sort: { average: -1 }` stage. */
  function SortDesc(s: seq<Student>, key: Student -> Option<real>): (r: seq<Student>)
    ensures |r| == |s|
  {
    if |s| == 0 then [] else Insert(s[0], SortDesc(s[1..], key), key)
  }

  /** The `$limit` stage. */
  function LimitStage(xs: seq<Student>, limit: int): Result<seq<Student>, RankingError>
  {
    if limit <= 0 then Failure(LimitNotPositive) else Success(xs[..Min(limit, |xs|)])
  }

  /** `findTopStudents`: add the null-skipping average, sort descending, limit. No record is dropped. */
  function FindTopStudents(store: seq<Student>, limit: int, subjects: seq<Subject>): Result<seq<Student>, RankingError>
  {
    LimitStage(SortDesc(store, AverageKey(subjects)), limit)
  }

  /** The `$match: { average: { $ne: null } }` stage. */
  function WithKey(s: seq<Student>, key: Student -> Option<real>): seq<Student>
  {
    if |s| == 0 then [] else (if key(s[0]).Some? then [s[0]] else []) + WithKey(s[1..], key)
  }

  /** `getTopGroupAStudents`: as above over Group A, but records without a Group A score are dropped first. */
  function GetTopGroupAStudents(store: seq<Student>, limit: int): Result<seq<Student>, RankingError>
  {
    LimitStage(SortDesc(WithKey(store, AverageKey(GroupA)), AverageKey(GroupA)), limit)
  }

  /**
    `r` is a top-`k` selection from `pool` by `key`: drawn from it, as long as
    possible, sorted descending, and no record left out ranks above any record
    returned.
  */
  ghost predicate IsTopK(r: seq<Student>, pool: seq<Student>, k: nat, key: Student -> Option<real>)
  {
    && multiset(r) <= multiset(pool)
    && |r| == Min(k, |pool|)
    && SortedDesc(r, key)
    && forall x, i :: x in multiset(pool) - multiset(r) && 0 <= i < |r| ==> AtMost(key(x), key(r[i]))
  }

  // ---------------------------------------------------------------------------
  // Sorting
  // ---------------------------------------------------------------------------

  lemma {:induction false} InsertPermutes(x: Student, t: seq<Student>, key: Student -> Option<real>)
    ensures multiset(Insert(x, t, key)) == multiset(t) + multiset{x}
  {
    if |t| > 0 && !AtMost(key(t[0]), key(x)) {
      InsertPermutes(x, t[1..], key);
      assert t == [t[0]] + t[1..];
    }
  }

  lemma SortedTail(t: seq<Student>, key: Student -> Option<real>)
    requires |t| > 0 && SortedDesc(t, key)
    ensures SortedDesc(t[1..], key)
  {
    forall i, j | 0 <= i < j < |t[1..]|
      ensures AtMost(key(t[1..][j]), key(t[1..][i]))
    {
      assert t[1..][i] == t[i + 1] && t[1..][j] == t[j + 1];
    }
  }

  lemma {:induction false} InsertSorted(x: Student, t: seq<Student>, key: Student -> Option<real>)
    requires SortedDesc(t, key)
    ensures SortedDesc(Insert(x, t, key), key)
  {
    if |t| > 0 && !AtMost(key(t[0]), key(x)) {
      var rest := Insert(x, t[1..], key);
      SortedTail(t, key);
      InsertSorted(x, t[1..], key);
      InsertPermutes(x, t[1..], key);
      forall j | 0 <= j < |rest|
        ensures AtMost(key(rest[j]), key(t[0]))
      {
        assert rest[j] in multiset(rest);
        if rest[j] != x {
          assert rest[j] in t[1..];
          var k :| 0 <= k < |t[1..]| && t[1..][k] == rest[j];
          assert t[k + 1] == rest[j];
        }
      }
      var r := [t[0]] + rest;
      forall i, j | 0 <= i < j < |r|
        ensures AtMost(key(r[j]), key(r[i]))
      {
        if i > 0 {
          assert r[i] == rest[i - 1] && r[j] == rest[j - 1];
        } else {
          assert r[j] == rest[j - 1];
        }
      }
    }
  }

  /** The sort stage returns a descending permutation of its input. */
  lemma {:induction false} SortDescCorrect(s: seq<Student>, key: Student -> Option<real>)
    ensures multiset(SortDesc(s, key)) == multiset(s)
    ensures SortedDesc(SortDesc(s, key), key)
  {
    if |s| > 0 {
      SortDescCorrect(s[1..], key);
      InsertPermutes(s[0], SortDesc(s[1..], key), key);
      InsertSorted(s[0], SortDesc(s[1..], key), key);
      assert s == [s[0]] + s[1..];
    }
  }

  /** A prefix of a descending permutation of `pool` is a top-`k` selection from it. */
  lemma PrefixIsTopK(sorted: seq<Student>, pool: seq<Student>, k: nat, key: Student -> Option<real>)
    requires multiset(sorted) == multiset(pool)
    requires SortedDesc(sorted, key)
    ensures IsTopK(sorted[..Min(k, |sorted|)], pool, k, key)
  {
    var m := Min(k, |sorted|);
    var r := sorted[..m];
    var rest := sorted[m..];
    assert sorted == r + rest;
    assert multiset(pool) == multiset(r) + multiset(rest);
    assert |pool| == |sorted| by {
      assert |multiset(sorted)| == |sorted| && |multiset(pool)| == |pool|;
    }
    assert SortedDesc(r, key) by {
      forall i, j | 0 <= i < j < |r|
        ensures AtMost(key(r[j]), key(r[i]))
      {
        assert r[i] == sorted[i] && r[j] == sorted[j];
      }
    }
    forall x, i | x in multiset(pool) - multiset(r) && 0 <= i < |r|
      ensures AtMost(key(x), key(r[i]))
    {
      assert x in multiset(rest);
      var j :| 0 <= j < |rest| && rest[j] == x;
      assert sorted[m + j] == x && sorted[i] == r[i];
    }
  }

  // ---------------------------------------------------------------------------
  // The two rankings
  // ---------------------------------------------------------------------------

  /**
    `findTopStudents` fails on a non-positive limit and otherwise is a
    top-`limit` selection from the whole store by null-skipping average.
  */
  lemma FindTopStudentsIsTopK(store: seq<Student>, limit: int, g: seq<Subject>)
    ensures FindTopStudents(store, limit, g).Failure? <==> limit <= 0
    ensures var r := FindTopStudents(store, limit, g);
      r.Success? ==> IsTopK(r.value, store, limit, AverageKey(g))
  {
    if limit > 0 {
      SortDescCorrect(store, AverageKey(g));
      PrefixIsTopK(SortDesc(store, AverageKey(g)), store, limit, AverageKey(g));
    }
  }

  lemma {:induction false} WithKeyContents(s: seq<Student>, key: Student -> Option<real>, x: Student)
    ensures multiset(WithKey(s, key))[x] == if key(x).Some? then multiset(s)[x] else 0
  {
    if |s| > 0 {
      WithKeyContents(s[1..], key, x);
      assert s == [s[0]] + s[1..];
    }
  }

  /** Ranking after the `$match` stage: only keyed records, each omitted keyed record ranking no higher. */
  lemma KeyedTopK(store: seq<Student>, limit: int, key: Student -> Option<real>)
    requires limit > 0
    ensures var r := SortDesc(WithKey(store, key), key)[..Min(limit, |WithKey(store, key)|)];
      && IsTopK(r, WithKey(store, key), limit, key)
      && (forall i :: 0 <= i < |r| ==> key(r[i]).Some?)
      && (forall x, i :: x in multiset(store) - multiset(r) && key(x).Some? && 0 <= i < |r| ==>
            AtMost(key(x), key(r[i])))
  {
    var pool := WithKey(store, key);
    SortDescCorrect(pool, key);
    PrefixIsTopK(SortDesc(pool, key), pool, limit, key);
    var r := SortDesc(pool, key)[..Min(limit, |pool|)];
    forall i | 0 <= i < |r|
      ensures key(r[i]).Some?
    {
      assert r[i] in multiset(r);
      WithKeyContents(store, key, r[i]);
    }
    forall x | x in multiset(store) - multiset(r) && key(x).Some?
      ensures x in multiset(pool) - multiset(r)
    {
      WithKeyContents(store, key, x);
    }
  }

  /**
    `getTopGroupAStudents` returns only records with a Group A average, as a
    top-`limit` selection among them (`KeyedTopK` states the ranking against
    the whole store).
  */
  lemma GetTopGroupAStudentsIsTopK(store: seq<Student>, limit: int)
    ensures GetTopGroupAStudents(store, limit).Failure? <==> limit <= 0
    ensures var r := GetTopGroupAStudents(store, limit); var key := AverageKey(GroupA);
      r.Success? ==> IsTopK(r.value, WithKey(store, key), limit, key)
    ensures var r := GetTopGroupAStudents(store, limit); var key := AverageKey(GroupA);
      r.Success? ==> forall i :: 0 <= i < |r.value| ==> key(r.value[i]).Some?
  {
    if limit > 0 {
      KeyedTopK(store, limit, AverageKey(GroupA));
    }
  }

  // ---------------------------------------------------------------------------
  // How the two rankings relate
  // ---------------------------------------------------------------------------

  lemma WithKeyCons(a: Student, t: seq<Student>, key: Student -> Option<real>)
    ensures WithKey([a] + t, key) == (if key(a).Some? then [a] else []) + WithKey(t, key)
  {
    assert ([a] + t)[1..] == t;
  }

  lemma {:induction false} WithKeyEmpty(t: seq<Student>, key: Student -> Option<real>)
    requires forall i :: 0 <= i < |t| ==> key(t[i]).None?
    ensures WithKey(t, key) == []
  {
    if |t| > 0 {
      assert t == [t[0]] + t[1..];
      WithKeyCons(t[0], t[1..], key);
      WithKeyEmpty(t[1..], key);
    }
  }

  /** In a descending sequence everything after a null key is null. */
  lemma NullHeadMeansNoKeys(t: seq<Student>, key: Student -> Option<real>)
    requires |t| > 0 && SortedDesc(t, key)
    requires key(t[0]).None?
    ensures WithKey(t, key) == []
  {
    assert forall j :: 0 < j < |t| ==> AtMost(key(t[j]), key(t[0]));
    WithKeyEmpty(t, key);
  }

  lemma {:induction false} WithKeyInsert(x: Student, t: seq<Student>, key: Student -> Option<real>)
    requires SortedDesc(t, key)
    ensures WithKey(Insert(x, t, key), key) ==
      if key(x).Some? then Insert(x, WithKey(t, key), key) else WithKey(t, key)
  {
    if |t| == 0 {
      WithKeyCons(x, [], key);
    } else if AtMost(key(t[0]), key(x)) {
      WithKeyCons(x, t, key);
      if key(x).Some? {
        if key(t[0]).Some? {
          assert t == [t[0]] + t[1..];
          WithKeyCons(t[0], t[1..], key);
        } else {
          NullHeadMeansNoKeys(t, key);
        }
      }
    } else {
      assert t == [t[0]] + t[1..];
      SortedTail(t, key);
      WithKeyInsert(x, t[1..], key);
      WithKeyCons(t[0], Insert(x, t[1..], key), key);
      WithKeyCons(t[0], t[1..], key);
    }
  }

  lemma {:induction false} WithKeySort(s: seq<Student>, key: Student -> Option<real>)
    ensures WithKey(SortDesc(s, key), key) == SortDesc(WithKey(s, key), key)
  {
    if |s| > 0 {
      WithKeySort(s[1..], key);
      SortDescCorrect(s[1..], key);
      WithKeyInsert(s[0], SortDesc(s[1..], key), key);
      assert s == [s[0]] + s[1..];
      WithKeyCons(s[0], s[1..], key);
      var w := WithKey(s, key);
      if key(s[0]).Some? {
        assert w == [s[0]] + WithKey(s[1..], key);
        assert w[0] == s[0] && w[1..] == WithKey(s[1..], key);
        assert SortDesc(w, key) == Insert(s[0], SortDesc(WithKey(s[1..], key), key), key);
      } else {
        assert w == WithKey(s[1..], key);
      }
    }
  }

  lemma PrefixCons(l: seq<Student>, k: nat)
    requires |l| > 0 && k > 0
    ensures l[..Min(k, |l|)] == [l[0]] + l[1..][..Min(k - 1, |l| - 1)]
  {
  }

  lemma {:induction false} WithKeyOfPrefix(l: seq<Student>, k: nat, key: Student -> Option<real>)
    requires SortedDesc(l, key)
    ensures WithKey(l[..Min(k, |l|)], key) == WithKey(l, key)[..Min(k, |WithKey(l, key)|)]
    decreases |l|, 1
  {
    if |l| > 0 && k > 0 {
      if key(l[0]).Some? {
        WithKeyOfPrefixKeyed(l, k, key);
      } else {
        WithKeyOfPrefixUnkeyed(l, k, key);
      }
    }
  }

  lemma {:induction false} WithKeyOfPrefixKeyed(l: seq<Student>, k: nat, key: Student -> Option<real>)
    requires SortedDesc(l, key)
    requires |l| > 0 && k > 0 && key(l[0]).Some?
    ensures WithKey(l[..Min(k, |l|)], key) == WithKey(l, key)[..Min(k, |WithKey(l, key)|)]
    decreases |l|, 0
  {
    var head := l[0];
    var tail := l[1..];
    var tailPrefix := tail[..Min(k - 1, |tail|)];
    var w := WithKey(tail, key);
    PrefixCons(l, k);
    assert l[..Min(k, |l|)] == [head] + tailPrefix;
    WithKeyCons(head, tailPrefix, key);
    assert WithKey(l[..Min(k, |l|)], key) == [head] + WithKey(tailPrefix, key);
    SortedTail(l, key);
    WithKeyOfPrefix(tail, k - 1, key);
    assert WithKey(tailPrefix, key) == w[..Min(k - 1, |w|)];
    assert l == [head] + tail;
    WithKeyCons(head, tail, key);
    assert WithKey(l, key) == [head] + w;
    PrefixCons([head] + w, k);
    assert ([head] + w)[1..] == w;
  }

  lemma WithKeyOfPrefixUnkeyed(l: seq<Student>, k: nat, key: Student -> Option<real>)
    requires SortedDesc(l, key)
    requires |l| > 0 && k > 0 && key(l[0]).None?
    ensures WithKey(l[..Min(k, |l|)], key) == WithKey(l, key)[..Min(k, |WithKey(l, key)|)]
  {
    var p := l[..Min(k, |l|)];
    NullHeadMeansNoKeys(l, key);
    assert SortedDesc(p, key) by {
      forall i, j | 0 <= i < j < |p|
        ensures AtMost(key(p[j]), key(p[i]))
      {
        assert p[i] == l[i] && p[j] == l[j];
      }
    }
    NullHeadMeansNoKeys(p, key);
  }

  // ---------------------------------------------------------------------------
  // Rankings under any tie order
  // ---------------------------------------------------------------------------

  lemma SubMultisetSize(a: multiset<Student>, b: multiset<Student>)
    requires a <= b
    ensures |a| <= |b|
  {
    assert b == a + (b - a);
  }

  /** In a descending sequence the records with an average come first, so filtering keeps a prefix. */
  lemma {:induction false} SortedWithKeyIsPrefix(t: seq<Student>, key: Student -> Option<real>)
    requires SortedDesc(t, key)
    ensures |WithKey(t, key)| <= |t|
    ensures WithKey(t, key) == t[..|WithKey(t, key)|]
    ensures forall i :: |WithKey(t, key)| <= i < |t| ==> key(t[i]).None?
  {
    if |t| > 0 {
      if key(t[0]).None? {
        NullHeadMeansNoKeys(t, key);
        forall i | 0 < i < |t|
          ensures key(t[i]).None?
        {
          assert AtMost(key(t[i]), key(t[0]));
        }
      } else {
        assert t == [t[0]] + t[1..];
        WithKeyCons(t[0], t[1..], key);
        SortedTail(t, key);
        SortedWithKeyIsPrefix(t[1..], key);
        var m := |WithKey(t[1..], key)|;
        assert WithKey(t, key) == [t[0]] + t[1..][..m];
        assert [t[0]] + t[1..][..m] == t[..m + 1];
        forall i | m + 1 <= i < |t|
          ensures key(t[i]).None?
        {
          assert t[i] == t[1..][i - 1];
        }
      }
    }
  }

  /** Filtering both sides keeps sub-multiset inclusion. */
  lemma WithKeyMonotone(r: seq<Student>, pool: seq<Student>, key: Student -> Option<real>)
    requires multiset(r) <= multiset(pool)
    ensures multiset(WithKey(r, key)) <= multiset(WithKey(pool, key))
    ensures multiset(WithKey(pool, key)) <= multiset(pool)
  {
    forall x
      ensures multiset(WithKey(r, key))[x] <= multiset(WithKey(pool, key))[x]
      ensures multiset(WithKey(pool, key))[x] <= multiset(pool)[x]
    {
      WithKeyContents(r, key, x);
      WithKeyContents(pool, key, x);
    }
  }

  /** Filtering a top-`k` selection keeps it sorted and keeps every left-out record ranked no higher. */
  lemma TopKWithKeyRanked(r: seq<Student>, pool: seq<Student>, k: nat, key: Student -> Option<real>)
    requires IsTopK(r, pool, k, key)
    ensures SortedDesc(WithKey(r, key), key)
    ensures forall x, i :: x in multiset(WithKey(pool, key)) - multiset(WithKey(r, key)) && 0 <= i < |WithKey(r, key)| ==>
      AtMost(key(x), key(WithKey(r, key)[i]))
  {
    var wr := WithKey(r, key);
    var wp := WithKey(pool, key);
    SortedWithKeyIsPrefix(r, key);
    forall i, j | 0 <= i < j < |wr|
      ensures AtMost(key(wr[j]), key(wr[i]))
    {
      assert wr[i] == r[i] && wr[j] == r[j];
    }
    forall x, i | x in multiset(wp) - multiset(wr) && 0 <= i < |wr|
      ensures AtMost(key(x), key(wr[i]))
    {
      WithKeyContents(r, key, x);
      WithKeyContents(pool, key, x);
      assert x in multiset(pool) - multiset(r);
      assert wr[i] == r[i];
    }
  }

  /**
    When a top-`k` selection holds a record without an average, it holds
    every copy of every record that has one.
  */
  lemma TopKKeepsAllKeyed(r: seq<Student>, pool: seq<Student>, k: nat, key: Student -> Option<real>, m: nat)
    requires IsTopK(r, pool, k, key)
    requires m < |r| && key(r[m]).None?
    ensures multiset(WithKey(pool, key)) <= multiset(WithKey(r, key))
  {
    forall x
      ensures multiset(WithKey(pool, key))[x] <= multiset(WithKey(r, key))[x]
    {
      WithKeyContents(r, key, x);
      WithKeyContents(pool, key, x);
      if key(x).Some? {
        // `x` ranks above `r[m]`, so `r` left no copy of it out.
        assert !AtMost(key(x), key(r[m]));
        assert x !in multiset(pool) - multiset(r);
      }
    }
  }

  /**
    Dropping the records without an average from any top-`k` selection leaves
    a top-`k` selection from the records that have one.
  */
  lemma TopKWithKey(r: seq<Student>, pool: seq<Student>, k: nat, key: Student -> Option<real>)
    requires IsTopK(r, pool, k, key)
    ensures IsTopK(WithKey(r, key), WithKey(pool, key), k, key)
  {
    var wr := WithKey(r, key);
    var wp := WithKey(pool, key);
    SortedWithKeyIsPrefix(r, key);
    WithKeyMonotone(r, pool, key);
    SubMultisetSize(multiset(wr), multiset(wp));
    SubMultisetSize(multiset(wp), multiset(pool));
    TopKWithKeyRanked(r, pool, k, key);
    if |wr| < |r| {
      TopKKeepsAllKeyed(r, pool, k, key, |wr|);
      SubMultisetSize(multiset(wp), multiset(wr));
    }
  }

  /** How many leading records of `r` rank strictly above the average `v`. */
  function LeadAbove(r: seq<Student>, v: Option<real>, key: Student -> Option<real>): (n: nat)
    ensures n <= |r|
    ensures forall j :: 0 <= j < n ==> !AtMost(key(r[j]), v)
    ensures n < |r| ==> AtMost(key(r[n]), v)
  {
    if |r| == 0 || AtMost(key(r[0]), v) then 0
    else
      var n' := LeadAbove(r[1..], v, key);
      assert forall j :: 1 <= j < n' + 1 ==> r[j] == r[1..][j - 1];
      1 + n'
  }

  /** A record ranking above position `i` of a top-`k` selection has all its copies among the first `i`. */
  lemma AboveIsKept(r: seq<Student>, pool: seq<Student>, k: nat, key: Student -> Option<real>, i: nat, y: Student)
    requires IsTopK(r, pool, k, key)
    requires i < |r|
    requires !AtMost(key(y), key(r[i]))
    ensures multiset(pool)[y] <= multiset(r[..i])[y]
  {
    assert r == r[..i] + r[i..];
    forall l | i <= l < |r|
      ensures r[l] != y
    {
      assert AtMost(key(r[l]), key(r[i]));
    }
    assert y !in r[i..];
    assert y !in multiset(pool) - multiset(r);
  }

  /**
    The records of one top-`k` selection that rank above position `i` of
    another from the same pool all appear among that other's first `i`.
  */
  lemma AboveFitsPrefix(r1: seq<Student>, r2: seq<Student>, pool: seq<Student>, k: nat,
                        key: Student -> Option<real>, i: nat, n: nat)
    requires IsTopK(r1, pool, k, key) && IsTopK(r2, pool, k, key)
    requires i < |r2| && n <= |r1|
    requires forall j :: 0 <= j < n ==> !AtMost(key(r1[j]), key(r2[i]))
    ensures n <= i
  {
    var a := r1[..n];
    var b := r2[..i];
    assert r1 == a + r1[n..];
    forall y
      ensures multiset(a)[y] <= multiset(b)[y]
    {
      if y in a {
        var j :| 0 <= j < |a| && a[j] == y;
        assert !AtMost(key(y), key(r2[i]));
        AboveIsKept(r2, pool, k, key, i, y);
        assert multiset(a)[y] <= multiset(r1)[y] <= multiset(pool)[y];
      }
    }
    SubMultisetSize(multiset(a), multiset(b));
  }

  /** Position by position, one top-`k` selection never ranks below another from the same pool. */
  lemma TopKDominates(r1: seq<Student>, r2: seq<Student>, pool: seq<Student>, k: nat,
                      key: Student -> Option<real>, i: nat)
    requires IsTopK(r1, pool, k, key) && IsTopK(r2, pool, k, key)
    requires i < |r1|
    ensures AtMost(key(r1[i]), key(r2[i]))
  {
    assert |r1| == |r2|;
    var v := key(r2[i]);
    var n := LeadAbove(r1, v, key);
    AboveFitsPrefix(r1, r2, pool, k, key, i, n);
    if n < i {
      assert AtMost(key(r1[i]), key(r1[n]));
    }
  }

  /**
    Any two top-`k` selections from one pool hold the same averages in the same
    positions: however the store orders equal averages, only which of the tied
    records appear, and where among their ties, can differ.
  */
  lemma TopKSameAverages(r1: seq<Student>, r2: seq<Student>, pool: seq<Student>, k: nat,
                         key: Student -> Option<real>)
    requires IsTopK(r1, pool, k, key) && IsTopK(r2, pool, k, key)
    ensures |r1| == |r2|
    ensures forall i :: 0 <= i < |r1| ==> key(r1[i]) == key(r2[i])
  {
    forall i | 0 <= i < |r1|
      ensures key(r1[i]) == key(r2[i])
    {
      TopKDominates(r1, r2, pool, k, key, i);
      TopKDominates(r2, r1, pool, k, key, i);
    }
  }

  /**
    Which of two records with equal averages survives a limit of 1 is left to
    the store's tie order: either one alone is a top-1 selection.
  */
  lemma TiedRecordsEitherMakeTheCut(a: Student, b: Student, key: Student -> Option<real>)
    requires a != b && key(a) == key(b)
    ensures IsTopK([a], [a, b], 1, key) && IsTopK([b], [a, b], 1, key)
  {
    assert multiset([a, b]) - multiset([a]) == multiset{b};
    assert multiset([a, b]) - multiset([b]) == multiset{a};
  }

  /**
    For any order the store gives equal averages: dropping the null-average
    records from a result `findTopStudents` may return for Group A gives a
    result `getTopGroupAStudents` may return, with the same averages, position
    by position, as any result `getTopGroupAStudents` may return.
  */
  lemma AnyTopStudentsWithAverageRankLikeTopGroupA(store: seq<Student>, limit: nat, r: seq<Student>, q: seq<Student>)
    requires IsTopK(r, store, limit, AverageKey(GroupA))
    requires IsTopK(q, WithKey(store, AverageKey(GroupA)), limit, AverageKey(GroupA))
    ensures var key := AverageKey(GroupA);
      IsTopK(WithKey(r, key), WithKey(store, key), limit, key)
    ensures var key := AverageKey(GroupA); var w := WithKey(r, key);
      |w| == |q| && forall i :: 0 <= i < |q| ==> key(w[i]) == key(q[i])
  {
    var key := AverageKey(GroupA);
    TopKWithKey(r, store, limit, key);
    TopKSameAverages(WithKey(r, key), q, WithKey(store, key), limit, key);
  }

  /**
    Dropping the records without a Group A average from `findTopStudents`'s
    Group A result leaves exactly `getTopGroupAStudents`'s result: the two
    differ only in the null-average records the first keeps at its tail.
  */
  lemma TopStudentsWithAverageIsTopGroupA(store: seq<Student>, limit: int)
    requires limit > 0
    ensures FindTopStudents(store, limit, GroupA).Success? && GetTopGroupAStudents(store, limit).Success?
    ensures WithKey(FindTopStudents(store, limit, GroupA).value, AverageKey(GroupA)) ==
      GetTopGroupAStudents(store, limit).value
  {
    var key := AverageKey(GroupA);
    SortDescCorrect(store, key);
    WithKeyOfPrefix(SortDesc(store, key), limit, key);
    WithKeySort(store, key);
  }
}
