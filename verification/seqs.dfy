/** Sequence helpers shared by the repositories of the model.

    A Spring Data repository is modelled as a sequence of rows in storage
    order. Its derived queries become a filter (`Filter`), a lookup of the
    first matching row (`IndexOf`), and an `ORDER BY` (`SortDesc`/`SortAsc`).
 */
module Seqs {
  import opened Wrappers

  /** Index of the first element satisfying `p`, if any. */
  function IndexOf<T>(s: seq<T>, p: T -> bool): (r: Option<nat>)
    ensures r.Some? ==> r.value < |s| && p(s[r.value])
    ensures r.Some? ==> forall j :: 0 <= j < r.value ==> !p(s[j])
    ensures r.None? <==> forall j :: 0 <= j < |s| ==> !p(s[j])
  {
    if |s| == 0 then None
    else if p(s[0]) then Some(0)
    else
      match IndexOf(s[1..], p)
      case None => None
      case Some(i) => Some(i + 1)
  }

  /** The elements of `s` satisfying `p`, in their original order. */
  function Filter<T>(s: seq<T>, p: T -> bool): (r: seq<T>)
    ensures |r| == Count(s, p)
    ensures forall i :: 0 <= i < |r| ==> p(r[i]) && r[i] in s
    ensures forall i :: 0 <= i < |s| && p(s[i]) ==> s[i] in r
    ensures multiset(r) <= multiset(s)
  {
    if |s| == 0 then []
    else
      var rest := Filter(s[1..], p);
      FilterStep(s, p, rest);
      if p(s[0]) then [s[0]] + rest else rest
  }

  /** One step of `Filter`: what holds of the filtered tail carries over to
      the whole sequence, with or without its head. */
  lemma FilterStep<T>(s: seq<T>, p: T -> bool, rest: seq<T>)
    requires |s| > 0
    requires |rest| == Count(s[1..], p)
    requires forall i :: 0 <= i < |rest| ==> p(rest[i]) && rest[i] in s[1..]
    requires forall i :: 0 <= i < |s[1..]| && p(s[1..][i]) ==> s[1..][i] in rest
    requires multiset(rest) <= multiset(s[1..])
    ensures var r := if p(s[0]) then [s[0]] + rest else rest;
            && |r| == Count(s, p)
            && (forall i :: 0 <= i < |r| ==> p(r[i]) && r[i] in s)
            && (forall i :: 0 <= i < |s| && p(s[i]) ==> s[i] in r)
            && multiset(r) <= multiset(s)
  {
    var r := if p(s[0]) then [s[0]] + rest else rest;
    FilterStepSound(s, p, rest, r);
    FilterStepComplete(s, p, rest, r);
    assert s == [s[0]] + s[1..];
  }

  /** The kept elements of the whole sequence are the kept head and the kept tail. */
  lemma FilterStepSound<T>(s: seq<T>, p: T -> bool, rest: seq<T>, r: seq<T>)
    requires |s| > 0
    requires forall i :: 0 <= i < |rest| ==> p(rest[i]) && rest[i] in s[1..]
    requires r == if p(s[0]) then [s[0]] + rest else rest
    ensures forall i :: 0 <= i < |r| ==> p(r[i]) && r[i] in s
  {
    forall i | 0 <= i < |r|
      ensures p(r[i]) && r[i] in s
    {
      if p(s[0]) && i == 0 {
      } else {
        var k := if p(s[0]) then i - 1 else i;
        assert r[i] == rest[k];
        assert rest[k] in s[1..];
      }
    }
  }

  /** Every element of the whole sequence that passes is kept. */
  lemma FilterStepComplete<T>(s: seq<T>, p: T -> bool, rest: seq<T>, r: seq<T>)
    requires |s| > 0
    requires forall i :: 0 <= i < |s[1..]| && p(s[1..][i]) ==> s[1..][i] in rest
    requires r == if p(s[0]) then [s[0]] + rest else rest
    ensures forall i :: 0 <= i < |s| && p(s[i]) ==> s[i] in r
  {
    forall i | 0 <= i < |s| && p(s[i])
      ensures s[i] in r
    {
      if i > 0 {
        assert s[i] == s[1..][i - 1];
      }
    }
  }

  lemma {:induction false} FilterAppend<T>(s: seq<T>, t: seq<T>, p: T -> bool)
    ensures Filter(s + t, p) == Filter(s, p) + Filter(t, p)
  {
    if |s| == 0 {
      assert s + t == t;
    } else {
      assert (s + t)[1..] == s[1..] + t;
      FilterAppend(s[1..], t, p);
    }
  }

  /** Filtering keeps everything when every element passes. */
  lemma FilterAllPass<T>(s: seq<T>, p: T -> bool)
    ensures (forall i :: 0 <= i < |s| ==> p(s[i])) ==> Filter(s, p) == s
  {
    if forall i :: 0 <= i < |s| ==> p(s[i]) {
      FilterKeepsAll(s, p);
    }
  }

  lemma {:induction false} FilterKeepsAll<T>(s: seq<T>, p: T -> bool)
    requires forall i :: 0 <= i < |s| ==> p(s[i])
    ensures Filter(s, p) == s
  {
    if |s| > 0 {
      var tail := s[1..];
      forall i | 0 <= i < |tail| ensures p(tail[i]) {
        assert tail[i] == s[i + 1];
      }
      FilterKeepsAll(tail, p);
      FilterHead(s, p);
    }
  }

  /** A passing head stays in front of the filtered tail. */
  lemma FilterHead<T>(s: seq<T>, p: T -> bool)
    requires |s| > 0 && p(s[0])
    ensures Filter(s, p) == [s[0]] + Filter(s[1..], p)
  {
  }

  /** Number of elements satisfying `p`. */
  function Count<T>(s: seq<T>, p: T -> bool): (n: nat)
    ensures n <= |s|
    ensures n == 0 <==> forall j :: 0 <= j < |s| ==> !p(s[j])
  {
    if |s| == 0 then 0
    else (if p(s[0]) then 1 else 0) + Count(s[1..], p)
  }

  lemma {:induction false} CountAppend<T>(s: seq<T>, x: T, p: T -> bool)
    ensures Count(s + [x], p) == Count(s, p) + (if p(x) then 1 else 0)
  {
    if |s| > 0 {
      assert (s + [x])[1..] == s[1..] + [x];
      CountAppend(s[1..], x, p);
    }
  }

  /** Replacing one element changes the count by at most that element's contribution. */
  lemma {:induction false} CountUpdate<T>(s: seq<T>, i: nat, x: T, p: T -> bool)
    requires i < |s|
    ensures Count(s[i := x], p) == Count(s, p) - (if p(s[i]) then 1 else 0) + (if p(x) then 1 else 0)
  {
    if i > 0 {
      assert s[i := x][1..] == s[1..][i - 1 := x];
      CountUpdate(s[1..], i - 1, x, p);
    }
  }

  /** Sum of `f` over the elements, left to right (a stream `reduce` from zero). */
  function Sum<T>(s: seq<T>, f: T -> real): real
  {
    if |s| == 0 then 0.0 else f(s[0]) + Sum(s[1..], f)
  }

  lemma {:induction false} SumAppend<T>(s: seq<T>, x: T, f: T -> real)
    ensures Sum(s + [x], f) == Sum(s, f) + f(x)
  {
    if |s| > 0 {
      assert (s + [x])[1..] == s[1..] + [x];
      SumAppend(s[1..], x, f);
    }
  }

  /** Sum of `f` over the elements satisfying `p`. */
  lemma {:induction false} SumFilter<T>(s: seq<T>, p: T -> bool, f: T -> real, masked: T -> real)
    requires forall x :: masked(x) == (if p(x) then f(x) else 0.0)
    ensures Sum(Filter(s, p), f) == Sum(s, masked)
  {
    if |s| > 0 {
      SumFilter(s[1..], p, f, masked);
    }
  }

  /** `s` is ordered by `key`, largest first. */
  predicate SortedDesc<T>(s: seq<T>, key: T -> int)
  {
    forall i, j :: 0 <= i < j < |s| ==> key(s[i]) >= key(s[j])
  }

  /** `s` is ordered by `key`, smallest first. */
  predicate SortedAsc<T>(s: seq<T>, key: T -> int)
  {
    forall i, j :: 0 <= i < j < |s| ==> key(s[i]) <= key(s[j])
  }

  function InsertDesc<T>(x: T, s: seq<T>, key: T -> int): (r: seq<T>)
    requires SortedDesc(s, key)
    ensures SortedDesc(r, key)
    ensures multiset(r) == multiset(s) + multiset{x}
    ensures |r| == |s| + 1
    ensures r[0] == x || (|s| > 0 && r[0] == s[0])
  {
    if |s| == 0 then [x]
    else if key(x) >= key(s[0]) then [x] + s
    else
      var t := InsertDesc(x, s[1..], key);
      assert key(t[0]) <= key(s[0]);
      assert s == [s[0]] + s[1..];
      [s[0]] + t
  }

  /** `s` ordered by `key`, largest first: an `ORDER BY key DESC`. */
  function SortDesc<T>(s: seq<T>, key: T -> int): (r: seq<T>)
    ensures SortedDesc(r, key)
    ensures multiset(r) == multiset(s)
    ensures |r| == |s|
  {
    if |s| == 0 then []
    else
      assert s == [s[0]] + s[1..];
      InsertDesc(s[0], SortDesc(s[1..], key), key)
  }

  /** `s` ordered by `key`, smallest first: an `ORDER BY key ASC`. */
  function SortAsc<T>(s: seq<T>, key: T -> int): (r: seq<T>)
    ensures SortedAsc(r, key)
    ensures multiset(r) == multiset(s)
    ensures |r| == |s|
  {
    var r := SortDesc(s, x => -key(x));
    assert forall i, j :: 0 <= i < j < |r| ==> -key(r[i]) >= -key(r[j]);
    r
  }

  /** A derived query: the elements satisfying `p`, `ORDER BY key DESC`. */
  function SelectDesc<T(!new)>(s: seq<T>, p: T -> bool, key: T -> int): (r: seq<T>)
    ensures |r| == Count(s, p)
    ensures SortedDesc(r, key)
    ensures forall x :: x in r <==> x in s && p(x)
  {
    var f := Filter(s, p);
    var r := SortDesc(f, key);
    assert forall x :: x in r <==> x in multiset(r);
    assert forall x :: x in f <==> x in multiset(f);
    forall x | x in s && p(x) ensures x in f {
      var k :| 0 <= k < |s| && s[k] == x;
    }
    r
  }

  /** A derived query: the elements satisfying `p`, `ORDER BY key ASC`. */
  function SelectAsc<T(!new)>(s: seq<T>, p: T -> bool, key: T -> int): (r: seq<T>)
    ensures |r| == Count(s, p)
    ensures SortedAsc(r, key)
    ensures forall x :: x in r <==> x in s && p(x)
  {
    var f := Filter(s, p);
    var r := SortAsc(f, key);
    assert forall x :: x in r <==> x in multiset(r);
    assert forall x :: x in f <==> x in multiset(f);
    forall x | x in s && p(x) ensures x in f {
      var k :| 0 <= k < |s| && s[k] == x;
    }
    r
  }

  /** The first element of a descending order has the largest key. */
  lemma HeadOfSortedDescIsMax<T>(s: seq<T>, key: T -> int)
    requires |s| > 0
    ensures forall i :: 0 <= i < |s| ==> key(SortDesc(s, key)[0]) >= key(s[i])
  {
    var r := SortDesc(s, key);
    forall i | 0 <= i < |s|
      ensures key(r[0]) >= key(s[i])
    {
      var x := s[i];
      assert x in multiset(s);
      assert x in multiset(r);
      var k :| 0 <= k < |r| && r[k] == x;
      if k > 0 {
        assert key(r[0]) >= key(r[k]);
      }
    }
  }

  /** The head of `s` filtered by `p` and ordered by `key` descending: a
      `findFirst()` on an `ORDER BY key DESC` query. None exactly when
      nothing satisfies `p`; otherwise an element satisfying `p` whose key
      no other such element exceeds. Among equal keys the database's order
      is unspecified; this one keeps the earliest. */
  function FirstByKeyDesc<T>(s: seq<T>, p: T -> bool, key: T -> int): (r: Option<T>)
    ensures r.None? <==> forall j :: 0 <= j < |s| ==> !p(s[j])
    ensures r.Some? ==> r.value in s && p(r.value)
    ensures r.Some? ==> forall j :: 0 <= j < |s| && p(s[j]) ==> key(s[j]) <= key(r.value)
  {
    if |s| == 0 then None
    else
      var rest := FirstByKeyDesc(s[1..], p, key);
      assert forall j :: 1 <= j < |s| ==> s[j] == s[1..][j - 1];
      if !p(s[0]) || (rest.Some? && key(rest.value) > key(s[0])) then rest
      else Some(s[0])
  }

  /** The first present value: `filter(Optional::isPresent).findFirst()`. */
  function FirstPresent<T>(s: seq<Option<T>>): (r: Option<T>)
    ensures r.None? <==> forall k :: 0 <= k < |s| ==> s[k].None?
    ensures r.Some? ==> exists k :: 0 <= k < |s| && s[k] == r && forall m :: 0 <= m < k ==> s[m].None?
  {
    if |s| == 0 then None
    else if s[0].Some? then s[0]
    else
      var r := FirstPresent(s[1..]);
      assert forall k :: 1 <= k < |s| ==> s[k] == s[1..][k - 1];
      assert r.Some? ==> exists k :: 1 <= k < |s| && s[k] == r && forall m :: 0 <= m < k ==> s[m].None? by {
        if r.Some? {
          var k :| 0 <= k < |s[1..]| && s[1..][k] == r && forall m :: 0 <= m < k ==> s[1..][m].None?;
          assert s[k + 1] == r;
        }
      }
      r
  }

  /** `Map` over a sequence: `s.stream().map(f).toList()`. */
  function MapSeq<T, U>(s: seq<T>, f: T -> U): (r: seq<U>)
    ensures |r| == |s|
    ensures forall i :: 0 <= i < |s| ==> r[i] == f(s[i])
  {
    if |s| == 0 then [] else [f(s[0])] + MapSeq(s[1..], f)
  }

  /** The image of an element is in the mapped sequence. */
  lemma MapSeqMember<T, U>(s: seq<T>, f: T -> U, x: T)
    requires x in s
    ensures f(x) in MapSeq(s, f)
  {
    var k :| 0 <= k < |s| && s[k] == x;
    assert MapSeq(s, f)[k] == f(x);
  }
}
