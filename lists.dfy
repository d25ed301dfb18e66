/** Array operations of JavaScript the client and the server lean on:
    `filter`, `slice` with negative indices, and a stable `sort` driven by a
    comparator that returns a negative number, zero or a positive number. */
module Lists {
  import opened Wrappers

  // ---------------------------------------------------------------------
  // filter

  /** `s.filter(p)`: the elements satisfying `p`, in their original order. */
  function Filter<T>(s: seq<T>, p: T -> bool): (r: seq<T>)
    ensures |r| <= |s|
    ensures forall k :: 0 <= k < |r| ==> p(r[k])
    ensures forall k :: 0 <= k < |s| && p(s[k]) ==> s[k] in r
    ensures multiset(r) <= multiset(s)
  {
    if |s| == 0 then []
    else
      assert s == [s[0]] + s[1..];
      (if p(s[0]) then [s[0]] else []) + Filter(s[1..], p)
  }

  /** A filter every element passes keeps the sequence as it is. */
  lemma {:induction false} FilterKeepsAll<T>(s: seq<T>, p: T -> bool)
    requires forall k :: 0 <= k < |s| ==> p(s[k])
    ensures Filter(s, p) == s
  {
    if |s| > 0 {
      FilterKeepsAll(s[1..], p);
    }
  }

  /** Two predicates that agree on every element keep the same elements. */
  lemma {:induction false} FilterAgreeing<T>(s: seq<T>, p: T -> bool, q: T -> bool)
    requires forall k :: 0 <= k < |s| ==> p(s[k]) == q(s[k])
    ensures Filter(s, p) == Filter(s, q)
  {
    if |s| > 0 {
      FilterAgreeing(s[1..], p, q);
    }
  }

  /** Filtering distributes over concatenation. */
  lemma {:induction false} FilterAppend<T>(a: seq<T>, b: seq<T>, p: T -> bool)
    ensures Filter(a + b, p) == Filter(a, p) + Filter(b, p)
  {
    if |a| == 0 {
      assert a + b == b;
    } else {
      assert (a + b)[1..] == a[1..] + b;
      FilterAppend(a[1..], b, p);
    }
  }

  /** `s.map(f)`. */
  function Map<A, B>(s: seq<A>, f: A -> B): (r: seq<B>)
    ensures |r| == |s| && forall k :: 0 <= k < |s| ==> r[k] == f(s[k])
  {
    if |s| == 0 then [] else [f(s[0])] + Map(s[1..], f)
  }

  /** Filtering the images of a map is mapping the elements whose image
      passes: `s.map(f).filter(p)` equals `s.filter(x => p(f(x))).map(f)`. */
  lemma {:induction false} FilterMap<A, B>(s: seq<A>, f: A -> B, p: B -> bool, q: A -> bool)
    requires forall x :: q(x) == p(f(x))
    ensures Filter(Map(s, f), p) == Map(Filter(s, q), f)
  {
    if |s| > 0 {
      FilterMap(s[1..], f, p, q);
      assert Map(s, f)[1..] == Map(s[1..], f);
      if q(s[0]) {
        var kept := Filter(s[1..], q);
        assert Map([s[0]] + kept, f)[1..] == Map(kept, f);
      }
    }
  }

  /** The position of the first element satisfying `p` (`findIndex`). */
  function FirstIndex<T>(s: seq<T>, p: T -> bool): (r: Option<nat>)
    ensures r.Some? ==> r.value < |s| && p(s[r.value]) && forall j :: 0 <= j < r.value ==> !p(s[j])
    ensures r.None? ==> forall j :: 0 <= j < |s| ==> !p(s[j])
  {
    if |s| == 0 then None
    else if p(s[0]) then Some(0)
    else
      match FirstIndex(s[1..], p)
      case None => None
      case Some(i) => Some(i + 1)
  }

  /** `s.map(f).filter(x => x !== null)`: the present results, in order. */
  function Collect<T, U>(s: seq<T>, f: T -> Option<U>): (r: seq<U>)
    ensures |r| <= |s|
  {
    if |s| == 0 then []
    else (match f(s[0]) case Some(u) => [u] case None => []) + Collect(s[1..], f)
  }

  /** Whether `f` produces a result for `x`. */
  function Produces<T, U>(f: T -> Option<U>): T -> bool {
    x => f(x).Some?
  }

  /** Exactly one result per element that produces one, in input order: the
      results are those of the elements kept by the matching filter. */
  lemma {:induction false} CollectIsFilter<T, U>(s: seq<T>, f: T -> Option<U>)
    ensures |Collect(s, f)| == |Filter(s, Produces(f))|
    ensures forall k :: 0 <= k < |Collect(s, f)| ==> f(Filter(s, Produces(f))[k]) == Some(Collect(s, f)[k])
  {
    if |s| > 0 {
      CollectIsFilter(s[1..], f);
    }
  }

  /** A value is collected exactly when some element produces it. */
  lemma {:induction false} CollectContains<T, U>(s: seq<T>, f: T -> Option<U>, u: U)
    ensures u in Collect(s, f) <==> exists i :: 0 <= i < |s| && f(s[i]) == Some(u)
  {
    if |s| > 0 {
      CollectContains(s[1..], f, u);
      if exists i :: 0 <= i < |s[1..]| && f(s[1..][i]) == Some(u) {
        var i :| 0 <= i < |s[1..]| && f(s[1..][i]) == Some(u);
        assert s[i + 1] == s[1..][i];
      }
      if exists i :: 0 <= i < |s| && f(s[i]) == Some(u) {
        var i :| 0 <= i < |s| && f(s[i]) == Some(u);
        if i > 0 {
          assert s[1..][i - 1] == s[i];
        }
      }
    }
  }

  lemma {:induction false} CollectAppend<T, U>(a: seq<T>, b: seq<T>, f: T -> Option<U>)
    ensures Collect(a + b, f) == Collect(a, f) + Collect(b, f)
  {
    if |a| == 0 {
      assert a + b == b;
    } else {
      assert (a + b)[1..] == a[1..] + b;
      CollectAppend(a[1..], b, f);
    }
  }

  /** Collecting one more element adds its result, if any, at the end. */
  lemma CollectStep<T, U>(s: seq<T>, i: nat, f: T -> Option<U>)
    requires i < |s|
    ensures f(s[i]).Some? ==> Collect(s[..i + 1], f) == Collect(s[..i], f) + [f(s[i]).value]
    ensures f(s[i]).None? ==> Collect(s[..i + 1], f) == Collect(s[..i], f)
  {
    CollectAppend(s[..i], [s[i]], f);
    assert s[..i + 1] == s[..i] + [s[i]];
    assert [s[i]][1..] == [];
  }

  // ---------------------------------------------------------------------
  // sums

  /** The sum of a sequence of integers (`reduce((a, b) => a + b, 0)`). */
  function Sum(s: seq<int>): int {
    if |s| == 0 then 0 else Sum(s[..|s| - 1]) + s[|s| - 1]
  }

  lemma {:induction false} SumAppend(a: seq<int>, b: seq<int>)
    ensures Sum(a + b) == Sum(a) + Sum(b)
    decreases |b|
  {
    if |b| == 0 {
      assert a + b == a;
    } else {
      assert (a + b)[..|a + b| - 1] == a + b[..|b| - 1];
      SumAppend(a, b[..|b| - 1]);
    }
  }

  // ---------------------------------------------------------------------
  // slice

  /** Where `slice` puts an index: negative indices count from the end, and
      every index is clamped to `[0, len]`. */
  function SliceIndex(len: nat, i: int): (r: nat)
    ensures r <= len
    ensures 0 <= i <= len ==> r == i
  {
    if i < 0 then (if len + i < 0 then 0 else len + i)
    else if i > len then len
    else i
  }

  /** `s.slice(start, end)`. */
  function Slice<T>(s: seq<T>, start: int, end: int): (r: seq<T>)
    ensures |r| <= |s|
    ensures 0 <= start <= end <= |s| ==> r == s[start..end]
  {
    var a := SliceIndex(|s|, start);
    var b := SliceIndex(|s|, end);
    if a < b then s[a..b] else []
  }

  /** `s.slice(-n)`: the last `n` elements; `slice(-0)` is `slice(0)`, the
      whole sequence. */
  function KeepLast<T>(s: seq<T>, n: nat): (r: seq<T>)
    ensures n == 0 || |s| <= n ==> r == s
    ensures 0 < n <= |s| ==> |r| == n
    ensures r == s[|s| - |r|..]
  {
    Slice(s, -(n as int), |s|)
  }

  /** Appending one element to a sequence of at most `n` elements and keeping
      the last `n` yields at most `n` elements, the newest one last. */
  lemma KeepLastAppend<T>(s: seq<T>, x: T, n: nat)
    requires 0 < n && |s| <= n
    ensures |KeepLast(s + [x], n)| <= n
    ensures KeepLast(s + [x], n)[|KeepLast(s + [x], n)| - 1] == x
    ensures |s| < n ==> KeepLast(s + [x], n) == s + [x]
    ensures |s| == n ==> KeepLast(s + [x], n) == s[1..] + [x]
  {
    if |s| == n {
      assert (s + [x])[1..] == s[1..] + [x];
    }
  }

  // ---------------------------------------------------------------------
  // sort

  /** What `Array.prototype.sort` demands of a comparator for the order to be
      defined: "not after" (`cmp(a, b) <= 0`) is total and transitive. */
  ghost predicate Consistent<T(!new)>(cmp: (T, T) -> int) {
    (forall a, b :: cmp(a, b) > 0 ==> cmp(b, a) < 0) &&
    (forall a, b, c :: cmp(a, b) <= 0 && cmp(b, c) <= 0 ==> cmp(a, c) <= 0)
  }

  /** No element is placed after one the comparator puts after it. */
  ghost predicate SortedBy<T>(s: seq<T>, cmp: (T, T) -> int) {
    forall i, j :: 0 <= i < j < |s| ==> cmp(s[i], s[j]) <= 0
  }

  /** `x` placed before the first element of `s` the comparator puts strictly
      after it. */
  function Insert<T>(x: T, s: seq<T>, cmp: (T, T) -> int): (r: seq<T>)
    ensures multiset(r) == multiset(s) + multiset{x}
    ensures |r| == |s| + 1
  {
    if |s| == 0 then [x]
    else if cmp(s[0], x) > 0 then [x] + s
    else
      assert s == [s[0]] + s[1..];
      [s[0]] + Insert(x, s[1..], cmp)
  }

  /** The stable sort of `s.slice().sort(cmp)`: elements the comparator
      calls equal keep their order. */
  function Sort<T>(s: seq<T>, cmp: (T, T) -> int): (r: seq<T>)
    ensures multiset(r) == multiset(s)
    ensures |r| == |s|
  {
    if |s| == 0 then []
    else
      assert s == s[..|s| - 1] + [s[|s| - 1]];
      Insert(s[|s| - 1], Sort(s[..|s| - 1], cmp), cmp)
  }

  /** A value not after `x` nor after any element of `s` is not after any
      element of `Insert(x, s, cmp)`. */
  lemma {:induction false} InsertLowerBound<T>(y: T, x: T, s: seq<T>, cmp: (T, T) -> int)
    requires cmp(y, x) <= 0
    requires forall k :: 0 <= k < |s| ==> cmp(y, s[k]) <= 0
    ensures forall k :: 0 <= k < |Insert(x, s, cmp)| ==> cmp(y, Insert(x, s, cmp)[k]) <= 0
  {
    if |s| > 0 && cmp(s[0], x) <= 0 {
      InsertLowerBound(y, x, s[1..], cmp);
    }
  }

  lemma {:induction false} InsertSorted<T(!new)>(x: T, s: seq<T>, cmp: (T, T) -> int)
    requires Consistent(cmp) && SortedBy(s, cmp)
    ensures SortedBy(Insert(x, s, cmp), cmp)
  {
    if |s| == 0 {
    } else if cmp(s[0], x) > 0 {
      assert cmp(x, s[0]) <= 0;
      forall k | 0 <= k < |s|
        ensures cmp(x, s[k]) <= 0
      {
        if k > 0 {
          assert cmp(s[0], s[k]) <= 0;
        }
      }
      ConsSorted(x, s, cmp);
    } else {
      var tail := s[1..];
      assert SortedBy(tail, cmp);
      InsertSorted(x, tail, cmp);
      InsertLowerBound(s[0], x, tail, cmp);
      ConsSorted(s[0], Insert(x, tail, cmp), cmp);
    }
  }

  /** A value not after any element of a sorted sequence can go first. */
  lemma ConsSorted<T>(y: T, r: seq<T>, cmp: (T, T) -> int)
    requires SortedBy(r, cmp)
    requires forall k :: 0 <= k < |r| ==> cmp(y, r[k]) <= 0
    ensures SortedBy([y] + r, cmp)
  {
    var out := [y] + r;
    forall i, j | 0 <= i < j < |out|
      ensures cmp(out[i], out[j]) <= 0
    {
      assert out[j] == r[j - 1];
      if i > 0 {
        assert out[i] == r[i - 1];
      }
    }
  }

  /** With a consistent comparator the result is sorted. */
  lemma {:induction false} SortSorted<T(!new)>(s: seq<T>, cmp: (T, T) -> int)
    requires Consistent(cmp)
    ensures SortedBy(Sort(s, cmp), cmp)
  {
    if |s| > 0 {
      SortSorted(s[..|s| - 1], cmp);
      InsertSorted(s[|s| - 1], Sort(s[..|s| - 1], cmp), cmp);
    }
  }

  lemma {:induction false} InsertAtEnd<T>(x: T, s: seq<T>, cmp: (T, T) -> int)
    requires forall k :: 0 <= k < |s| ==> cmp(s[k], x) <= 0
    ensures Insert(x, s, cmp) == s + [x]
  {
    if |s| > 0 {
      InsertAtEnd(x, s[1..], cmp);
      assert [s[0]] + (s[1..] + [x]) == s + [x];
    }
  }

  /** Stability, in the form the callers need: a sequence that is already in
      order is left exactly as it is; in particular a comparator that calls
      every pair equal leaves the order untouched. */
  lemma {:induction false} SortKeepsSorted<T>(s: seq<T>, cmp: (T, T) -> int)
    requires SortedBy(s, cmp)
    ensures Sort(s, cmp) == s
  {
    if |s| > 0 {
      var init := s[..|s| - 1];
      assert SortedBy(init, cmp);
      SortKeepsSorted(init, cmp);
      InsertAtEnd(s[|s| - 1], init, cmp);
      assert init + [s[|s| - 1]] == s;
    }
  }
}
