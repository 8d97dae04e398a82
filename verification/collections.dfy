/** Sequence operations the query methods are built from: filtering (a
    `.filter(...)` or a list comprehension with `if`), counting (`len` of
    such a list), summing (`sum`), and Python's stable `sorted`. */
module Collections {

  /** The elements of `s` satisfying `p`, in their original order. */
  function Filter<T>(s: seq<T>, p: T -> bool): (r: seq<T>)
    ensures |r| <= |s|
    decreases |s|
  {
    if |s| == 0 then []
    else if p(s[0]) then [s[0]] + Filter(s[1..], p)
    else Filter(s[1..], p)
  }

  /** The filtered sequence holds exactly the elements satisfying `p`. */
  lemma {:induction false} FilterMembers<T>(s: seq<T>, p: T -> bool)
    ensures forall i :: 0 <= i < |Filter(s, p)| ==> Filter(s, p)[i] in s && p(Filter(s, p)[i])
    ensures forall i :: 0 <= i < |s| && p(s[i]) ==> s[i] in Filter(s, p)
    decreases |s|
  {
    if |s| > 0 {
      FilterMembers(s[1..], p);
      assert forall i :: 1 <= i < |s| ==> s[i] == s[1..][i - 1];
    }
  }

  lemma {:induction false} FilterAppend<T>(a: seq<T>, b: seq<T>, p: T -> bool)
    ensures Filter(a + b, p) == Filter(a, p) + Filter(b, p)
    decreases |a|
  {
    if |a| == 0 {
      assert a + b == b;
    } else {
      assert (a + b)[0] == a[0];
      assert (a + b)[1..] == a[1..] + b;
      FilterAppend(a[1..], b, p);
    }
  }

  lemma {:induction false} FilterNone<T>(s: seq<T>, p: T -> bool)
    requires forall i :: 0 <= i < |s| ==> !p(s[i])
    ensures Filter(s, p) == []
    decreases |s|
  {
    if |s| > 0 {
      FilterNone(s[1..], p);
    }
  }

  /** How many elements of `s` satisfy `p`. */
  function Count<T>(s: seq<T>, p: T -> bool): (n: nat)
    ensures n <= |s|
    ensures n == 0 <==> forall i :: 0 <= i < |s| ==> !p(s[i])
    ensures n == |s| <==> forall i :: 0 <= i < |s| ==> p(s[i])
    decreases |s|
  {
    if |s| == 0 then 0
    else
      var rest := Count(s[1..], p);
      assert forall i :: 1 <= i < |s| ==> s[i] == s[1..][i - 1];
      (if p(s[0]) then 1 else 0) + rest
  }

  lemma {:induction false} CountIsFilterLength<T>(s: seq<T>, p: T -> bool)
    ensures Count(s, p) == |Filter(s, p)|
    decreases |s|
  {
    if |s| > 0 {
      CountIsFilterLength(s[1..], p);
    }
  }

  /** When `q` holds exactly where `p` fails, every element is counted by
      exactly one of them. */
  lemma {:induction false} CountComplement<T>(s: seq<T>, p: T -> bool, q: T -> bool)
    requires forall x :: q(x) <==> !p(x)
    ensures Count(s, p) + Count(s, q) == |s|
    decreases |s|
  {
    if |s| > 0 {
      CountComplement(s[1..], p, q);
    }
  }

  /** Sum of `f` over the elements of `s`. */
  function SumOf<T>(s: seq<T>, f: T -> int): (total: int)
    ensures (forall i :: 0 <= i < |s| ==> f(s[i]) >= 0) ==> total >= 0
    decreases |s|
  {
    if |s| == 0 then 0
    else
      assert forall i :: 1 <= i < |s| ==> s[i] == s[1..][i - 1];
      f(s[0]) + SumOf(s[1..], f)
  }

  /** Over non-negative values, dropping elements never increases a sum:
      the sum over a weaker filter bounds the sum over a stronger one. */
  lemma {:induction false} SumOfFilterMonotone<T>(s: seq<T>, f: T -> int, p: T -> bool, q: T -> bool)
    requires forall x :: x in s ==> f(x) >= 0
    requires forall x :: x in s && p(x) ==> q(x)
    ensures SumOf(Filter(s, p), f) <= SumOf(Filter(s, q), f)
    decreases |s|
  {
    if |s| > 0 {
      SumOfFilterMonotone(s[1..], f, p, q);
      FilterMembers(s[1..], q);
      NonNegativeSum(Filter(s[1..], q), f);
    }
  }

  lemma {:induction false} NonNegativeSum<T>(s: seq<T>, f: T -> int)
    requires forall x :: x in s ==> f(x) >= 0
    ensures SumOf(s, f) >= 0
  {
    assert forall i :: 0 <= i < |s| ==> s[i] in s;
  }

  /** Ascending by `key`; for a stable sort, ties keep their input order. */
  predicate SortedBy<T>(s: seq<T>, key: T -> int) {
    forall i, j :: 0 <= i < j < |s| ==> key(s[i]) <= key(s[j])
  }

  /** Places `x` after every element whose key is at most its own. */
  function Insert<T(==)>(t: seq<T>, x: T, key: T -> int): (r: seq<T>)
    requires SortedBy(t, key)
    ensures SortedBy(r, key)
    ensures multiset(r) == multiset(t) + multiset{x}
    ensures forall i :: 0 <= i < |r| ==> r[i] == x || r[i] in t
    decreases |t|
  {
    if |t| == 0 then [x]
    else if key(x) < key(t[0]) then [x] + t
    else
      var rest := Insert(t[1..], x, key);
      assert t == [t[0]] + t[1..];
      [t[0]] + rest
  }

  /** Python's `sorted(s, key=key)`: a stable ascending sort. */
  function SortBy<T(==)>(s: seq<T>, key: T -> int): (r: seq<T>)
    ensures SortedBy(r, key)
    ensures multiset(r) == multiset(s)
    ensures |r| == |s|
    decreases |s|
  {
    if |s| == 0 then []
    else
      assert s == s[..|s| - 1] + [s[|s| - 1]];
      Insert(SortBy(s[..|s| - 1], key), s[|s| - 1], key)
  }

  /** The elements whose key is `k`. */
  function KeyIs<T>(key: T -> int, k: int): T -> bool {
    y => key(y) == k
  }

  lemma {:induction false} InsertStable<T>(t: seq<T>, x: T, key: T -> int, k: int)
    requires SortedBy(t, key)
    ensures Filter(Insert(t, x, key), KeyIs(key, k)) == Filter(t, KeyIs(key, k)) + Filter([x], KeyIs(key, k))
    decreases |t|
  {
    var p := KeyIs(key, k);
    if |t| == 0 {
    } else if key(x) < key(t[0]) {
      if key(x) == k {
        assert forall i :: 0 <= i < |t| ==> key(t[i]) > k;
        FilterNone(t, p);
      }
      assert ([x] + t)[1..] == t;
    } else {
      InsertStable(t[1..], x, key, k);
      assert ([t[0]] + Insert(t[1..], x, key))[1..] == Insert(t[1..], x, key);
    }
  }

  /** Stability: among elements with any one key, the sorted sequence keeps
      exactly the input elements in the input order. */
  lemma {:induction false} SortByStable<T>(s: seq<T>, key: T -> int, k: int)
    ensures Filter(SortBy(s, key), KeyIs(key, k)) == Filter(s, KeyIs(key, k))
    decreases |s|
  {
    if |s| > 0 {
      var init, last := s[..|s| - 1], s[|s| - 1];
      SortByStable(init, key, k);
      InsertStable(SortBy(init, key), last, key, k);
      assert s == init + [last];
      FilterAppend(init, [last], KeyIs(key, k));
    }
  }

  /** The first `n` elements, or all of them when there are fewer (`s[:n]`). */
  function Take<T>(s: seq<T>, n: nat): (r: seq<T>)
    ensures |r| == if |s| < n then |s| else n
    ensures r <= s
  {
    if |s| < n then s else s[..n]
  }
}
