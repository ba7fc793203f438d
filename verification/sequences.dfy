/** Generic sequence helpers used by the settlement model: an order-keeping
    filter (JavaScript `Array.prototype.filter`) and a stable sort by a real
    key (JavaScript `Array.prototype.sort` with a subtracting comparator,
    which ECMAScript requires to be stable). */
module Sequences {

  /** The elements of `s` that satisfy `p`, in their original order. */
  function Filter<T(!new)>(s: seq<T>, p: T -> bool): (r: seq<T>)
    ensures |r| <= |s|
    ensures forall x :: multiset(r)[x] == if p(x) then multiset(s)[x] else 0
    ensures forall k :: 0 <= k < |r| ==> p(r[k])
    decreases |s|
  {
    if s == [] then []
    else
      assert s == [s[0]] + s[1..];
      (if p(s[0]) then [s[0]] else []) + Filter(s[1..], p)
  }

  /** Filtering commutes with concatenation; together with the definition on
      one element this says the filter keeps the relative order of what it keeps. */
  lemma {:induction false} FilterAppend<T(!new)>(a: seq<T>, b: seq<T>, p: T -> bool)
    ensures Filter(a + b, p) == Filter(a, p) + Filter(b, p)
    decreases |a|
  {
    if a == [] {
      assert a + b == b;
    } else {
      assert (a + b)[1..] == a[1..] + b;
      FilterAppend(a[1..], b, p);
    }
  }

  /** When every element passes, the filter returns its input unchanged. */
  lemma {:induction false} FilterAll<T(!new)>(s: seq<T>, p: T -> bool)
    requires forall k :: 0 <= k < |s| ==> p(s[k])
    ensures Filter(s, p) == s
    decreases |s|
  {
    if s != [] {
      FilterAll(s[1..], p);
    }
  }

  /** When no element passes, the filter returns nothing. */
  lemma {:induction false} FilterNone<T(!new)>(s: seq<T>, p: T -> bool)
    requires forall k :: 0 <= k < |s| ==> !p(s[k])
    ensures Filter(s, p) == []
    decreases |s|
  {
    if s != [] {
      FilterNone(s[1..], p);
    }
  }

  /** When exactly the element at `idx` passes, the filter returns just it. */
  lemma {:induction false} FilterOnly<T(!new)>(s: seq<T>, p: T -> bool, idx: nat)
    requires idx < |s| && p(s[idx])
    requires forall k :: 0 <= k < |s| && k != idx ==> !p(s[k])
    ensures Filter(s, p) == [s[idx]]
    decreases idx
  {
    var rest := s[1..];
    if idx == 0 {
      FilterNone(rest, p);
    } else {
      FilterOnly(rest, p, idx - 1);
    }
  }

  /** `s` without its element at `idx` (`s.filter((_, k) => k != idx)`). */
  function RemoveAt<T>(s: seq<T>, idx: nat): (r: seq<T>)
    requires idx < |s|
    ensures |r| == |s| - 1
    ensures forall k :: 0 <= k < |r| ==> r[k] == s[if k < idx then k else k + 1]
  {
    s[..idx] + s[idx + 1..]
  }

  /** Removing the element at `idx > 0` commutes with taking the tail. */
  lemma DropTail<T>(s: seq<T>, idx: nat)
    requires 0 < idx < |s|
    ensures RemoveAt(s, idx) == [s[0]] + RemoveAt(s[1..], idx - 1)
  {
    assert s[..idx] == [s[0]] + s[1..][..idx - 1];
    assert s[idx + 1..] == s[1..][idx..];
  }

  /** When every element but the one at `idx` passes, the filter returns `s`
      without it. */
  lemma {:induction false} FilterAllBut<T(!new)>(s: seq<T>, p: T -> bool, idx: nat)
    requires idx < |s| && !p(s[idx])
    requires forall k :: 0 <= k < |s| && k != idx ==> p(s[k])
    ensures Filter(s, p) == RemoveAt(s, idx)
    decreases idx
  {
    var rest := s[1..];
    if idx == 0 {
      FilterAll(rest, p);
    } else {
      FilterAllBut(rest, p, idx - 1);
      DropTail(s, idx);
    }
  }

  /** Two filters with disjoint predicates keep at most `|s|` elements together. */
  lemma {:induction false} FilterDisjointLength<T(!new)>(s: seq<T>, p: T -> bool, q: T -> bool)
    requires forall k :: 0 <= k < |s| ==> !(p(s[k]) && q(s[k]))
    ensures |Filter(s, p)| + |Filter(s, q)| <= |s|
    decreases |s|
  {
    if s != [] {
      FilterDisjointLength(s[1..], p, q);
    }
  }

  /** `s` is non-decreasing under `key`. */
  ghost predicate SortedBy<T>(s: seq<T>, key: T -> real)
  {
    forall a, b :: 0 <= a < b < |s| ==> key(s[a]) <= key(s[b])
  }

  /** Inserts `x` before the first element whose key is not smaller, so `x`
      precedes the elements of equal key that follow it. */
  function Insert<T>(x: T, s: seq<T>, key: T -> real): (r: seq<T>)
    requires SortedBy(s, key)
    ensures SortedBy(r, key)
    ensures multiset(r) == multiset(s) + multiset{x}
    ensures |r| == |s| + 1
    ensures r[0] == x || (s != [] && r[0] == s[0])
    decreases |s|
  {
    if s == [] || key(x) <= key(s[0]) then [x] + s
    else
      assert s == [s[0]] + s[1..];
      [s[0]] + Insert(x, s[1..], key)
  }

  /** Stable insertion sort of `s` into non-decreasing `key` order. */
  function SortBy<T>(s: seq<T>, key: T -> real): (r: seq<T>)
    ensures SortedBy(r, key)
    ensures multiset(r) == multiset(s)
    ensures |r| == |s|
    decreases |s|
  {
    if s == [] then []
    else
      assert s == [s[0]] + s[1..];
      Insert(s[0], SortBy(s[1..], key), key)
  }

  /** Sorting an already sorted sequence changes nothing: equal keys keep
      their original order. */
  lemma {:induction false} SortSortedIsIdentity<T>(s: seq<T>, key: T -> real)
    requires SortedBy(s, key)
    ensures SortBy(s, key) == s
    decreases |s|
  {
    if s != [] {
      SortSortedIsIdentity(s[1..], key);
      assert s == [s[0]] + s[1..];
    }
  }
  /** The elements whose key is `v`. */
  function KeyIs<T>(key: T -> real, v: real): T -> bool
  {
    (x: T) => key(x) == v
  }

  /** The filter of `[y] + t` is `y` if it passes, then the filter of `t`. */
  lemma FilterCons<T(!new)>(y: T, t: seq<T>, p: T -> bool)
    ensures Filter([y] + t, p) == (if p(y) then [y] else []) + Filter(t, p)
  {
    assert ([y] + t)[1..] == t;
  }

  /** One step past an element `y` that the filter drops: if the filter of
      `r` is `x` followed by the filter of `t`, then the filter of `[y] + r`
      is `x` followed by the filter of `[y] + t`. */
  lemma PassDropped<T(!new)>(x: T, y: T, r: seq<T>, t: seq<T>, p: T -> bool)
    requires !p(y)
    requires Filter(r, p) == [x] + Filter(t, p)
    ensures Filter([y] + r, p) == [x] + Filter([y] + t, p)
  {
    FilterCons(y, r, p);
    FilterCons(y, t, p);
  }

  /** One step past an element `y`, when `x` does not have the key looked
      for: both sides filter `y` the same way. */
  lemma PassOther<T(!new)>(y: T, r: seq<T>, t: seq<T>, p: T -> bool)
    requires Filter(r, p) == Filter(t, p)
    ensures Filter([y] + r, p) == Filter([y] + t, p)
  {
    FilterCons(y, r, p);
    FilterCons(y, t, p);
  }

  /** The step of `InsertKeepsTies` past the first element `s[0]`, which
      the filter drops whenever `x` is kept (`hit`). */
  lemma PassFirst<T(!new)>(x: T, s: seq<T>, r: seq<T>, p: T -> bool, hit: bool)
    requires s != []
    requires hit ==> !p(s[0])
    requires Filter(r, p) == (if hit then [x] else []) + Filter(s[1..], p)
    ensures Filter([s[0]] + r, p) == (if hit then [x] else []) + Filter(s, p)
  {
    var tail := s[1..];
    assert s == [s[0]] + tail;
    if hit {
      PassDropped(x, s[0], r, tail, p);
    } else {
      assert Filter(r, p) == Filter(tail, p);
      PassOther(s[0], r, tail, p);
    }
  }

  /** Inserting `x` into a sorted sequence puts it before every element of
      the same key that is already there. */
  lemma {:induction false} InsertKeepsTies<T(!new)>(x: T, s: seq<T>, key: T -> real, v: real)
    requires SortedBy(s, key)
    ensures Filter(Insert(x, s, key), KeyIs(key, v)) == (if key(x) == v then [x] else []) + Filter(s, KeyIs(key, v))
    decreases |s|
  {
    var p := KeyIs(key, v);
    if s == [] || key(x) <= key(s[0]) {
      assert Insert(x, s, key) == [x] + s;
      FilterCons(x, s, p);
    } else {
      var r := Insert(x, s[1..], key);
      InsertKeepsTies(x, s[1..], key, v);
      assert Insert(x, s, key) == [s[0]] + r;
      PassFirst(x, s, r, p, key(x) == v);
    }
  }

  /** The sort is stable: the elements of any one key come out in the order
      they went in. */
  lemma {:induction false} SortByStable<T(!new)>(s: seq<T>, key: T -> real, v: real)
    ensures Filter(SortBy(s, key), KeyIs(key, v)) == Filter(s, KeyIs(key, v))
    decreases |s|
  {
    if s != [] {
      SortByStable(s[1..], key, v);
      InsertKeepsTies(s[0], SortBy(s[1..], key), key, v);
    }
  }
}
