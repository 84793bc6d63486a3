/**
 * The `Array.prototype` operations the marketplace code uses: `filter`,
 * `find`, `some` and `slice`, with JavaScript's index rules.
 */
module JsArray {
  import opened Wrappers

  /** `s.filter(p)`: the elements satisfying `p`, in their original order. */
  function Filter<T(!new)>(s: seq<T>, p: T -> bool): (r: seq<T>)
    ensures |r| <= |s|
    ensures forall x {:trigger x in r} :: x in r <==> x in s && p(x)
  {
    if s == [] then []
    else if p(s[0]) then [s[0]] + Filter(s[1..], p)
      else Filter(s[1..], p)
  }

  /** Filtering by two predicates in turn is filtering by their conjunction. */
  lemma {:induction false} FilterFilter<T(!new)>(s: seq<T>, p: T -> bool, q: T -> bool, both: T -> bool)
    requires forall x :: both(x) == (p(x) && q(x))
    ensures Filter(Filter(s, p), q) == Filter(s, both)
  {
    if s != [] {
      FilterFilter(s[1..], p, q, both);
    }
  }

  /** Two predicates that agree on every element filter alike. */
  lemma {:induction false} FilterAgree<T(!new)>(s: seq<T>, p: T -> bool, q: T -> bool)
    requires forall x :: x in s ==> p(x) == q(x)
    ensures Filter(s, p) == Filter(s, q)
  {
    if s != [] {
      FilterAgree(s[1..], p, q);
    }
  }

  /** A filter that keeps every element returns the array unchanged. */
  lemma {:induction false} FilterAll<T(!new)>(s: seq<T>, p: T -> bool)
    requires forall x :: x in s ==> p(x)
    ensures Filter(s, p) == s
  {
    if s != [] {
      FilterAll(s[1..], p);
    }
  }

  /** `filter` keeps a strictly ascending key order. */
  lemma {:induction false} FilterKeepsOrder<T(!new)>(s: seq<T>, p: T -> bool, key: T -> int)
    requires forall i, j :: 0 <= i < j < |s| ==> key(s[i]) < key(s[j])
    ensures forall i, j :: 0 <= i < j < |Filter(s, p)| ==> key(Filter(s, p)[i]) < key(Filter(s, p)[j])
  {
    if s != [] {
      FilterKeepsOrder(s[1..], p, key);
      var rest := Filter(s[1..], p);
      assert forall x :: x in rest ==> key(s[0]) < key(x) by {
        forall x | x in rest ensures key(s[0]) < key(x) {
          var j :| 0 <= j < |s[1..]| && s[1..][j] == x;
          assert s[j + 1] == x;
        }
      }
    }
  }

  /** `filter` distributes over concatenation. */
  lemma {:induction false} FilterConcat<T(!new)>(s: seq<T>, t: seq<T>, p: T -> bool)
    ensures Filter(s + t, p) == Filter(s, p) + Filter(t, p)
  {
    if s == [] {
      assert s + t == t;
    } else {
      assert (s + t)[1..] == s[1..] + t;
      FilterConcat(s[1..], t, p);
    }
  }

  /** No element occurs twice. */
  predicate Distinct<T(==)>(s: seq<T>)
  {
    forall i, j :: 0 <= i < j < |s| ==> s[i] != s[j]
  }

  /** Index `i` holds the first element of `s` that satisfies `p`. */
  ghost predicate FirstMatchAt<T>(s: seq<T>, p: T -> bool, i: int)
  {
    0 <= i < |s| && p(s[i]) && forall j :: 0 <= j < i ==> !p(s[j])
  }

  /** `s.map(f)`. */
  function Map<T, U>(s: seq<T>, f: T -> U): (r: seq<U>)
    ensures |r| == |s|
    ensures forall i :: 0 <= i < |s| ==> r[i] == f(s[i])
  {
    if s == [] then [] else [f(s[0])] + Map(s[1..], f)
  }

  /**
   * `s.filter(Boolean)` over looked-up objects: keeps the values that were
   * found (an object is always truthy) and drops the `undefined`s.
   */
  function Present<T>(s: seq<Option<T>>): (r: seq<T>)
    ensures |r| <= |s|
    ensures forall i :: 0 <= i < |s| && s[i].Some? ==> s[i].value in r
    ensures forall x :: x in r ==> Some(x) in s
  {
    if s == [] then []
    else if s[0].Some? then [s[0].value] + Present(s[1..])
    else Present(s[1..])
  }

  /** `map` distributes over concatenation. */
  lemma {:induction false} MapConcat<T, U>(s: seq<T>, t: seq<T>, f: T -> U)
    ensures Map(s + t, f) == Map(s, f) + Map(t, f)
  {
    if s == [] {
      assert s + t == t;
    } else {
      assert (s + t)[1..] == s[1..] + t;
      MapConcat(s[1..], t, f);
    }
  }

  /** `filter(Boolean)` distributes over concatenation: the found values keep their order and their repeats. */
  lemma {:induction false} PresentConcat<T>(s: seq<Option<T>>, t: seq<Option<T>>)
    ensures Present(s + t) == Present(s) + Present(t)
  {
    if s == [] {
      assert s + t == t;
    } else {
      assert (s + t)[1..] == s[1..] + t;
      PresentConcat(s[1..], t);
    }
  }

  /** `s.find(p)`: the first element satisfying `p`, or `undefined`. */
  function Find<T>(s: seq<T>, p: T -> bool): (r: Option<T>)
    ensures r.None? <==> forall i :: 0 <= i < |s| ==> !p(s[i])
    ensures r.Some? ==> exists i :: FirstMatchAt(s, p, i) && s[i] == r.value
  {
    if s == [] then None
    else if p(s[0]) then Some(s[0])
    else
      var r := Find(s[1..], p);
      assert forall i :: FirstMatchAt(s[1..], p, i) ==> FirstMatchAt(s, p, i + 1);
      r
  }

  /** `s.some(p)` (named `Any` here because `Some` is the option constructor). */
  function Any<T>(s: seq<T>, p: T -> bool): (r: bool)
    ensures r <==> exists i :: 0 <= i < |s| && p(s[i])
  {
    Find(s, p).Some?
  }

  /**
   * How `slice` reads one of its bounds: a negative bound counts back from
   * the end, and the result is clamped to `0..len`.
   */
  function RelativeIndex(k: int, len: nat): (r: nat)
    ensures r <= len
    ensures 0 <= k <= len ==> r == k
    ensures k > len ==> r == len
    ensures k < 0 && 0 <= len + k ==> r == len + k
    ensures len + k < 0 ==> r == 0
  {
    if k < 0 then (if len + k < 0 then 0 else len + k)
    else if k > len then len
    else k
  }

  /** `s.slice(start, end)`. */
  function Slice<T>(s: seq<T>, start: int, end: int): (r: seq<T>)
    ensures 0 <= start <= end <= |s| ==> r == s[start..end]
    ensures 0 <= start && 0 < end - start ==> |r| <= end - start
  {
    var from := RelativeIndex(start, |s|);
    var to := RelativeIndex(end, |s|);
    if from < to then s[from..to] else []
  }

  /** The window in terms of the whole array, for a non-negative offset. */
  lemma SliceFromOffset<T>(s: seq<T>, offset: nat, limit: nat)
    ensures Slice(s, offset, offset + limit)
      == if offset >= |s| then [] else s[offset..if offset + limit > |s| then |s| else offset + limit]
  {
  }

  /** Two adjacent windows join into one window: `offset`/`limit` paging has no gaps and no overlaps. */
  lemma AdjacentSlices<T>(s: seq<T>, offset: nat, a: nat, b: nat)
    ensures Slice(s, offset, offset + a) + Slice(s, offset + a, offset + a + b)
      == Slice(s, offset, offset + a + b)
  {
    SliceFromOffset(s, offset, a);
    SliceFromOffset(s, offset + a, b);
    SliceFromOffset(s, offset, a + b);
    var n := |s|;
    if n <= offset {
      assert Slice(s, offset, offset + a) == [] && Slice(s, offset + a, offset + a + b) == [];
    } else if n <= offset + a {
      assert Slice(s, offset + a, offset + a + b) == [];
      assert Slice(s, offset, offset + a) == s[offset..n] == Slice(s, offset, offset + a + b);
    } else {
      var mid := offset + a;
      var hi := if mid + b > n then n else mid + b;
      assert Slice(s, offset, offset + a) == s[offset..mid];
      assert Slice(s, mid, mid + b) == s[mid..hi];
      assert s[offset..mid] + s[mid..hi] == s[offset..hi];
    }
  }

  /** `AdjacentSlices` from the start of the array, for slices already at hand. */
  lemma JoinSlices<T>(front: seq<T>, back: seq<T>, s: seq<T>, a: nat, b: nat)
    requires front == Slice(s, 0, a) && back == Slice(s, a, a + b)
    ensures front + back == Slice(s, 0, a + b)
  {
    AdjacentSlices(s, 0, a, b);
  }

  /** A negative `limit` is no bound at all: `slice(0, -1)` drops only the last element. */
  lemma NegativeEndCountsFromTheBack<T>(s: seq<T>)
    requires |s| >= 1
    ensures Slice(s, 0, -1) == s[..|s| - 1]
    ensures |Slice(s, 0, -1)| == |s| - 1
  {
  }
}
