/**
 * An in-memory table: a JavaScript `Map` from auto-increment ids to rows.
 *
 * A `Map` enumerates its entries in insertion order. The store inserts a key
 * only when it creates a row, always under the next value of an increasing
 * counter, and never reuses a key; `set` on an existing key keeps that key's
 * place and `delete` just drops it. So enumeration order is ascending key
 * order, and `Rows(m, 1, next)` below is `Array.from(m.values())`.
 */
module Tables {
  import JsArray

  /** Every key of `m` lies in `[1, next)`, and each row carries its own key as id. */
  ghost predicate Keyed<T>(m: map<int, T>, next: int, id: T -> int)
  {
    1 <= next && forall k :: k in m ==> 1 <= k < next && id(m[k]) == k
  }

  /** Storing a row under a key already in use keeps the table keyed. */
  lemma KeyedSet<T>(m: map<int, T>, next: int, id: T -> int, k: int, v: T)
    requires Keyed(m, next, id) && k in m && id(v) == k
    ensures Keyed(m[k := v], next, id)
  {
  }

  /** Storing a row under the counter, then moving the counter on, keeps the table keyed. */
  lemma KeyedAdd<T>(m: map<int, T>, next: int, id: T -> int, v: T)
    requires Keyed(m, next, id) && id(v) == next
    ensures Keyed(m[next := v], next + 1, id)
  {
  }

  /** `v` is stored under some key in `[lo, hi)`. */
  ghost predicate StoredBetween<T>(m: map<int, T>, lo: int, hi: int, v: T)
  {
    exists k :: lo <= k < hi && k in m && m[k] == v
  }

  /** The rows stored under keys `lo, lo + 1, …, hi - 1`, in that order. */
  function Rows<T>(m: map<int, T>, lo: int, hi: int): seq<T>
    decreases hi - lo
  {
    if lo >= hi then []
    else if lo in m then [m[lo]] + Rows(m, lo + 1, hi)
    else Rows(m, lo + 1, hi)
  }

  /** The enumeration yields only rows stored in the range, and every one of them. */
  lemma {:induction false} RowsStored<T>(m: map<int, T>, lo: int, hi: int)
    ensures forall i :: 0 <= i < |Rows(m, lo, hi)| ==> StoredBetween(m, lo, hi, Rows(m, lo, hi)[i])
    ensures forall k :: lo <= k < hi && k in m ==> m[k] in Rows(m, lo, hi)
    decreases hi - lo
  {
    if lo < hi {
      RowsStored(m, lo + 1, hi);
      var r := Rows(m, lo, hi);
      var tail := Rows(m, lo + 1, hi);
      forall i | 0 <= i < |r| ensures StoredBetween(m, lo, hi, r[i]) {
        if lo in m && i == 0 {
          assert m[lo] == r[i];
        } else {
          var t := if lo in m then i - 1 else i;
          assert r[i] == tail[t];
          var k :| lo + 1 <= k < hi && k in m && m[k] == tail[t];
        }
      }
    }
  }

  /** `v` is one of the map's values: some key maps to it. */
  ghost predicate HasRow<T>(m: map<int, T>, v: T)
  {
    exists k :: k in m && m[k] == v
  }

  /** With every key in `[lo, hi)`, the rows are exactly the map's values. */
  lemma RowsAreValues<T>(m: map<int, T>, lo: int, hi: int)
    requires forall k :: k in m ==> lo <= k < hi
    ensures forall v :: v in Rows(m, lo, hi) <==> HasRow(m, v)
  {
    RowsStored(m, lo, hi);
    var r := Rows(m, lo, hi);
    forall v | v in r ensures HasRow(m, v) {
      var i :| 0 <= i < |r| && r[i] == v;
      assert StoredBetween(m, lo, hi, r[i]);
    }
    forall v | HasRow(m, v) ensures v in r {
      var k :| k in m && m[k] == v;
      assert lo <= k < hi;
    }
  }

  /** Rows keyed by their ids come out in strictly ascending id order. */
  lemma {:induction false} RowsAscending<T>(m: map<int, T>, lo: int, hi: int, id: T -> int)
    requires forall k :: k in m ==> id(m[k]) == k
    ensures forall i, j :: 0 <= i < j < |Rows(m, lo, hi)| ==> id(Rows(m, lo, hi)[i]) < id(Rows(m, lo, hi)[j])
    decreases hi - lo
  {
    if lo < hi {
      var tail := Rows(m, lo + 1, hi);
      RowsAscending(m, lo + 1, hi, id);
      RowsStored(m, lo + 1, hi);
      assert forall i :: 0 <= i < |tail| ==> lo < id(tail[i]);
    }
  }

  /** Inserting under the next fresh key appends the row at the end of the enumeration. */
  lemma {:induction false} RowsAppend<T>(m: map<int, T>, lo: int, hi: int, v: T)
    requires lo <= hi
    requires hi !in m
    ensures Rows(m[hi := v], lo, hi + 1) == Rows(m, lo, hi) + [v]
    decreases hi - lo
  {
    if lo < hi {
      RowsAppend(m, lo + 1, hi, v);
    }
  }

  /** Replacing the row under an existing key leaves its position, and every other row, as they were. */
  lemma {:induction false} RowsReplace<T>(m: map<int, T>, lo: int, hi: int, k: int, replace: T -> T)
    requires k in m
    requires forall j :: j in m ==> replace(m[j]) == if j == k then replace(m[k]) else m[j]
    ensures Rows(m[k := replace(m[k])], lo, hi) == JsArray.Map(Rows(m, lo, hi), replace)
    decreases hi - lo
  {
    if lo < hi {
      RowsReplace(m, lo + 1, hi, k, replace);
    }
  }

  /** Deleting a key removes its row and keeps the order of the rest. */
  lemma {:induction false} RowsRemove<T(!new)>(m: map<int, T>, lo: int, hi: int, k: int, keep: T -> bool)
    requires forall j :: j in m ==> keep(m[j]) == (j != k)
    ensures Rows(m - {k}, lo, hi) == JsArray.Filter(Rows(m, lo, hi), keep)
    decreases hi - lo
  {
    if lo < hi {
      RowsRemove(m, lo + 1, hi, k, keep);
    }
  }

  /**
   * `Array.from(m.values()).find(p)` on a keyed table: nothing exactly when no
   * row satisfies `p`, and otherwise the stored row with the lowest key that does.
   */
  lemma FindLowest<T>(m: map<int, T>, next: int, id: T -> int, p: T -> bool)
    requires Keyed(m, next, id)
    ensures JsArray.Find(Rows(m, 1, next), p).None? <==> forall k :: k in m ==> !p(m[k])
    ensures var r := JsArray.Find(Rows(m, 1, next), p);
      r.Some? ==> (id(r.value) in m && m[id(r.value)] == r.value && p(r.value)
                   && forall k :: k in m && p(m[k]) ==> id(r.value) <= k)
  {
    var rows := Rows(m, 1, next);
    RowsStored(m, 1, next);
    var r := JsArray.Find(rows, p);
    if r.Some? {
      var i :| JsArray.FirstMatchAt(rows, p, i) && rows[i] == r.value;
      FirstMatchIsLowest(m, next, id, p, i);
    } else {
      forall k | k in m ensures !p(m[k]) {
        var j :| 0 <= j < |rows| && rows[j] == m[k];
      }
    }
  }

  /** The first matching row is stored under its own id, and no matching row has a lower key. */
  lemma FirstMatchIsLowest<T>(m: map<int, T>, next: int, id: T -> int, p: T -> bool, i: int)
    requires Keyed(m, next, id)
    requires JsArray.FirstMatchAt(Rows(m, 1, next), p, i)
    ensures var v := Rows(m, 1, next)[i];
      id(v) in m && m[id(v)] == v && p(v) && forall k :: k in m && p(m[k]) ==> id(v) <= k
  {
    var rows := Rows(m, 1, next);
    RowsStored(m, 1, next);
    RowsAscending(m, 1, next, id);
    assert StoredBetween(m, 1, next, rows[i]);
    var k0 :| 1 <= k0 < next && k0 in m && m[k0] == rows[i];
    assert id(rows[i]) == k0;
    forall k | k in m && p(m[k]) ensures id(rows[i]) <= k {
      var j :| 0 <= j < |rows| && rows[j] == m[k];
      assert i <= j;
      assert id(rows[j]) == k;
    }
  }

  /** The table holding `s[0], s[1], …` under keys `1, 2, …`. */
  function Numbered<T>(s: seq<T>): (m: map<int, T>)
    ensures forall k :: k in m <==> 1 <= k <= |s|
    ensures forall k :: 1 <= k <= |s| ==> m[k] == s[k - 1]
  {
    if s == [] then map[] else Numbered(s[..|s| - 1])[|s| := s[|s| - 1]]
  }

  /** A numbered table enumerates in the order of the sequence it was built from. */
  lemma {:induction false} RowsOfNumbered<T>(s: seq<T>, lo: int)
    requires 1 <= lo <= |s| + 1
    ensures Rows(Numbered(s), lo, |s| + 1) == s[lo - 1..]
    decreases |s| + 1 - lo
  {
    if lo <= |s| {
      RowsOfNumbered(s, lo + 1);
      assert s[lo - 1..] == [s[lo - 1]] + s[lo..];
    }
  }
}
