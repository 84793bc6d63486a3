/**
 * The catalogue query of the in-memory store (`getProducts`): optional facet
 * filters combined with AND, a newest-first stable sort, and an
 * `offset`/`limit` window. A filter value that JavaScript finds falsy (absent,
 * `0`, `""`) imposes nothing; the listing status is never consulted.
 */
module Catalog {
  import opened Wrappers
  import opened Schema
  import opened JsText
  import JsArray

  datatype ProductFilters = ProductFilters(
    categoryId: Option<int>, condition: Option<string>, minPrice: Option<Cents>,
    maxPrice: Option<Cents>, sellerId: Option<int>, search: Option<string>,
    limit: Option<int>, offset: Option<int>)

  /** The default argument `filters = {}`. */
  const NoFilters := ProductFilters(None, None, None, None, None, None, None, None)

  predicate InCategory(f: ProductFilters, p: Product)
  {
    NumberGiven(f.categoryId) ==> p.categoryId == Some(f.categoryId.value)
  }

  predicate HasCondition(f: ProductFilters, p: Product)
  {
    TextGiven(f.condition) ==> p.condition == f.condition.value
  }

  predicate AtLeastMinPrice(f: ProductFilters, p: Product)
  {
    NumberGiven(f.minPrice) ==> p.price >= f.minPrice.value
  }

  predicate AtMostMaxPrice(f: ProductFilters, p: Product)
  {
    NumberGiven(f.maxPrice) ==> p.price <= f.maxPrice.value
  }

  predicate BySeller(f: ProductFilters, p: Product)
  {
    NumberGiven(f.sellerId) ==> p.sellerId == f.sellerId.value
  }

  /** The lower-cased query occurs in the lower-cased title, description or (non-null) brand. */
  predicate SearchHit(query: string, p: Product)
  {
    || Includes(ToLowerCase(p.title), query)
    || Includes(ToLowerCase(p.description), query)
    || (p.brand.Some? && Includes(ToLowerCase(p.brand.value), query))
  }

  predicate MatchesSearch(f: ProductFilters, p: Product)
  {
    TextGiven(f.search) ==> SearchHit(ToLowerCase(f.search.value), p)
  }

  /** All six facets at once. */
  predicate Matches(f: ProductFilters, p: Product)
  {
    && InCategory(f, p) && HasCondition(f, p) && AtLeastMinPrice(f, p)
    && AtMostMaxPrice(f, p) && BySeller(f, p) && MatchesSearch(f, p)
  }

  // The tests `getProducts` filters by, one per facet, each applied only when
  // its filter value is given.
  function CategoryTest(f: ProductFilters): Product -> bool { (p: Product) => p.categoryId == f.categoryId }
  function ConditionTest(f: ProductFilters): Product -> bool { (p: Product) => Some(p.condition) == f.condition }
  function MinPriceTest(f: ProductFilters): Product -> bool { (p: Product) => f.minPrice.Some? && p.price >= f.minPrice.value }
  function MaxPriceTest(f: ProductFilters): Product -> bool { (p: Product) => f.maxPrice.Some? && p.price <= f.maxPrice.value }
  function SellerTest(f: ProductFilters): Product -> bool { (p: Product) => Some(p.sellerId) == f.sellerId }
  function SearchTest(query: string): Product -> bool { (p: Product) => SearchHit(query, p) }

  /** Each test decides its facet whenever the facet is given. */
  lemma FacetTestsDecide(f: ProductFilters)
    ensures forall p :: Facet(f, p, 0) == (NumberGiven(f.categoryId) ==> CategoryTest(f)(p))
    ensures forall p :: Facet(f, p, 1) == (TextGiven(f.condition) ==> ConditionTest(f)(p))
    ensures forall p :: Facet(f, p, 2) == (NumberGiven(f.minPrice) ==> MinPriceTest(f)(p))
    ensures forall p :: Facet(f, p, 3) == (NumberGiven(f.maxPrice) ==> MaxPriceTest(f)(p))
    ensures forall p :: Facet(f, p, 4) == (NumberGiven(f.sellerId) ==> SellerTest(f)(p))
    ensures f.search.Some? ==> forall p :: Facet(f, p, 5) == (TextGiven(f.search) ==> SearchTest(ToLowerCase(f.search.value))(p))
    ensures f.search.None? ==> forall p :: Facet(f, p, 5)
  {
  }

  /** Facet number `k`, in the order `getProducts` narrows by them. */
  predicate Facet(f: ProductFilters, p: Product, k: nat)
  {
    if k == 0 then InCategory(f, p)
    else if k == 1 then HasCondition(f, p)
    else if k == 2 then AtLeastMinPrice(f, p)
    else if k == 3 then AtMostMaxPrice(f, p)
    else if k == 4 then BySeller(f, p)
    else if k == 5 then MatchesSearch(f, p)
    else true
  }

  /** The first `k` facets. */
  predicate MatchesFirst(f: ProductFilters, p: Product, k: nat)
  {
    && (k >= 1 ==> InCategory(f, p)) && (k >= 2 ==> HasCondition(f, p))
    && (k >= 3 ==> AtLeastMinPrice(f, p)) && (k >= 4 ==> AtMostMaxPrice(f, p))
    && (k >= 5 ==> BySeller(f, p)) && (k >= 6 ==> MatchesSearch(f, p))
  }

  /** The rows that pass the first `k` facets. */
  function Stage(all: seq<Product>, f: ProductFilters, k: nat): seq<Product>
  {
    JsArray.Filter(all, (p: Product) => MatchesFirst(f, p, k))
  }

  /** Before any narrowing every row is there; after all six, exactly the matching rows. */
  lemma StagesBracket(all: seq<Product>, f: ProductFilters)
    ensures Stage(all, f, 0) == all
    ensures Stage(all, f, 6) == JsArray.Filter(all, (p: Product) => Matches(f, p))
  {
    JsArray.FilterAll(all, (p: Product) => MatchesFirst(f, p, 0));
    JsArray.FilterAgree(all, (p: Product) => MatchesFirst(f, p, 6), (p: Product) => Matches(f, p));
  }

  /** Whether `getProducts` applies facet `k`: its filter value is truthy. */
  predicate Given(f: ProductFilters, k: nat)
  {
    if k == 0 then NumberGiven(f.categoryId)
    else if k == 1 then TextGiven(f.condition)
    else if k == 2 then NumberGiven(f.minPrice)
    else if k == 3 then NumberGiven(f.maxPrice)
    else if k == 4 then NumberGiven(f.sellerId)
    else if k == 5 then TextGiven(f.search)
    else false
  }

  /** The test `getProducts` applies for facet `k`. */
  function Test(f: ProductFilters, k: nat): Product -> bool
  {
    if k == 0 then CategoryTest(f)
    else if k == 1 then ConditionTest(f)
    else if k == 2 then MinPriceTest(f)
    else if k == 3 then MaxPriceTest(f)
    else if k == 4 then SellerTest(f)
    else SearchTest(if f.search.Some? then ToLowerCase(f.search.value) else "")
  }

  /** Narrowing step `k`: filter by facet `k`'s test when its value is given. */
  function Step(rows: seq<Product>, f: ProductFilters, k: nat): seq<Product>
  {
    if Given(f, k) then JsArray.Filter(rows, Test(f, k)) else rows
  }

  /**
   * Narrowing the rows that pass the first `k` facets by facet `k` leaves the
   * rows that pass the first `k + 1`.
   */
  lemma NarrowStep(all: seq<Product>, f: ProductFilters, k: nat)
    requires k < 6
    ensures Step(Stage(all, f, k), f, k) == Stage(all, f, k + 1)
  {
    assert forall p :: MatchesFirst(f, p, k + 1) == (MatchesFirst(f, p, k) && Facet(f, p, k));
    assert forall p :: Facet(f, p, k) == (Given(f, k) ==> Test(f, k)(p)) by {
      FacetTestsDecide(f);
    }
    if Given(f, k) {
      JsArray.FilterFilter(all, (p: Product) => MatchesFirst(f, p, k), Test(f, k), (p: Product) => MatchesFirst(f, p, k + 1));
    } else {
      JsArray.FilterAgree(all, (p: Product) => MatchesFirst(f, p, k), (p: Product) => MatchesFirst(f, p, k + 1));
    }
  }

  /** The six narrowing steps of `getProducts`, in order. */
  function Narrowed(all: seq<Product>, f: ProductFilters): seq<Product>
  {
    Step(Step(Step(Step(Step(Step(all, f, 0), f, 1), f, 2), f, 3), f, 4), f, 5)
  }

  /** Narrowing facet by facet keeps exactly the rows that match all facets at once, in their order. */
  lemma NarrowedMatches(all: seq<Product>, f: ProductFilters)
    ensures Narrowed(all, f) == JsArray.Filter(all, (p: Product) => Matches(f, p))
  {
    StagesBracket(all, f);
    NarrowStep(all, f, 0);
    NarrowStep(all, f, 1);
    NarrowStep(all, f, 2);
    NarrowStep(all, f, 3);
    NarrowStep(all, f, 4);
    NarrowStep(all, f, 5);
  }

  /** A falsy filter value is the same as no filter at all, and the status never counts. */
  lemma FalsyFiltersAndStatusIgnored(f: ProductFilters, p: Product, status: string)
    ensures Matches(f.(categoryId := Some(0), minPrice := Some(0), maxPrice := Some(0), sellerId := Some(0)), p)
        == Matches(f.(categoryId := None, minPrice := None, maxPrice := None, sellerId := None), p)
    ensures Matches(f.(condition := Some(""), search := Some("")), p)
        == Matches(f.(condition := None, search := None), p)
    ensures Matches(NoFilters, p)
    ensures Matches(f, p.(status := status)) == Matches(f, p)
  {
  }

  // ---------------------------------------------------------------------------
  // Newest first: `products.sort((a, b) => b.createdAt - a.createdAt)`, a
  // stable sort, so rows with equal timestamps keep their relative order.
  // ---------------------------------------------------------------------------

  ghost predicate NewestFirst(s: seq<Product>)
  {
    forall i, j :: 0 <= i < j < |s| ==> s[j].createdAt <= s[i].createdAt
  }

  /** Insert `x` before the first row that is not newer than it. */
  function InsertNewest(x: Product, s: seq<Product>): seq<Product>
  {
    if s == [] || s[0].createdAt <= x.createdAt then [x] + s else [s[0]] + InsertNewest(x, s[1..])
  }

  /** Insertion adds exactly `x`: every row of the result is `x` or a row of `s`. */
  lemma {:induction false} InsertNewestAdds(x: Product, s: seq<Product>)
    ensures multiset(InsertNewest(x, s)) == multiset(s) + multiset{x}
    ensures forall y :: y in InsertNewest(x, s) ==> y == x || y in s
  {
    if s != [] && x.createdAt < s[0].createdAt {
      InsertNewestAdds(x, s[1..]);
      assert s == [s[0]] + s[1..];
    }
  }

  /** Inserting into a newest-first list keeps it newest first. */
  lemma {:induction false} InsertNewestOrdered(x: Product, s: seq<Product>)
    requires NewestFirst(s)
    ensures NewestFirst(InsertNewest(x, s))
  {
    if s != [] && x.createdAt < s[0].createdAt {
      var t := InsertNewest(x, s[1..]);
      InsertNewestOrdered(x, s[1..]);
      InsertNewestAdds(x, s[1..]);
      forall j | 0 <= j < |t| ensures t[j].createdAt <= s[0].createdAt {
        if t[j] != x {
          assert t[j] in t;
          var k :| 0 <= k < |s[1..]| && s[1..][k] == t[j];
          assert s[k + 1] == t[j];
        }
      }
      var r := [s[0]] + t;
      forall i, j | 0 <= i < j < |r| ensures r[j].createdAt <= r[i].createdAt {
        if i > 0 {
          assert r[i] == t[i - 1] && r[j] == t[j - 1];
        } else {
          assert r[j] == t[j - 1];
        }
      }
    }
  }

  /** The stable newest-first sort, by insertion. */
  function SortNewest(s: seq<Product>): seq<Product>
  {
    if s == [] then [] else InsertNewest(s[0], SortNewest(s[1..]))
  }

  /** The sort is a permutation of its input, ordered by non-increasing `createdAt`. */
  lemma {:induction false} SortNewestSorts(s: seq<Product>)
    ensures multiset(SortNewest(s)) == multiset(s)
    ensures NewestFirst(SortNewest(s))
  {
    if s != [] {
      assert s == [s[0]] + s[1..];
      SortNewestSorts(s[1..]);
      InsertNewestOrdered(s[0], SortNewest(s[1..]));
      InsertNewestAdds(s[0], SortNewest(s[1..]));
    }
  }

  /** The rows created at time `t`, in order. */
  function CreatedAt(s: seq<Product>, t: Time): seq<Product>
  {
    JsArray.Filter(s, (p: Product) => p.createdAt == t)
  }

  lemma {:induction false} InsertNewestKeepsTies(x: Product, s: seq<Product>, t: Time)
    requires NewestFirst(s)
    ensures CreatedAt(InsertNewest(x, s), t)
        == if x.createdAt == t then [x] + CreatedAt(s, t) else CreatedAt(s, t)
  {
    if s == [] || s[0].createdAt <= x.createdAt {
      assert ([x] + s)[1..] == s;
    } else {
      InsertNewestKeepsTies(x, s[1..], t);
      var r := [s[0]] + InsertNewest(x, s[1..]);
      assert r[1..] == InsertNewest(x, s[1..]);
    }
  }

  /** Stability: for every timestamp, the rows created then keep their input order. */
  lemma {:induction false} SortNewestStable(s: seq<Product>, t: Time)
    ensures CreatedAt(SortNewest(s), t) == CreatedAt(s, t)
  {
    if s != [] {
      SortNewestStable(s[1..], t);
      SortNewestSorts(s[1..]);
      InsertNewestKeepsTies(s[0], SortNewest(s[1..]), t);
    }
  }

  ghost predicate IdsAscending(s: seq<Product>)
  {
    forall i, j :: 0 <= i < j < |s| ==> s[i].id < s[j].id
  }

  /** Rows with equal timestamps stand in ascending id order. */
  ghost predicate TiesByAscendingId(s: seq<Product>)
  {
    forall i, j :: 0 <= i < j < |s| && s[i].createdAt == s[j].createdAt ==> s[i].id < s[j].id
  }

  lemma {:induction false} InsertNewestTiesById(x: Product, s: seq<Product>)
    requires NewestFirst(s) && TiesByAscendingId(s)
    requires forall y :: y in s ==> x.id < y.id
    ensures TiesByAscendingId(InsertNewest(x, s))
  {
    if s != [] && x.createdAt < s[0].createdAt {
      var t := InsertNewest(x, s[1..]);
      InsertNewestTiesById(x, s[1..]);
      var r := [s[0]] + t;
      forall i, j | 0 <= i < j < |r| && r[i].createdAt == r[j].createdAt
        ensures r[i].id < r[j].id
      {
        if i == 0 {
          HeadTiesFirst(x, s, r[j]);
        } else {
          assert r[i] == t[i - 1] && r[j] == t[j - 1];
        }
      }
    }
  }

  /** When `x` goes behind the head of `s`, a row tied with the head comes from the rest of `s`, so after it by id. */
  lemma HeadTiesFirst(x: Product, s: seq<Product>, y: Product)
    requires TiesByAscendingId(s) && s != [] && x.createdAt < s[0].createdAt
    requires y in InsertNewest(x, s[1..]) && y.createdAt == s[0].createdAt
    ensures s[0].id < y.id
  {
    InsertNewestAdds(x, s[1..]);
    var k :| 0 <= k < |s[1..]| && s[1..][k] == y;
    assert s[k + 1] == y;
  }

  /**
   * Rows enumerated in ascending id order come out of the sort with ties
   * in ascending id order: the order is total and deterministic.
   */
  lemma {:induction false} SortNewestTiesById(s: seq<Product>)
    requires IdsAscending(s)
    ensures TiesByAscendingId(SortNewest(s))
  {
    if s != [] {
      SortNewestTiesById(s[1..]);
      SortNewestSorts(s[1..]);
      var t := SortNewest(s[1..]);
      forall y | y in t ensures s[0].id < y.id {
        assert y in multiset(s[1..]);
        var k :| 0 <= k < |s[1..]| && s[1..][k] == y;
        assert s[k + 1] == y;
      }
      InsertNewestTiesById(s[0], t);
    }
  }

  // ---------------------------------------------------------------------------
  // The window and the whole query.
  // ---------------------------------------------------------------------------

  /** `filters.offset || 0`. */
  function OffsetOf(f: ProductFilters): (n: int)
    ensures NumberGiven(f.offset) ==> n == f.offset.value
    ensures !NumberGiven(f.offset) ==> n == 0
  {
    if NumberGiven(f.offset) then f.offset.value else 0
  }

  /** `filters.limit || 20`. */
  function LimitOf(f: ProductFilters): (n: int)
    ensures n != 0
    ensures NumberGiven(f.limit) ==> n == f.limit.value
    ensures !NumberGiven(f.limit) ==> n == 20
  {
    if NumberGiven(f.limit) then f.limit.value else 20
  }

  /** The matching rows, newest first, before the window is cut. */
  function Candidates(rows: seq<Product>, f: ProductFilters): seq<Product>
  {
    SortNewest(JsArray.Filter(rows, (p: Product) => Matches(f, p)))
  }

  /** `getProducts(filters)` over the table's rows. */
  function Query(rows: seq<Product>, f: ProductFilters): seq<Product>
  {
    JsArray.Slice(Candidates(rows, f), OffsetOf(f), OffsetOf(f) + LimitOf(f))
  }

  /** The candidates are exactly the rows that match every given filter, whatever their status. */
  lemma CandidatesExact(rows: seq<Product>, f: ProductFilters)
    ensures forall p :: p in Candidates(rows, f) <==> p in rows && Matches(f, p)
    ensures NewestFirst(Candidates(rows, f))
  {
    var kept := JsArray.Filter(rows, (p: Product) => Matches(f, p));
    SortNewestSorts(kept);
    forall p ensures p in Candidates(rows, f) <==> p in kept {
      assert p in Candidates(rows, f) <==> p in multiset(Candidates(rows, f));
    }
  }

  /** Every product returned satisfies each filter that was given. */
  lemma {:induction false} QuerySound(rows: seq<Product>, f: ProductFilters, p: Product)
    requires p in Query(rows, f)
    ensures p in rows
    ensures NumberGiven(f.categoryId) ==> p.categoryId == Some(f.categoryId.value)
    ensures TextGiven(f.condition) ==> p.condition == f.condition.value
    ensures NumberGiven(f.minPrice) ==> f.minPrice.value <= p.price
    ensures NumberGiven(f.maxPrice) ==> p.price <= f.maxPrice.value
    ensures NumberGiven(f.sellerId) ==> p.sellerId == f.sellerId.value
    ensures TextGiven(f.search) ==> SearchHit(ToLowerCase(f.search.value), p)
  {
    CandidatesExact(rows, f);
    SliceWithin(Candidates(rows, f), OffsetOf(f), OffsetOf(f) + LimitOf(f));
  }

  lemma SliceWithin<T>(s: seq<T>, start: int, end: int)
    ensures forall x :: x in JsArray.Slice(s, start, end) ==> x in s
  {
    var from := JsArray.RelativeIndex(start, |s|);
    var to := JsArray.RelativeIndex(end, |s|);
    if from < to {
      forall x | x in s[from..to] ensures x in s {
        var k :| 0 <= k < to - from && s[from..to][k] == x;
        assert s[from + k] == x;
      }
    }
  }

  lemma SliceKeepsOrder(s: seq<Product>, start: int, end: int)
    requires NewestFirst(s)
    ensures NewestFirst(JsArray.Slice(s, start, end))
  {
    var from := JsArray.RelativeIndex(start, |s|);
    var to := JsArray.RelativeIndex(end, |s|);
    if from < to {
      var w := s[from..to];
      forall i, j | 0 <= i < j < |w| ensures w[j].createdAt <= w[i].createdAt {
        assert w[i] == s[from + i] && w[j] == s[from + j];
      }
    }
  }

  /**
   * The result is newest first, and it holds no more rows than the limit
   * (for a positive limit; a negative `limit` counts back from the end,
   * as `slice` does).
   */
  lemma QueryOrderedAndBounded(rows: seq<Product>, f: ProductFilters)
    ensures NewestFirst(Query(rows, f))
    ensures LimitOf(f) > 0 ==> |Query(rows, f)| <= LimitOf(f)
    ensures !NumberGiven(f.limit) ==> |Query(rows, f)| <= 20
  {
    CandidatesExact(rows, f);
    SliceKeepsOrder(Candidates(rows, f), OffsetOf(f), OffsetOf(f) + LimitOf(f));
  }

  /** Where page `k` of `size` rows starts. */
  function PageStart(size: nat, k: nat): (r: nat)
    ensures k > 0 ==> r >= size
  {
    if k == 0 then 0 else PageStart(size, k - 1) + size
  }

  /** Page `k` starts `k * size` rows in. */
  lemma {:induction false} PageStartIsProduct(size: nat, k: nat)
    ensures PageStart(size, k) == k * size
  {
    if k > 0 {
      PageStartIsProduct(size, k - 1);
      assert (k - 1) * size + size == k * size;
    }
  }

  /** The filters asking for page `k` of `size` rows. */
  function Page(f: ProductFilters, size: nat, k: nat): ProductFilters
  {
    f.(offset := Some(PageStart(size, k)), limit := Some(size))
  }

  /** The first `n` windows of `size` elements of `c` (the first `n` pages, by `PageIsSlice`), concatenated. */
  function Windows<T>(c: seq<T>, size: nat, n: nat): seq<T>
  {
    if n == 0 then [] else Windows(c, size, n - 1) + JsArray.Slice(c, PageStart(size, n - 1), PageStart(size, n - 1) + size)
  }

  /** Adjacent windows leave no gap and no overlap: together they are a prefix. */
  lemma {:induction false} WindowsArePrefix<T>(c: seq<T>, size: nat, n: nat)
    ensures Windows(c, size, n) == JsArray.Slice(c, 0, PageStart(size, n))
  {
    if n == 0 {
      assert JsArray.Slice(c, 0, 0) == [];
    } else {
      WindowsArePrefix(c, size, n - 1);
      var start := PageStart(size, n - 1);
      var front, back := Windows(c, size, n - 1), JsArray.Slice(c, start, start + size);
      assert Windows(c, size, n) == front + back;
      JsArray.JoinSlices(front, back, c, start, size);
      assert PageStart(size, n) == start + size;
    }
  }

  /** Page `k` is the slice of the candidates starting at `PageStart(size, k)`. */
  lemma PageIsSlice(rows: seq<Product>, f: ProductFilters, size: nat, k: nat)
    requires size > 0
    ensures Query(rows, Page(f, size, k))
      == JsArray.Slice(Candidates(rows, f), PageStart(size, k), PageStart(size, k) + size)
  {
    var g := Page(f, size, k);
    var start := PageStart(size, k);
    assert OffsetOf(g) == start by {
      if k == 0 {
        assert start == 0;
      }
    }
    assert LimitOf(g) == size;
    CandidatesIgnoreWindow(rows, g, f);
    assert Query(rows, g) == JsArray.Slice(Candidates(rows, g), start, start + size);
  }

  /** Only the facets decide the candidates; `limit` and `offset` do not. */
  lemma CandidatesIgnoreWindow(rows: seq<Product>, f: ProductFilters, g: ProductFilters)
    requires f.(limit := None, offset := None) == g.(limit := None, offset := None)
    ensures Candidates(rows, f) == Candidates(rows, g)
  {
    JsArray.FilterAgree(rows, (p: Product) => Matches(f, p), (p: Product) => Matches(g, p));
  }
}
