/**
 * The state helpers of the product listing page: the filter form
 * (`handleFilterChange`), the size and condition check lists
 * (`handleSizeToggle`, `handleConditionToggle`) and the query parameters
 * the page sends with its product request.
 */
module ProductListing {
  import JsArray

  /** The filter form; every field holds the text of its input, `""` when empty. */
  datatype ListingFilters = ListingFilters(
    search: string, categoryId: string, condition: string,
    minPrice: string, maxPrice: string, sortBy: string)

  /** The form as the page first renders it. */
  const InitialFilters := ListingFilters("", "", "", "", "", "newest")

  /** The keys the page passes to `handleFilterChange`. */
  datatype FilterKey = Search | CategoryId | Condition | MinPrice | MaxPrice | SortBy

  function Get(f: ListingFilters, key: FilterKey): string
  {
    match key
    case Search => f.search
    case CategoryId => f.categoryId
    case Condition => f.condition
    case MinPrice => f.minPrice
    case MaxPrice => f.maxPrice
    case SortBy => f.sortBy
  }

  /** `handleFilterChange(key, value)`: `{ ...prev, [key]: value }`. */
  function FilterChange(f: ListingFilters, key: FilterKey, value: string): (r: ListingFilters)
    ensures Get(r, key) == value
    ensures forall k :: k != key ==> Get(r, k) == Get(f, k)
  {
    match key
    case Search => f.(search := value)
    case CategoryId => f.(categoryId := value)
    case Condition => f.(condition := value)
    case MinPrice => f.(minPrice := value)
    case MaxPrice => f.(maxPrice := value)
    case SortBy => f.(sortBy := value)
  }

  /** The form is determined by its six fields. */
  lemma FieldsDetermineFilters(f: ListingFilters, g: ListingFilters)
    requires forall k :: Get(f, k) == Get(g, k)
    ensures f == g
  {
    assert Get(f, Search) == Get(g, Search) && Get(f, CategoryId) == Get(g, CategoryId);
    assert Get(f, Condition) == Get(g, Condition) && Get(f, MinPrice) == Get(g, MinPrice);
    assert Get(f, MaxPrice) == Get(g, MaxPrice) && Get(f, SortBy) == Get(g, SortBy);
  }

  /** The last change to a field wins, and changes to different fields commute. */
  lemma FilterChangesCompose(f: ListingFilters, k1: FilterKey, v1: string, k2: FilterKey, v2: string)
    ensures k1 == k2 ==> FilterChange(FilterChange(f, k1, v1), k2, v2) == FilterChange(f, k2, v2)
    ensures k1 != k2 ==> FilterChange(FilterChange(f, k1, v1), k2, v2) == FilterChange(FilterChange(f, k2, v2), k1, v1)
  {
    var a := FilterChange(FilterChange(f, k1, v1), k2, v2);
    if k1 == k2 {
      FieldsDetermineFilters(a, FilterChange(f, k2, v2));
    } else {
      FieldsDetermineFilters(a, FilterChange(FilterChange(f, k2, v2), k1, v1));
    }
  }

  // ---------------------------------------------------------------------------
  // The size and condition check lists.
  // ---------------------------------------------------------------------------

  /** `list.filter(y => y !== x)`. */
  function Without(list: seq<string>, x: string): seq<string>
  {
    JsArray.Filter(list, (y: string) => y != x)
  }

  /**
   * `handleSizeToggle(x)` and `handleConditionToggle(x)` alike: drop `x` if
   * the list includes it, append it otherwise.
   */
  function Toggle(list: seq<string>, x: string): (r: seq<string>)
    ensures x in r <==> x !in list
    ensures forall y :: y != x ==> (y in r <==> y in list)
  {
    if x in list then Without(list, x) else list + [x]
  }

  /** Dropping a value removes every occurrence of it and keeps every other occurrence. */
  lemma {:induction false} WithoutCounts(list: seq<string>, x: string)
    ensures multiset(Without(list, x)) == multiset(list)[x := 0]
  {
    if list != [] {
      WithoutCounts(list[1..], x);
      assert list == [list[0]] + list[1..];
    }
  }

  /** Dropping a value keeps a list free of duplicates. */
  lemma {:induction false} WithoutDistinct(list: seq<string>, x: string)
    requires JsArray.Distinct(list)
    ensures JsArray.Distinct(Without(list, x))
  {
    if list != [] {
      WithoutDistinct(list[1..], x);
      var rest := Without(list[1..], x);
      assert list[0] !in rest by {
        forall j | 0 <= j < |list[1..]| ensures list[1..][j] != list[0] {
          assert list[1..][j] == list[j + 1];
        }
      }
      if list[0] != x {
        var r := [list[0]] + rest;
        assert Without(list, x) == r;
        forall i, j | 0 <= i < j < |r| ensures r[i] != r[j] {
          if i == 0 {
            assert r[j] == rest[j - 1];
          } else {
            assert r[i] == rest[i - 1] && r[j] == rest[j - 1];
          }
        }
      }
    }
  }

  /** Toggling a value the list includes removes all its occurrences and keeps the rest in order. */
  lemma TogglePresent(list: seq<string>, x: string)
    requires x in list
    ensures Toggle(list, x) == JsArray.Filter(list, (y: string) => y != x)
    ensures multiset(Toggle(list, x)) == multiset(list)[x := 0]
  {
    WithoutCounts(list, x);
  }

  /** Toggling a value the list lacks appends it at the end. */
  lemma ToggleAbsent(list: seq<string>, x: string)
    requires x !in list
    ensures Toggle(list, x) == list + [x]
  {
  }

  /** Toggling an absent value twice gives back the original list. */
  lemma ToggleTwiceRestores(list: seq<string>, x: string)
    requires x !in list
    ensures Toggle(Toggle(list, x), x) == list
  {
    JsArray.FilterConcat(list, [x], (y: string) => y != x);
    JsArray.FilterAll(list, (y: string) => y != x);
  }

  /** A list without duplicates stays without duplicates under any toggle. */
  lemma ToggleKeepsDistinct(list: seq<string>, x: string)
    requires JsArray.Distinct(list)
    ensures JsArray.Distinct(Toggle(list, x))
  {
    if x in list {
      WithoutDistinct(list, x);
    }
  }

  // ---------------------------------------------------------------------------
  // The request parameters.
  // ---------------------------------------------------------------------------

  /** The parameters `queryFn` considers, in the order it considers them; `sortBy` is not among them. */
  function ParamCandidates(f: ListingFilters): seq<(string, string)>
  {
    [("search", f.search), ("categoryId", f.categoryId), ("condition", f.condition),
     ("minPrice", f.minPrice), ("maxPrice", f.maxPrice)]
  }

  /** `if (value) params.append(name, value)`: the pair, when the value is non-empty. */
  function Param(name: string, value: string): seq<(string, string)>
  {
    if value != "" then [(name, value)] else []
  }

  /** The parameters sent, field by field in the order `queryFn` appends them. */
  function SentParams(f: ListingFilters): (r: seq<(string, string)>)
    ensures |r| <= |ParamCandidates(f)|
    ensures forall kv :: kv in r ==> kv in ParamCandidates(f) && kv.1 != ""
  {
    Param("search", f.search) + Param("categoryId", f.categoryId) + Param("condition", f.condition)
      + Param("minPrice", f.minPrice) + Param("maxPrice", f.maxPrice)
  }

  /** `queryFn`'s `URLSearchParams`: one `append` per non-empty field, in field order. */
  method QueryParams(f: ListingFilters) returns (params: seq<(string, string)>)
    ensures params == SentParams(f)
  {
    params := [];
    if f.search != "" {
      params := params + [("search", f.search)];
    }
    assert params == Param("search", f.search);
    if f.categoryId != "" {
      params := params + [("categoryId", f.categoryId)];
    }
    assert params == Param("search", f.search) + Param("categoryId", f.categoryId);
    if f.condition != "" {
      params := params + [("condition", f.condition)];
    }
    assert params == Param("search", f.search) + Param("categoryId", f.categoryId) + Param("condition", f.condition);
    if f.minPrice != "" {
      params := params + [("minPrice", f.minPrice)];
    }
    assert params == Param("search", f.search) + Param("categoryId", f.categoryId) + Param("condition", f.condition)
      + Param("minPrice", f.minPrice);
    if f.maxPrice != "" {
      params := params + [("maxPrice", f.maxPrice)];
    }
  }

  /** The parameters sent are the candidates with a non-empty value, in the candidates' order. */
  lemma SentParamsFilterCandidates(f: ListingFilters)
    ensures SentParams(f) == JsArray.Filter(ParamCandidates(f), NonEmptyValue)
  {
    var p0, p1, p2 := ("search", f.search), ("categoryId", f.categoryId), ("condition", f.condition);
    var p3, p4 := ("minPrice", f.minPrice), ("maxPrice", f.maxPrice);
    var t3 := [p3] + [p4];
    var t2 := [p2] + t3;
    var t1 := [p1] + t2;
    assert ParamCandidates(f) == [p0] + t1;
    FilterOne(p0);
    FilterOne(p1);
    FilterOne(p2);
    FilterOne(p3);
    FilterOne(p4);
    JsArray.FilterConcat([p3], [p4], NonEmptyValue);
    var q3 := Param(p3.0, p3.1) + Param(p4.0, p4.1);
    assert JsArray.Filter(t3, NonEmptyValue) == q3;
    JsArray.FilterConcat([p2], t3, NonEmptyValue);
    var q2 := Param(p2.0, p2.1) + q3;
    assert JsArray.Filter(t2, NonEmptyValue) == q2;
    JsArray.FilterConcat([p1], t2, NonEmptyValue);
    var q1 := Param(p1.0, p1.1) + q2;
    assert JsArray.Filter(t1, NonEmptyValue) == q1;
    JsArray.FilterConcat([p0], t1, NonEmptyValue);
    assert JsArray.Filter(ParamCandidates(f), NonEmptyValue) == Param(p0.0, p0.1) + q1;
    Regroup(Param(p0.0, p0.1), Param(p1.0, p1.1), Param(p2.0, p2.1), Param(p3.0, p3.1), Param(p4.0, p4.1));
  }

  /** Concatenation regrouped from the right to the left. */
  lemma Regroup<T>(a: seq<T>, b: seq<T>, c: seq<T>, d: seq<T>, e: seq<T>)
    ensures a + (b + (c + (d + e))) == a + b + c + d + e
  {
    calc {
      a + (b + (c + (d + e)));
    ==  { assert c + (d + e) == c + d + e; }
      a + (b + (c + d + e));
    ==  { assert b + (c + d + e) == b + (c + d) + e == b + c + d + e; }
      a + (b + c + d + e);
    ==  { assert a + (b + c + d + e) == a + (b + c + d) + e == a + (b + c) + d + e; }
      a + b + c + d + e;
    }
  }

  /** `if (value)`, as a test on a (name, value) pair. */
  function NonEmptyValue(kv: (string, string)): bool
  {
    kv.1 != ""
  }

  /** Filtering one pair keeps it exactly when it would be appended. */
  lemma FilterOne(kv: (string, string))
    ensures JsArray.Filter([kv], NonEmptyValue) == Param(kv.0, kv.1)
  {
    assert [kv][1..] == [];
  }

  /** The parameters sent are exactly the candidates with a non-empty value. */
  lemma SentAreNonEmptyCandidates(f: ListingFilters)
    ensures forall kv :: kv in SentParams(f) <==> kv in ParamCandidates(f) && kv.1 != ""
    ensures |SentParams(f)| <= |ParamCandidates(f)|
  {
  }

  /** A field is sent exactly when it is non-empty, under its own name and with its own value. */
  lemma SentExactlyWhenNonEmpty(f: ListingFilters, key: FilterKey)
    requires key != SortBy
    ensures (ParamName(key), Get(f, key)) in SentParams(f) <==> Get(f, key) != ""
    ensures forall v :: (ParamName(key), v) in SentParams(f) ==> v == Get(f, key)
  {
  }

  function ParamName(key: FilterKey): string
  {
    match key
    case Search => "search"
    case CategoryId => "categoryId"
    case Condition => "condition"
    case MinPrice => "minPrice"
    case MaxPrice => "maxPrice"
    case SortBy => "sortBy"
  }

  /** The sort selection never reaches the request: changing it leaves the parameters as they were. */
  lemma SortByNeverSent(f: ListingFilters, v: string)
    ensures SentParams(FilterChange(f, SortBy, v)) == SentParams(f)
    ensures forall kv :: kv in SentParams(f) ==> kv.0 != "sortBy" && kv.1 != ""
  {
  }
}
