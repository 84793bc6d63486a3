/**
 * Which header link is highlighted: `isActive(path)` of the navigation bar,
 * evaluated against the router's current `location`.
 */
module Navigation {
  import opened JsText

  /** The paths of the four header links, in display order. */
  const NavPaths: seq<string> := ["/", "/browse", "/add-product", "/dashboard"]

  /** The home link is active only on the home page; any other link whenever the location starts with its path. */
  function IsActive(location: string, path: string): (r: bool)
    ensures r ==> StartsWith(location, path)
    ensures path == "/" ==> (r <==> location == "/")
    ensures path != "/" ==> (r <==> StartsWith(location, path))
  {
    if path == "/" && location == "/" then true
    else if path != "/" && StartsWith(location, path) then true
    else false
  }

  /** The prefix test does not respect path segments: `/browse` lights up under `/browsefoo` too. */
  lemma NotSegmentAware()
    ensures IsActive("/browse/x", "/browse")
    ensures IsActive("/browsefoo", "/browse")
    ensures !IsActive("/browse", "/")
  {
    assert "/browse" <= "/browse/x";
    assert "/browse" <= "/browsefoo";
  }

  /** Two prefixes of one string are prefixes of each other. */
  lemma {:induction false} PrefixesComparable(location: string, p: string, q: string)
    requires p <= location && q <= location
    ensures p <= q || q <= p
  {
    if |p| <= |q| {
      assert p == location[..|p|] == q[..|p|];
    } else {
      assert q == location[..|q|] == p[..|q|];
    }
  }

  /** Strings that differ in their second character are not prefixes of one another. */
  lemma Unordered(p: string, q: string)
    requires |p| > 1 && |q| > 1 && p[1] != q[1]
    ensures !(p <= q) && !(q <= p)
  {
  }

  /** At most one header link is active at any location. */
  lemma AtMostOneActive(location: string, i: int, j: int)
    requires 0 <= i < |NavPaths| && 0 <= j < |NavPaths|
    requires IsActive(location, NavPaths[i]) && IsActive(location, NavPaths[j])
    ensures i == j
  {
    if i != j && i != 0 && j != 0 {
      Unordered(NavPaths[i], NavPaths[j]);
      PrefixesComparable(location, NavPaths[i], NavPaths[j]);
    }
  }
}
