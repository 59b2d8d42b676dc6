/**
 * The filter menu above the home page: four text fields seeded from the current search
 * parameters, "apply" navigating to `/?` with the non-empty fields as query parameters,
 * "reset" clearing the fields and navigating to `/`, and a toggle for the dropdown.
 */
module UserFiltersView {
  import opened Wrappers
  import HomePage

  /** A query string's parameters, in order. */
  type Params = seq<(string, string)>

  /** `URLSearchParams.get`: the value of the first parameter named `key`. */
  function Get(params: Params, key: string): (value: Option<string>)
    ensures value.Some? <==> exists i :: 0 <= i < |params| && params[i].0 == key
    ensures value.Some? ==> (key, value.value) in params
    ensures value.Some? ==> exists i :: FirstWithKey(params, key, i) && params[i].1 == value.value
  {
    if params == [] then None
    else if params[0].0 == key then
      assert FirstWithKey(params, key, 0);
      Some(params[0].1)
    else
      var rest := Get(params[1..], key);
      assert forall i :: 1 <= i < |params| ==> params[i] == params[1..][i - 1];
      if rest.Some? then
        var i :| FirstWithKey(params[1..], key, i) && params[1..][i].1 == rest.value;
        assert FirstWithKey(params, key, i + 1);
        rest
      else rest
  }

  /** `params[i]` is the first parameter named `key`. */
  predicate FirstWithKey(params: Params, key: string, i: int) {
    0 <= i < |params| && params[i].0 == key && forall j :: 0 <= j < i ==> params[j].0 != key
  }

  /** `URLSearchParams.toString` without percent-encoding: `key=value` pairs joined by `&`. */
  function Serialize(params: Params): (query: string)
    ensures query == "" <==> params == []
  {
    if params == [] then ""
    else params[0].0 + "=" + params[0].1 + (if |params| == 1 then "" else "&" + Serialize(params[1..]))
  }

  /** The longest prefix of `s` without `c`. */
  function UpTo(s: string, c: char): (prefix: string)
    ensures |prefix| <= |s| && prefix == s[..|prefix|] && c !in prefix
    ensures |prefix| < |s| ==> s[|prefix|] == c
  {
    if s == [] || s[0] == c then [] else [s[0]] + UpTo(s[1..], c)
  }

  /** One `key=value` segment: the text before the first `=` and the text after it. */
  function SplitPair(segment: string): (string, string) {
    var key := UpTo(segment, '=');
    (key, if |key| < |segment| then segment[|key| + 1..] else "")
  }

  /** The parameters of a query string, segment by segment. */
  function Parse(query: string): Params
    decreases |query|
  {
    if query == [] then []
    else
      var segment := UpTo(query, '&');
      [SplitPair(segment)] + (if |segment| < |query| then Parse(query[|segment| + 1..]) else [])
  }

  /** Text that serializes as itself inside one segment. */
  predicate Plain(s: string) {
    '&' !in s && '=' !in s
  }

  lemma {:induction false} UpToStopsAt(a: string, c: char, b: string)
    requires c !in a
    ensures UpTo(a + [c] + b, c) == a
    ensures UpTo(a, c) == a
  {
    if a != [] {
      assert (a + [c] + b)[1..] == a[1..] + [c] + b;
      UpToStopsAt(a[1..], c, b);
    } else {
      assert a + [c] + b == [c] + b;
    }
  }

  lemma SplitPairOf(key: string, value: string)
    requires Plain(key) && Plain(value)
    ensures SplitPair(key + "=" + value) == (key, value)
  {
    UpToStopsAt(key, '=', value);
    assert (key + "=" + value)[|key| + 1..] == value;
  }

  /** Reading a serialized query gives back its parameters when keys and values are plain text. */
  lemma {:induction false} ParseSerialize(params: Params)
    requires forall i :: 0 <= i < |params| ==> Plain(params[i].0) && Plain(params[i].1)
    ensures Parse(Serialize(params)) == params
  {
    if params != [] {
      var segment := params[0].0 + "=" + params[0].1;
      assert '&' !in segment;
      SplitPairOf(params[0].0, params[0].1);
      if |params| == 1 {
        UpToStopsAt(segment, '&', "");
        assert Serialize(params) == segment;
      } else {
        var rest := Serialize(params[1..]);
        assert Serialize(params) == segment + "&" + rest;
        UpToStopsAt(segment, '&', rest);
        assert (segment + "&" + rest)[|segment| + 1..] == rest;
        ParseSerialize(params[1..]);
      }
    }
  }

  lemma {:induction false} GetConcat(a: Params, b: Params, key: string)
    ensures Get(a + b, key) == if Get(a, key).Some? then Get(a, key) else Get(b, key)
  {
    if a == [] {
      assert a + b == b;
    } else {
      assert (a + b)[1..] == a[1..] + b;
      GetConcat(a[1..], b, key);
    }
  }

  /** The parameters `handleApplyFilters` sets: each non-empty field, in the order city, minAge, maxAge, gender. */
  function Query(city: string, minAge: string, maxAge: string, gender: string): (params: Params)
    ensures |params| <= 4
    ensures forall i :: 0 <= i < |params| ==> params[i].1 != ""
  {
    Entry("city", city) + Entry("minAge", minAge) + Entry("maxAge", maxAge) + Entry("gender", gender)
  }

  /** A field's parameter: present only when the field is non-empty. */
  function Entry(key: string, value: string): Params {
    if value != "" then [(key, value)] else []
  }

  lemma GetEntry(key: string, value: string, wanted: string)
    ensures Get(Entry(key, value), wanted) == if wanted == key && value != "" then Some(value) else None
  {
  }

  /** Each parameter of the query is present exactly when its field is non-empty, with the field's text. */
  lemma QueryCarriesFields(city: string, minAge: string, maxAge: string, gender: string)
    ensures var q := Query(city, minAge, maxAge, gender);
      && Get(q, "city") == (if city == "" then None else Some(city))
      && Get(q, "minAge") == (if minAge == "" then None else Some(minAge))
      && Get(q, "maxAge") == (if maxAge == "" then None else Some(maxAge))
      && Get(q, "gender") == (if gender == "" then None else Some(gender))
  {
    QueryField(city, minAge, maxAge, gender, "city");
    QueryField(city, minAge, maxAge, gender, "minAge");
    QueryField(city, minAge, maxAge, gender, "maxAge");
    QueryField(city, minAge, maxAge, gender, "gender");
  }

  lemma QueryField(city: string, minAge: string, maxAge: string, gender: string, key: string)
    ensures Get(Query(city, minAge, maxAge, gender), key) ==
      if key == "city" && city != "" then Some(city)
      else if key == "minAge" && minAge != "" then Some(minAge)
      else if key == "maxAge" && maxAge != "" then Some(maxAge)
      else if key == "gender" && gender != "" then Some(gender)
      else None
  {
    GetOfQuery(Entry("city", city), Entry("minAge", minAge), Entry("maxAge", maxAge), Entry("gender", gender), key);
    GetEntry("city", city, key);
    GetEntry("minAge", minAge, key);
    GetEntry("maxAge", maxAge, key);
    GetEntry("gender", gender, key);
  }

  lemma GetOfQuery(c: Params, n: Params, x: Params, g: Params, key: string)
    ensures Get(c + n + x + g, key) ==
      if Get(c, key).Some? then Get(c, key) else if Get(n, key).Some? then Get(n, key)
      else if Get(x, key).Some? then Get(x, key) else Get(g, key)
  {
    GetConcat(c + n + x, g, key);
    GetConcat(c + n, x, key);
    GetConcat(c, n, key);
  }

  /**
   * What the home page reads from the applied URL: a non-empty field arrives as a truthy search
   * parameter with the field's text, an empty one does not arrive.
   */
  lemma ApplyReachesHomePage(city: string, minAge: string, maxAge: string, gender: string)
    requires Plain(city) && Plain(minAge) && Plain(maxAge) && Plain(gender)
    ensures var read := Parse(Serialize(Query(city, minAge, maxAge, gender)));
      var sp := HomePage.SearchParams(Get(read, "city"), Get(read, "minAge"), Get(read, "maxAge"), Get(read, "gender"));
      && (HomePage.Truthy(sp.city) <==> city != "") && (city != "" ==> sp.city.value == city)
      && (HomePage.Truthy(sp.minAge) <==> minAge != "") && (minAge != "" ==> sp.minAge.value == minAge)
      && (HomePage.Truthy(sp.maxAge) <==> maxAge != "") && (maxAge != "" ==> sp.maxAge.value == maxAge)
      && (HomePage.Truthy(sp.gender) <==> gender != "") && (gender != "" ==> sp.gender.value == gender)
  {
    var q := Query(city, minAge, maxAge, gender);
    assert forall i :: 0 <= i < |q| ==> Plain(q[i].0) && Plain(q[i].1);
    ParseSerialize(q);
    QueryCarriesFields(city, minAge, maxAge, gender);
  }

  datatype Field = City | MinAge | MaxAge | Gender

  class UserFilters {
    var city: string
    var minAge: string
    var maxAge: string
    var gender: string
    var isFilterMenuOpen: bool
    /** The URLs pushed onto the router, oldest first. */
    var navigations: seq<string>

    /** Each field starts as its search parameter, or '' when that is absent; the menu starts closed. */
    constructor (searchParams: Params)
      ensures city == Get(searchParams, "city").GetOr("")
      ensures minAge == Get(searchParams, "minAge").GetOr("")
      ensures maxAge == Get(searchParams, "maxAge").GetOr("")
      ensures gender == Get(searchParams, "gender").GetOr("")
      ensures !isFilterMenuOpen && navigations == []
    {
      city := Get(searchParams, "city").GetOr("");
      minAge := Get(searchParams, "minAge").GetOr("");
      maxAge := Get(searchParams, "maxAge").GetOr("");
      gender := Get(searchParams, "gender").GetOr("");
      isFilterMenuOpen := false;
      navigations := [];
    }

    /** An input's `onChange`: one field takes the typed text. */
    method Edit(field: Field, value: string)
      modifies this`city, this`minAge, this`maxAge, this`gender
      ensures city == (if field == City then value else old(city))
      ensures minAge == (if field == MinAge then value else old(minAge))
      ensures maxAge == (if field == MaxAge then value else old(maxAge))
      ensures gender == (if field == Gender then value else old(gender))
    {
      match field
      case City => city := value;
      case MinAge => minAge := value;
      case MaxAge => maxAge := value;
      case Gender => gender := value;
    }

    /** The filter button: opens a closed menu and closes an open one. */
    method ToggleMenu()
      modifies this`isFilterMenuOpen
      ensures isFilterMenuOpen == !old(isFilterMenuOpen)
    {
      isFilterMenuOpen := !isFilterMenuOpen;
    }

    /** `handleApplyFilters`: navigate to `/?` and the query of the non-empty fields, then close the menu. */
    method ApplyFilters() returns (url: string)
      modifies this`navigations, this`isFilterMenuOpen
      ensures url == "/?" + Serialize(Query(city, minAge, maxAge, gender))
      ensures navigations == old(navigations) + [url] && !isFilterMenuOpen
    {
      var params: Params := [];
      if city != "" {
        params := params + [("city", city)];
      }
      if minAge != "" {
        params := params + [("minAge", minAge)];
      }
      if maxAge != "" {
        params := params + [("maxAge", maxAge)];
      }
      if gender != "" {
        params := params + [("gender", gender)];
      }
      assert params == Query(city, minAge, maxAge, gender);
      url := "/?" + Serialize(params);
      navigations := navigations + [url];
      isFilterMenuOpen := false;
    }

    /** `handleResetFilters`: clear every field, navigate to `/`, close the menu. */
    method ResetFilters()
      modifies this
      ensures city == "" && minAge == "" && maxAge == "" && gender == ""
      ensures navigations == old(navigations) + ["/"] && !isFilterMenuOpen
    {
      city := "";
      minAge := "";
      maxAge := "";
      gender := "";
      navigations := navigations + ["/"];
      isFilterMenuOpen := false;
    }
  }

  /** With every field empty, apply navigates to the bare `/?`. */
  lemma EmptyApplyUrl()
    ensures "/?" + Serialize(Query("", "", "", "")) == "/?"
  {
  }
}
