// The boilerplate page's filter state: like the category page's, with an
// ecosystem selection instead of a type and stars as the default order.
// The state is mirrored in the page URL's query parameters, written after
// every change and read once when the page loads.

module BoilerplatePage {
  import opened Strings
  import opened Cards

  /** The value of `activeFilters`. */
  datatype FilterState = FilterState(
    search: string, ecosystem: string, pricing: string, tags: seq<string>, sort: string)

  const Default := FilterState("", "", "", [], "stars")

  /** `URLSearchParams`: name and value pairs in order. */
  type Params = seq<(string, string)>

  /** `params.get(key)`: the first value under `key`. */
  function Get(params: Params, key: string): (r: Option<string>)
    ensures r.Some? ==> (key, r.value) in params
    ensures r.None? <==> forall p <- params :: p.0 != key
  {
    if params == [] then None
    else if params[0].0 == key then Some(params[0].1)
    else Get(params[1..], key)
  }

  /** `params.set(key, value)` on parameters without `key`, done only when `present` holds. */
  function Param(present: bool, key: string, value: string): Params
  {
    if present then [(key, value)] else []
  }

  /** `updateURL`: only set filters are written, and the sort only when it is not the default. */
  function UrlParams(s: FilterState): Params
  {
    Param(s.search != "", "search", s.search)
    + Param(s.ecosystem != "", "ecosystem", s.ecosystem)
    + Param(s.pricing != "", "pricing", s.pricing)
    + Param(|s.tags| > 0, "tags", Join(s.tags, ","))
    + Param(s.sort != "stars", "sort", s.sort)
  }

  /** `initializeFromURL` as a value: each parameter present replaces its filter. */
  function FromParams(s: FilterState, params: Params): FilterState
  {
    var search := Get(params, "search");
    var ecosystem := Get(params, "ecosystem");
    var pricing := Get(params, "pricing");
    var tags := Get(params, "tags");
    var sort := Get(params, "sort");
    FilterState(
      if search.Some? then Lower(search.value) else s.search,
      if ecosystem.Some? then ecosystem.value else s.ecosystem,
      if pricing.Some? then pricing.value else s.pricing,
      if tags.Some? then NonEmpty(SplitOn(tags.value, ',')) else s.tags,
      if sort.Some? then sort.value else s.sort)
  }

  /** `filter(t => t)`: the non-empty pieces, in order. */
  function NonEmpty(pieces: seq<string>): (r: seq<string>)
    ensures forall t <- r :: t != "" && t in pieces
    ensures forall t <- pieces :: t != "" ==> t in r
    ensures |pieces| == 1 ==> r == if pieces[0] != "" then pieces else []
  {
    if pieces == [] then []
    else
      var init := NonEmpty(pieces[..|pieces| - 1]);
      var last := pieces[|pieces| - 1];
      assert forall t <- pieces[..|pieces| - 1] :: t in pieces;
      if last != "" then init + [last] else init
  }

  /**
   * The filter works piece by piece: together with the one-piece cases of
   * `NonEmpty`, every non-empty piece is kept, in order.
   */
  lemma {:induction false} NonEmptyAppend(a: seq<string>, b: seq<string>)
    ensures NonEmpty(a + b) == NonEmpty(a) + NonEmpty(b)
    decreases |b|
  {
    if b == [] {
      assert a + b == a;
    } else {
      assert (a + b)[..|a + b| - 1] == a + b[..|b| - 1];
      NonEmptyAppend(a, b[..|b| - 1]);
    }
  }

  lemma {:induction false} NonEmptyAll(pieces: seq<string>)
    requires forall i :: 0 <= i < |pieces| ==> pieces[i] != ""
    ensures NonEmpty(pieces) == pieces
  {
    if pieces != [] {
      NonEmptyAll(pieces[..|pieces| - 1]);
      assert pieces[..|pieces| - 1] + [pieces[|pieces| - 1]] == pieces;
    }
  }

  /**
   * Loading the page from the URL `updateURL` wrote gives back the state,
   * for a lower-case search (the page only ever stores it so) and tags that
   * are non-empty and free of commas.
   */
  lemma UrlRoundTrip(s: FilterState)
    requires Lower(s.search) == s.search
    requires forall t <- s.tags :: t != "" && ',' !in t
    ensures FromParams(Default, UrlParams(s)) == s
  {
    GetUrlParams(s, "search");
    GetUrlParams(s, "ecosystem");
    GetUrlParams(s, "pricing");
    GetUrlParams(s, "tags");
    GetUrlParams(s, "sort");
    if s.tags != [] {
      SplitJoin(s.tags, ',');
      NonEmptyAll(s.tags);
    }
  }

  /**
   * Which parameters `updateURL` writes, and what each reads back as: a
   * set filter under its own name, tags joined with commas, a sort other
   * than stars; nothing else.
   */
  lemma GetUrlParams(s: FilterState, key: string)
    ensures Get(UrlParams(s), key) ==
      if key == "search" && s.search != "" then Some(s.search)
      else if key == "ecosystem" && s.ecosystem != "" then Some(s.ecosystem)
      else if key == "pricing" && s.pricing != "" then Some(s.pricing)
      else if key == "tags" && s.tags != [] then Some(Join(s.tags, ","))
      else if key == "sort" && s.sort != "stars" then Some(s.sort)
      else None
  {
    var a := Param(s.search != "", "search", s.search);
    var b := Param(s.ecosystem != "", "ecosystem", s.ecosystem);
    var c := Param(s.pricing != "", "pricing", s.pricing);
    var d := Param(|s.tags| > 0, "tags", Join(s.tags, ","));
    var e := Param(s.sort != "stars", "sort", s.sort);
    GetFive(a, b, c, d, e, key);
  }

  function FirstOf(x: Option<string>, y: Option<string>): Option<string>
  {
    if x.Some? then x else y
  }

  lemma GetFive(a: Params, b: Params, c: Params, d: Params, e: Params, key: string)
    ensures Get(a + b + c + d + e, key)
         == FirstOf(Get(a, key), FirstOf(Get(b, key), FirstOf(Get(c, key), FirstOf(Get(d, key), Get(e, key)))))
  {
    GetAppend(a, b, key);
    GetAppend(a + b, c, key);
    GetAppend(a + b + c, d, key);
    GetAppend(a + b + c + d, e, key);
  }

  /** A key is looked up in the first parameters first. */
  lemma {:induction false} GetAppend(a: Params, b: Params, key: string)
    ensures Get(a + b, key) == if Get(a, key).Some? then Get(a, key) else Get(b, key)
  {
    if a == [] {
      assert a + b == b;
    } else {
      assert (a + b)[1..] == a[1..] + b;
      GetAppend(a[1..], b, key);
    }
  }

  class Filters {
    var search: string
    var ecosystem: string
    var pricing: string
    var tags: seq<string>
    var sort: string

    function State(): FilterState
      reads this
    {
      FilterState(search, ecosystem, pricing, tags, sort)
    }

    constructor ()
      ensures State() == Default
    {
      search, ecosystem, pricing, tags, sort := "", "", "", [], "stars";
    }

    /** `cardMatchesFilters`: the tests in the page's order, the first failing one deciding. */
    predicate Matches(card: Card)
      reads this
    {
      if search != "" && !Contains(SearchText(card), search) then false
      else if ecosystem != "" && card.ecosystem != Some(ecosystem) then false
      else if pricing != "" && card.pricing != Some(pricing) then false
      else if |tags| > 0 && !(exists t <- tags :: t in CardTags(card)) then false
      else true
    }

    /** `initializeFromURL`. */
    method InitializeFromUrl(params: Params)
      modifies this
      ensures State() == FromParams(old(State()), params)
    {
      var v := Get(params, "search");
      if v.Some? {
        search := Lower(v.value);
      }
      v := Get(params, "ecosystem");
      if v.Some? {
        ecosystem := v.value;
      }
      v := Get(params, "pricing");
      if v.Some? {
        pricing := v.value;
      }
      v := Get(params, "tags");
      if v.Some? {
        tags := NonEmpty(SplitOn(v.value, ','));
      }
      v := Get(params, "sort");
      if v.Some? {
        sort := v.value;
      }
    }

    /** `updateURL`, up to encoding the parameters into the address. */
    method UpdateUrl() returns (params: Params)
      ensures params == UrlParams(State())
    {
      params := [];
      if search != "" {
        params := params + [("search", search)];
      }
      assert params == Param(search != "", "search", search);
      if ecosystem != "" {
        params := params + [("ecosystem", ecosystem)];
      }
      ghost var upTo := Param(search != "", "search", search) + Param(ecosystem != "", "ecosystem", ecosystem);
      assert params == upTo;
      if pricing != "" {
        params := params + [("pricing", pricing)];
      }
      upTo := upTo + Param(pricing != "", "pricing", pricing);
      assert params == upTo;
      if |tags| > 0 {
        params := params + [("tags", Join(tags, ","))];
      }
      upTo := upTo + Param(|tags| > 0, "tags", Join(tags, ","));
      assert params == upTo;
      if sort != "stars" {
        params := params + [("sort", sort)];
      }
    }

    /** The search box's debounced handler: the query is stored lower-cased. */
    method SetSearch(query: string)
      modifies this
      ensures State() == old(State()).(search := Lower(query))
    {
      search := Lower(query);
    }

    /** A tag button click. */
    method ToggleTag(tag: string)
      modifies this
      ensures State() == old(State()).(tags := Toggled(old(tags), tag))
    {
      if tag in tags {
        tags := Without(tags, tag);
      } else {
        tags := tags + [tag];
      }
    }

    /** `resetFilters`. */
    method Reset()
      modifies this
      ensures State() == Default
    {
      search, ecosystem, pricing, tags, sort := "", "", "", [], "stars";
    }
  }

  /**
   * A card is shown exactly when it passes every filter that is set, tags
   * being matched with OR; with nothing set every card is shown.
   */
  lemma MatchesAll(f: Filters, card: Card)
    ensures f.Matches(card) <==>
      SearchPasses(f.search, card) && SelectPasses(f.ecosystem, card.ecosystem) &&
      SelectPasses(f.pricing, card.pricing) && TagsPass(f.tags, card)
    ensures f.State() == Default ==> f.Matches(card)
  {
  }
}
