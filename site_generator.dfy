// The data shaping of the static-site generator: the ecosystem ordering of
// the boilerplate index, the client-side search index, the sitemap's URL
// list and the per-type counts of the stats file.  Page rendering is not
// part of this model.

module SiteGenerator {
  import opened Strings
  import opened Sorting
  import opened Grouping
  import opened Catalog

  // ----------------------------------------------------------- ecosystems

  /** The display order of the boilerplate index page. */
  const SiteEcosystems: seq<string> :=
    ["JavaScript/TypeScript", "Python", "Ruby", "PHP", "Go", "Rust", ".NET", "Elixir", "Mobile"]

  lemma SiteEcosystemsDistinct()
    ensures NoDuplicates(SiteEcosystems)
  {
    var e := SiteEcosystems;
    assert e[1][1] != e[3][1] && e[2][2] != e[5][2];
  }

  /**
   * `group_boilerplates_by_ecosystem`: the categories grouped by ecosystem,
   * each group by `order`; the ecosystems of the display list first, in
   * that order, then the others in the order they were first seen.
   */
  method GroupBoilerplatesByEcosystem(categories: seq<BoilerplateCategory>)
    returns (ordered: seq<string>, groups: map<string, seq<BoilerplateCategory>>)
    ensures ordered == CanonicalFirst(SiteEcosystems, Order(categories, Ecosystem))
    ensures groups == SortedGroupsOf(categories, Ecosystem, CategoryOrder)
  {
    var seen;
    seen, groups := GroupCategoriesByEcosystem(categories);
    ordered := OrderCanonically(SiteEcosystems, seen);
  }

  // --------------------------------------------------------- search index

  /** One record of `search-index.json`; agents have no tech stack and no boilerplate flag. */
  datatype SearchEntry = SearchEntry(
    name: string, url: string, description: string, category: string, categoryTitle: string,
    kind: string, tags: seq<string>, stars: Option<int>, pricing: Option<string>,
    techStack: Option<seq<string>>, isBoilerplate: bool)

  /** `{cat.id: cat.title for cat in categories}`: a later category wins an id. */
  function TitlesOf(ids: seq<string>, titles: seq<string>): (r: map<string, string>)
    requires |ids| == |titles|
    ensures forall id :: id in r <==> id in ids
  {
    if ids == [] then map[]
    else
      var n := |ids| - 1;
      TitlesOf(ids[..n], titles[..n])[ids[n] := titles[n]]
  }

  /** The title kept for an id is the one of its last occurrence. */
  lemma {:induction false} TitlesOfLast(ids: seq<string>, titles: seq<string>, i: nat)
    requires |ids| == |titles| && i < |ids|
    requires forall j :: i < j < |ids| ==> ids[j] != ids[i]
    ensures TitlesOf(ids, titles)[ids[i]] == titles[i]
  {
    var n := |ids| - 1;
    if i < n {
      TitlesOfLast(ids[..n], titles[..n], i);
    }
  }

  function CategoryIds(categories: seq<Category>): (r: seq<string>)
    ensures |r| == |categories| && forall i :: 0 <= i < |r| ==> r[i] == categories[i].id
  {
    seq(|categories|, i requires 0 <= i < |categories| => categories[i].id)
  }

  function CategoryTitles(categories: seq<Category>): (r: seq<string>)
    ensures |r| == |categories| && forall i :: 0 <= i < |r| ==> r[i] == categories[i].title
  {
    seq(|categories|, i requires 0 <= i < |categories| => categories[i].title)
  }

  /** `category_titles.get(category, category)`. */
  function CategoryTitle(titles: map<string, string>, category: string): string
  {
    if category in titles then titles[category] else category
  }

  /** The title shown for a category: the last category with that id, or the raw id. */
  lemma CategoryTitleLookup(categories: seq<Category>, category: string)
    ensures (forall c <- categories :: c.id != category) ==>
      CategoryTitle(TitlesOf(CategoryIds(categories), CategoryTitles(categories)), category) == category
    ensures forall i :: LastWithId(categories, i, category) ==>
      CategoryTitle(TitlesOf(CategoryIds(categories), CategoryTitles(categories)), category) == categories[i].title
  {
    var ids := CategoryIds(categories);
    if forall c <- categories :: c.id != category {
      assert category !in ids;
    }
    forall i | LastWithId(categories, i, category)
      ensures CategoryTitle(TitlesOf(ids, CategoryTitles(categories)), category) == categories[i].title
    {
      TitlesOfLast(ids, CategoryTitles(categories), i);
    }
  }

  /** `categories[i]` is the last category with this id. */
  predicate LastWithId(categories: seq<Category>, i: int, id: string)
  {
    0 <= i < |categories| && categories[i].id == id &&
    forall j :: i < j < |categories| ==> categories[j].id != id
  }

  function AgentSearchEntry(a: Agent, titles: map<string, string>): SearchEntry
  {
    SearchEntry(a.name, a.url, a.description, a.category, CategoryTitle(titles, a.category),
      a.kind, a.tags, a.stars, a.pricing, None, false)
  }

  /** `create_search_index`: one record per agent, in input order. */
  method CreateSearchIndex(agents: seq<Agent>, categories: seq<Category>) returns (index: seq<SearchEntry>)
    ensures |index| == |agents|
    ensures forall i :: 0 <= i < |agents| ==>
      index[i] == AgentSearchEntry(agents[i], TitlesOf(CategoryIds(categories), CategoryTitles(categories)))
  {
    var titles := TitlesOf(CategoryIds(categories), CategoryTitles(categories));
    index := [];
    for i := 0 to |agents|
      invariant |index| == i
      invariant forall j :: 0 <= j < i ==> index[j] == AgentSearchEntry(agents[j], titles)
    {
      index := index + [AgentSearchEntry(agents[i], titles)];
    }
  }

  /** `[t.technology for t in technical_stack[:5]]`, or [] without a stack. */
  function TechSummary(stack: Option<seq<TechComponent>>): (r: seq<string>)
    ensures stack.None? ==> r == []
    ensures stack.Some? ==> |r| == if |stack.value| < 5 then |stack.value| else 5
    ensures stack.Some? ==> forall i :: 0 <= i < |r| ==> r[i] == stack.value[i].technology
  {
    if stack.None? || stack.value == [] then []
    else
      var first := if |stack.value| < 5 then stack.value else stack.value[..5];
      seq(|first|, i requires 0 <= i < |first| => first[i].technology)
  }

  function BoilerplateTitles(categories: seq<BoilerplateCategory>): map<string, string>
  {
    TitlesOf(seq(|categories|, i requires 0 <= i < |categories| => categories[i].id),
             seq(|categories|, i requires 0 <= i < |categories| => categories[i].title))
  }

  function BoilerplateSearchEntry(b: Boilerplate, titles: map<string, string>): SearchEntry
  {
    SearchEntry(b.name, b.url, b.description, b.category, CategoryTitle(titles, b.category),
      b.kind, b.tags, b.stars, b.pricing, Some(TechSummary(b.techStack)), true)
  }

  /** `create_boilerplate_search_index`: one record per boilerplate, in input order. */
  method CreateBoilerplateSearchIndex(boilerplates: seq<Boilerplate>, categories: seq<BoilerplateCategory>)
    returns (index: seq<SearchEntry>)
    ensures |index| == |boilerplates|
    ensures forall i :: 0 <= i < |boilerplates| ==>
      index[i] == BoilerplateSearchEntry(boilerplates[i], BoilerplateTitles(categories))
  {
    var titles := BoilerplateTitles(categories);
    index := [];
    for i := 0 to |boilerplates|
      invariant |index| == i
      invariant forall j :: 0 <= j < i ==> index[j] == BoilerplateSearchEntry(boilerplates[j], titles)
    {
      index := index + [BoilerplateSearchEntry(boilerplates[i], titles)];
    }
  }

  /**
   * The combined index: the agents' records, then the boilerplates'; only
   * the latter are flagged and carry at most five technologies.
   */
  method CombinedSearchIndex(agents: seq<Agent>, categories: seq<Category>,
                             boilerplates: seq<Boilerplate>, bpCategories: seq<BoilerplateCategory>)
    returns (index: seq<SearchEntry>)
    ensures |index| == |agents| + |boilerplates|
    ensures forall i :: 0 <= i < |agents| ==> !index[i].isBoilerplate && index[i].name == agents[i].name
    ensures forall i :: |agents| <= i < |index| ==>
      index[i].isBoilerplate && index[i].name == boilerplates[i - |agents|].name &&
      index[i].techStack.Some? && |index[i].techStack.value| <= 5
  {
    var agentIndex := CreateSearchIndex(agents, categories);
    var boilerplateIndex := CreateBoilerplateSearchIndex(boilerplates, bpCategories);
    index := agentIndex + boilerplateIndex;
  }

  // -------------------------------------------------------------- sitemap

  /** One `<url>` block of the sitemap. */
  function UrlBlock(loc: string, today: string, priority: string): (r: seq<string>)
    ensures |r| == 6 && r[0] == "  <url>"
  {
    ["  <url>",
     "    <loc>" + loc + "</loc>",
     "    <lastmod>" + today + "</lastmod>",
     "    <changefreq>weekly</changefreq>",
     "    <priority>" + priority + "</priority>",
     "  </url>"]
  }

  function CategoryBlocks(base: string, categories: seq<Category>, today: string): seq<string>
  {
    if categories == [] then []
    else
      var n := |categories| - 1;
      CategoryBlocks(base, categories[..n], today) + UrlBlock(base + "/categories/" + categories[n].id + ".html", today, "0.8")
  }

  function BoilerplateCategoryBlocks(base: string, categories: seq<BoilerplateCategory>, today: string): seq<string>
  {
    if categories == [] then []
    else
      var n := |categories| - 1;
      BoilerplateCategoryBlocks(base, categories[..n], today) +
      UrlBlock(base + "/boilerplates/" + categories[n].id + "/index.html", today, "0.7")
  }

  const SitemapHeader: seq<string> := [
    "<?xml version=\"1.0\" encoding=\"UTF-8\"?>",
    "<urlset xmlns=\"http://www.sitemaps.org/schemas/sitemap/0.9\">"]

  /** The sitemap's lines: home page, agent categories, boilerplate index, boilerplate categories. */
  function SitemapLines(siteUrl: string, categories: seq<Category>, bpCategories: seq<BoilerplateCategory>, today: string): seq<string>
  {
    var base := RStripChar(siteUrl, '/');
    SitemapHeader + UrlBlock(base + "/", today, "1.0") + CategoryBlocks(base, categories, today) +
    UrlBlock(base + "/boilerplates/index.html", today, "0.9") + BoilerplateCategoryBlocks(base, bpCategories, today) +
    ["</urlset>"]
  }

  /** `generate_sitemap`, building the line list by appending; `today` is the caller's date. */
  method GenerateSitemap(siteUrl: string, categories: seq<Category>, bpCategories: seq<BoilerplateCategory>, today: string)
    returns (lines: seq<string>)
    ensures lines == SitemapLines(siteUrl, categories, bpCategories, today)
  {
    var base := RStripChar(siteUrl, '/');
    lines := SitemapHeader + UrlBlock(base + "/", today, "1.0");
    ghost var front := lines;
    for i := 0 to |categories|
      invariant lines == front + CategoryBlocks(base, categories[..i], today)
    {
      assert categories[..i + 1][..i] == categories[..i];
      lines := lines + UrlBlock(base + "/categories/" + categories[i].id + ".html", today, "0.8");
    }
    assert categories[..|categories|] == categories;
    lines := lines + UrlBlock(base + "/boilerplates/index.html", today, "0.9");
    front := lines;
    for i := 0 to |bpCategories|
      invariant lines == front + BoilerplateCategoryBlocks(base, bpCategories[..i], today)
    {
      assert bpCategories[..i + 1][..i] == bpCategories[..i];
      lines := lines + UrlBlock(base + "/boilerplates/" + bpCategories[i].id + "/index.html", today, "0.7");
    }
    assert bpCategories[..|bpCategories|] == bpCategories;
    lines := lines + ["</urlset>"];
  }

  /** How many lines of `lines` are exactly `line`. */
  function CountLine(lines: seq<string>, line: string): nat
  {
    if lines == [] then 0
    else CountLine(lines[..|lines| - 1], line) + if lines[|lines| - 1] == line then 1 else 0
  }

  lemma {:induction false} CountLineConcat(a: seq<string>, b: seq<string>, line: string)
    ensures CountLine(a + b, line) == CountLine(a, line) + CountLine(b, line)
  {
    if b == [] {
      assert a + b == a;
    } else {
      var n := |b| - 1;
      CountLineConcat(a, b[..n], line);
      assert (a + b)[..|a + b| - 1] == a + b[..n];
    }
  }

  lemma UrlBlockOpensOnce(loc: string, today: string, priority: string)
    ensures CountLine(UrlBlock(loc, today, priority), "  <url>") == 1
  {
    var b := UrlBlock(loc, today, priority);
    var u := "  <url>";
    assert CountLine(b[..1], u) == 1 by { assert b[..1][..0] == []; }
    assert CountLine(b[..2], u) == 1 by { assert b[..2][..1] == b[..1]; assert |b[1]| > 7; }
    assert CountLine(b[..3], u) == 1 by { assert b[..3][..2] == b[..2]; assert |b[2]| > 7; }
    assert CountLine(b[..4], u) == 1 by { assert b[..4][..3] == b[..3]; assert |b[3]| > 7; }
    assert CountLine(b[..5], u) == 1 by { assert b[..5][..4] == b[..4]; assert |b[4]| > 7; }
    assert b[..6] == b && b[..5] == b[..|b| - 1] && |b[5]| > 7;
  }

  lemma {:induction false} CategoryBlocksCount(base: string, categories: seq<Category>, today: string)
    ensures CountLine(CategoryBlocks(base, categories, today), "  <url>") == |categories|
  {
    if categories != [] {
      var n := |categories| - 1;
      CategoryBlocksCount(base, categories[..n], today);
      var loc := base + "/categories/" + categories[n].id + ".html";
      CountLineConcat(CategoryBlocks(base, categories[..n], today), UrlBlock(loc, today, "0.8"), "  <url>");
      UrlBlockOpensOnce(loc, today, "0.8");
    }
  }

  lemma {:induction false} BoilerplateCategoryBlocksCount(base: string, categories: seq<BoilerplateCategory>, today: string)
    ensures CountLine(BoilerplateCategoryBlocks(base, categories, today), "  <url>") == |categories|
  {
    if categories != [] {
      var n := |categories| - 1;
      BoilerplateCategoryBlocksCount(base, categories[..n], today);
      var loc := base + "/boilerplates/" + categories[n].id + "/index.html";
      CountLineConcat(BoilerplateCategoryBlocks(base, categories[..n], today), UrlBlock(loc, today, "0.7"), "  <url>");
      UrlBlockOpensOnce(loc, today, "0.7");
    }
  }

  /** The sitemap lists 1 + |categories| + 1 + |boilerplate categories| pages. */
  lemma SitemapUrlCount(siteUrl: string, categories: seq<Category>, bpCategories: seq<BoilerplateCategory>, today: string)
    ensures CountLine(SitemapLines(siteUrl, categories, bpCategories, today), "  <url>") == 2 + |categories| + |bpCategories|
  {
    var base := RStripChar(siteUrl, '/');
    var h, a, b, c, d, e := SitemapHeader, UrlBlock(base + "/", today, "1.0"), CategoryBlocks(base, categories, today),
      UrlBlock(base + "/boilerplates/index.html", today, "0.9"), BoilerplateCategoryBlocks(base, bpCategories, today), ["</urlset>"];
    CountLineConcat(h, a, "  <url>");
    CountLineConcat(h + a, b, "  <url>");
    CountLineConcat(h + a + b, c, "  <url>");
    CountLineConcat(h + a + b + c, d, "  <url>");
    CountLineConcat(h + a + b + c + d, e, "  <url>");
    UrlBlockOpensOnce(base + "/", today, "1.0");
    UrlBlockOpensOnce(base + "/boilerplates/index.html", today, "0.9");
    CategoryBlocksCount(base, categories, today);
    BoilerplateCategoryBlocksCount(base, bpCategories, today);
    assert h[..1] == [h[0]];
    assert |h[0]| != 7 && |h[1]| != 7 && e[0] != "  <url>";
  }

  /** Every page address starts with the site URL, whatever trailing slashes it was given. */
  lemma SitemapBaseUnslashed(siteUrl: string)
    ensures var base := RStripChar(siteUrl, '/');
      (base == [] || base[|base| - 1] != '/') && IsPrefix(base, siteUrl)
  {
  }

  // ---------------------------------------------------------------- stats

  function AgentType(a: Agent): string { a.kind }

  /** The `agents_by_type` counters after counting `agents`. */
  function TypeCounts(agents: seq<Agent>): map<string, nat>
  {
    if agents == [] then map[]
    else
      var counts := TypeCounts(agents[..|agents| - 1]);
      var t := agents[|agents| - 1].kind;
      counts[t := (if t in counts then counts[t] else 0) + 1]
  }

  /** `for agent in agents: stats["agents_by_type"][agent.type] = ... get(agent.type, 0) + 1`. */
  method CountAgentsByType(agents: seq<Agent>) returns (counts: map<string, nat>)
    ensures counts == TypeCounts(agents)
  {
    counts := map[];
    for i := 0 to |agents|
      invariant counts == TypeCounts(agents[..i])
    {
      assert agents[..i + 1][..i] == agents[..i];
      var t := agents[i].kind;
      counts := counts[t := (if t in counts then counts[t] else 0) + 1];
    }
    assert agents[..|agents|] == agents;
  }

  /** Each type's counter is the number of agents of that type; only present types have one. */
  lemma {:induction false} TypeCountsExact(agents: seq<Agent>, t: string)
    ensures t in TypeCounts(agents) <==> t in KeysOf(agents, AgentType)
    ensures t in TypeCounts(agents) ==> TypeCounts(agents)[t] == |Members(agents, AgentType, t)|
    ensures t !in TypeCounts(agents) ==> Members(agents, AgentType, t) == []
  {
    if agents != [] {
      TypeCountsExact(agents[..|agents| - 1], t);
    }
  }

  /** The counters of `keys`, added up. */
  function SumCounts(keys: seq<string>, counts: map<string, nat>): nat
  {
    if keys == [] then 0
    else SumCounts(keys[..|keys| - 1], counts) + (if keys[|keys| - 1] in counts then counts[keys[|keys| - 1]] else 0)
  }

  lemma {:induction false} SumCountsGather(keys: seq<string>, agents: seq<Agent>)
    ensures SumCounts(keys, TypeCounts(agents)) == |Gather(keys, agents, AgentType)|
  {
    if keys != [] {
      SumCountsGather(keys[..|keys| - 1], agents);
      TypeCountsExact(agents, keys[|keys| - 1]);
    }
  }

  /** The per-type counts add up to the number of agents. */
  lemma TypeCountsTotal(agents: seq<Agent>)
    ensures SumCounts(Order(agents, AgentType), TypeCounts(agents)) == |agents|
  {
    SumCountsGather(Order(agents, AgentType), agents);
    GroupSizes(agents, AgentType);
  }

  /** `{cat.id: len(groups.get(cat.id, [])) for cat in categories}`. */
  function CategoryCounts<T>(ids: seq<string>, groups: map<string, seq<T>>): (r: map<string, nat>)
    ensures forall id :: id in r <==> id in ids
  {
    map id | id in ids :: if id in groups then |groups[id]| else 0
  }

  /** `agents_by_category` counts every agent of the category, and nothing else. */
  lemma AgentsByCategory(agents: seq<Agent>, ids: seq<string>, id: string)
    requires id in ids
    ensures CategoryCounts(ids, SortedGroupsOf(agents, AgentCategory, AgentName))[id] == |Members(agents, AgentCategory, id)|
  {
    SortedGroup(agents, AgentCategory, AgentName, id);
    GroupsOfExact(agents, AgentCategory, id);
    var groups := SortedGroupsOf(agents, AgentCategory, AgentName);
    if id in groups {
      assert |multiset(groups[id])| == |multiset(Members(agents, AgentCategory, id))|;
    }
  }
}
