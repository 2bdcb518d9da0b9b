// The directory's validated records, as the generators see them, and the
// groupings the generators build from them: agents by category (sorted by
// name), boilerplates by category (most stars first, then by name) and
// boilerplate categories by ecosystem (sorted by `order`).

module Catalog {
  import opened Strings
  import opened Sorting
  import opened Grouping

  datatype Agent = Agent(
    name: string, url: string, description: string, category: string, kind: string,
    tags: seq<string>, stars: Option<int>, pricing: Option<string>)

  datatype TechComponent = TechComponent(component: string, technology: string)

  datatype Boilerplate = Boilerplate(
    name: string, url: string, description: string, category: string, kind: string,
    tags: seq<string>, stars: Option<int>, pricing: Option<string>,
    techStack: Option<seq<TechComponent>>)

  datatype Category = Category(id: string, title: string, order: int)

  datatype BoilerplateCategory = BoilerplateCategory(id: string, title: string, ecosystem: string, order: int)

  // ------------------------------------------------------------ sort keys

  /** `name.lower()`, compared the way Python compares strings. */
  function NameKey(name: string): seq<int>
  {
    StrKey(Lower(name))
  }

  /** `github_stars or 0`. */
  function StarsOrZero(stars: Option<int>): int
  {
    if stars.Some? then stars.value else 0
  }

  /** The tuple `(-(github_stars or 0), name.lower())`. */
  function StarsThenName(b: Boilerplate): seq<int>
  {
    [-StarsOrZero(b.stars)] + NameKey(b.name)
  }

  function AgentName(a: Agent): seq<int> { NameKey(a.name) }

  function AgentCategory(a: Agent): string { a.category }

  function BoilerplateCategoryOf(b: Boilerplate): string { b.category }

  function Ecosystem(c: BoilerplateCategory): string { c.ecosystem }

  /** `order` as a one-element sort key. */
  function CategoryOrder(c: BoilerplateCategory): seq<int> { [c.order] }

  /**
   * In a sequence sorted by the stars-then-name key, stars never increase,
   * and equal star counts are in name order.
   */
  lemma StarsThenNameOrder(g: seq<Boilerplate>)
    requires SortedBy(g, StarsThenName)
    ensures forall i, j :: 0 <= i < j < |g| ==>
      StarsOrZero(g[i].stars) >= StarsOrZero(g[j].stars) &&
      (StarsOrZero(g[i].stars) == StarsOrZero(g[j].stars) ==> LexLe(NameKey(g[i].name), NameKey(g[j].name)))
  {
    forall i, j | 0 <= i < j < |g|
      ensures StarsOrZero(g[i].stars) >= StarsOrZero(g[j].stars)
      ensures StarsOrZero(g[i].stars) == StarsOrZero(g[j].stars) ==> LexLe(NameKey(g[i].name), NameKey(g[j].name))
    {
      assert LexLe(StarsThenName(g[i]), StarsThenName(g[j]));
      LexLeCons(-StarsOrZero(g[i].stars), NameKey(g[i].name), -StarsOrZero(g[j].stars), NameKey(g[j].name));
    }
  }

  /** A sequence sorted by the `order` key has non-decreasing `order`. */
  lemma CategoryOrderSorted(g: seq<BoilerplateCategory>)
    requires SortedBy(g, CategoryOrder)
    ensures forall i, j :: 0 <= i < j < |g| ==> g[i].order <= g[j].order
  {
    forall i, j | 0 <= i < j < |g| ensures g[i].order <= g[j].order {
      assert LexLe(CategoryOrder(g[i]), CategoryOrder(g[j]));
      assert CategoryOrder(g[i])[1..] == [] && CategoryOrder(g[j])[1..] == [];
    }
  }

  // ------------------------------------------------------------ groupings

  /** `group_by_category` for agents: by category, each group by lower-cased name. */
  method GroupAgentsByCategory(agents: seq<Agent>) returns (order: seq<string>, groups: map<string, seq<Agent>>)
    ensures order == Order(agents, AgentCategory)
    ensures groups == SortedGroupsOf(agents, AgentCategory, AgentName)
  {
    order, groups := GroupAndSort(agents, AgentCategory, AgentName);
  }

  /** `group_by_category` for boilerplates: by category, each group most stars first, then by name. */
  method GroupBoilerplatesByCategory(boilerplates: seq<Boilerplate>)
    returns (order: seq<string>, groups: map<string, seq<Boilerplate>>)
    ensures order == Order(boilerplates, BoilerplateCategoryOf)
    ensures groups == SortedGroupsOf(boilerplates, BoilerplateCategoryOf, StarsThenName)
  {
    order, groups := GroupAndSort(boilerplates, BoilerplateCategoryOf, StarsThenName);
  }

  /** `group_by_ecosystem`: categories by ecosystem, each group by `order`. */
  method GroupCategoriesByEcosystem(categories: seq<BoilerplateCategory>)
    returns (order: seq<string>, groups: map<string, seq<BoilerplateCategory>>)
    ensures order == Order(categories, Ecosystem)
    ensures groups == SortedGroupsOf(categories, Ecosystem, CategoryOrder)
  {
    order, groups := GroupAndSort(categories, Ecosystem, CategoryOrder);
  }

  /** Each boilerplate group: the category's boilerplates, most stars first, ties by name. */
  lemma BoilerplateGroupOrder(boilerplates: seq<Boilerplate>, c: string)
    requires c in SortedGroupsOf(boilerplates, BoilerplateCategoryOf, StarsThenName)
    ensures var g := SortedGroupsOf(boilerplates, BoilerplateCategoryOf, StarsThenName)[c];
      (forall b :: b in g <==> b in boilerplates && b.category == c) &&
      forall i, j :: 0 <= i < j < |g| ==> StarsOrZero(g[i].stars) >= StarsOrZero(g[j].stars)
  {
    SortedGroup(boilerplates, BoilerplateCategoryOf, StarsThenName, c);
    StarsThenNameOrder(SortedGroupsOf(boilerplates, BoilerplateCategoryOf, StarsThenName)[c]);
  }

  /** Each ecosystem group: that ecosystem's categories in `order`. */
  lemma EcosystemGroupOrder(categories: seq<BoilerplateCategory>, e: string)
    requires e in SortedGroupsOf(categories, Ecosystem, CategoryOrder)
    ensures var g := SortedGroupsOf(categories, Ecosystem, CategoryOrder)[e];
      (forall c :: c in g <==> c in categories && c.ecosystem == e) &&
      forall i, j :: 0 <= i < j < |g| ==> g[i].order <= g[j].order
  {
    SortedGroup(categories, Ecosystem, CategoryOrder, e);
    CategoryOrderSorted(SortedGroupsOf(categories, Ecosystem, CategoryOrder)[e]);
  }

  /**
   * Listing the canonical ecosystems first: every ecosystem that has a
   * category appears exactly once, listed ecosystems ahead of unlisted ones.
   */
  lemma CanonicalEcosystemOrder(canonical: seq<string>, categories: seq<BoilerplateCategory>)
    requires NoDuplicates(canonical)
    ensures var r := CanonicalFirst(canonical, Order(categories, Ecosystem));
      NoDuplicates(r) &&
      (forall e :: e in r <==> exists c <- categories :: c.ecosystem == e) &&
      forall i, j :: 0 <= i < |r| && 0 <= j < |r| && r[i] in canonical && r[j] !in canonical ==> i < j
  {
    var seen := Order(categories, Ecosystem);
    CanonicalFirstPermutes(canonical, seen);
    var r := CanonicalFirst(canonical, seen);
    forall e ensures e in r <==> exists c <- categories :: c.ecosystem == e {
      KeysOfMembers(categories, Ecosystem, e);
      assert e in r <==> e in Elems(r);
      assert e in seen <==> e in Elems(seen);
      assert e in KeysOf(categories, Ecosystem) <==> e in Elems(KeysOf(categories, Ecosystem));
    }
  }
}
