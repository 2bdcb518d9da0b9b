// The category page's filter state, `activeFilters`: a free-text search,
// exact type and pricing selections, a list of active tags and a sort key.
// Event handlers update it in place; each card is then checked against it.

module CategoryPage {
  import opened Strings
  import opened Cards

  class Filters {
    var search: string
    var kind: string
    var pricing: string
    var tags: seq<string>
    var sort: string

    /** The state the page starts from. */
    constructor ()
      ensures search == "" && kind == "" && pricing == "" && tags == [] && sort == "name"
    {
      search, kind, pricing, tags, sort := "", "", "", [], "name";
    }

    /** `cardMatchesFilters`: the tests in the page's order, the first failing one deciding. */
    predicate Matches(card: Card)
      reads this
    {
      if search != "" && !Contains(SearchText(card), search) then false
      else if kind != "" && card.kind != Some(kind) then false
      else if pricing != "" && card.pricing != Some(pricing) then false
      else if |tags| > 0 && !(exists t <- tags :: t in CardTags(card)) then false
      else true
    }

    /** The search box's debounced handler: the query is stored lower-cased. */
    method SetSearch(query: string)
      modifies this
      ensures search == Lower(query)
      ensures kind == old(kind) && pricing == old(pricing) && tags == old(tags) && sort == old(sort)
    {
      search := Lower(query);
    }

    /** A tag button click. */
    method ToggleTag(tag: string)
      modifies this
      ensures tags == Toggled(old(tags), tag)
      ensures search == old(search) && kind == old(kind) && pricing == old(pricing) && sort == old(sort)
    {
      if tag in tags {
        tags := Without(tags, tag);
      } else {
        tags := tags + [tag];
      }
    }

    /** `resetFilters`: back to the starting state. */
    method Reset()
      modifies this
      ensures search == "" && kind == "" && pricing == "" && tags == [] && sort == "name"
    {
      search, kind, pricing, tags, sort := "", "", "", [], "name";
    }
  }

  /**
   * A card is shown exactly when it passes every filter that is set, tags
   * being matched with OR; with nothing set every card is shown.
   */
  lemma MatchesAll(f: Filters, card: Card)
    ensures f.Matches(card) <==>
      SearchPasses(f.search, card) && SelectPasses(f.kind, card.kind) &&
      SelectPasses(f.pricing, card.pricing) && TagsPass(f.tags, card)
    ensures f.search == "" && f.kind == "" && f.pricing == "" && f.tags == [] ==> f.Matches(card)
  {
  }
}
