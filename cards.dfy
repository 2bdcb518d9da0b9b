// What the category and boilerplate pages share: a card's `data-*`
// attributes, the free-text and tag tests on a card, the active tag list a
// tag button toggles, and the ordering of the visible cards.

module Cards {
  import opened Strings
  import opened Sorting

  /** A card's `data-*` attributes; a missing attribute is `None`. */
  datatype Card = Card(
    name: Option<string>, description: Option<string>, kind: Option<string>,
    ecosystem: Option<string>, pricing: Option<string>, tags: Option<string>,
    stars: Option<string>, date: Option<string>)

  function OrEmpty(a: Option<string>): string
  {
    if a.Some? then a.value else ""
  }

  /** `` `${name} ${description}`.toLowerCase() `` with missing attributes read as `''`. */
  function SearchText(card: Card): string
  {
    Lower(OrEmpty(card.name) + " " + OrEmpty(card.description))
  }

  /** The search test, applied only when the search is set. */
  predicate SearchPasses(search: string, card: Card)
  {
    search == "" || Contains(SearchText(card), search)
  }

  /** An exact-match select filter, applied only when it is set. */
  predicate SelectPasses(filter: string, attribute: Option<string>)
  {
    filter == "" || attribute == Some(filter)
  }

  /** `card.dataset.tags ? card.dataset.tags.split(',') : []`. */
  function CardTags(card: Card): seq<string>
  {
    if card.tags.None? || card.tags.value == "" then [] else SplitOn(card.tags.value, ',')
  }

  /** The tag test: with tags active, at least one of them is among the card's tags. */
  predicate TagsPass(active: seq<string>, card: Card)
  {
    active == [] || exists t <- active :: t in CardTags(card)
  }

  /**
   * For a card whose non-empty tag attribute joins comma-free tags, the
   * tag test passes exactly when no tag is active or an active tag is one
   * of them.
   */
  lemma TagsPassJoined(active: seq<string>, card: Card, tags: seq<string>)
    requires tags != [] && forall t <- tags :: ',' !in t
    requires card.tags == Some(Join(tags, ",")) && Join(tags, ",") != ""
    ensures TagsPass(active, card) <==> active == [] || exists t <- active :: t in tags
  {
    SplitJoin(tags, ',');
  }

  // ------------------------------------------------------------- tags

  /** `tags.filter(t => t !== tag)`. */
  function Without(tags: seq<string>, tag: string): (r: seq<string>)
    ensures tag !in r && |r| <= |tags|
    ensures forall t :: t in r <==> t in tags && t != tag
  {
    if tags == [] then []
    else
      var init := Without(tags[..|tags| - 1], tag);
      var last := tags[|tags| - 1];
      assert forall t :: t in tags <==> t in tags[..|tags| - 1] || t == last;
      if last == tag then init else init + [last]
  }

  /** A tag button click: an active tag is removed (every copy), another is appended. */
  function Toggled(tags: seq<string>, tag: string): seq<string>
  {
    if tag in tags then Without(tags, tag) else tags + [tag]
  }

  /** A click flips whether the tag is active and leaves the other tags as they were. */
  lemma ToggledFlips(tags: seq<string>, tag: string)
    ensures tag in Toggled(tags, tag) <==> tag !in tags
    ensures forall t :: t != tag ==> (t in Toggled(tags, tag) <==> t in tags)
  {
  }

  /** Removing a tag that is not there changes nothing. */
  lemma {:induction false} WithoutAbsent(tags: seq<string>, tag: string)
    requires tag !in tags
    ensures Without(tags, tag) == tags
  {
    if tags != [] {
      WithoutAbsent(tags[..|tags| - 1], tag);
      assert tags[..|tags| - 1] + [tags[|tags| - 1]] == tags;
    }
  }

  /** Clicking an inactive tag twice restores the active list. */
  lemma ToggledTwice(tags: seq<string>, tag: string)
    requires tag !in tags
    ensures Toggled(Toggled(tags, tag), tag) == tags
  {
    var added := tags + [tag];
    assert added[..|added| - 1] == tags;
    WithoutAbsent(tags, tag);
  }

  // ------------------------------------------------------------ sorting

  /**
   * `parseInt(s) || 0`: optional leading whitespace and sign, then the
   * leading digits; no digits (`NaN`) counts as 0.
   */
  function ParseIntOrZero(s: Option<string>): int
  {
    if s.None? then 0
    else
      var t := LStrip(s.value);
      var neg := t != [] && t[0] == '-';
      var body := if t != [] && (t[0] == '-' || t[0] == '+') then t[1..] else t;
      var n: int := ParseDigits(LeadingDigits(body));
      if neg then -n else n
  }

  /** The longest run of digits `s` starts with. */
  function LeadingDigits(s: string): (r: string)
    ensures IsPrefix(r, s) && forall i :: 0 <= i < |r| ==> IsDigit(r[i])
    ensures |r| == |s| || !IsDigit(s[|r|])
  {
    if s == [] || !IsDigit(s[0]) then [] else [s[0]] + LeadingDigits(s[1..])
  }

  /** The stars comparator `starsB - starsA` as a sort key: most stars first. */
  function StarsKey(card: Card): seq<int> { [-ParseIntOrZero(card.stars)] }

  /**
   * `nameA.localeCompare(nameB)` on `name || ''`, taken here as code-point
   * order.
   */
  function NameKey(card: Card): seq<int> { StrKey(OrEmpty(card.name)) }

  /** `dateB.localeCompare(dateA)`: newest first, code-point order reversed. */
  function DateKey(card: Card): seq<int>
  {
    var k := StrKey(OrEmpty(card.date));
    seq(|k|, i requires 0 <= i < |k| => -k[i]) + [1]
  }

  /** `sortCards`: a stable sort by the chosen key; any other key keeps the order. */
  function SortCards(sort: string, cards: seq<Card>): seq<Card>
  {
    if sort == "name" then SortByKey(cards, NameKey)
    else if sort == "stars" then SortByKey(cards, StarsKey)
    else if sort == "date" then SortByKey(cards, DateKey)
    else cards
  }

  /**
   * Sorting only reorders the cards; by stars, the counts never increase
   * and cards with equal counts keep their order.
   */
  lemma SortCardsFacts(sort: string, cards: seq<Card>)
    ensures multiset(SortCards(sort, cards)) == multiset(cards)
    ensures sort !in ["name", "stars", "date"] ==> SortCards(sort, cards) == cards
    ensures sort == "stars" ==>
      var r := SortCards(sort, cards);
      (forall i, j :: 0 <= i < j < |r| ==> ParseIntOrZero(r[i].stars) >= ParseIntOrZero(r[j].stars)) &&
      forall k :: Keep(r, StarsKey, k) == Keep(cards, StarsKey, k)
  {
    if sort == "stars" {
      var r := SortCards(sort, cards);
      SortByKeySorted(cards, StarsKey);
      forall i, j | 0 <= i < j < |r| ensures ParseIntOrZero(r[i].stars) >= ParseIntOrZero(r[j].stars) {
        assert LexLe(StarsKey(r[i]), StarsKey(r[j]));
      }
      forall k ensures Keep(r, StarsKey, k) == Keep(cards, StarsKey, k) {
        SortByKeyStable(cards, StarsKey, k);
      }
    }
  }

  /** A count written in decimal reads back as itself. */
  lemma ParseIntOrZeroOf(n: nat)
    ensures ParseIntOrZero(Some(NatToString(n))) == n
  {
    var s := NatToString(n);
    assert LStrip(s) == s;
    LeadingDigitsAll(s);
    ParseNatToString(n);
  }

  lemma {:induction false} LeadingDigitsAll(s: string)
    requires forall i :: 0 <= i < |s| ==> IsDigit(s[i])
    ensures LeadingDigits(s) == s
  {
    if s != [] {
      LeadingDigitsAll(s[1..]);
    }
  }
}
