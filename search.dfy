// The home page's global search over the generated search index: every
// entry is scored against the query, entries with a positive score are
// ranked by score and the first ten are shown.

module Search {
  import opened Strings
  import opened Sorting

  /** One record of `search-index.json`; absent fields are `None`. */
  datatype IndexEntry = IndexEntry(
    name: string, description: string, tags: Option<seq<string>>,
    category: Option<string>, kind: Option<string>)

  /** `{ ...entry, score }`. */
  datatype Hit = Hit(entry: IndexEntry, score: int)

  const MaxResults := 10
  const MaxScore := 170

  /** A string field that is present and not empty, as JavaScript's `&&` tests it. */
  predicate FieldMatches(field: Option<string>, term: string)
  {
    field.Some? && field.value != "" && Contains(Lower(field.value), term)
  }

  predicate TagMatches(tags: Option<seq<string>>, term: string)
  {
    tags.Some? && exists tag <- tags.value :: Contains(Lower(tag), term)
  }

  /** The score of one entry for a lower-cased, trimmed search term. */
  function Score(e: IndexEntry, term: string): (score: int)
    ensures 0 <= score <= MaxScore && score % 10 == 0
  {
    (if Lower(e.name) == term then 100 else if Contains(Lower(e.name), term) then 50 else 0)
    + (if Contains(Lower(e.description), term) then 20 else 0)
    + (if TagMatches(e.tags, term) then 30 else 0)
    + (if FieldMatches(e.category, term) then 10 else 0)
    + (if FieldMatches(e.kind, term) then 10 else 0)
  }

  /**
   * An entry scores when the term occurs in its name, description, a tag,
   * its category or its type, and an exact name scores more than any
   * entry whose name only contains the term, all else being equal.
   */
  lemma ScorePositive(e: IndexEntry, term: string)
    ensures Score(e, term) > 0 <==>
      Contains(Lower(e.name), term) || Contains(Lower(e.description), term) ||
      TagMatches(e.tags, term) || FieldMatches(e.category, term) || FieldMatches(e.kind, term)
    ensures Lower(e.name) == term ==> Score(e, term) >= 100
  {
    if Lower(e.name) == term {
      ContainsPrefix(Lower(e.name), term);
    }
  }

  /** The hits of `index`, in index order, before ranking. */
  function Hits(index: seq<IndexEntry>, term: string): (r: seq<Hit>)
    ensures forall h <- r :: h.entry in index && h.score == Score(h.entry, term) && h.score > 0
    ensures forall e <- index :: Score(e, term) > 0 ==> Hit(e, Score(e, term)) in r
  {
    if index == [] then []
    else
      var init := Hits(index[..|index| - 1], term);
      var e := index[|index| - 1];
      assert forall x <- index :: x in index[..|index| - 1] || x == e;
      if Score(e, term) > 0 then init + [Hit(e, Score(e, term))] else init
  }

  /** The ranking key: higher scores first. */
  function ByScore(h: Hit): seq<int> { [-h.score] }

  /** The hits, highest score first, ties in index order (`Array.prototype.sort` is stable). */
  function Ranked(index: seq<IndexEntry>, term: string): seq<Hit>
  {
    SortByKey(Hits(index, term), ByScore)
  }

  /** `slice(0, 10)`. */
  function Top(ranked: seq<Hit>): (r: seq<Hit>)
    ensures |r| <= MaxResults && |r| <= |ranked| && r == ranked[..|r|]
    ensures |ranked| <= MaxResults ==> r == ranked
  {
    if |ranked| <= MaxResults then ranked else ranked[..MaxResults]
  }

  /**
   * The entries shown for a query: none for a missing index or a query
   * under two characters once trimmed (an empty query among them).
   */
  function Results(index: Option<seq<IndexEntry>>, query: Option<string>): seq<Hit>
  {
    if index.None? || index.value == [] then []
    else if query.None? || |Strip(query.value)| < 2 then []
    else Top(Ranked(index.value, Strip(Lower(query.value))))
  }

  /** `performSearch`. */
  method PerformSearch(index: Option<seq<IndexEntry>>, query: Option<string>) returns (results: seq<Hit>)
    ensures results == Results(index, query)
    ensures |results| <= MaxResults
    ensures (index.None? || index.value == [] || query.None? || |Strip(query.value)| < 2) ==> results == []
    ensures forall h <- results ::
      h.entry in index.value && h.score > 0 && h.score == Score(h.entry, Strip(Lower(query.value)))
    ensures forall i, j :: 0 <= i < j < |results| ==> results[i].score >= results[j].score
  {
    if index.None? || index.value == [] {
      return [];
    }
    if query.None? || |Strip(query.value)| < 2 {
      return [];
    }
    var term := Strip(Lower(query.value));
    var hits := CollectHits(index.value, term);
    results := Top(SortByKey(hits, ByScore));
    RankedFacts(index.value, term);
  }

  /** The `forEach` over the index: every entry with a positive score is kept, in order. */
  method CollectHits(index: seq<IndexEntry>, term: string) returns (hits: seq<Hit>)
    ensures hits == Hits(index, term)
  {
    hits := [];
    for i := 0 to |index|
      invariant hits == Hits(index[..i], term)
    {
      var e := index[i];
      assert index[..i + 1][..i] == index[..i];
      var score := ScoreEntry(e, term);
      if score > 0 {
        hits := hits + [Hit(e, score)];
      }
    }
    assert index[..|index|] == index;
  }

  /** The `forEach` callback's running score for one entry. */
  method ScoreEntry(e: IndexEntry, term: string) returns (score: int)
    ensures score == Score(e, term)
  {
    score := 0;
    if Lower(e.name) == term {
      score := score + 100;
    } else if Contains(Lower(e.name), term) {
      score := score + 50;
    }
    if Contains(Lower(e.description), term) {
      score := score + 20;
    }
    if TagMatches(e.tags, term) {
      score := score + 30;
    }
    if FieldMatches(e.category, term) {
      score := score + 10;
    }
    if FieldMatches(e.kind, term) {
      score := score + 10;
    }
  }

  /** Ranked hits are hits, in order of non-increasing score. */
  lemma RankedFacts(index: seq<IndexEntry>, term: string)
    ensures forall h <- Ranked(index, term) :: h.entry in index && h.score > 0 && h.score == Score(h.entry, term)
    ensures var ranked := Ranked(index, term);
      forall i, j :: 0 <= i < j < |ranked| ==> ranked[i].score >= ranked[j].score
  {
    var hits := Hits(index, term);
    var ranked := Ranked(index, term);
    SortByKeySorted(hits, ByScore);
    forall h <- ranked ensures h in hits {
      assert h in multiset(ranked);
    }
    forall i, j | 0 <= i < j < |ranked| ensures ranked[i].score >= ranked[j].score {
      assert LexLe(ByScore(ranked[i]), ByScore(ranked[j]));
    }
  }

  /**
   * When at most ten entries score, every one of them is shown; otherwise
   * each entry that is left out scores no more than the last one shown.
   */
  lemma ResultsComplete(index: seq<IndexEntry>, query: string, e: IndexEntry)
    requires index != [] && |Strip(query)| >= 2
    requires e in index && Score(e, Strip(Lower(query))) > 0
    ensures var r := Results(Some(index), Some(query));
      var h := Hit(e, Score(e, Strip(Lower(query))));
      h in r || (|r| == MaxResults && r[MaxResults - 1].score >= h.score)
  {
    var term := Strip(Lower(query));
    var ranked := Ranked(index, term);
    var h := Hit(e, Score(e, term));
    HitRanked(index, term, e);
    var k :| 0 <= k < |ranked| && ranked[k] == h;
    RankedFacts(index, term);
    TopKeepsBest(ranked, k);
    ResultsOf(index, query);
  }

  lemma ResultsOf(index: seq<IndexEntry>, query: string)
    requires index != [] && |Strip(query)| >= 2
    ensures Results(Some(index), Some(query)) == Top(Ranked(index, Strip(Lower(query))))
  {
  }

  /** Every entry that scores is among the ranked hits. */
  lemma HitRanked(index: seq<IndexEntry>, term: string, e: IndexEntry)
    requires e in index && Score(e, term) > 0
    ensures Hit(e, Score(e, term)) in Ranked(index, term)
  {
    var hits := Hits(index, term);
    assert Hit(e, Score(e, term)) in multiset(hits);
    assert Hit(e, Score(e, term)) in multiset(Ranked(index, term));
  }

  /** In hits ranked by score, the first ten hold every hit or outscore the ones cut off. */
  lemma TopKeepsBest(ranked: seq<Hit>, k: int)
    requires 0 <= k < |ranked|
    requires forall i, j :: 0 <= i < j < |ranked| ==> ranked[i].score >= ranked[j].score
    ensures var r := Top(ranked);
      ranked[k] in r || (|r| == MaxResults && r[MaxResults - 1].score >= ranked[k].score)
  {
    var r := Top(ranked);
    if k < |r| {
      assert r[k] == ranked[k];
    } else {
      assert |r| == MaxResults && r[MaxResults - 1] == ranked[MaxResults - 1];
    }
  }
}
