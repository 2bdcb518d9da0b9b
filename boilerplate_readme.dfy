// The helpers behind BOILERPLATES.md: star counts, heading anchors,
// shortened descriptions and the order in which ecosystems are listed.
// The groupings themselves are the ones of the Catalog module.

module BoilerplateReadme {
  import opened Strings
  import opened Sorting
  import opened Grouping
  import opened Slugs
  import opened Catalog

  // --------------------------------------------------------------- stars

  /** `format_stars` below one thousand; the `K` notation is float formatting. */
  function FormatStars(count: Option<int>): string
    requires count.None? || count.value < 1000
  {
    if count.None? then "-" else IntToString(count.value)
  }

  /** A missing count shows as a dash; a count reads back from its at most three digits. */
  lemma FormatStarsReadsBack(count: Option<int>)
    requires count.None? || count.value < 1000
    ensures count.None? ==> FormatStars(count) == "-"
    ensures count.Some? && 0 <= count.value ==>
      (forall i :: 0 <= i < |FormatStars(count)| ==> IsDigit(FormatStars(count)[i])) &&
      ParseDigits(FormatStars(count)) == count.value && |FormatStars(count)| <= 3
  {
    if count.Some? && 0 <= count.value {
      var n: nat := count.value;
      ParseNatToString(n);
      NatToStringShort(n, 3);
    }
  }

  lemma {:induction false} NatToStringShort(n: nat, width: nat)
    requires n < 10 || (width >= 1 && n < 10 * Power10(width - 1))
    ensures |NatToString(n)| <= if width == 0 then 1 else width
    decreases width
  {
    if n >= 10 {
      var m := n / 10;
      assert m < Power10(width - 1);
      if width >= 2 {
        NatToStringShort(m, width - 1);
      }
    }
  }

  function Power10(k: nat): nat
  {
    if k == 0 then 1 else 10 * Power10(k - 1)
  }

  // --------------------------------------------------------------- slugs

  /** `re.sub(r"[^a-z0-9\-]", "", s)`. */
  function KeepSlugChars(s: string): (r: string)
    ensures |r| <= |s| && AllSlugChars(r)
    ensures AllSlugChars(s) ==> r == s
    ensures |s| == 1 ==> r == if IsSlugChar(s[0]) then s else []
  {
    if s == [] then []
    else (if IsSlugChar(s[0]) then [s[0]] else []) + KeepSlugChars(s[1..])
  }

  /**
   * The filter works character by character: together with the one-character
   * cases above, every slug character is kept and in order.
   */
  lemma {:induction false} KeepSlugCharsAppend(a: string, b: string)
    ensures KeepSlugChars(a + b) == KeepSlugChars(a) + KeepSlugChars(b)
  {
    if a != [] {
      assert (a + b)[0] == a[0] && (a + b)[1..] == a[1..] + b;
      KeepSlugCharsAppend(a[1..], b);
    } else {
      assert a + b == b;
    }
  }

  /** `slugify`: the GitHub-style anchor of a heading. */
  function Slugify(text: string): string
  {
    FinishSlug(KeepSlugChars(ReplaceChar(Lower(text), ' ', '-')))
  }

  lemma SlugifyIsSlug(text: string)
    ensures IsSlug(Slugify(text))
  {
    FinishSlugIsSlug(KeepSlugChars(ReplaceChar(Lower(text), ' ', '-')));
  }

  /** A slug is its own anchor, so slugifying twice changes nothing. */
  lemma SlugifyOfSlug(s: string)
    requires IsSlug(s)
    ensures Slugify(s) == s
  {
    assert Lower(s) == s;
    assert ReplaceChar(s, ' ', '-') == s;
    FinishSlugOfSlug(s);
  }

  lemma SlugifyIdempotent(text: string)
    ensures Slugify(Slugify(text)) == Slugify(text)
  {
    SlugifyIsSlug(text);
    SlugifyOfSlug(Slugify(text));
  }

  // -------------------------------------------------------- descriptions

  const DefaultDescriptionLength := 150

  /** `" ".join(text.split())`. */
  function CollapseSpaces(text: string): string
  {
    Join(Words(text), " ")
  }

  /** Python's `s[:n]`, a negative `n` counting from the end. */
  function PyPrefix(s: string, n: int): (r: string)
    ensures IsPrefix(r, s)
    ensures 0 <= n <= |s| ==> |r| == n
  {
    if n >= 0 then (if n <= |s| then s[..n] else s)
    else if -n <= |s| then s[..|s| + n] else []
  }

  function LastSpace(s: string): (r: int)
    ensures -1 <= r < |s|
    ensures r >= 0 ==> s[r] == ' '
    ensures forall i :: r < i < |s| ==> s[i] != ' '
  {
    if s == [] then -1
    else if s[|s| - 1] == ' ' then |s| - 1
    else LastSpace(s[..|s| - 1])
  }

  /** `s.rsplit(" ", 1)[0]`: everything before the last space. */
  function BeforeLastSpace(s: string): (r: string)
    ensures IsPrefix(r, s)
    ensures r == s || (|r| < |s| && s[|r|] == ' ')
    ensures r == s <==> ' ' !in s
    ensures forall i :: |r| < i < |s| ==> s[i] != ' '
  {
    var k := LastSpace(s);
    if k < 0 then s else s[..k]
  }

  /** `truncate_description`. */
  function TruncateDescription(text: string, maxLength: int): string
  {
    if text == [] then []
    else
      var t := CollapseSpaces(text);
      if |t| <= maxLength then t else BeforeLastSpace(PyPrefix(t, maxLength - 3)) + "..."
  }

  /** Text within the limit comes back with its whitespace collapsed and the same words. */
  lemma TruncateDescriptionShort(text: string, maxLength: int)
    requires text != [] && |CollapseSpaces(text)| <= maxLength
    ensures TruncateDescription(text, maxLength) == CollapseSpaces(text)
    ensures Words(TruncateDescription(text, maxLength)) == Words(text)
  {
    WordsAreWords(text);
    WordsOfJoin(Words(text));
  }

  /**
   * Longer text is cut at a space (or at `maxLength - 3` when there is
   * none), keeps a prefix of the collapsed text and ends with `...`; the
   * result is within the limit once that is at least 3.
   */
  lemma TruncateDescriptionLong(text: string, maxLength: int)
    requires text != [] && |CollapseSpaces(text)| > maxLength
    ensures var r := TruncateDescription(text, maxLength);
      var t := CollapseSpaces(text);
      IsSuffix("...", r) && IsPrefix(r[..|r| - 3], t) &&
      (|r| - 3 == |PyPrefix(t, maxLength - 3)| || t[|r| - 3] == ' ') &&
      (maxLength >= 3 ==> |r| <= maxLength)
  {
    var t := CollapseSpaces(text);
    var cut := PyPrefix(t, maxLength - 3);
    var body := BeforeLastSpace(cut);
    var r := body + "...";
    assert r[..|r| - 3] == body;
    assert IsPrefix(body, cut) && IsPrefix(cut, t);
  }

  /** Collapsed text has single spaces between words and none at either end. */
  lemma CollapseSpacesIdempotent(text: string)
    ensures CollapseSpaces(CollapseSpaces(text)) == CollapseSpaces(text)
  {
    WordsAreWords(text);
    WordsOfJoin(Words(text));
  }

  // ---------------------------------------------------------- ecosystems

  /** `get_ecosystem_order`. */
  const ReadmeEcosystems: seq<string> :=
    ["JavaScript/TypeScript", "Python", "PHP", "Ruby", "Go", "Rust", ".NET", "Elixir", "Mobile", "Specialized"]

  lemma ReadmeEcosystemsDistinct()
    ensures NoDuplicates(ReadmeEcosystems)
  {
    var e := ReadmeEcosystems;
    assert e[1][0] != e[7][0] && e[1][0] != e[8][0] && e[7][0] != e[8][0];
    assert e[3][0] != e[6][0] && e[5][0] != e[6][0] && e[3][2] != e[5][2];
  }

  /**
   * The categories grouped by ecosystem (each by `order`) and the ecosystems
   * in listing order: the known ones in the fixed order, then the rest as
   * first met.
   */
  method OrderedEcosystems(categories: seq<BoilerplateCategory>)
    returns (ecosystems: seq<string>, byEcosystem: map<string, seq<BoilerplateCategory>>)
    ensures ecosystems == CanonicalFirst(ReadmeEcosystems, Order(categories, Ecosystem))
    ensures byEcosystem == SortedGroupsOf(categories, Ecosystem, CategoryOrder)
  {
    var seen;
    seen, byEcosystem := GroupCategoriesByEcosystem(categories);
    ecosystems := OrderCanonically(ReadmeEcosystems, seen);
  }
}
