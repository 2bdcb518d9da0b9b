// The query helpers shared by the category and boilerplate pages:
// normalising a query, cutting it into tokens and matching a text against
// the tokens.  `null` and `undefined` arguments are `None`.

module FilterUtils {
  import opened Strings

  /** `(query || '').toLowerCase().trim()`. */
  function NormalizeQuery(query: Option<string>): (r: string)
    ensures forall i :: 0 <= i < |r| ==> !IsUpper(r[i])
    ensures r == [] || (!IsSpace(r[0]) && !IsSpace(r[|r| - 1]))
    ensures query.None? ==> r == ""
    ensures query.Some? ==> exists i, j :: TrimmedAt(r, Lower(query.value), i, j)
  {
    var q := if query.Some? then query.value else "";
    var r := Strip(Lower(q));
    StripTrims(Lower(q));
    r
  }

  /**
   * The normalised query is the lower-cased query with exactly its
   * surrounding whitespace cut off: any slice that drops only whitespace and
   * leaves none at either end is it.
   */
  lemma NormalizeQueryExact(query: string, t: string, i: int, j: int)
    requires TrimmedAt(t, Lower(query), i, j)
    requires t == [] || (!IsSpace(t[0]) && !IsSpace(t[|t| - 1]))
    ensures NormalizeQuery(Some(query)) == t
  {
    StripUnique(Lower(query), t, i, j);
  }

  /** Every character of `Strip(s)` is a character of `s`. */
  lemma StripKeeps(s: string)
    ensures forall i :: 0 <= i < |Strip(s)| ==> Strip(s)[i] in s
  {
    var l := LStrip(s);
    forall i | 0 <= i < |Strip(s)| ensures Strip(s)[i] in s {
      assert Strip(s)[i] == l[i];
      assert l[i] == s[|s| - |l| + i];
    }
  }

  /** The first index from which `s` no longer starts with a separator. */
  function SkipRun(s: string, sep: char -> bool): (k: nat)
    ensures k <= |s| && (k == |s| || !sep(s[k]))
    ensures forall i :: 0 <= i < k ==> sep(s[i])
  {
    if s == [] || !sep(s[0]) then 0 else 1 + SkipRun(s[1..], sep)
  }

  /**
   * `s.split(re)` for a regular expression `[c]+` matching runs of
   * separator characters: every maximal run splits once, so a leading or
   * trailing run gives an empty piece.
   */
  function SplitRuns(s: string, sep: char -> bool): (r: seq<string>)
    ensures |r| >= 1 && IsPrefix(r[0], s)
    ensures forall p <- r :: RunOf(p, s, sep)
    ensures Join(r, "") == Kept(s, sep)
    decreases |s|
  {
    if s == [] then [""]
    else if sep(s[0]) then
      var k := SkipRun(s, sep);
      var t := SplitRuns(s[k..], sep);
      RunsWiden(t, s, k, sep);
      KeptSkip(s, k, sep);
      [""] + t
    else
      var t := SplitRuns(s[1..], sep);
      var first := [s[0]] + t[0];
      assert Join([first] + t[1..], "") == [s[0]] + Join(t, "") by {
        if |t| > 1 {
          assert ([first] + t[1..])[1..] == t[1..];
        }
      }
      assert IsPrefix(first, s) by {
        assert s == [s[0]] + s[1..];
      }
      RunsWiden(t, s, 1, sep);
      assert RunOf(first, s, sep) by {
        assert t[0] in t;
        assert RunOf(t[0], s, sep);
        forall i | 0 <= i < |first| ensures !sep(first[i]) && first[i] in s {
          if i > 0 { assert first[i] == t[0][i - 1]; }
        }
      }
      [first] + t[1..]
  }

  /** The characters of `s` that are not separators, in order. */
  function Kept(s: string, sep: char -> bool): string
  {
    if s == [] then [] else (if sep(s[0]) then [] else [s[0]]) + Kept(s[1..], sep)
  }

  /** A leading run of separators keeps nothing. */
  lemma {:induction false} KeptSkip(s: string, k: nat, sep: char -> bool)
    requires k <= |s| && forall i :: 0 <= i < k ==> sep(s[i])
    ensures Kept(s, sep) == Kept(s[k..], sep)
    decreases k
  {
    if k > 0 {
      assert s[1..][k - 1..] == s[k..];
      KeptSkip(s[1..], k - 1, sep);
    }
  }

  /** A run of non-separator characters, each taken from `s`. */
  predicate RunOf(p: string, s: string, sep: char -> bool)
  {
    forall i :: 0 <= i < |p| ==> !sep(p[i]) && p[i] in s
  }

  lemma RunsWiden(t: seq<string>, s: string, k: nat, sep: char -> bool)
    requires k <= |s| && forall p <- t :: RunOf(p, s[k..], sep)
    ensures forall p <- t :: RunOf(p, s, sep)
  {
    forall p <- t ensures RunOf(p, s, sep) {
      forall i | 0 <= i < |p| ensures p[i] in s {
        assert p[i] in s[k..];
      }
    }
  }

  /** Any prefix of a piece of `s` occurs in `s`. */
  lemma {:induction false} SplitRunsPieceIn(s: string, sep: char -> bool, p: string, t: string)
    requires p in SplitRuns(s, sep) && IsPrefix(t, p)
    ensures Contains(s, t)
    decreases |s|
  {
    var r := SplitRuns(s, sep);
    if s == [] {
      assert t == [];
      ContainsPrefix(s, t);
    } else if sep(s[0]) {
      var k := SkipRun(s, sep);
      if p == [] {
        assert t == [];
        ContainsPrefix(s, t);
      } else {
        assert p in SplitRuns(s[k..], sep);
        SplitRunsPieceIn(s[k..], sep, p, t);
        ContainsSuffix(s, k, t);
      }
    } else if p == r[0] {
      assert IsPrefix(t, s);
      ContainsPrefix(s, t);
    } else {
      var u := SplitRuns(s[1..], sep);
      assert p in u[1..];
      SplitRunsPieceIn(s[1..], sep, p, t);
    }
  }

  /** Text found in a suffix of `s` is found in `s`. */
  lemma {:induction false} ContainsSuffix(s: string, k: nat, t: string)
    requires k <= |s| && Contains(s[k..], t)
    ensures Contains(s, t)
    decreases k
  {
    if k > 0 {
      assert s[1..][k - 1..] == s[k..];
      ContainsSuffix(s[1..], k - 1, t);
    }
  }

  /** Keeps the pieces of at least two characters, in order (`filter(token => token.length >= 2)`). */
  function LongPieces(pieces: seq<string>): (r: seq<string>)
    ensures forall t <- r :: t in pieces && |t| >= 2
    ensures forall p <- pieces :: |p| >= 2 ==> p in r
  {
    if pieces == [] then []
    else
      var init := LongPieces(pieces[..|pieces| - 1]);
      var last := pieces[|pieces| - 1];
      assert forall p <- pieces :: p in pieces[..|pieces| - 1] || p == last;
      if |last| >= 2 then init + [last] else init
  }

  /** `tokenize`: the whitespace-separated pieces of the normalised query of two or more characters. */
  function Tokenize(query: Option<string>): seq<string>
  {
    LongPieces(SplitRuns(NormalizeQuery(query), IsSpace))
  }

  /** Tokens are lower case, at least two characters long and free of whitespace. */
  lemma TokensShape(query: Option<string>)
    ensures forall t <- Tokenize(query) ::
      |t| >= 2 && forall i :: 0 <= i < |t| ==> !IsSpace(t[i]) && !IsUpper(t[i])
  {
    var q := NormalizeQuery(query);
    forall t <- Tokenize(query) ensures forall i :: 0 <= i < |t| ==> !IsUpper(t[i]) {
      forall i | 0 <= i < |t| ensures !IsUpper(t[i]) {
        var j :| 0 <= j < |q| && q[j] == t[i];
      }
    }
  }

  /** Filtering keeps order: the tokens of a concatenation are the tokens of each part, in turn. */
  lemma {:induction false} LongPiecesAppend(a: seq<string>, b: seq<string>)
    ensures LongPieces(a + b) == LongPieces(a) + LongPieces(b)
    decreases |b|
  {
    if b == [] {
      assert a + b == a;
    } else {
      var b' := b[..|b| - 1];
      assert (a + b)[..|a + b| - 1] == a + b';
      LongPiecesAppend(a, b');
    }
  }

  predicate NotLowerAlnum(c: char) { !IsLowerAlnum(c) }

  /** `textMatchesTokens`. */
  function TextMatchesTokens(text: Option<string>, tokens: Option<seq<string>>): bool
  {
    if tokens.None? || tokens.value == [] then true
    else
      var lower := Lower(if text.Some? then text.value else "");
      if lower == [] then false
      else
        var words := SplitRuns(lower, NotLowerAlnum);
        forall t <- tokens.value :: Contains(lower, t) || exists w <- words :: IsPrefix(t, w)
  }

  /**
   * The word-prefix alternative adds nothing: the text matches exactly when
   * there are no tokens, or the text is non-empty and contains every token.
   */
  lemma TextMatchesTokensContains(text: Option<string>, tokens: Option<seq<string>>)
    ensures TextMatchesTokens(text, tokens) <==>
      tokens.None? || tokens.value == [] ||
      (var lower := Lower(if text.Some? then text.value else "");
       lower != [] && forall t <- tokens.value :: Contains(lower, t))
  {
    if tokens.Some? && tokens.value != [] {
      var lower := Lower(if text.Some? then text.value else "");
      if lower != [] {
        var words := SplitRuns(lower, NotLowerAlnum);
        forall t <- tokens.value | exists w <- words :: IsPrefix(t, w) ensures Contains(lower, t) {
          var w :| w in words && IsPrefix(t, w);
          SplitRunsPieceIn(lower, NotLowerAlnum, w, t);
        }
      }
    }
  }
}
