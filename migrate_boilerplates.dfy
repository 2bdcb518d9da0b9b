// The helpers of the one-off migration from the boilerplate markdown
// document to YAML records: file-name slugs, ASCII clean-up, repository
// extraction, scalar quoting, block wrapping, tag generation and the
// duplicate-URL bookkeeping of the entry parser.

module MigrateBoilerplates {
  import opened Strings
  import opened Sorting
  import opened Slugs
  import opened YamlValue

  // ----------------------------------------------------------------- slugs

  /** `re.sub(r"[+/&]", "-", s)`. */
  function HyphenateSeparators(s: string): (r: string)
    ensures |r| == |s|
    ensures forall i :: 0 <= i < |s| ==> r[i] == if s[i] in "+/&" then '-' else s[i]
  {
    seq(|s|, i requires 0 <= i < |s| => if s[i] in "+/&" then '-' else s[i])
  }

  /** The index of the first `c` in `s`, or -1. */
  function IndexOfChar(s: string, c: char): (r: int)
    ensures -1 <= r < |s|
    ensures r >= 0 ==> s[r] == c && forall i :: 0 <= i < r ==> s[i] != c
    ensures r < 0 ==> c !in s
  {
    if s == [] then -1
    else if s[0] == c then 0
    else var k := IndexOfChar(s[1..], c); if k < 0 then -1 else k + 1
  }

  /**
   * `re.sub(r"\(([^)]+)\)", r"-\1", s)`: scanning left to right, an opening
   * parenthesis whose first closing one is not right after it becomes a
   * hyphen, and that closing one is dropped.
   */
  function OpenParentheses(s: string): (r: string)
    decreases |s|
  {
    if s == [] then []
    else
      var j := IndexOfChar(s, ')');
      if s[0] == '(' && j >= 2 then "-" + s[1..j] + OpenParentheses(s[j + 1..])
      else [s[0]] + OpenParentheses(s[1..])
  }

  /**
   * The first group: text before the first "(" is kept, the group
   * "(" b ")" (b non-empty, without ")") becomes "-" b, and the scan goes on
   * after it.
   */
  lemma OpenParenthesesGroup(a: string, b: string, c: string)
    requires '(' !in a && b != [] && ')' !in b
    ensures OpenParentheses(a + "(" + b + ")" + c) == a + "-" + b + OpenParentheses(c)
  {
    var g := "(" + b + ")" + c;
    calc {
      OpenParentheses(a + "(" + b + ")" + c);
      { assert a + "(" + b + ")" + c == a + g; }
      OpenParentheses(a + g);
      { OpenParenthesesPrefix(a, g); }
      a + OpenParentheses(g);
      { OpenParenthesesAtGroup(b, c); }
      a + ("-" + b + OpenParentheses(c));
    }
  }

  /** Text without "(" in front of the scan is copied unchanged. */
  lemma {:induction false} OpenParenthesesPrefix(a: string, t: string)
    requires '(' !in a
    ensures OpenParentheses(a + t) == a + OpenParentheses(t)
    decreases |a|
  {
    if a != [] {
      var x, u := a[0], a[1..];
      assert x != '(' && '(' !in u by { assert x in a; assert forall i :: 0 <= i < |u| ==> u[i] == a[i + 1]; }
      var w := [x] + (u + t);
      calc {
        OpenParentheses(a + t);
        { assert a + t == w; }
        OpenParentheses(w);
        { assert w[0] == x && w[1..] == u + t; OpenParenthesesStep(w); }
        [x] + OpenParentheses(u + t);
        { OpenParenthesesPrefix(u, t); }
        [x] + (u + OpenParentheses(t));
        { assert a == [x] + u; }
        a + OpenParentheses(t);
      }
    } else {
      assert a + t == t;
    }
  }

  /** A character other than "(" is copied and the scan moves on. */
  lemma OpenParenthesesStep(s: string)
    requires s != [] && s[0] != '('
    ensures OpenParentheses(s) == [s[0]] + OpenParentheses(s[1..])
  {
  }

  lemma OpenParenthesesAtGroup(b: string, c: string)
    requires b != [] && ')' !in b
    ensures OpenParentheses("(" + b + ")" + c) == "-" + b + OpenParentheses(c)
  {
    var s := "(" + b + ")" + c;
    var j := |b| + 1;
    assert s[0] == '(' && s[j] == ')';
    forall i | 0 <= i < j ensures s[i] != ')' {
      if i > 0 { assert s[i] == b[i - 1]; }
    }
    IndexOfCharAt(s, ')', j);
    assert s[1..j] == b && s[j + 1..] == c;
  }

  /** `IndexOfChar` finds the first occurrence. */
  lemma IndexOfCharAt(s: string, c: char, j: nat)
    requires j < |s| && s[j] == c && forall i :: 0 <= i < j ==> s[i] != c
    ensures IndexOfChar(s, c) == j
  {
  }

  /** Without an opening parenthesis nothing is rewritten. */
  lemma {:induction false} OpenParenthesesPlain(s: string)
    requires '(' !in s
    ensures OpenParentheses(s) == s
    decreases |s|
  {
    if s != [] {
      assert s[0] != '(' && '(' !in s[1..] by {
        assert s[0] in s;
        assert forall i :: 0 <= i < |s[1..]| ==> s[1..][i] == s[i + 1];
      }
      OpenParenthesesPlain(s[1..]);
      OpenParenthesesStep(s);
      assert s == [s[0]] + s[1..];
    }
  }

  /** Without a closing parenthesis nothing is rewritten. */
  lemma {:induction false} OpenParenthesesUnclosed(s: string)
    requires ')' !in s
    ensures OpenParentheses(s) == s
    decreases |s|
  {
    if s != [] {
      assert IndexOfChar(s, ')') < 0;
      assert ')' !in s[1..] by {
        forall i | 0 <= i < |s[1..]| ensures s[1..][i] != ')' {
          assert s[1..][i] == s[i + 1];
        }
      }
      OpenParenthesesUnclosed(s[1..]);
      assert s == [s[0]] + s[1..];
    }
  }

  /** `re.sub(r"[^a-z0-9-]", "-", s)`. */
  function HyphenateOthers(s: string): (r: string)
    ensures |r| == |s| && AllSlugChars(r)
    ensures forall i :: 0 <= i < |s| ==> IsSlugChar(s[i]) ==> r[i] == s[i]
  {
    seq(|s|, i requires 0 <= i < |s| => if IsSlugChar(s[i]) then s[i] else '-')
  }

  /** `slugify`: the file name of a migrated entry. */
  function Slugify(text: string): string
  {
    FinishSlug(HyphenateOthers(OpenParentheses(HyphenateSeparators(Lower(text)))))
  }

  lemma SlugifyIsSlug(text: string)
    ensures IsSlug(Slugify(text))
  {
    FinishSlugIsSlug(HyphenateOthers(OpenParentheses(HyphenateSeparators(Lower(text)))));
  }

  /** A slug is its own file name. */
  lemma SlugifyOfSlug(s: string)
    requires IsSlug(s)
    ensures Slugify(s) == s
  {
    assert Lower(s) == s;
    assert HyphenateSeparators(s) == s;
    assert '(' !in s;
    OpenParenthesesPlain(s);
    assert HyphenateOthers(s) == s;
    FinishSlugOfSlug(s);
  }

  /** A parenthesised word is joined by one hyphen, not surrounded by two. */
  lemma SlugifyParentheses()
    ensures Slugify("a(b)c") == "a-bc"
  {
    var s := "a(b)c";
    assert HyphenateSeparators(Lower(s)) == s by {
      assert Lower(s) == s;
    }
    OpenParenthesesExample();
    assert HyphenateOthers("a-bc") == "a-bc" && IsSlug("a-bc") by {
      ExampleSlug();
    }
    FinishSlugOfSlug("a-bc");
  }

  lemma ExampleSlug()
    ensures IsSlug("a-bc")
  {
  }

  lemma OpenParenthesesExample()
    ensures OpenParentheses("a(b)c") == "a-bc"
  {
    var s, t := "a(b)c", "(b)c";
    assert s[0] == 'a' && s[1..] == t;
    assert t[0] == '(' && t[1..2] == "b" && t[3..] == "c";
    assert t[2] == ')' && t[1] != ')' && t[0] != ')';
    assert IndexOfChar(t, ')') == 2;
    assert "c"[1..] == "";
    assert OpenParentheses("c") == "c";
    assert OpenParentheses(t) == "-" + "b" + "c";
  }

  /**
   * As written, a dot becomes a hyphen (it is neither a separator nor a slug
   * character), so `next.js` gives `next-js`, where the function's own
   * documented examples turn `Next.js` into `nextjs`.
   */
  lemma SlugifyDotBecomesHyphen()
    ensures Slugify("next.js") == "next-js"
  {
    var s, h := "next.js", "next-js";
    calc {
      Slugify(s);
      FinishSlug(HyphenateOthers(OpenParentheses(HyphenateSeparators(Lower(s)))));
      { NextJsSteps(); }
      FinishSlug(HyphenateOthers(OpenParentheses(s)));
      { NextJsSteps(); OpenParenthesesPlain(s); }
      FinishSlug(HyphenateOthers(s));
      { NextJsSteps(); }
      FinishSlug(h);
      { NextJsIsSlug(); FinishSlugOfSlug(h); }
      h;
    }
  }

  lemma NextJsSteps()
    ensures Lower("next.js") == "next.js" && HyphenateSeparators("next.js") == "next.js"
    ensures '(' !in "next.js" && HyphenateOthers("next.js") == "next-js"
  {
  }

  lemma NextJsIsSlug()
    ensures IsSlug("next-js")
  {
    assert AllSlugChars("next-js");
  }

  /** The input with every `.` removed. */
  function DropDots(s: string): (r: string)
    ensures |r| <= |s|
  {
    if s == [] then []
    else (if s[0] == '.' then [] else [s[0]]) + DropDots(s[1..])
  }

  /** No dot is left, and a text without dots is kept as it is. */
  lemma {:induction false} DropDotsNone(s: string)
    ensures '.' !in DropDots(s)
    ensures '.' !in s ==> DropDots(s) == s
    decreases |s|
  {
    if s != [] {
      DropDotsNone(s[1..]);
      assert s == [s[0]] + s[1..];
    }
  }

  /** `slugify` as its documented examples describe it: dots vanish instead of splitting words. */
  function SlugifyDotless(text: string): (r: string)
    ensures IsSlug(r)
    ensures '.' !in text ==> r == Slugify(text)
  {
    DropDotsNone(text);
    SlugifyIsSlug(DropDots(text));
    Slugify(DropDots(text))
  }

  lemma {:induction false} DropDotsAppend(a: string, b: string)
    ensures DropDots(a + b) == DropDots(a) + DropDots(b)
    decreases |a|
  {
    if a == [] {
      assert a + b == b;
    } else {
      assert (a + b)[0] == a[0] && (a + b)[1..] == a[1..] + b;
      DropDotsAppend(a[1..], b);
    }
  }

  /** In the corrected slug a dot joins the words around it. */
  lemma {:induction false} SlugifyDotlessJoins(a: string, b: string)
    requires '.' !in a && '.' !in b
    ensures SlugifyDotless(a + "." + b) == Slugify(a + b)
  {
    DropDotsJoin(a, b);
  }

  lemma {:induction false} DropDotsJoin(a: string, b: string)
    requires '.' !in a && '.' !in b
    ensures DropDots(a + "." + b) == a + b
  {
    var d := ".";
    calc {
      DropDots(a + d + b);
      { DropDotsAppend(a + d, b); }
      DropDots(a + d) + DropDots(b);
      { DropDotsAppend(a, d); }
      DropDots(a) + DropDots(d) + DropDots(b);
      { DropDotsNone(a); DropDotsNone(b); }
      a + DropDots(d) + b;
      { assert DropDots(d) == [] by { assert d[0] == '.' && d[1..] == []; } }
      a + b;
    }
  }

  /** The corrected slug of `next.js` is the documented `nextjs`. */
  lemma SlugifyDotlessExample()
    ensures SlugifyDotless("next.js") == "nextjs"
  {
    calc {
      SlugifyDotless("next.js");
      { assert "next.js" == "next" + "." + "js"; }
      SlugifyDotless("next" + "." + "js");
      { assert '.' !in "next" && '.' !in "js"; SlugifyDotlessJoins("next", "js"); }
      Slugify("next" + "js");
      { assert "next" + "js" == "nextjs"; }
      Slugify("nextjs");
      { NextjsIsSlug(); SlugifyOfSlug("nextjs"); }
      "nextjs";
    }
  }

  lemma NextjsIsSlug()
    ensures IsSlug("nextjs")
  {
    assert AllSlugChars("nextjs");
  }

  // ------------------------------------------------------- ASCII clean-up

  /** The typographic characters `sanitize_ascii` spells out in ASCII, in its order. */
  const Replacements: seq<(char, string)> := [
    ('\U{2018}', "'"), ('\U{2019}', "'"), ('\U{201C}', "\""), ('\U{201D}', "\""),
    ('\U{2013}', "-"), ('\U{2014}', "--"), ('\U{2026}', "..."), ('\U{A0}', " "),
    ('\U{2022}', "-"), ('\U{B7}', "-")]

  predicate IsAscii(c: char) { c as int < 128 }

  /** `s.replace(c, rep)`. */
  function ReplaceAll(s: string, c: char, rep: string): (r: string)
    ensures c !in s ==> r == s
    ensures forall i :: 0 <= i < |r| ==> r[i] in rep || (r[i] in s && r[i] != c)
  {
    if s == [] then []
    else (if s[0] == c then rep else [s[0]]) + ReplaceAll(s[1..], c, rep)
  }

  /** The replacements applied one after another. */
  function ApplyReplacements(s: string, reps: seq<(char, string)>): string
  {
    if reps == [] then s
    else
      var n := |reps| - 1;
      ReplaceAll(ApplyReplacements(s, reps[..n]), reps[n].0, reps[n].1)
  }

  /** `"".join(c if ord(c) < 128 else "" for c in s)`. */
  function DropNonAscii(s: string): (r: string)
    ensures forall i :: 0 <= i < |r| ==> IsAscii(r[i])
    ensures (forall i :: 0 <= i < |s| ==> IsAscii(s[i])) ==> r == s
  {
    if s == [] then [] else (if IsAscii(s[0]) then [s[0]] else []) + DropNonAscii(s[1..])
  }

  function Sanitized(text: string): string
  {
    if text == [] then [] else DropNonAscii(ApplyReplacements(text, Replacements))
  }

  /** `sanitize_ascii`: the replacements in turn, then every non-ASCII character dropped. */
  method SanitizeAscii(text: string) returns (r: string)
    ensures r == Sanitized(text)
  {
    if text == [] {
      return [];
    }
    var t := text;
    for i := 0 to |Replacements|
      invariant t == ApplyReplacements(text, Replacements[..i])
    {
      assert Replacements[..i + 1][..i] == Replacements[..i];
      t := ReplaceAll(t, Replacements[i].0, Replacements[i].1);
    }
    assert Replacements[..|Replacements|] == Replacements;
    r := DropNonAscii(t);
  }

  lemma SanitizedIsAscii(text: string)
    ensures forall i :: 0 <= i < |Sanitized(text)| ==> IsAscii(Sanitized(text)[i])
  {
  }

  lemma {:induction false} ApplyReplacementsNone(s: string, reps: seq<(char, string)>)
    requires forall k :: 0 <= k < |reps| ==> reps[k].0 !in s
    ensures ApplyReplacements(s, reps) == s
  {
    if reps != [] {
      ApplyReplacementsNone(s, reps[..|reps| - 1]);
    }
  }

  /** Plain ASCII text comes back unchanged. */
  lemma SanitizedKeepsAscii(text: string)
    requires forall i :: 0 <= i < |text| ==> IsAscii(text[i])
    ensures Sanitized(text) == text
  {
    forall k | 0 <= k < |Replacements| ensures Replacements[k].0 !in text {
      assert !IsAscii(Replacements[k].0);
    }
    ApplyReplacementsNone(text, Replacements);
  }

  // ------------------------------------------------------ repository slug

  const GithubPrefix := "github.com/"

  /** The leading run of characters other than `/`. */
  function TakeSegment(s: string): (r: string)
    ensures |r| <= |s| && r == s[..|r|]
    ensures '/' !in r
    ensures |r| == |s| || s[|r|] == '/'
  {
    if s == [] || s[0] == '/' then [] else [s[0]] + TakeSegment(s[1..])
  }

  /** `owner/repo`: one slash with something on each side. */
  predicate IsOwnerRepo(r: string)
  {
    '/' in r && r[0] != '/' && r[|r| - 1] != '/' &&
    forall i, j :: 0 <= i < j < |r| && r[i] == '/' ==> r[j] != '/'
  }

  lemma OwnerRepoShape(owner: string, repo: string)
    requires owner != [] && repo != [] && '/' !in owner && '/' !in repo
    ensures IsOwnerRepo(owner + "/" + repo)
  {
    var r := owner + "/" + repo;
    forall i | 0 <= i < |r| ensures r[i] == '/' <==> i == |owner| {
      if i < |owner| {
        assert r[i] == owner[i] && owner[i] in owner;
      } else if i > |owner| {
        assert r[i] == repo[i - |owner| - 1] && repo[i - |owner| - 1] in repo;
      }
    }
  }

  /** `github\.com/([^/]+/[^/]+)` matched at the start of `s`: its group. */
  function RepoAt(s: string): (r: Option<string>)
    ensures r.Some? ==> IsOwnerRepo(r.value) && IsPrefix(GithubPrefix, s)
  {
    if !IsPrefix(GithubPrefix, s) then None
    else
      var rest := s[|GithubPrefix|..];
      var owner := TakeSegment(rest);
      if owner == [] || |owner| == |rest| then None
      else
        var repo := TakeSegment(rest[|owner| + 1..]);
        if repo == [] then None
        else
          OwnerRepoShape(owner, repo);
          Some(owner + "/" + repo)
  }

  /** The leftmost match, as `re.search` finds it. */
  function SearchRepo(s: string): (r: Option<string>)
    ensures r.Some? ==> IsOwnerRepo(r.value) && Contains(s, GithubPrefix)
  {
    if s == [] then None
    else if RepoAt(s).Some? then (ContainsPrefix(s, GithubPrefix); RepoAt(s))
    else SearchRepo(s[1..])
  }

  /** `extract_github_repo`. */
  function ExtractGithubRepo(url: string): Option<string>
  {
    if url == [] then None
    else
      var m := SearchRepo(url);
      if m.None? then None else Some(RStripChar(m.value, '/'))
  }

  /** Only a URL naming a GitHub repository gives one, and it is always `owner/repo`. */
  lemma ExtractGithubRepoShape(url: string)
    ensures url == [] ==> ExtractGithubRepo(url).None?
    ensures !Contains(url, GithubPrefix) ==> ExtractGithubRepo(url).None?
    ensures ExtractGithubRepo(url).Some? ==> IsOwnerRepo(ExtractGithubRepo(url).value)
  {
    var m := SearchRepo(url);
    if url != [] && m.Some? {
      assert RStripChar(m.value, '/') == m.value;
    }
  }

  /** A repository page's URL gives back its `owner/repo`. */
  lemma ExtractGithubRepoOfPage(owner: string, repo: string)
    requires owner != [] && repo != [] && '/' !in owner && '/' !in repo
    ensures ExtractGithubRepo("https://github.com/" + owner + "/" + repo) == Some(owner + "/" + repo)
  {
    var url := "https://github.com/" + owner + "/" + repo;
    var page := GithubPrefix + owner + "/" + repo;
    assert url == "https://" + page;
    RepoAtPage(owner, repo);
    SearchPastScheme(page, Some(owner + "/" + repo));
    OwnerRepoShape(owner, repo);
  }

  lemma RepoAtPage(owner: string, repo: string)
    requires owner != [] && repo != [] && '/' !in owner && '/' !in repo
    ensures SearchRepo(GithubPrefix + owner + "/" + repo) == Some(owner + "/" + repo)
  {
    var page := GithubPrefix + owner + "/" + repo;
    assert IsPrefix(GithubPrefix, page);
    var rest := page[|GithubPrefix|..];
    assert rest == owner + ("/" + repo);
    TakeSegmentOf(owner, "/" + repo);
    assert rest[|owner| + 1..] == repo;
    TakeSegmentOf(repo, "");
    assert repo + "" == repo;
  }

  /** No match can start inside `https://`. */
  lemma {:induction false} SearchPastScheme(page: string, m: Option<string>)
    requires SearchRepo(page) == m
    ensures SearchRepo("https://" + page) == m
  {
    assert 'g' !in "https://";
    SearchPastPrefix("https://", page);
  }

  /** Text without a `g` in front of the page cannot start a match. */
  lemma {:induction false} SearchPastPrefix(p: string, page: string)
    requires 'g' !in p
    ensures SearchRepo(p + page) == SearchRepo(page)
    decreases |p|
  {
    if p != [] {
      var w := p + page;
      assert p[0] != 'g' && 'g' !in p[1..] by {
        assert p[0] in p;
        assert forall i :: 0 <= i < |p[1..]| ==> p[1..][i] == p[i + 1];
      }
      calc {
        SearchRepo(w);
        { assert w[0] == p[0]; SearchSkip(w); }
        SearchRepo(w[1..]);
        { assert w[1..] == p[1..] + page; }
        SearchRepo(p[1..] + page);
        { SearchPastPrefix(p[1..], page); }
        SearchRepo(page);
      }
    } else {
      assert p + page == page;
    }
  }

  /** A match needs a `g` where it starts. */
  lemma SearchSkip(s: string)
    requires s != [] && s[0] != 'g'
    ensures SearchRepo(s) == SearchRepo(s[1..])
  {
    assert !IsPrefix(GithubPrefix, s) by { assert GithubPrefix[0] == 'g'; }
  }

  lemma {:induction false} TakeSegmentOf(w: string, rest: string)
    requires '/' !in w && (rest == [] || rest[0] == '/')
    ensures TakeSegment(w + rest) == w
  {
    if w != [] {
      assert (w + rest)[1..] == w[1..] + rest;
      TakeSegmentOf(w[1..], rest);
    } else {
      assert w + rest == rest;
    }
  }

  // -------------------------------------------------------- YAML scalars

  /** The conditions under which `yaml_value` wraps a value in double quotes. */
  predicate NeedsQuotes(v: string)
  {
    (v != [] && v[0] in "'\"&*!|>{[@`") || ':' in v || '#' in v ||
    (v != [] && v[0] == '-') || (v != [] && v[0] == ' ') || (v != [] && v[|v| - 1] == ' ') ||
    v in ["true", "false", "null", "yes", "no", "on", "off"]
  }

  /** `value.replace('"', '\\"')`. */
  function EscapeQuotes(v: string): string
  {
    ReplaceAll(v, '"', "\\\"")
  }

  /** `yaml_value`, as written. */
  function YamlScalar(v: string): string
  {
    if v == [] then "\"\""
    else if NeedsQuotes(v) then "\"" + EscapeQuotes(v) + "\""
    else v
  }

  /**
   * How a YAML reader decodes the inside of a double-quoted scalar, for the
   * escapes `\\`, `\"`, `\n` and `\t`; a bare `"` ends the scalar early and
   * any other escape is refused here.
   */
  function ReadQuoted(body: string): Option<string>
  {
    if body == [] then Some([])
    else if body[0] == '"' then None
    else if body[0] != '\\' then
      var rest := ReadQuoted(body[1..]);
      if rest.None? then None else Some([body[0]] + rest.value)
    else if |body| < 2 then None
    else
      var decoded := Unescape(body[1]);
      var rest := ReadQuoted(body[2..]);
      if decoded.None? || rest.None? then None else Some([decoded.value] + rest.value)
  }

  /** The character an escape `\c` stands for, among those modelled. */
  function Unescape(c: char): Option<char>
  {
    if c == '\\' then Some('\\') else if c == '"' then Some('"')
    else if c == 'n' then Some('\n') else if c == 't' then Some('\t') else None
  }

  /** The reader takes `\n` inside quotes for a line break. */
  lemma ReadQuotedNewline()
    ensures ReadQuoted("a:\\n") == Some("a:\n")
  {
    var v := "a:\\n";
    var tail := "\\n";
    assert tail[0] == '\\' && Unescape(tail[1]) == Some('\n') && tail[2..] == "";
    assert ReadQuoted(tail) == Some("\n") by {
      assert ReadQuoted("") == Some("");
      assert ['\n'] + "" == "\n";
    }
    var mid := v[1..];
    assert mid[0] == ':' && mid[1..] == tail;
    assert ReadQuoted(mid) == Some(":\n") by {
      assert [':'] + "\n" == ":\n";
    }
    assert v[0] == 'a' && v[1..] == mid;
    assert ['a'] + ":\n" == "a:\n";
  }

  /** As written, a quoted value with a backslash is read back as something else. */
  lemma YamlScalarLosesBackslash()
    ensures var v := "a:\\n";
      NeedsQuotes(v) && YamlScalar(v) == "\"" + v + "\"" && ReadQuoted(EscapeQuotes(v)) == Some("a:\n")
  {
    var v := "a:\\n";
    assert v[1] == ':';
    assert '"' !in v;
    assert EscapeQuotes(v) == v;
    ReadQuotedNewline();
  }

  /** Backslashes escaped first, then double quotes. */
  function EscapeForYaml(v: string): string
  {
    if v == [] then []
    else (if v[0] == '\\' then "\\\\" else if v[0] == '"' then "\\\"" else [v[0]]) + EscapeForYaml(v[1..])
  }

  /** Escaping both characters makes the reader give the value back. */
  lemma {:induction false} EscapeForYamlReadsBack(v: string)
    ensures ReadQuoted(EscapeForYaml(v)) == Some(v)
  {
    if v != [] {
      EscapeForYamlReadsBack(v[1..]);
      var rest := EscapeForYaml(v[1..]);
      var r := EscapeForYaml(v);
      assert v == [v[0]] + v[1..];
      if v[0] == '\\' || v[0] == '"' {
        assert r[0] == '\\' && r[1] == v[0] && r[2..] == rest;
      } else {
        assert r[0] == v[0] && r[1..] == rest;
      }
    }
  }

  /** `yaml_value` with backslashes escaped too. */
  function YamlScalarFixed(v: string): string
  {
    if v == [] then "\"\""
    else if NeedsQuotes(v) then "\"" + EscapeForYaml(v) + "\""
    else v
  }

  /** Every quoted scalar reads back as the value it was made from. */
  lemma YamlScalarFixedReadsBack(v: string)
    requires NeedsQuotes(v)
    ensures var r := YamlScalarFixed(v);
      |r| >= 2 && r[0] == '"' && r[|r| - 1] == '"' && ReadQuoted(r[1..|r| - 1]) == Some(v)
  {
    var r := YamlScalarFixed(v);
    assert r[1..|r| - 1] == EscapeForYaml(v);
    EscapeForYamlReadsBack(v);
  }

  /** Values that need no quotes, and the empty value, are written as themselves. */
  lemma YamlScalarPlain(v: string)
    ensures v == [] ==> YamlScalar(v) == "\"\"" && YamlScalarFixed(v) == "\"\""
    ensures v != [] && !NeedsQuotes(v) ==> YamlScalar(v) == v && YamlScalarFixed(v) == v
    ensures v != [] && NeedsQuotes(v) && '\\' !in v ==> YamlScalarFixed(v) == YamlScalar(v)
  {
    if v != [] && NeedsQuotes(v) && '\\' !in v {
      EscapesAgree(v);
    }
  }

  lemma {:induction false} EscapesAgree(v: string)
    requires '\\' !in v
    ensures EscapeForYaml(v) == EscapeQuotes(v)
  {
    if v != [] {
      EscapesAgree(v[1..]);
      assert EscapeQuotes(v) == (if v[0] == '"' then "\\\"" else [v[0]]) + EscapeQuotes(v[1..]);
    }
  }

  // ------------------------------------------------------------- wrapping

  /** The lines of a wrapped block, one word group each. */
  function JoinGroups(groups: seq<seq<string>>): (r: seq<string>)
    ensures |r| == |groups|
  {
    if groups == [] then [] else JoinGroups(groups[..|groups| - 1]) + [Join(groups[|groups| - 1], " ")]
  }

  function Flatten(groups: seq<seq<string>>): seq<string>
  {
    if groups == [] then [] else Flatten(groups[..|groups| - 1]) + groups[|groups| - 1]
  }

  lemma {:induction false} JoinOfJoins(groups: seq<seq<string>>)
    requires forall g <- groups :: g != []
    ensures Join(JoinGroups(groups), " ") == Join(Flatten(groups), " ")
  {
    if |groups| > 1 {
      var n := |groups| - 1;
      var init := groups[..n];
      assert groups[n] in groups;
      PrefixMembers(groups, n);
      JoinOfJoins(init);
      FlattenNonEmpty(init);
      JoinAppend(JoinGroups(init), [Join(groups[n], " ")], " ");
      JoinAppend(Flatten(init), groups[n], " ");
      assert Join([Join(groups[n], " ")], " ") == Join(groups[n], " ");
    } else if |groups| == 1 {
      assert JoinGroups(groups) == [Join(groups[0], " ")];
      assert Flatten(groups) == groups[0];
    }
  }

  lemma PrefixMembers<T>(s: seq<T>, n: nat)
    requires n <= |s|
    ensures forall x <- s[..n] :: x in s
  {
    forall x | x in s[..n] ensures x in s {
      var i :| 0 <= i < n && s[..n][i] == x;
      assert s[i] == x;
    }
  }

  lemma {:induction false} FlattenNonEmpty(groups: seq<seq<string>>)
    requires groups != [] && forall g <- groups :: g != []
    ensures Flatten(groups) != []
  {
    assert groups[|groups| - 1] in groups;
  }

  /**
   * `wrap_text`: greedy filling of lines up to `width`, the words of `text`
   * kept in order; no line is empty, and a line over `width` is one word.
   */
  method WrapText(text: string, width: int) returns (lines: seq<string>)
    ensures Words(Join(lines, " ")) == Words(text)
    ensures forall k :: 0 <= k < |lines| ==> lines[k] != [] && (|lines[k]| <= width || IsWord(lines[k]))
  {
    var words := Words(text);
    WordsAreWords(text);
    lines := [];
    var current: seq<string> := [];
    var currentLength := 0;
    ghost var groups: seq<seq<string>> := [];
    ghost var slack := 0;
    for i := 0 to |words|
      invariant lines == JoinGroups(groups)
      invariant WrapInv(words[..i], groups, current, currentLength, slack, width)
    {
      var word := words[i];
      assert words[..i + 1] == words[..i] + [word];
      assert word in words;
      if currentLength + |word| + 1 <= width {
        WrapAppend(words[..i], groups, current, currentLength, slack, width, word);
        slack := if current == [] then 1 else slack;
        current := current + [word];
        currentLength := currentLength + |word| + 1;
      } else {
        WrapBreak(words[..i], groups, current, currentLength, slack, width, word);
        if current != [] {
          lines := lines + [Join(current, " ")];
          groups := groups + [current];
        }
        current := [word];
        currentLength := |word|;
        slack := 0;
      }
    }
    assert words[..|words|] == words;
    WrapDone(words, groups, current, currentLength, slack, width);
    if current != [] {
      lines := lines + [Join(current, " ")];
      assert (groups + [current])[..|groups|] == groups;
      groups := groups + [current];
    }
    assert lines == JoinGroups(groups);
  }

  /**
   * The last open line is closed: the lines hold the words in order, none
   * is empty, and each is within `width` unless it is a single word.
   */
  lemma WrapDone(words: seq<string>, groups: seq<seq<string>>, current: seq<string>,
                 currentLength: int, slack: int, width: int)
    requires forall w <- words :: IsWord(w)
    requires WrapInv(words, groups, current, currentLength, slack, width)
    ensures var lines := JoinGroups(if current != [] then groups + [current] else groups);
      Words(Join(lines, " ")) == words &&
      forall k :: 0 <= k < |lines| ==> lines[k] != [] && (|lines[k]| <= width || IsWord(lines[k]))
  {
    var done := if current != [] then groups + [current] else groups;
    if current != [] {
      assert done[..|done| - 1] == groups;
      assert GoodGroup(current, width);
      assert forall g <- done :: g in groups || g == current;
    }
    var lines := JoinGroups(done);
    assert Flatten(done) == words;
    JoinOfJoins(done);
    WordsOfJoin(words);
    forall k | 0 <= k < |lines| ensures lines[k] != [] && (|lines[k]| <= width || IsWord(lines[k])) {
      LineOfGroup(done, k, width);
    }
  }

  /** A finished line: non-empty, words only, within `width` unless it is one word. */
  ghost predicate GoodGroup(g: seq<string>, width: int)
  {
    g != [] && (forall w <- g :: IsWord(w)) && (|Join(g, " ")| <= width || |g| == 1)
  }

  /**
   * What `wrap_text` keeps while it reads `prefix`: finished groups and the
   * open line hold exactly the words read; `currentLength` over-counts the
   * open line by `slack`, one when it was started by the first branch.
   */
  ghost predicate WrapInv(prefix: seq<string>, groups: seq<seq<string>>, current: seq<string>,
                          currentLength: int, slack: int, width: int)
  {
    (forall g <- groups :: GoodGroup(g, width)) && (forall w <- current :: IsWord(w)) &&
    Flatten(groups) + current == prefix && 0 <= slack <= 1 &&
    (current == [] ==> prefix == [] && currentLength == 0) &&
    (current != [] ==> currentLength == |Join(current, " ")| + slack &&
                       (|Join(current, " ")| <= width || |current| == 1))
  }

  lemma WrapAppend(prefix: seq<string>, groups: seq<seq<string>>, current: seq<string>,
                   currentLength: int, slack: int, width: int, word: string)
    requires WrapInv(prefix, groups, current, currentLength, slack, width)
    requires IsWord(word) && currentLength + |word| + 1 <= width
    ensures WrapInv(prefix + [word], groups, current + [word], currentLength + |word| + 1,
                    if current == [] then 1 else slack, width)
  {
    if current != [] {
      JoinAppend(current, [word], " ");
    } else {
      assert Join([word], " ") == word;
    }
    assert Flatten(groups) + (current + [word]) == prefix + [word];
  }

  lemma WrapBreak(prefix: seq<string>, groups: seq<seq<string>>, current: seq<string>,
                  currentLength: int, slack: int, width: int, word: string)
    requires WrapInv(prefix, groups, current, currentLength, slack, width)
    requires IsWord(word) && currentLength + |word| + 1 > width
    ensures WrapInv(prefix + [word], if current != [] then groups + [current] else groups, [word], |word|, 0, width)
  {
    assert Join([word], " ") == word;
    var groups' := if current != [] then groups + [current] else groups;
    assert Flatten(groups') == Flatten(groups) + current;
    if current != [] {
      assert GoodGroup(current, width);
      assert forall g <- groups' :: g in groups || g == current;
    }
  }

  lemma {:induction false} LineOfGroup(groups: seq<seq<string>>, k: nat, width: int)
    requires k < |groups|
    requires forall g <- groups :: g != [] && (|Join(g, " ")| <= width || |g| == 1)
    requires forall g <- groups :: forall w <- g :: IsWord(w)
    ensures var line := JoinGroups(groups)[k];
      line == Join(groups[k], " ") && line != [] && (|line| <= width || IsWord(line))
  {
    var g := groups[k];
    assert g in groups && g[0] in g;
    if k < |groups| - 1 {
      PrefixMembers(groups, |groups| - 1);
      LineOfGroup(groups[..|groups| - 1], k, width);
    }
    if |g| == 1 {
      assert Join(g, " ") == g[0];
    } else {
      assert Join(g, " ") == g[0] + " " + Join(g[1..], " ");
    }
  }

  // ----------------------------------------------------------------- tags

  /**
   * The technology patterns of `generate_tags`, in order: each regular
   * expression spelled out as the literal texts it matches, with its tag.
   */
  const TagPatterns: seq<(seq<string>, string)> := [
    (["nextjs", "next.js"], "nextjs"),
    (["react"], "react"),
    (["typescript"], "typescript"),
    (["tailwind"], "tailwindcss"),
    (["prisma"], "prisma"),
    (["drizzle"], "drizzle"),
    (["supabase"], "supabase"),
    (["stripe"], "stripe"),
    (["trpc"], "trpc"),
    (["authjs", "auth.js", "nextauth"], "authjs"),
    (["clerk"], "clerk"),
    (["saas"], "saas"),
    (["monorepo", "turborepo"], "monorepo"),
    (["expo"], "expo"),
    (["fastapi"], "fastapi"),
    (["django"], "django"),
    (["rails"], "rails"),
    (["laravel"], "laravel"),
    (["postgres"], "postgresql"),
    (["docker"], "docker")
  ]

  const MaxTags := 10

  /** `re.search(pattern, text)` for a pattern that is a choice of literal texts. */
  predicate MatchesAny(text: string, alternatives: seq<string>)
  {
    exists a <- alternatives :: Contains(text, a)
  }

  /** The text the patterns are searched in: `f"{name} {content}".lower()`. */
  function TagText(name: string, content: string): string
  {
    Lower(name + " " + content)
  }

  /** The tags of the patterns that match, in pattern order (the reference for `CollectTags`). */
  function MatchedTags(text: string, patterns: seq<(seq<string>, string)>): seq<string>
  {
    if patterns == [] then []
    else
      var last := patterns[|patterns| - 1];
      MatchedTags(text, patterns[..|patterns| - 1]) + (if MatchesAny(text, last.0) then [last.1] else [])
  }

  /** The list `generate_tags` has built after trying `patterns`, starting from `tags`. */
  function CollectTags(tags: seq<string>, text: string, patterns: seq<(seq<string>, string)>): seq<string>
  {
    if patterns == [] then tags
    else
      var before := CollectTags(tags, text, patterns[..|patterns| - 1]);
      var last := patterns[|patterns| - 1];
      if MatchesAny(text, last.0) && last.1 !in before then before + [last.1] else before
  }

  /** `generate_tags` before the cut to ten. */
  function AllTags(name: string, content: string, categoryId: string): seq<string>
  {
    CollectTags([categoryId], TagText(name, content), TagPatterns)
  }

  /** `generate_tags`, as the value the entry records. */
  function Tags(name: string, content: string, categoryId: string): seq<string>
  {
    var all := AllTags(name, content, categoryId);
    if |all| <= MaxTags then all else all[..MaxTags]
  }

  /**
   * Collecting keeps the starting list in front, adds no duplicate, and
   * ends with exactly the starting tags and the tags of matching patterns.
   */
  lemma {:induction false} CollectTagsFacts(tags: seq<string>, text: string, patterns: seq<(seq<string>, string)>)
    ensures var r := CollectTags(tags, text, patterns);
      |tags| <= |r| && r[..|tags|] == tags &&
      (NoDuplicates(tags) ==> NoDuplicates(r)) &&
      (forall t <- r :: t in tags || t in MatchedTags(text, patterns)) &&
      (forall t <- MatchedTags(text, patterns) :: t in r)
  {
    if patterns != [] {
      var init := patterns[..|patterns| - 1];
      var last := patterns[|patterns| - 1];
      CollectTagsFacts(tags, text, init);
      var before := CollectTags(tags, text, init);
      var r := CollectTags(tags, text, patterns);
      var matched := MatchedTags(text, patterns);
      assert matched == MatchedTags(text, init) + (if MatchesAny(text, last.0) then [last.1] else []);
      if MatchesAny(text, last.0) && last.1 !in before {
        assert r == before + [last.1];
        assert r[..|tags|] == before[..|tags|];
      } else {
        assert r == before;
      }
    }
  }

  /**
   * `generate_tags`: the category id comes first, no tag twice, at most ten;
   * every other tag belongs to a pattern found in the name or the content,
   * and when there is room every such tag is there.
   */
  method GenerateTags(name: string, content: string, categoryId: string) returns (tags: seq<string>)
    ensures tags == Tags(name, content, categoryId)
    ensures |tags| <= MaxTags && tags != [] && tags[0] == categoryId && NoDuplicates(tags)
    ensures forall t <- tags :: t == categoryId || t in MatchedTags(TagText(name, content), TagPatterns)
    ensures |AllTags(name, content, categoryId)| <= MaxTags ==>
      forall t <- MatchedTags(TagText(name, content), TagPatterns) :: t in tags
  {
    tags := [categoryId];
    var combined := Lower(name + " " + content);
    for i := 0 to |TagPatterns|
      invariant tags == CollectTags([categoryId], combined, TagPatterns[..i])
    {
      var (alternatives, tag) := TagPatterns[i];
      assert TagPatterns[..i + 1][..i] == TagPatterns[..i];
      if MatchesAny(combined, alternatives) && tag !in tags {
        tags := tags + [tag];
      }
    }
    assert TagPatterns[..|TagPatterns|] == TagPatterns;
    ghost var all := tags;
    CollectTagsFacts([categoryId], combined, TagPatterns);
    if |tags| > MaxTags {
      tags := tags[..MaxTags];
      assert forall t <- tags :: t in all;
    }
  }

  // -------------------------------------------------------------- entries

  /**
   * What the regular-expression extractors of the parser found in one
   * entry's markdown; their scanning is not part of this model.
   */
  datatype Extracted = Extracted(
    description: string,              // the first capitalised line, or ""
    attributes: map<string, string>,  // the attribute table, by lower-cased attribute
    linkUrl: Option<string>,          // the first markdown link of the first 500 characters
    stars: Option<int>,               // `parse_star_count` of the stars attribute
    techStack: seq<Value>,
    features: Option<seq<string>>,
    useCase: Option<string>,
    pros: Option<seq<string>>,
    cons: Option<seq<string>>,
    community: Option<string>,
    deployment: Option<seq<string>>)

  const MaxDescriptionLength := 2000

  /** The entry's URL: the `url` attribute, else the first link; None when both are empty. */
  function EntryUrl(x: Extracted): (r: Option<string>)
    ensures r.Some? ==> r.value != ""
    ensures r.None? <==> ("url" !in x.attributes || x.attributes["url"] == "") && (x.linkUrl.None? || x.linkUrl.value == "")
  {
    if "url" in x.attributes && x.attributes["url"] != "" then Some(x.attributes["url"])
    else if x.linkUrl.Some? && x.linkUrl.value != "" then x.linkUrl
    else None
  }

  /** `s[:n]`. */
  function TakeAtMost(s: string, n: nat): (r: string)
    ensures |r| <= n && IsPrefix(r, s)
    ensures |s| <= n ==> r == s
  {
    if |s| <= n then s else s[..n]
  }

  /** The description field: the cleaned text cut to 2000 characters, or a sentence naming the category. */
  function DescriptionField(categoryId: string, description: string): string
  {
    if description != "" then TakeAtMost(Sanitized(description), MaxDescriptionLength)
    else "A " + categoryId + " boilerplate for building full-stack applications"
  }

  /** `sanitize_ascii(license).split("(")[0].strip() or None`. */
  function LicenseField(attributes: map<string, string>): Value
  {
    var license := Strip(SplitOn(Sanitized(if "license" in attributes then attributes["license"] else ""), '(')[0]);
    if license == "" then Null else Str(license)
  }

  function StrList(xs: seq<string>): (r: Value)
    ensures r.List? && |r.items| == |xs|
  {
    List(seq(|xs|, i requires 0 <= i < |xs| => Str(xs[i])))
  }

  function OptionalList(xs: Option<seq<string>>): Value
  {
    if xs.None? then Null else StrList(xs.value)
  }

  function OptionalStr(s: Option<string>): Value
  {
    if s.None? then Null else Str(s.value)
  }

  function OrEmpty(s: Option<string>): string
  {
    if s.None? then "" else s.value
  }

  /** The entry dictionary `parse_entry` builds, one field per key, before clean-up. */
  datatype RawEntry = RawEntry(
    name: Value, url: Value, description: Value, category: Value, kind: Value, tags: Value,
    githubRepo: Value, githubStars: Value, license: Value, techStack: Value, features: Value,
    useCase: Value, pros: Value, cons: Value, community: Value, deployment: Value, addedDate: Value)

  function BuildRawEntry(name: string, content: string, categoryId: string, url: string, x: Extracted, today: string)
    : RawEntry
  {
    RawEntry(
      Str(Sanitized(name)),
      Str(url),
      Str(DescriptionField(categoryId, x.description)),
      Str(categoryId),
      Str("boilerplate"),
      StrList(Tags(name, content, categoryId)),
      OptionalStr(ExtractGithubRepo(url)),
      if x.stars.None? then Null else Int(x.stars.value),
      LicenseField(x.attributes),
      List(x.techStack),
      OptionalList(x.features),
      Str(Sanitized(OrEmpty(x.useCase))),
      OptionalList(x.pros),
      OptionalList(x.cons),
      Str(Sanitized(OrEmpty(x.community))),
      OptionalList(x.deployment),
      Str(today))
  }

  /** The dictionary's items, keys in the order `parse_entry` writes them. */
  function Items(r: RawEntry): seq<(string, Value)>
  {
    [("name", r.name), ("url", r.url), ("description", r.description), ("category", r.category),
     ("type", r.kind), ("tags", r.tags), ("github_repo", r.githubRepo), ("github_stars", r.githubStars),
     ("license", r.license), ("technical_stack", r.techStack), ("key_features", r.features),
     ("use_case", r.useCase), ("pros", r.pros), ("cons", r.cons), ("community", r.community),
     ("deployment", r.deployment), ("added_date", r.addedDate)]
  }

  /** The values the clean-up drops: None, `[]` and `""`. */
  predicate IsEmptyValue(v: Value)
  {
    v == Null || v == List([]) || v == Str("")
  }

  /** The clean-up comprehension: the fields with a value, in order. */
  function Cleaned(fields: seq<(string, Value)>): seq<(string, Value)>
  {
    if fields == [] then []
    else
      var last := fields[|fields| - 1];
      Cleaned(fields[..|fields| - 1]) + (if IsEmptyValue(last.1) then [] else [last])
  }

  /** Clean-up keeps exactly the fields that have a value. */
  lemma {:induction false} CleanedKeeps(fields: seq<(string, Value)>)
    ensures forall f <- Cleaned(fields) :: f in fields && !IsEmptyValue(f.1)
    ensures forall f <- fields :: !IsEmptyValue(f.1) ==> f in Cleaned(fields)
  {
    if fields != [] {
      var init := fields[..|fields| - 1];
      CleanedKeeps(init);
      assert forall f <- fields :: f == fields[|fields| - 1] || f in init;
      assert forall f <- init :: f in fields;
    }
  }

  /** A migrated entry. */
  function Entry(name: string, content: string, categoryId: string, url: string, x: Extracted, today: string)
    : seq<(string, Value)>
  {
    Cleaned(Items(BuildRawEntry(name, content, categoryId, url, x, today)))
  }

  /**
   * The description an entry records: taken from the markdown, it is the
   * cleaned text cut to at most 2000 characters; otherwise the default
   * sentence, which is never empty and so always survives the clean-up.
   */
  lemma DescriptionFieldBound(categoryId: string, description: string)
    ensures var d := DescriptionField(categoryId, description);
      (description != "" ==> |d| <= MaxDescriptionLength && IsPrefix(d, Sanitized(description))) &&
      (description != "" && |Sanitized(description)| <= MaxDescriptionLength ==> d == Sanitized(description)) &&
      (description == "" ==> !IsEmptyValue(Str(d)))
  {
  }

  /** The tags of a built entry: never empty, the category id first. */
  lemma TagsNonEmpty(name: string, content: string, categoryId: string)
    ensures var tags := Tags(name, content, categoryId); tags != [] && tags[0] == categoryId
  {
    CollectTagsFacts([categoryId], TagText(name, content), TagPatterns);
  }

  /**
   * The state of `BoilerplateMarkdownParser` that `parse_entry` updates:
   * the entries, the URLs already seen and three of the counters.
   */
  class MigrationParser {
    var entries: seq<seq<(string, Value)>>
    var seenUrls: set<string>
    var totalEntries: nat
    var skipped: nat
    var duplicateUrls: nat
    /** The URL of each entry, in entry order. */
    ghost var urls: seq<string>

    /**
     * Every entry met was either kept or skipped, a duplicate is a skip,
     * and the seen URLs are exactly the kept entries' URLs, one each.
     */
    ghost predicate Valid()
      reads this
    {
      totalEntries == |entries| + skipped && duplicateUrls <= skipped && |urls| == |entries| &&
      NoDuplicates(urls) && seenUrls == Elems(urls) && |seenUrls| == |entries| &&
      forall i :: 0 <= i < |entries| ==> ("url", Str(urls[i])) in entries[i]
    }

    constructor ()
      ensures Valid()
      ensures entries == [] && seenUrls == {} && totalEntries == 0 && skipped == 0 && duplicateUrls == 0
    {
      entries := [];
      seenUrls := {};
      totalEntries := 0;
      skipped := 0;
      duplicateUrls := 0;
      urls := [];
    }

    /**
     * `parse_entry`: an entry without a URL is skipped; one whose URL was
     * seen before is skipped and counted as a duplicate; any other is
     * built, cleaned and kept, and its URL remembered.
     */
    method ParseEntry(name: string, content: string, categoryId: string, x: Extracted, today: string)
      requires Valid()
      modifies this
      ensures Valid()
      ensures totalEntries == old(totalEntries) + 1
      ensures EntryUrl(x).None? ==>
        skipped == old(skipped) + 1 && duplicateUrls == old(duplicateUrls) &&
        entries == old(entries) && seenUrls == old(seenUrls)
      ensures EntryUrl(x).Some? && EntryUrl(x).value in old(seenUrls) ==>
        skipped == old(skipped) + 1 && duplicateUrls == old(duplicateUrls) + 1 &&
        entries == old(entries) && seenUrls == old(seenUrls)
      ensures EntryUrl(x).Some? && EntryUrl(x).value !in old(seenUrls) ==>
        skipped == old(skipped) && duplicateUrls == old(duplicateUrls) &&
        seenUrls == old(seenUrls) + {EntryUrl(x).value} &&
        entries == old(entries) + [Entry(name, content, categoryId, EntryUrl(x).value, x, today)]
    {
      var url := EntryUrl(x);
      if url.None? {
        totalEntries := totalEntries + 1;
        skipped := skipped + 1;
        return;
      }
      if url.value in seenUrls {
        totalEntries := totalEntries + 1;
        duplicateUrls := duplicateUrls + 1;
        skipped := skipped + 1;
        return;
      }
      var raw := BuildRawEntry(name, content, categoryId, url.value, x, today);
      UrlKept(raw, url.value);
      Keep(Cleaned(Items(raw)), url.value);
    }

    /** `parse_entry` for a new URL: count the entry, remember the URL and keep the entry. */
    method Keep(entry: seq<(string, Value)>, url: string)
      requires Valid() && url !in seenUrls && ("url", Str(url)) in entry
      modifies this
      ensures Valid()
      ensures totalEntries == old(totalEntries) + 1 && skipped == old(skipped) && duplicateUrls == old(duplicateUrls)
      ensures seenUrls == old(seenUrls) + {url} && entries == old(entries) + [entry]
    {
      totalEntries := totalEntries + 1;
      seenUrls := seenUrls + {url};
      entries := entries + [entry];
      urls := urls + [url];
      ElemsAppend(old(urls), url);
      forall i | 0 <= i < |entries| ensures ("url", Str(urls[i])) in entries[i] {
        if i < |old(entries)| {
          assert entries[i] == old(entries)[i] && urls[i] == old(urls)[i];
        }
      }
    }
  }

  /** A URL survives the clean-up once it is not empty. */
  lemma UrlKept(r: RawEntry, url: string)
    requires r.url == Str(url) && url != ""
    ensures ("url", Str(url)) in Cleaned(Items(r))
  {
    assert Items(r)[1] == ("url", Str(url));
    CleanedKeeps(Items(r));
  }

  lemma ElemsAppend(s: seq<string>, x: string)
    requires x !in s && NoDuplicates(s)
    ensures Elems(s + [x]) == Elems(s) + {x} && NoDuplicates(s + [x])
  {
    assert forall y :: y in s + [x] <==> y in s || y == x;
  }
}
