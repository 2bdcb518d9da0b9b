// The first migration, from the markdown tables of the old README to agent
// records: reading table rows, naming the output file and choosing the
// entry type from the category.

module Migrate {
  import opened Strings
  import opened Slugs
  import opened YamlValue
  import opened MigrateBoilerplates

  // ---------------------------------------------------------- dictionaries

  /** A Python dictionary, items in insertion order. */
  type Dict = seq<(string, Value)>

  function Keys(d: Dict): (r: seq<string>)
    ensures |r| == |d| && forall i :: 0 <= i < |d| ==> r[i] == d[i].0
  {
    seq(|d|, i requires 0 <= i < |d| => d[i].0)
  }

  /** `d.get(key)`. */
  function Lookup(d: Dict, key: string): (r: Option<Value>)
    ensures r.None? <==> key !in Keys(d)
  {
    if d == [] then None
    else if d[0].0 == key then Some(d[0].1)
    else Lookup(d[1..], key)
  }

  /** `d[key] = value`: a present key keeps its place, a new one goes last. */
  function SetKey(d: Dict, key: string, value: Value): (r: Dict)
    ensures Keys(r) == if key in Keys(d) then Keys(d) else Keys(d) + [key]
    ensures Lookup(r, key) == Some(value)
    ensures forall k :: k != key ==> Lookup(r, k) == Lookup(d, k)
  {
    if d == [] then [(key, value)]
    else
      KeysCons(d[0], d[1..]);
      assert d == [d[0]] + d[1..];
      if d[0].0 == key then
        KeysCons((key, value), d[1..]);
        [(key, value)] + d[1..]
      else
        var rest := SetKey(d[1..], key, value);
        KeysCons(d[0], rest);
        assert [d[0].0] + (Keys(d[1..]) + [key]) == [d[0].0] + Keys(d[1..]) + [key];
        [d[0]] + rest
  }

  lemma KeysCons(x: (string, Value), d: Dict)
    ensures Keys([x] + d) == [x.0] + Keys(d)
  {
  }

  // ------------------------------------------------------------ table rows

  /** `line.split('|')[1:-1]`, each cell stripped. */
  function Cells(line: string): (r: seq<string>)
  {
    var parts := SplitOn(line, '|');
    if |parts| < 2 then []
    else
      var inner := parts[1..|parts| - 1];
      seq(|inner|, i requires 0 <= i < |inner| => Strip(inner[i]))
  }

  /** The header test: the lower-cased first cell names one of the header words. */
  predicate IsHeader(cell: string)
  {
    var c := Lower(cell);
    Contains(c, "framework") || Contains(c, "name") || Contains(c, "platform") || Contains(c, "course")
  }

  /**
   * The first index from `k` on where `**` starts, at or after which the
   * lazy group `.+?` may close.
   */
  function CloseBold(s: string, k: nat): (r: int)
    ensures r == -1 || (k <= r && r + 2 <= |s| && s[r] == '*' && s[r + 1] == '*')
    ensures r >= 0 ==> forall j :: k <= j < r ==> s[j] != '*' || s[j + 1] != '*'
    ensures r == -1 ==> forall j :: k <= j < |s| - 1 ==> s[j] != '*' || s[j + 1] != '*'
    decreases |s| - k
  {
    if k + 2 > |s| then -1
    else if s[k] == '*' && s[k + 1] == '*' then k
    else CloseBold(s, k + 1)
  }

  /** `re.sub(r'\*\*(.+?)\*\*', r'\1', s)`: each bold span loses its markers, left to right. */
  function Unbold(s: string): (r: string)
    ensures |r| <= |s|
    decreases |s|
  {
    if |s| < 2 then s
    else if s[0] == '*' && s[1] == '*' && CloseBold(s, 3) >= 0 then
      var j := CloseBold(s, 3);
      s[2..j] + Unbold(s[j + 2..])
    else [s[0]] + Unbold(s[1..])
  }

  /** A name without two stars in a row is left as it is. */
  lemma {:induction false} UnboldPlain(s: string)
    requires forall i :: 0 <= i < |s| - 1 ==> s[i] != '*' || s[i + 1] != '*'
    ensures Unbold(s) == s
    decreases |s|
  {
    if |s| >= 2 {
      UnboldPlain(s[1..]);
      assert [s[0]] + s[1..] == s;
    }
  }

  /** A bold name loses exactly its markers. */
  lemma UnboldWrapped(w: string)
    requires w != [] && '*' !in w
    ensures Unbold("**" + w + "**") == w
  {
    var s := "**" + w + "**";
    var j := |w| + 2;
    assert s[j] == '*' && s[j + 1] == '*';
    forall i | 3 <= i < j ensures s[i] != '*' {
      assert s[i] == w[i - 2];
    }
    assert CloseBold(s, 3) == j by {
      CloseBoldAt(s, 3, j);
    }
    assert s[2..j] == w && s[j + 2..] == [];
  }

  lemma {:induction false} CloseBoldAt(s: string, k: nat, j: nat)
    requires k <= j && j + 2 <= |s| && s[j] == '*' && s[j + 1] == '*'
    requires forall i :: k <= i < j ==> s[i] != '*'
    ensures CloseBold(s, k) == j
    decreases j - k
  {
    if k < j {
      CloseBoldAt(s, k + 1, j);
    }
  }

  /** What the link group `https?://[^)]+` accepts. */
  predicate IsLinkTarget(u: string)
  {
    ((IsPrefix("https://", u) && |u| > 8) || (IsPrefix("http://", u) && |u| > 7)) && ')' !in u
  }

  /** `\((https?://[^\)]+)\)` at the start of `t`: its group. */
  function LinkAfter(t: string): (r: Option<string>)
    ensures r.Some? ==> IsLinkTarget(r.value)
  {
    if t == [] || t[0] != '(' then None
    else
      var j := IndexOfChar(t[1..], ')');
      if j < 0 then None
      else
        var target := t[1..][..j];
        if (IsPrefix("https://", target) && |target| > 8) || (IsPrefix("http://", target) && |target| > 7)
        then Some(target) else None
  }

  /** After a `[`: the first `]` from `k` on that a link follows (`.*?` is lazy). */
  function CloseLink(s: string, k: nat): (r: Option<string>)
    ensures r.Some? ==> IsLinkTarget(r.value)
    decreases |s| - k
  {
    if k >= |s| then None
    else if s[k] == ']' && LinkAfter(s[k + 1..]).Some? then LinkAfter(s[k + 1..])
    else CloseLink(s, k + 1)
  }

  /** `re.search(r'\[.*?\]\((https?://[^\)]+)\)', s)`: the group of the leftmost match. */
  function SearchLink(s: string): (r: Option<string>)
    ensures r.Some? ==> IsLinkTarget(r.value)
  {
    if s == [] then None
    else if s[0] == '[' && CloseLink(s, 1).Some? then CloseLink(s, 1)
    else SearchLink(s[1..])
  }

  /** A markdown link to an http(s) address gives back the address. */
  lemma SearchLinkOf(text: string, url: string)
    requires ']' !in text && IsLinkTarget(url)
    ensures SearchLink("[" + text + "](" + url + ")") == Some(url)
  {
    var s := "[" + text + "](" + url + ")";
    var k := |text| + 1;
    assert s[k] == ']';
    assert s[k + 1..] == "(" + url + ")";
    LinkAfterOf(url);
    assert s[1..k] == text;
    forall i | 1 <= i < k ensures s[i] != ']' {
      assert s[i] == s[1..k][i - 1];
    }
    CloseLinkAt(s, 1, k);
  }

  lemma LinkAfterOf(url: string)
    requires IsLinkTarget(url)
    ensures LinkAfter("(" + url + ")") == Some(url)
  {
    var t := "(" + url + ")";
    assert t[1..] == url + ")";
    IndexOfCharAfter(url, ')');
    assert t[1..][..|url|] == url;
  }

  lemma IndexOfCharAfter(w: string, c: char)
    requires c !in w
    ensures IndexOfChar(w + [c], c) == |w|
  {
    var s := w + [c];
    assert s[|w|] == c;
  }

  lemma {:induction false} CloseLinkAt(s: string, k: nat, j: nat)
    requires k <= j < |s| && s[j] == ']' && LinkAfter(s[j + 1..]).Some?
    requires forall i :: k <= i < j ==> s[i] != ']'
    ensures CloseLink(s, k) == LinkAfter(s[j + 1..])
    decreases j - k
  {
    if k < j {
      CloseLinkSkip(s, k);
      CloseLinkAt(s, k + 1, j);
    } else {
      CloseLinkHere(s, k);
    }
  }

  lemma CloseLinkSkip(s: string, k: nat)
    requires k < |s| && s[k] != ']'
    ensures CloseLink(s, k) == CloseLink(s, k + 1)
  {
  }

  lemma CloseLinkHere(s: string, k: nat)
    requires k < |s| && s[k] == ']' && LinkAfter(s[k + 1..]).Some?
    ensures CloseLink(s, k) == LinkAfter(s[k + 1..])
  {
  }

  /** `[^/\s]+`: the leading run of characters that are neither `/` nor whitespace. */
  function TakeName(s: string): (r: string)
    ensures |r| <= |s| && r == s[..|r|]
    ensures '/' !in r && forall i :: 0 <= i < |r| ==> !IsSpace(r[i])
  {
    if s == [] || s[0] == '/' || IsSpace(s[0]) then [] else [s[0]] + TakeName(s[1..])
  }

  /** `github\.com/([^/]+/[^/\s]+)` matched at the start of `s`: its group. */
  function TableRepoAt(s: string): (r: Option<string>)
    ensures r.Some? ==> IsOwnerRepo(r.value) && IsPrefix(GithubPrefix, s)
  {
    if !IsPrefix(GithubPrefix, s) then None
    else
      var rest := s[|GithubPrefix|..];
      var owner := TakeSegment(rest);
      if owner == [] || |owner| == |rest| then None
      else
        var repo := TakeName(rest[|owner| + 1..]);
        if repo == [] then None
        else
          OwnerRepoShape(owner, repo);
          Some(owner + "/" + repo)
  }

  /** The leftmost match, as `re.search` finds it. */
  function SearchTableRepo(s: string): (r: Option<string>)
    ensures r.Some? ==> IsOwnerRepo(r.value) && Contains(s, GithubPrefix)
  {
    if s == [] then None
    else if TableRepoAt(s).Some? then (ContainsPrefix(s, GithubPrefix); TableRepoAt(s))
    else SearchTableRepo(s[1..])
  }

  /** The `github_repo` of a table row: looked for only when the URL mentions `github.com`. */
  function TableRepo(url: string): (r: Option<string>)
  {
    if !Contains(url, "github.com") then None
    else
      var m := SearchTableRepo(url);
      if m.None? then None else Some(RStripChar(m.value, '/'))
  }

  /** A repository is found only in a GitHub URL, and it is always `owner/repo`. */
  lemma TableRepoShape(url: string)
    ensures TableRepo(url).Some? ==> Contains(url, "github.com") && IsOwnerRepo(TableRepo(url).value)
  {
    var m := SearchTableRepo(url);
    if Contains(url, "github.com") && m.Some? {
      assert RStripChar(m.value, '/') == m.value;
    }
  }

  /** The entry a table line gives, if it gives one. */
  function RowEntry(line: string): Option<Dict>
  {
    if !IsPrefix("|", line) || Contains(line, "---") then None
    else
      var cells := Cells(line);
      if |cells| < 3 || IsHeader(cells[0]) then None
      else
        var name := Strip(Unbold(cells[0]));
        if name == "" then None
        else
          var link := SearchLink(cells[1]);
          var url := if link.Some? then link.value else "";
          Some(Row(name, url, Strip(cells[2]), TableRepo(url)))
  }

  /** The four keys of a table entry, in the order they are written. */
  function Row(name: string, url: string, description: string, repo: Option<string>): Dict
  {
    [("name", Str(name)), ("url", Str(url)), ("description", Str(description)),
     ("github_repo", if repo.Some? then Str(repo.value) else Null)]
  }

  const RowKeys: seq<string> := ["name", "url", "description", "github_repo"]

  /** The shape of every entry `parse_markdown_table` returns. */
  predicate WellFormedRow(e: Dict)
  {
    Keys(e) == RowKeys &&
    e[0].1.Str? && e[0].1.s != "" &&
    e[1].1.Str? && (e[1].1.s == "" || IsLinkTarget(e[1].1.s)) &&
    (e[3].1 == Null || (e[3].1.Str? && Contains(e[1].1.s, "github.com") && IsOwnerRepo(e[3].1.s)))
  }

  /**
   * Only a line that starts with `|`, has no `---`, has at least three cells
   * and is not a header row gives an entry, and that entry is well formed.
   */
  lemma RowEntryShape(line: string)
    ensures RowEntry(line).Some? ==>
      IsPrefix("|", line) && !Contains(line, "---") && |Cells(line)| >= 3 && !IsHeader(Cells(line)[0]) &&
      WellFormedRow(RowEntry(line).value)
  {
    if RowEntry(line).Some? {
      var cells := Cells(line);
      var link := SearchLink(cells[1]);
      var url := if link.Some? then link.value else "";
      TableRepoShape(url);
      RowShape(Strip(Unbold(cells[0])), url, Strip(cells[2]), TableRepo(url));
    }
  }

  lemma RowShape(name: string, url: string, description: string, repo: Option<string>)
    requires name != "" && (url == "" || IsLinkTarget(url))
    requires repo.Some? ==> Contains(url, "github.com") && IsOwnerRepo(repo.value)
    ensures WellFormedRow(Row(name, url, description, repo))
  {
    assert Keys(Row(name, url, description, repo)) == RowKeys;
  }

  /** `parse_markdown_table` as a value: the entries of the lines, in order. */
  function TableEntries(lines: seq<string>): seq<Dict>
  {
    if lines == [] then []
    else
      var e := RowEntry(lines[|lines| - 1]);
      TableEntries(lines[..|lines| - 1]) + (if e.Some? then [e.value] else [])
  }

  /** At most one entry per line, each well formed. */
  lemma {:induction false} TableEntriesShape(lines: seq<string>)
    ensures |TableEntries(lines)| <= |lines|
    ensures forall e <- TableEntries(lines) :: WellFormedRow(e)
  {
    if lines != [] {
      TableEntriesShape(lines[..|lines| - 1]);
      RowEntryShape(lines[|lines| - 1]);
    }
  }

  /** `parse_markdown_table`. */
  method ParseMarkdownTable(content: string) returns (entries: seq<Dict>)
    ensures entries == TableEntries(SplitOn(content, '\n'))
    ensures forall e <- entries :: WellFormedRow(e)
  {
    var lines := SplitOn(content, '\n');
    entries := [];
    for i := 0 to |lines|
      invariant entries == TableEntries(lines[..i])
    {
      assert lines[..i + 1][..i] == lines[..i];
      var e := RowEntry(lines[i]);
      if e.Some? {
        entries := entries + [e.value];
      }
    }
    assert lines[..|lines|] == lines;
    TableEntriesShape(lines);
  }

  // ------------------------------------------------------ file and record

  /** `re.sub(r'[^a-z0-9]+', '-', s)` before the runs are collapsed: one hyphen per character. */
  function HyphenateNonAlnum(s: string): (r: string)
    ensures |r| == |s| && AllSlugChars(r)
    ensures forall i :: 0 <= i < |s| ==> (IsLowerAlnum(s[i]) ==> r[i] == s[i]) && (!IsLowerAlnum(s[i]) ==> r[i] == '-')
  {
    seq(|s|, i requires 0 <= i < |s| => if IsLowerAlnum(s[i]) then s[i] else '-')
  }

  /** The file name of a migrated entry: runs of other characters become one hyphen, none at the ends. */
  function Filename(name: string): string
  {
    FinishSlug(HyphenateNonAlnum(Lower(name)))
  }

  lemma FilenameIsSlug(name: string)
    ensures IsSlug(Filename(name))
  {
    FinishSlugIsSlug(HyphenateNonAlnum(Lower(name)));
  }

  /** A name that is already a slug is its own file name. */
  lemma FilenameOfSlug(s: string)
    requires IsSlug(s)
    ensures Filename(s) == s
  {
    assert Lower(s) == s;
    assert HyphenateNonAlnum(s) == s;
    FinishSlugOfSlug(s);
  }

  /** The entry type a category implies, by the first keyword it contains. */
  function TypeFor(category: string): string
  {
    if Contains(category, "framework") then "framework"
    else if Contains(category, "platform") then "platform"
    else if Contains(category, "course") || Contains(category, "learning") then "course"
    else if Contains(category, "community") then "community"
    else "tool"
  }

  /**
   * Each type is chosen exactly when its keyword is in the category and no
   * keyword of higher priority is: framework, then platform, then course or
   * learning, then community; `tool` when there is none.
   */
  lemma TypeForKeywords(category: string)
    ensures var t := TypeFor(category);
      var fw := Contains(category, "framework");
      var pl := Contains(category, "platform");
      var co := Contains(category, "course") || Contains(category, "learning");
      var cm := Contains(category, "community");
      && t in ["framework", "platform", "course", "community", "tool"]
      && (t == "framework" <==> fw)
      && (t == "platform" <==> !fw && pl)
      && (t == "course" <==> !fw && !pl && co)
      && (t == "community" <==> !fw && !pl && !co && cm)
      && (t == "tool" <==> !fw && !pl && !co && !cm)
  {
  }

  /**
   * `save_yaml_file` without the write: the file name, and the entry with
   * its category, date, `verified` flag and type set.  Keys already present
   * keep their place; new ones follow in that order.
   */
  method SaveYamlFile(entry: Dict, category: string, today: string) returns (filename: string, data: Dict)
    requires Lookup(entry, "name").Some? && Lookup(entry, "name").value.Str?
    ensures filename == Filename(Lookup(entry, "name").value.s) && IsSlug(filename)
    ensures Lookup(data, "category") == Some(Str(category)) && Lookup(data, "added_date") == Some(Str(today))
    ensures Lookup(data, "verified") == Some(Bool(false)) && Lookup(data, "type") == Some(Str(TypeFor(category)))
    ensures Extends(entry, data, MetadataKeys)
  {
    var name := Lookup(entry, "name").value.s;
    filename := Filename(name);
    FilenameIsSlug(name);
    data := entry;
    data := SetMetadata(entry, data, "category", Str(category));
    data := SetMetadata(entry, data, "added_date", Str(today));
    data := SetMetadata(entry, data, "verified", Bool(false));
    var kind := TypeFor(category);
    data := SetMetadata(entry, data, "type", Str(kind));
  }

  /**
   * `e` is `d` with keys of `ks` set: the keys of `d` come first in their
   * order, new keys are from `ks`, and every other key keeps its value.
   */
  ghost predicate Extends(d: Dict, e: Dict, ks: seq<string>)
  {
    |Keys(d)| <= |Keys(e)| && Keys(e)[..|Keys(d)|] == Keys(d) &&
    (forall k <- Keys(e) :: k in Keys(d) || k in ks) &&
    (forall k :: k !in ks ==> Lookup(e, k) == Lookup(d, k))
  }

  /** One metadata assignment of `save_yaml_file`. */
  function SetMetadata(d: Dict, e: Dict, key: string, value: Value): (r: Dict)
    requires key in MetadataKeys && (d == e || Extends(d, e, MetadataKeys))
    ensures Extends(d, r, MetadataKeys) && Lookup(r, key) == Some(value)
    ensures forall k :: k != key ==> Lookup(r, k) == Lookup(e, k)
  {
    SetKeyExtends(d, e, key, value);
    SetKey(e, key, value)
  }

  lemma SetKeyExtends(d: Dict, e: Dict, key: string, value: Value)
    requires key in MetadataKeys && (d == e || Extends(d, e, MetadataKeys))
    ensures Extends(d, SetKey(e, key, value), MetadataKeys)
  {
    var r := SetKey(e, key, value);
    KeysGrow(Keys(d), Keys(e), Keys(r), key, MetadataKeys);
  }

  /** Appending a key from `ks` when it is missing keeps an extension an extension. */
  lemma KeysGrow(kd: seq<string>, ke: seq<string>, kr: seq<string>, key: string, ks: seq<string>)
    requires |kd| <= |ke| && ke[..|kd|] == kd && forall k <- ke :: k in kd || k in ks
    requires key in ks && kr == if key in ke then ke else ke + [key]
    ensures |kd| <= |kr| && kr[..|kd|] == kd && forall k <- kr :: k in kd || k in ks
  {
    if key !in ke {
      assert kr[..|ke|] == ke;
    }
  }

  const MetadataKeys: seq<string> := ["category", "added_date", "verified", "type"]
}
