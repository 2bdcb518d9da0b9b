// The checks of the validator: loading and validating one file, the category
// ids a directory defines, references to unknown categories, URL
// normalisation for duplicate detection, duplicate detection itself, and the
// run that combines them into an error list and an exit status.

module Validate {
  import opened Strings
  import opened Sorting
  import opened YamlValue
  import opened Schema
  import opened ValidatePaths

  /** A file that passed validation, with its raw loaded mapping. */
  datatype ValidatedEntry = ValidatedEntry(path: Path, data: Record, kind: Kind)

  // ------------------------------------------------------ one file

  datatype FileCheck =
    | Passed(data: Record)
    | SyntaxFailure(detail: string)
    | LoadFailure(reason: string)
    | ValidationFailure(error: SchemaError)

  /** Load, require a non-empty mapping, then validate it against the schema. */
  function ValidateYamlFile(outcome: LoadOutcome, schema: seq<Field>, isUrl: string -> bool): (r: FileCheck)
    ensures r.Passed? ==> r.data.Keys <= Names(schema)
  {
    match outcome
    case Unreadable(reason) => LoadFailure(reason)
    case SyntaxError(detail) => SyntaxFailure(detail)
    case Parsed(Null) => LoadFailure("Empty YAML file")
    case Parsed(Mapping(m)) =>
      (match ValidateRecord(schema, m, isUrl)
       case Ok(_) => Passed(m)
       case Err(e) => ValidationFailure(e))
    case Parsed(_) => LoadFailure("YAML content must be a mapping")
  }

  /** A file passes exactly when it parses to a mapping that conforms to the schema. */
  lemma ValidateYamlFileIff(outcome: LoadOutcome, schema: seq<Field>, isUrl: string -> bool, m: Record)
    ensures ValidateYamlFile(outcome, schema, isUrl) == Passed(m)
        <==> outcome == Parsed(Mapping(m)) && Conforms(schema, m, isUrl)
  {
    ValidateRecordIff(schema, m, isUrl);
  }

  // ------------------------------------------------------ category ids

  /** The id a category file contributes: a truthy `id` of a loaded mapping. */
  function CategoryIdOf(file: Path, outcome: LoadOutcome): (r: Option<string>)
    ensures r.Some? ==> outcome.Parsed? && outcome.doc.Mapping?
  {
    if Name(file) == ".gitkeep" then None
    else
      match outcome
      case Parsed(Mapping(m)) => if Truthy(Get(m, "id")) then PyStr(Get(m, "id")) else None
      case _ => None
  }

  /** The ids a category directory defines: those of its files, none when it is missing. */
  function CategoryIds(dirExists: bool, listing: seq<Path>, load: Path -> LoadOutcome): (ids: set<string>)
    ensures forall id :: id in ids <==>
      dirExists && exists i :: 0 <= i < |listing| && CategoryIdOf(listing[i], load(listing[i])) == Some(id)
  {
    if !dirExists then {}
    else set i | 0 <= i < |listing| && CategoryIdOf(listing[i], load(listing[i])).Some?
               :: CategoryIdOf(listing[i], load(listing[i])).value
  }

  /**
   * `load_category_ids`: `listing` is what `glob("*.yml")` found in the
   * directory and `load` what loading each file gives.
   */
  method LoadCategoryIds(dirExists: bool, listing: seq<Path>, load: Path -> LoadOutcome) returns (ids: set<string>)
    ensures forall id :: id in ids <==>
      dirExists && exists i :: 0 <= i < |listing| && CategoryIdOf(listing[i], load(listing[i])) == Some(id)
    ensures ids == CategoryIds(dirExists, listing, load)
  {
    ids := {};
    if !dirExists {
      return;
    }
    var i := 0;
    while i < |listing|
      invariant 0 <= i <= |listing|
      invariant forall id :: id in ids <==>
        exists j :: 0 <= j < i && CategoryIdOf(listing[j], load(listing[j])) == Some(id)
    {
      var found := CategoryIdOf(listing[i], load(listing[i]));
      if found.Some? {
        ids := ids + {found.value};
      }
      i := i + 1;
    }
  }

  // ------------------------------------------------------ category references

  datatype UnknownCategory = UnknownCategory(path: Path, entryKind: Kind, category: Value)

  /** `category and category not in valid_ids`; only a string can be a member. */
  predicate RefersToUnknown(e: ValidatedEntry, validIds: set<string>)
  {
    var c := Get(e.data, "category");
    Truthy(c) && !(c.Str? && c.s in validIds)
  }

  function UnknownRefs(entries: seq<ValidatedEntry>, validIds: set<string>, entryKind: Kind): seq<UnknownCategory>
  {
    if entries == [] then []
    else
      var e := entries[|entries| - 1];
      UnknownRefs(entries[..|entries| - 1], validIds, entryKind)
      + if RefersToUnknown(e, validIds) then [UnknownCategory(e.path, entryKind, Get(e.data, "category"))] else []
  }

  method CheckCategoryReferences(entries: seq<ValidatedEntry>, validIds: set<string>, entryKind: Kind)
    returns (errors: seq<UnknownCategory>)
    ensures errors == UnknownRefs(entries, validIds, entryKind)
  {
    errors := [];
    var i := 0;
    while i < |entries|
      invariant 0 <= i <= |entries|
      invariant errors == UnknownRefs(entries[..i], validIds, entryKind)
    {
      assert entries[..i + 1][..i] == entries[..i];
      var category := Get(entries[i].data, "category");
      if Truthy(category) && !(category.Str? && category.s in validIds) {
        errors := errors + [UnknownCategory(entries[i].path, entryKind, category)];
      }
      i := i + 1;
    }
    assert entries[..i] == entries;
  }

  /**
   * Exactly the entries with a truthy category outside the known ids are
   * reported, each with its own path and category.
   */
  lemma {:induction false} UnknownRefsExact(entries: seq<ValidatedEntry>, validIds: set<string>, entryKind: Kind)
    ensures forall err :: err in UnknownRefs(entries, validIds, entryKind) <==>
      exists e :: e in entries && RefersToUnknown(e, validIds)
                  && err == UnknownCategory(e.path, entryKind, Get(e.data, "category"))
  {
    if entries != [] {
      var init := entries[..|entries| - 1];
      UnknownRefsExact(init, validIds, entryKind);
      assert entries == init + [entries[|entries| - 1]];
    }
  }

  /** An entry whose category is a known id is never reported. */
  lemma KnownCategoryAccepted(entries: seq<ValidatedEntry>, validIds: set<string>, entryKind: Kind, e: ValidatedEntry)
    requires e in entries && Get(e.data, "category").Str?
    requires Get(e.data, "category").s in validIds
    requires forall e' :: e' in entries && e'.path == e.path ==> e' == e
    ensures forall err :: err in UnknownRefs(entries, validIds, entryKind) ==> err.path != e.path
  {
    UnknownRefsExact(entries, validIds, entryKind);
  }

  // ------------------------------------------------------ URL normalisation

  /** The six parts `urlparse` splits a URL into. */
  datatype Url = Url(scheme: string, netloc: string, path: string, params: string, query: string, fragment: string)

  /**
   * http and https become https, the host is lower-cased, every trailing
   * slash leaves the path except a lone "/", and the fragment is dropped.
   */
  function NormalizeUrl(u: Url): (r: Url)
    ensures r.scheme == "https" <==> u.scheme in {"http", "https"}
    ensures u.scheme !in {"http", "https"} ==> r.scheme == u.scheme
    ensures r.netloc == Lower(u.netloc)
    ensures r.path == u.path || (u.path != "/" && r.path == RStripChar(u.path, '/'))
    ensures r.path == "" || r.path == "/" || r.path[|r.path| - 1] != '/'
    ensures r.params == u.params && r.query == u.query && r.fragment == ""
  {
    Url(if u.scheme in {"http", "https"} then "https" else u.scheme,
        Lower(u.netloc),
        if u.path != "/" then RStripChar(u.path, '/') else u.path,
        u.params, u.query, "")
  }

  lemma RStripCharIdempotent(s: string, c: char)
    ensures RStripChar(RStripChar(s, c), c) == RStripChar(s, c)
  {
  }

  lemma NormalizeUrlIdempotent(u: Url)
    ensures NormalizeUrl(NormalizeUrl(u)) == NormalizeUrl(u)
  {
    LowerIdempotent(u.netloc);
    RStripCharIdempotent(u.path, '/');
  }

  /**
   * What the normalisation forgets: http versus https, host case, the
   * fragment, and slashes appended to a path other than "" and "/".
   */
  lemma NormalizeUrlForgets(u: Url, f: string)
    ensures NormalizeUrl(u.(scheme := "http")) == NormalizeUrl(u.(scheme := "https"))
    ensures NormalizeUrl(u.(netloc := Lower(u.netloc))) == NormalizeUrl(u)
    ensures NormalizeUrl(u.(fragment := f)) == NormalizeUrl(u)
    ensures u.path != "" && u.path != "/" ==> NormalizeUrl(u.(path := u.path + "/")) == NormalizeUrl(u)
  {
    LowerIdempotent(u.netloc);
    if u.path != "" {
      var p := u.path + "/";
      assert p[..|p| - 1] == u.path;
    }
  }

  /**
   * What it keeps: a different query, params, other scheme or host (up to
   * case) is another URL.
   */
  lemma NormalizeUrlKeeps(u: Url, v: Url)
    requires NormalizeUrl(u) == NormalizeUrl(v)
    ensures u.query == v.query && u.params == v.params
    ensures u.scheme !in {"http", "https"} ==> u.scheme == v.scheme
    ensures Lower(u.netloc) == Lower(v.netloc) && |u.netloc| == |v.netloc|
  {
  }

  /**
   * The root path stays, so a bare host and the host with "/" are different
   * keys, while "//" collapses onto the bare host.
   */
  lemma RootSlashKept(u: Url)
    requires u.path == "/"
    ensures NormalizeUrl(u).path == "/"
    ensures NormalizeUrl(u.(path := "")).path == ""
    ensures NormalizeUrl(u.(path := "//")).path == ""
  {
    assert RStripChar("/", '/') == "";
    assert "//"[..1] == "/";
  }

  const UsesNetloc: set<string> := {
    "", "ftp", "http", "gopher", "nntp", "telnet", "imap", "wais", "file", "mms", "https",
    "shttp", "snews", "prospero", "rtsp", "rtsps", "rtspu", "rsync", "svn", "svn+ssh",
    "sftp", "nfs", "git", "git+ssh", "ws", "wss", "itms-services"}

  /** `urlunparse` with the `urlunsplit` netloc rule of Python releases before the change for gh-67693. */
  function Unparse(u: Url): (r: string)
    ensures u.scheme != "" ==> IsPrefix(u.scheme + ":", r)
  {
    var path := if u.params != "" then u.path + ";" + u.params else u.path;
    var withNet :=
      if u.netloc != "" || (u.scheme != "" && u.scheme in UsesNetloc && !IsPrefix("//", path)) then
        "//" + u.netloc + (if path != "" && path[0] != '/' then "/" + path else path)
      else path;
    var withScheme := if u.scheme != "" then u.scheme + ":" + withNet else withNet;
    var withQuery := if u.query != "" then withScheme + "?" + u.query else withScheme;
    if u.fragment != "" then withQuery + "#" + u.fragment else withQuery
  }

  /** `normalize_url`: a URL `urlparse` rejects is its own key. */
  function NormalizeUrlString(s: string, parse: string -> Option<Url>): (r: string)
    ensures parse(s).None? ==> r == s
    ensures parse(s).Some? ==> r == Unparse(NormalizeUrl(parse(s).value))
  {
    match parse(s)
    case None => s
    case Some(u) => Unparse(NormalizeUrl(u))
  }

  /** A web URL with a host and an absolute path is written back as `scheme://host/path`. */
  lemma UnparseWebUrl(u: Url)
    requires u.scheme == "https" && u.netloc != ""
    requires u.path == "" || u.path[0] == '/'
    requires u.params == "" && u.query == "" && u.fragment == ""
    ensures Unparse(u) == "https://" + u.netloc + u.path
  {
  }

  lemma ExampleParts()
    ensures Lower("Example.COM") == Lower("example.com") == "example.com"
    ensures RStripChar("/agents/", '/') == RStripChar("/agents", '/') == "/agents"
  {
    assert "/agents/"[..7] == "/agents";
  }

  /** Two spellings of one page give one key. */
  lemma NormalizeUrlExample(parse: string -> Option<Url>, a: string, b: string)
    requires parse(a) == Some(Url("http", "Example.COM", "/agents/", "", "", "top"))
    requires parse(b) == Some(Url("https", "example.com", "/agents", "", "", ""))
    ensures NormalizeUrlString(a, parse) == NormalizeUrlString(b, parse) == "https://example.com/agents"
  {
    var n := Url("https", "example.com", "/agents", "", "", "");
    ExampleParts();
    assert NormalizeUrl(parse(a).value) == n;
    assert NormalizeUrl(parse(b).value) == n;
    UnparseWebUrl(n);
    ExampleUrlText();
  }

  lemma ExampleUrlText()
    ensures "https://" + "example.com" + "/agents" == "https://example.com/agents"
  {
    var x := "https://" + "example.com";
    assert x == "https://example.com";
  }

  // ------------------------------------------------------ duplicates

  /**
   * The grouping key of an entry: `str(value)` of a truthy field, passed
   * through the URL normalisation `urlKey` for the `url` field.
   */
  function DupKey(e: ValidatedEntry, field: string, normalize: bool, urlKey: string -> string): Option<string>
  {
    var v := Get(e.data, field);
    if !Truthy(v) then None
    else
      match PyStr(v)
      case None => None
      case Some(k) => Some(if normalize && field == "url" then urlKey(k) else k)
  }

  /** The keys of the entries, in entry order, with repetitions. */
  function KeysOf(entries: seq<ValidatedEntry>, field: string, normalize: bool, urlKey: string -> string): seq<string>
  {
    if entries == [] then []
    else
      KeysOf(entries[..|entries| - 1], field, normalize, urlKey)
      + match DupKey(entries[|entries| - 1], field, normalize, urlKey)
        case None => []
        case Some(k) => [k]
  }

  /** The entries whose key is `k`, in entry order. */
  function Members(entries: seq<ValidatedEntry>, field: string, normalize: bool, urlKey: string -> string, k: string)
    : (r: seq<ValidatedEntry>)
    ensures |r| <= |entries|
  {
    if entries == [] then []
    else
      Members(entries[..|entries| - 1], field, normalize, urlKey, k)
      + if DupKey(entries[|entries| - 1], field, normalize, urlKey) == Some(k) then [entries[|entries| - 1]] else []
  }

  datatype Duplicate = Duplicate(field: string, key: string, members: seq<ValidatedEntry>)

  function ReportKeys(keys: seq<string>, entries: seq<ValidatedEntry>, field: string, normalize: bool, urlKey: string -> string)
    : seq<Duplicate>
  {
    if keys == [] then []
    else
      var k := keys[|keys| - 1];
      var m := Members(entries, field, normalize, urlKey, k);
      ReportKeys(keys[..|keys| - 1], entries, field, normalize, urlKey)
      + if |m| > 1 then [Duplicate(field, k, m)] else []
  }

  /** What `check_duplicates` reports: one group per shared key, keys in string order. */
  function DuplicateReport(entries: seq<ValidatedEntry>, field: string, normalize: bool, urlKey: string -> string)
    : seq<Duplicate>
  {
    ReportKeys(SortByKey(Dedup(KeysOf(entries, field, normalize, urlKey)), StrKey), entries, field, normalize, urlKey)
  }

  lemma KeysOfSnoc(entries: seq<ValidatedEntry>, e: ValidatedEntry, field: string, normalize: bool, urlKey: string -> string)
    ensures DupKey(e, field, normalize, urlKey).None? ==>
      KeysOf(entries + [e], field, normalize, urlKey) == KeysOf(entries, field, normalize, urlKey)
    ensures DupKey(e, field, normalize, urlKey).Some? ==>
      KeysOf(entries + [e], field, normalize, urlKey)
      == KeysOf(entries, field, normalize, urlKey) + [DupKey(e, field, normalize, urlKey).value]
  {
    assert (entries + [e])[..|entries|] == entries;
    assert KeysOf(entries, field, normalize, urlKey) + [] == KeysOf(entries, field, normalize, urlKey);
  }

  /** The dictionary `setdefault(...).append(entry)` builds: key to its entries. */
  function GroupsOf(entries: seq<ValidatedEntry>, field: string, normalize: bool, urlKey: string -> string)
    : map<string, seq<ValidatedEntry>>
  {
    if entries == [] then map[]
    else
      var groups := GroupsOf(entries[..|entries| - 1], field, normalize, urlKey);
      var e := entries[|entries| - 1];
      match DupKey(e, field, normalize, urlKey)
      case None => groups
      case Some(k) => groups[k := (if k in groups then groups[k] else []) + [e]]
  }

  /** Each key of the dictionary is a key of some entry, and maps to exactly the entries with that key. */
  lemma {:induction false} GroupsOfExact(entries: seq<ValidatedEntry>, field: string, normalize: bool, urlKey: string -> string, k: string)
    ensures k in GroupsOf(entries, field, normalize, urlKey) <==> k in KeysOf(entries, field, normalize, urlKey)
    ensures k in GroupsOf(entries, field, normalize, urlKey) ==>
      GroupsOf(entries, field, normalize, urlKey)[k] == Members(entries, field, normalize, urlKey, k)
    ensures k !in GroupsOf(entries, field, normalize, urlKey) ==> Members(entries, field, normalize, urlKey, k) == []
  {
    if entries != [] {
      GroupsOfExact(entries[..|entries| - 1], field, normalize, urlKey, k);
    }
  }

  lemma GroupsOfSnoc(entries: seq<ValidatedEntry>, e: ValidatedEntry, field: string, normalize: bool, urlKey: string -> string)
    ensures var groups := GroupsOf(entries, field, normalize, urlKey);
      GroupsOf(entries + [e], field, normalize, urlKey)
      == match DupKey(e, field, normalize, urlKey)
         case None => groups
         case Some(k) => groups[k := (if k in groups then groups[k] else []) + [e]]
  {
    assert (entries + [e])[..|entries|] == entries;
  }

  /** The `setdefault(...).append(entry)` pass, with the dictionary's insertion order beside it. */
  method GroupByKey(entries: seq<ValidatedEntry>, field: string, normalize: bool, urlKey: string -> string)
    returns (order: seq<string>, groups: map<string, seq<ValidatedEntry>>)
    ensures order == Dedup(KeysOf(entries, field, normalize, urlKey))
    ensures groups == GroupsOf(entries, field, normalize, urlKey)
  {
    order := [];
    groups := map[];
    var i := 0;
    while i < |entries|
      invariant 0 <= i <= |entries|
      invariant order == Dedup(KeysOf(entries[..i], field, normalize, urlKey))
      invariant groups == GroupsOf(entries[..i], field, normalize, urlKey)
    {
      var e := entries[i];
      assert entries[..i + 1] == entries[..i] + [e];
      KeysOfSnoc(entries[..i], e, field, normalize, urlKey);
      GroupsOfSnoc(entries[..i], e, field, normalize, urlKey);
      var key := DupKey(e, field, normalize, urlKey);
      if key.Some? {
        var k := key.value;
        DedupSnoc(KeysOf(entries[..i], field, normalize, urlKey), k);
        GroupsOfExact(entries[..i], field, normalize, urlKey, k);
        assert k in KeysOf(entries[..i], field, normalize, urlKey) <==> k in Elems(order);
        if k !in groups {
          order := order + [k];
        }
        var matched := if k in groups then groups[k] else [];
        groups := groups[k := matched + [e]];
      }
      i := i + 1;
    }
    assert entries[..i] == entries;
  }

  lemma ReportKeysStep(keys: seq<string>, i: nat, entries: seq<ValidatedEntry>, field: string, normalize: bool, urlKey: string -> string)
    requires i < |keys|
    ensures var m := Members(entries, field, normalize, urlKey, keys[i]);
      ReportKeys(keys[..i + 1], entries, field, normalize, urlKey)
      == ReportKeys(keys[..i], entries, field, normalize, urlKey) + if |m| > 1 then [Duplicate(field, keys[i], m)] else []
  {
    assert keys[..i + 1][..i] == keys[..i];
  }

  /** The reporting pass over the keys in sorted order. */
  method ReportGroups(keys: seq<string>, groups: map<string, seq<ValidatedEntry>>,
                      entries: seq<ValidatedEntry>, field: string, normalize: bool, urlKey: string -> string)
    returns (errors: seq<Duplicate>)
    requires KnownGroups(keys, groups, entries, field, normalize, urlKey)
    ensures errors == ReportKeys(keys, entries, field, normalize, urlKey)
  {
    errors := [];
    var i := 0;
    while i < |keys|
      invariant 0 <= i <= |keys|
      invariant errors == ReportKeys(keys[..i], entries, field, normalize, urlKey)
    {
      var k := keys[i];
      ReportKeysStep(keys, i, entries, field, normalize, urlKey);
      KnownGroupAt(keys, groups, entries, field, normalize, urlKey, i);
      var matched := groups[k];
      if |matched| > 1 {
        errors := errors + [Duplicate(field, k, matched)];
      }
      i := i + 1;
    }
    assert keys[..i] == keys;
  }

  method CheckDuplicates(entries: seq<ValidatedEntry>, field: string, normalize: bool, urlKey: string -> string)
    returns (errors: seq<Duplicate>)
    ensures errors == DuplicateReport(entries, field, normalize, urlKey)
  {
    var order, groups := GroupByKey(entries, field, normalize, urlKey);
    var keys := SortByKey(order, StrKey);
    forall k <- keys ensures k in groups && groups[k] == Members(entries, field, normalize, urlKey, k) {
      assert k in multiset(order);
      GroupsOfExact(entries, field, normalize, urlKey, k);
      assert k in Elems(KeysOf(entries, field, normalize, urlKey));
    }
    errors := ReportGroups(keys, groups, entries, field, normalize, urlKey);
  }

  /** Every key of `keys` is grouped under exactly the entries that carry it. */
  predicate KnownGroups(keys: seq<string>, groups: map<string, seq<ValidatedEntry>>,
                        entries: seq<ValidatedEntry>, field: string, normalize: bool, urlKey: string -> string)
  {
    forall k <- keys :: k in groups && groups[k] == Members(entries, field, normalize, urlKey, k)
  }

  lemma KnownGroupAt(keys: seq<string>, groups: map<string, seq<ValidatedEntry>>,
                     entries: seq<ValidatedEntry>, field: string, normalize: bool, urlKey: string -> string, i: nat)
    requires KnownGroups(keys, groups, entries, field, normalize, urlKey) && i < |keys|
    ensures keys[i] in groups && groups[keys[i]] == Members(entries, field, normalize, urlKey, keys[i])
  {
  }

  lemma {:induction false} MembersHaveKey(entries: seq<ValidatedEntry>, field: string, normalize: bool, urlKey: string -> string, k: string)
    ensures forall e :: e in Members(entries, field, normalize, urlKey, k) <==>
      e in entries && DupKey(e, field, normalize, urlKey) == Some(k)
  {
    if entries != [] {
      MembersHaveKey(entries[..|entries| - 1], field, normalize, urlKey, k);
      assert entries == entries[..|entries| - 1] + [entries[|entries| - 1]];
    }
  }

  lemma {:induction false} KeysOfExact(entries: seq<ValidatedEntry>, field: string, normalize: bool, urlKey: string -> string)
    ensures forall k :: k in KeysOf(entries, field, normalize, urlKey) <==>
      exists e :: e in entries && DupKey(e, field, normalize, urlKey) == Some(k)
  {
    if entries != [] {
      KeysOfExact(entries[..|entries| - 1], field, normalize, urlKey);
      assert entries == entries[..|entries| - 1] + [entries[|entries| - 1]];
    }
  }

  lemma {:induction false} ReportKeysExact(keys: seq<string>, entries: seq<ValidatedEntry>, field: string, normalize: bool, urlKey: string -> string)
    ensures forall d :: d in ReportKeys(keys, entries, field, normalize, urlKey) <==>
      d.key in keys && d.field == field && d.members == Members(entries, field, normalize, urlKey, d.key)
      && |d.members| > 1
  {
    if keys != [] {
      ReportKeysExact(keys[..|keys| - 1], entries, field, normalize, urlKey);
      assert keys == keys[..|keys| - 1] + [keys[|keys| - 1]];
    }
  }

  /**
   * A group is reported exactly for every key that two or more entries
   * share; it lists all of them, in entry order, and nothing else.
   */
  lemma DuplicateReportExact(entries: seq<ValidatedEntry>, field: string, normalize: bool, urlKey: string -> string, d: Duplicate)
    ensures d in DuplicateReport(entries, field, normalize, urlKey) <==>
      d.field == field && d.members == Members(entries, field, normalize, urlKey, d.key) && |d.members| >= 2
  {
    var keys := KeysOf(entries, field, normalize, urlKey);
    var sorted := SortByKey(Dedup(keys), StrKey);
    ReportKeysExact(sorted, entries, field, normalize, urlKey);
    ElemsOfPermutation(Dedup(keys), sorted);
    assert d.key in sorted <==> d.key in Elems(sorted);
    assert d.key in Dedup(keys) <==> d.key in Elems(Dedup(keys));
    assert d.key in keys <==> d.key in Elems(keys);
    KeysOfExact(entries, field, normalize, urlKey);
    MembersHaveKey(entries, field, normalize, urlKey, d.key);
    if |Members(entries, field, normalize, urlKey, d.key)| >= 2 {
      var m := Members(entries, field, normalize, urlKey, d.key);
      assert m[0] in m;
    }
  }

  /** Two entries with the same key are always reported together. */
  lemma DuplicateFound(entries: seq<ValidatedEntry>, field: string, normalize: bool, urlKey: string -> string, i: nat, j: nat, k: string)
    requires i < j < |entries|
    requires DupKey(entries[i], field, normalize, urlKey) == Some(k) == DupKey(entries[j], field, normalize, urlKey)
    ensures Duplicate(field, k, Members(entries, field, normalize, urlKey, k)) in DuplicateReport(entries, field, normalize, urlKey)
  {
    MembersCount(entries, field, normalize, urlKey, k, i, j);
    DuplicateReportExact(entries, field, normalize, urlKey, Duplicate(field, k, Members(entries, field, normalize, urlKey, k)));
  }

  lemma {:induction false} MembersCount(entries: seq<ValidatedEntry>, field: string, normalize: bool, urlKey: string -> string, k: string, i: nat, j: nat)
    requires i < j < |entries|
    requires DupKey(entries[i], field, normalize, urlKey) == Some(k) == DupKey(entries[j], field, normalize, urlKey)
    ensures |Members(entries, field, normalize, urlKey, k)| >= 2
  {
    var init := entries[..|entries| - 1];
    if j < |entries| - 1 {
      assert init[i] == entries[i] && init[j] == entries[j];
      MembersCount(init, field, normalize, urlKey, k, i, j);
    } else {
      assert init[i] == entries[i];
      MembersHaveKey(init, field, normalize, urlKey, k);
      assert entries[i] in Members(init, field, normalize, urlKey, k);
    }
  }

  /** Every key before every later one in string order, and no key twice. */
  predicate KeysAscending(r: seq<Duplicate>)
  {
    forall i, j :: 0 <= i < j < |r| ==> LexLe(StrKey(r[i].key), StrKey(r[j].key)) && r[i].key != r[j].key
  }

  /** Groups come out in strictly increasing string order of their keys. */
  lemma DuplicateReportOrdered(entries: seq<ValidatedEntry>, field: string, normalize: bool, urlKey: string -> string)
    ensures KeysAscending(DuplicateReport(entries, field, normalize, urlKey))
  {
    var d := Dedup(KeysOf(entries, field, normalize, urlKey));
    var sorted := SortByKey(d, StrKey);
    SortByKeySorted(d, StrKey);
    NoDuplicatesPermutation(d, sorted);
    ReportKeysSubsequence(sorted, entries, field, normalize, urlKey);
  }

  lemma {:induction false} ReportKeysFrom(keys: seq<string>, entries: seq<ValidatedEntry>, field: string, normalize: bool, urlKey: string -> string)
    ensures forall d :: d in ReportKeys(keys, entries, field, normalize, urlKey) ==> d.key in keys
  {
    if keys != [] {
      ReportKeysFrom(keys[..|keys| - 1], entries, field, normalize, urlKey);
    }
  }

  lemma {:induction false} ReportKeysSubsequence(keys: seq<string>, entries: seq<ValidatedEntry>, field: string, normalize: bool, urlKey: string -> string)
    requires SortedBy(keys, StrKey) && NoDuplicates(keys)
    ensures KeysAscending(ReportKeys(keys, entries, field, normalize, urlKey))
  {
    if keys != [] {
      var init := keys[..|keys| - 1];
      var last := keys[|keys| - 1];
      SortedInit(keys, StrKey);
      ReportKeysSubsequence(init, entries, field, normalize, urlKey);
      ReportKeysFrom(init, entries, field, normalize, urlKey);
      var r0 := ReportKeys(init, entries, field, normalize, urlKey);
      var m := Members(entries, field, normalize, urlKey, last);
      if |m| > 1 {
        var r := r0 + [Duplicate(field, last, m)];
        assert ReportKeys(keys, entries, field, normalize, urlKey) == r;
        forall i, j | 0 <= i < j < |r| ensures LexLe(StrKey(r[i].key), StrKey(r[j].key)) && r[i].key != r[j].key {
          assert r[i] == r0[i] && r0[i] in r0;
          if j < |r0| {
            assert r[j] == r0[j];
          } else {
            assert r0[i].key in init;
            assert r[j].key == last;
          }
        }
      }
    }
  }

  /** `github_repo` is compared as written: the same repository in another case is not a duplicate. */
  lemma RepoKeyIsCaseSensitive(e: ValidatedEntry, normalize: bool, urlKey: string -> string)
    requires Get(e.data, "github_repo") == Str("Owner/Repo")
    ensures DupKey(e, "github_repo", normalize, urlKey) == Some("Owner/Repo")
  {
  }

  // ------------------------------------------------------ the whole run

  datatype Issue =
    | DataDirMissing
    | PathIssue(pathError: PathError)
    | FileIssue(path: Path, check: FileCheck)
    | CategoryIssue(unknown: UnknownCategory)
    | DuplicateIssue(duplicate: Duplicate)

  /** Validating every file of one kind: passed files, failures, and the entries kept. */
  datatype KindOutcome = KindOutcome(passed: seq<Path>, issues: seq<Issue>, entries: seq<ValidatedEntry>)

  function ValidateAll(files: seq<Path>, k: Kind, schema: seq<Field>, load: Path -> LoadOutcome, isUrl: string -> bool)
    : (r: KindOutcome)
    ensures |r.passed| + |r.issues| == |files|
  {
    if files == [] then KindOutcome([], [], [])
    else
      var f := files[|files| - 1];
      Tally(ValidateAll(files[..|files| - 1], k, schema, load, isUrl), f, ValidateYamlFile(load(f), schema, isUrl), k)
  }

  /** One more file of kind `k` checked: a pass (its entry kept when not empty) or a failure. */
  function Tally(before: KindOutcome, f: Path, check: FileCheck, k: Kind): (r: KindOutcome)
    ensures |r.passed| + |r.issues| == |before.passed| + |before.issues| + 1
  {
    match check
    case Passed(data) =>
      KindOutcome(before.passed + [f], before.issues,
                  if data != map[] then before.entries + [ValidatedEntry(f, data, k)] else before.entries)
    case failure => KindOutcome(before.passed, before.issues + [FileIssue(f, failure)], before.entries)
  }

  method ValidateKind(files: seq<Path>, k: Kind, schema: seq<Field>, load: Path -> LoadOutcome, isUrl: string -> bool)
    returns (outcome: KindOutcome)
    ensures outcome == ValidateAll(files, k, schema, load, isUrl)
  {
    outcome := KindOutcome([], [], []);
    var i := 0;
    while i < |files|
      invariant 0 <= i <= |files|
      invariant outcome == ValidateAll(files[..i], k, schema, load, isUrl)
    {
      ValidateAllStep(files, i, k, schema, load, isUrl);
      var f := files[i];
      var check := ValidateYamlFile(load(f), schema, isUrl);
      outcome := TallyFile(outcome, f, check, k);
      i := i + 1;
    }
    assert files[..i] == files;
  }

  /** The loop body: a passed file is counted (and its entry kept when not empty), a failure recorded. */
  method TallyFile(before: KindOutcome, f: Path, check: FileCheck, k: Kind) returns (outcome: KindOutcome)
    ensures outcome == Tally(before, f, check, k)
  {
    if check.Passed? {
      var entries := before.entries;
      if check.data != map[] {
        entries := entries + [ValidatedEntry(f, check.data, k)];
      }
      outcome := KindOutcome(before.passed + [f], before.issues, entries);
    } else {
      outcome := KindOutcome(before.passed, before.issues + [FileIssue(f, check)], before.entries);
    }
  }

  lemma ValidateAllStep(files: seq<Path>, i: nat, k: Kind, schema: seq<Field>, load: Path -> LoadOutcome, isUrl: string -> bool)
    requires i < |files|
    ensures ValidateAll(files[..i + 1], k, schema, load, isUrl)
         == Tally(ValidateAll(files[..i], k, schema, load, isUrl), files[i], ValidateYamlFile(load(files[i]), schema, isUrl), k)
  {
    assert files[..i + 1][..i] == files[..i];
  }

  /**
   * No failure means every file passed; every kept entry is a listed file
   * of that kind whose non-empty data conforms to the kind's schema.
   */
  lemma {:induction false} ValidateAllSound(files: seq<Path>, k: Kind, schema: seq<Field>, load: Path -> LoadOutcome, isUrl: string -> bool)
    ensures ValidateAll(files, k, schema, load, isUrl).issues == [] <==>
      forall f <- files :: ValidateYamlFile(load(f), schema, isUrl).Passed?
    ensures forall e <- ValidateAll(files, k, schema, load, isUrl).entries ::
      e.kind == k && e.path in files && e.data != map[] && Conforms(schema, e.data, isUrl)
  {
    if files != [] {
      var init := files[..|files| - 1];
      var f := files[|files| - 1];
      ValidateAllSound(init, k, schema, load, isUrl);
      assert forall g <- files :: g in init || g == f;
      assert forall g <- init :: g in files;
      var check := ValidateYamlFile(load(f), schema, isUrl);
      var before := ValidateAll(init, k, schema, load, isUrl);
      assert ValidateAll(files, k, schema, load, isUrl) == Tally(before, f, check, k);
      TallyFacts(before, f, check, k);
      if check.Passed? {
        ValidateYamlFileIff(load(f), schema, isUrl, check.data);
      }
    }
  }

  /** One tally step: no issue yet and a pass leaves no issue; a new entry is the file's own. */
  lemma TallyFacts(before: KindOutcome, f: Path, check: FileCheck, k: Kind)
    ensures Tally(before, f, check, k).issues == [] <==> before.issues == [] && check.Passed?
    ensures forall e <- Tally(before, f, check, k).entries ::
      e in before.entries || (check.Passed? && e == ValidatedEntry(f, check.data, k) && check.data != map[])
  {
  }

  function TotalFiles(files: Files): nat
  {
    |Lookup(files, Agent)| + |Lookup(files, Category)| + |Lookup(files, Boilerplate)|
    + |Lookup(files, BoilerplateCategory)|
  }

  function PathIssues(errors: seq<PathError>): (r: seq<Issue>)
    ensures |r| == |errors|
    ensures forall i :: 0 <= i < |errors| ==> r[i] == PathIssue(errors[i])
  {
    seq(|errors|, i requires 0 <= i < |errors| => PathIssue(errors[i]))
  }

  /** Every collected file passes validation against the schema of its kind. */
  ghost predicate AllFilesPass(files: Files, schemaOf: Kind -> seq<Field>, load: Path -> LoadOutcome, isUrl: string -> bool)
  {
    forall k, f :: f in Lookup(files, k) ==> ValidateYamlFile(load(f), schemaOf(k), isUrl).Passed?
  }

  /** The files of kind `k` that pass, in order. */
  function KindPassed(files: Files, k: Kind, schemaOf: Kind -> seq<Field>, load: Path -> LoadOutcome, isUrl: string -> bool)
    : seq<Path>
  {
    ValidateAll(Lookup(files, k), k, schemaOf(k), load, isUrl).passed
  }

  /** The failures of the files of kind `k`, in order. */
  function KindIssues(files: Files, k: Kind, schemaOf: Kind -> seq<Field>, load: Path -> LoadOutcome, isUrl: string -> bool)
    : seq<Issue>
  {
    ValidateAll(Lookup(files, k), k, schemaOf(k), load, isUrl).issues
  }

  /** The entries kept from the passing, non-empty files of kind `k`, in order. */
  function KindEntries(files: Files, k: Kind, schemaOf: Kind -> seq<Field>, load: Path -> LoadOutcome, isUrl: string -> bool)
    : seq<ValidatedEntry>
  {
    ValidateAll(Lookup(files, k), k, schemaOf(k), load, isUrl).entries
  }

  /** Every file failure of the four validation loops, in kind order. */
  function FileIssues(files: Files, schemaOf: Kind -> seq<Field>, load: Path -> LoadOutcome, isUrl: string -> bool)
    : seq<Issue>
  {
    KindIssues(files, Agent, schemaOf, load, isUrl) + KindIssues(files, Category, schemaOf, load, isUrl)
    + KindIssues(files, Boilerplate, schemaOf, load, isUrl) + KindIssues(files, BoilerplateCategory, schemaOf, load, isUrl)
  }

  /** No file fails exactly when every collected file passes. */
  lemma FileIssuesEmpty(files: Files, schemaOf: Kind -> seq<Field>, load: Path -> LoadOutcome, isUrl: string -> bool)
    ensures FileIssues(files, schemaOf, load, isUrl) == [] <==> AllFilesPass(files, schemaOf, load, isUrl)
  {
    ValidateAllSound(Lookup(files, Agent), Agent, schemaOf(Agent), load, isUrl);
    ValidateAllSound(Lookup(files, Category), Category, schemaOf(Category), load, isUrl);
    ValidateAllSound(Lookup(files, Boilerplate), Boilerplate, schemaOf(Boilerplate), load, isUrl);
    ValidateAllSound(Lookup(files, BoilerplateCategory), BoilerplateCategory, schemaOf(BoilerplateCategory), load, isUrl);
    if FileIssues(files, schemaOf, load, isUrl) == [] {
      forall k, f | f in Lookup(files, k) ensures ValidateYamlFile(load(f), schemaOf(k), isUrl).Passed? {
        match k
        case Agent =>
        case Category =>
        case Boilerplate =>
        case BoilerplateCategory =>
      }
    }
  }

  /** The four validation loops of `main`, in kind order, each kind against `schemaOf` of it. */
  method ValidateCollected(files: Files, schemaOf: Kind -> seq<Field>, load: Path -> LoadOutcome, isUrl: string -> bool)
    returns (successes: seq<Path>, fileErrors: seq<Issue>, agents: seq<ValidatedEntry>, boilerplates: seq<ValidatedEntry>)
    ensures successes == KindPassed(files, Agent, schemaOf, load, isUrl) + KindPassed(files, Category, schemaOf, load, isUrl)
      + KindPassed(files, Boilerplate, schemaOf, load, isUrl) + KindPassed(files, BoilerplateCategory, schemaOf, load, isUrl)
    ensures fileErrors == FileIssues(files, schemaOf, load, isUrl)
    ensures agents == KindEntries(files, Agent, schemaOf, load, isUrl)
    ensures boilerplates == KindEntries(files, Boilerplate, schemaOf, load, isUrl)
    ensures |successes| + |fileErrors| == TotalFiles(files)
  {
    var a := ValidateKind(Lookup(files, Agent), Agent, schemaOf(Agent), load, isUrl);
    var c := ValidateKind(Lookup(files, Category), Category, schemaOf(Category), load, isUrl);
    var b := ValidateKind(Lookup(files, Boilerplate), Boilerplate, schemaOf(Boilerplate), load, isUrl);
    var bc := ValidateKind(Lookup(files, BoilerplateCategory), BoilerplateCategory, schemaOf(BoilerplateCategory), load, isUrl);
    successes := a.passed + c.passed + b.passed + bc.passed;
    fileErrors := a.issues + c.issues + b.issues + bc.issues;
    agents := a.entries;
    boilerplates := b.entries;
  }

  function CategoryIssues(unknown: seq<UnknownCategory>): (r: seq<Issue>)
    ensures |r| == |unknown|
  {
    seq(|unknown|, i requires 0 <= i < |unknown| => CategoryIssue(unknown[i]))
  }

  function DuplicateIssues(dups: seq<Duplicate>): (r: seq<Issue>)
    ensures |r| == |dups|
  {
    seq(|dups|, i requires 0 <= i < |dups| => DuplicateIssue(dups[i]))
  }

  /** The key `check_duplicates` compares URLs under: their normalised text. */
  function UrlKey(parse: string -> Option<Url>): string -> string
  {
    (s: string) => NormalizeUrlString(s, parse)
  }

  /** The entries searched for duplicates: agents then boilerplates, each when its kind is included. */
  function Combined(inc: IncludeMap, agents: seq<ValidatedEntry>, boilerplates: seq<ValidatedEntry>): seq<ValidatedEntry>
  {
    (if inc.agent then agents else []) + (if inc.boilerplate then boilerplates else [])
  }

  /** The category directories `main` reads the known ids from. */
  datatype CategoryDirs = CategoryDirs(agentDirExists: bool, agentListing: seq<Path>,
                                       boilerplateDirExists: bool, boilerplateListing: seq<Path>)

  /**
   * The unknown category references of agents, then of boilerplates, each
   * when its kind is included.
   */
  function ReferenceIssues(inc: IncludeMap, agents: seq<ValidatedEntry>, boilerplates: seq<ValidatedEntry>,
                           load: Path -> LoadOutcome, dirs: CategoryDirs): seq<Issue>
  {
    (if inc.agent
     then CategoryIssues(UnknownRefs(agents, CategoryIds(dirs.agentDirExists, dirs.agentListing, load), Agent))
     else [])
    + (if inc.boilerplate
       then CategoryIssues(UnknownRefs(boilerplates, CategoryIds(dirs.boilerplateDirExists, dirs.boilerplateListing, load), Boilerplate))
       else [])
  }

  /** Duplicate URLs, then duplicate repositories, among `combined`. */
  function DuplicateIssuesOf(combined: seq<ValidatedEntry>, parse: string -> Option<Url>): seq<Issue>
  {
    if combined != []
    then DuplicateIssues(DuplicateReport(combined, "url", true, UrlKey(parse)))
         + DuplicateIssues(DuplicateReport(combined, "github_repo", true, UrlKey(parse)))
    else []
  }

  /** The cross-file issues: category references, then duplicates among the included entries. */
  function AcrossIssues(inc: IncludeMap, agents: seq<ValidatedEntry>, boilerplates: seq<ValidatedEntry>,
                        load: Path -> LoadOutcome, dirs: CategoryDirs, parse: string -> Option<Url>): seq<Issue>
  {
    ReferenceIssues(inc, agents, boilerplates, load, dirs) + DuplicateIssuesOf(Combined(inc, agents, boilerplates), parse)
  }

  /** No cross-file issue exactly when no included entry has an unknown category and nothing is duplicated. */
  lemma AcrossIssuesEmpty(inc: IncludeMap, agents: seq<ValidatedEntry>, boilerplates: seq<ValidatedEntry>,
                          load: Path -> LoadOutcome, dirs: CategoryDirs, parse: string -> Option<Url>)
    ensures AcrossIssues(inc, agents, boilerplates, load, dirs, parse) == [] <==>
      && (inc.agent ==> UnknownRefs(agents, CategoryIds(dirs.agentDirExists, dirs.agentListing, load), Agent) == [])
      && (inc.boilerplate ==>
            UnknownRefs(boilerplates, CategoryIds(dirs.boilerplateDirExists, dirs.boilerplateListing, load), Boilerplate) == [])
      && DuplicateReport(Combined(inc, agents, boilerplates), "url", true, UrlKey(parse)) == []
      && DuplicateReport(Combined(inc, agents, boilerplates), "github_repo", true, UrlKey(parse)) == []
  {
    NoEntriesNoDuplicates("url", UrlKey(parse));
    NoEntriesNoDuplicates("github_repo", UrlKey(parse));
  }

  lemma NoEntriesNoDuplicates(field: string, urlKey: string -> string)
    ensures DuplicateReport([], field, true, urlKey) == []
  {
  }

  /** The checks across files: category references, then duplicate URLs and repositories. */
  method CheckAcrossFiles(inc: IncludeMap, agents: seq<ValidatedEntry>, boilerplates: seq<ValidatedEntry>,
                          load: Path -> LoadOutcome, dirs: CategoryDirs, parse: string -> Option<Url>)
    returns (issues: seq<Issue>)
    ensures issues == AcrossIssues(inc, agents, boilerplates, load, dirs, parse)
  {
    var refs := CheckReferences(inc, agents, boilerplates, load, dirs);
    var combined: seq<ValidatedEntry> := [];
    if inc.agent { combined := combined + agents; }
    if inc.boilerplate { combined := combined + boilerplates; }
    assert combined == Combined(inc, agents, boilerplates);
    var dups := CheckCombined(combined, parse);
    issues := refs + dups;
  }

  /** The category checks of `main`, kind by kind. */
  method CheckReferences(inc: IncludeMap, agents: seq<ValidatedEntry>, boilerplates: seq<ValidatedEntry>,
                         load: Path -> LoadOutcome, dirs: CategoryDirs)
    returns (issues: seq<Issue>)
    ensures issues == ReferenceIssues(inc, agents, boilerplates, load, dirs)
  {
    issues := [];
    if inc.agent {
      var ids := LoadCategoryIds(dirs.agentDirExists, dirs.agentListing, load);
      var unknown := CheckCategoryReferences(agents, ids, Agent);
      issues := issues + CategoryIssues(unknown);
    }
    if inc.boilerplate {
      var ids := LoadCategoryIds(dirs.boilerplateDirExists, dirs.boilerplateListing, load);
      var unknown := CheckCategoryReferences(boilerplates, ids, Boilerplate);
      issues := issues + CategoryIssues(unknown);
    }
  }

  /** The two duplicate checks of `main`, run only when there are entries. */
  method CheckCombined(combined: seq<ValidatedEntry>, parse: string -> Option<Url>) returns (issues: seq<Issue>)
    ensures issues == DuplicateIssuesOf(combined, parse)
  {
    issues := [];
    if combined != [] {
      var urls := CheckDuplicates(combined, "url", true, UrlKey(parse));
      var repos := CheckDuplicates(combined, "github_repo", true, UrlKey(parse));
      issues := DuplicateIssues(urls) + DuplicateIssues(repos);
    }
  }

  /**
   * Every error `main` reports, in order: a missing data directory alone;
   * otherwise the path errors, then (when some file was collected) the file
   * failures and the cross-file issues.
   */
  function RunErrors(dataDirExists: bool, paths: seq<PathArg>, dataDir: Path, flags: IncludeMap, globs: Files,
                     load: Path -> LoadOutcome, dirs: CategoryDirs,
                     isUrl: string -> bool, parse: string -> Option<Url>): seq<Issue>
  {
    if !dataDirExists then [DataDirMissing]
    else
      var inc := BuildIncludeMap(flags);
      var collected := CollectSpec(paths, dataDir, inc, globs);
      var files := collected.files;
      PathIssues(collected.errors)
      + if TotalFiles(files) == 0 then []
        else FileIssues(files, SchemaOf, load, isUrl)
             + AcrossIssues(inc, KindEntries(files, Agent, SchemaOf, load, isUrl),
                            KindEntries(files, Boilerplate, SchemaOf, load, isUrl), load, dirs, parse)
  }

  /**
   * The run fails exactly when something was reported: a missing data
   * directory, a path error, or, once files were collected, a failing file,
   * an unknown category of an included kind, or a duplicate URL or
   * repository among the included agents and boilerplates together.
   */
  lemma RunErrorsEmpty(dataDirExists: bool, paths: seq<PathArg>, dataDir: Path, flags: IncludeMap, globs: Files,
                       load: Path -> LoadOutcome, dirs: CategoryDirs,
                       isUrl: string -> bool, parse: string -> Option<Url>)
    ensures RunErrors(dataDirExists, paths, dataDir, flags, globs, load, dirs, isUrl, parse) == [] <==>
      && dataDirExists
      && var inc := BuildIncludeMap(flags);
         var collected := CollectSpec(paths, dataDir, inc, globs);
         var files := collected.files;
         var agents := KindEntries(files, Agent, SchemaOf, load, isUrl);
         var boilerplates := KindEntries(files, Boilerplate, SchemaOf, load, isUrl);
         && collected.errors == []
         && (TotalFiles(files) != 0 ==>
               && AllFilesPass(files, SchemaOf, load, isUrl)
               && (inc.agent ==> UnknownRefs(agents, CategoryIds(dirs.agentDirExists, dirs.agentListing, load), Agent) == [])
               && (inc.boilerplate ==>
                     UnknownRefs(boilerplates, CategoryIds(dirs.boilerplateDirExists, dirs.boilerplateListing, load), Boilerplate) == [])
               && DuplicateReport(Combined(inc, agents, boilerplates), "url", true, UrlKey(parse)) == []
               && DuplicateReport(Combined(inc, agents, boilerplates), "github_repo", true, UrlKey(parse)) == [])
  {
    if dataDirExists {
      var inc := BuildIncludeMap(flags);
      var files := CollectSpec(paths, dataDir, inc, globs).files;
      FileIssuesEmpty(files, SchemaOf, load, isUrl);
      AcrossIssuesEmpty(inc, KindEntries(files, Agent, SchemaOf, load, isUrl),
                        KindEntries(files, Boilerplate, SchemaOf, load, isUrl), load, dirs, parse);
    }
  }

  /**
   * `main`: validates every collected file against its kind's schema,
   * checks the category references of agents and boilerplates against the
   * ids their category directories define, and looks for duplicate URLs and
   * repositories across them.  The exit status is 1 exactly when some error
   * was reported.
   */
  method Run(dataDirExists: bool, paths: seq<PathArg>, dataDir: Path, flags: IncludeMap, globs: Files,
             load: Path -> LoadOutcome, dirs: CategoryDirs,
             isUrl: string -> bool, parse: string -> Option<Url>)
    returns (errors: seq<Issue>, successes: seq<Path>, exitCode: int)
    ensures errors == RunErrors(dataDirExists, paths, dataDir, flags, globs, load, dirs, isUrl, parse)
    ensures exitCode == (if errors == [] then 0 else 1)
    ensures dataDirExists ==>
      var collected := CollectSpec(paths, dataDir, BuildIncludeMap(flags), globs);
      exitCode == 0 ==> |successes| == TotalFiles(collected.files)
  {
    successes := [];
    if !dataDirExists {
      errors := [DataDirMissing];
      exitCode := 1;
      return;
    }
    var inc := BuildIncludeMap(flags);
    var files, pathErrors := CollectFiles(paths, dataDir, inc, globs);
    errors := PathIssues(pathErrors);
    if TotalFiles(files) == 0 {
      exitCode := if errors == [] then 0 else 1;
      return;
    }
    var later;
    successes, later := CheckCollected(files, inc, load, dirs, isUrl, parse);
    errors := errors + later;
    exitCode := if errors == [] then 0 else 1;
  }

  /** The file errors, then the cross-file issues, of a collection with files in it. */
  method CheckCollected(files: Files, inc: IncludeMap, load: Path -> LoadOutcome, dirs: CategoryDirs,
                        isUrl: string -> bool, parse: string -> Option<Url>)
    returns (successes: seq<Path>, issues: seq<Issue>)
    ensures issues == FileIssues(files, SchemaOf, load, isUrl)
      + AcrossIssues(inc, KindEntries(files, Agent, SchemaOf, load, isUrl),
                     KindEntries(files, Boilerplate, SchemaOf, load, isUrl), load, dirs, parse)
    ensures |successes| + |FileIssues(files, SchemaOf, load, isUrl)| == TotalFiles(files)
  {
    var fileErrors, agents, boilerplates;
    successes, fileErrors, agents, boilerplates := ValidateCollected(files, SchemaOf, load, isUrl);
    var across := CheckAcrossFiles(inc, agents, boilerplates, load, dirs, parse);
    issues := fileErrors + across;
  }
}
