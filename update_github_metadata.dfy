// The GitHub metadata refresher: which entry files it visits, what it wants
// to change in an entry after asking GitHub about its repository
// (`build_updates`), and the line edit that writes those changes into the
// YAML text in place, without reformatting the rest of the file.

module MetadataRefresh {
  import opened Strings
  import opened Sorting
  import opened YamlValue
  import ValidatePaths
  import Schema

  type Path = ValidatePaths.Path

  // ----------------------------------------------------------- entry files

  /** The two kinds of entry that carry a `github_repo`. */
  datatype EntryKind = AgentEntry | BoilerplateEntry

  datatype EntryInclude = EntryInclude(agent: bool, boilerplate: bool)

  function IncludesEntry(inc: EntryInclude, k: EntryKind): bool
  {
    match k
    case AgentEntry => inc.agent
    case BoilerplateEntry => inc.boilerplate
  }

  /** The `--agents` / `--boilerplates` flags; neither flag means both kinds. */
  function BuildEntryInclude(flags: EntryInclude): (r: EntryInclude)
    ensures flags.agent || flags.boilerplate ==> r == flags
    ensures !flags.agent && !flags.boilerplate ==> r.agent && r.boilerplate
  {
    if flags.agent || flags.boilerplate then flags else EntryInclude(true, true)
  }

  /** The kind named by the first component below the data directory. */
  function GetEntryKind(file: Path, dataDir: Path): (r: Option<EntryKind>)
    ensures r == Some(AgentEntry) <==>
      ValidatePaths.IsUnder(file, dataDir) && |file| > |dataDir| && file[|dataDir|] == "agents"
    ensures r == Some(BoilerplateEntry) <==>
      ValidatePaths.IsUnder(file, dataDir) && |file| > |dataDir| && file[|dataDir|] == "boilerplates"
  {
    if !ValidatePaths.IsUnder(file, dataDir) || |file| == |dataDir| then None
    else if file[|dataDir|] == "agents" then Some(AgentEntry)
    else if file[|dataDir|] == "boilerplates" then Some(BoilerplateEntry)
    else None
  }

  /** Files gathered so far, in the order found, and the error lines. */
  datatype EntryCollection = EntryCollection(files: seq<Path>, errors: seq<ValidatePaths.PathError>)

  /** The nested `add_file`. */
  function AddEntry(c: EntryCollection, f: Path, explicit: bool, dataDir: Path, inc: EntryInclude): EntryCollection
  {
    if ValidatePaths.Name(f) == ".gitkeep" || !ValidatePaths.IsYamlFile(f) then c
    else
      match GetEntryKind(f, dataDir)
      case None =>
        if explicit then EntryCollection(c.files, c.errors + [ValidatePaths.OutsideDataDir(f)]) else c
      case Some(k) =>
        if IncludesEntry(inc, k) then EntryCollection(c.files + [f], c.errors) else c
  }

  function AddFoundEntries(c: EntryCollection, fs: seq<Path>, dataDir: Path, inc: EntryInclude): EntryCollection
  {
    if fs == [] then c
    else AddEntry(AddFoundEntries(c, fs[..|fs| - 1], dataDir, inc), fs[|fs| - 1], false, dataDir, inc)
  }

  function AddEntryArg(c: EntryCollection, arg: ValidatePaths.PathArg, dataDir: Path, inc: EntryInclude): EntryCollection
  {
    match arg
    case Missing(raw) => EntryCollection(c.files, c.errors + [ValidatePaths.NotFound(raw)])
    case RegularFile(p) => AddEntry(c, p, true, dataDir, inc)
    case Directory(_, ymls, yamls) =>
      AddFoundEntries(AddFoundEntries(c, ymls, dataDir, inc), yamls, dataDir, inc)
  }

  function AddEntryArgs(c: EntryCollection, args: seq<ValidatePaths.PathArg>, dataDir: Path, inc: EntryInclude): EntryCollection
  {
    if args == [] then c
    else AddEntryArg(AddEntryArgs(c, args[..|args| - 1], dataDir, inc), args[|args| - 1], dataDir, inc)
  }

  /** What the four default globs (`agents/**/*.yml`, `*.yaml`, then the same for boilerplates) found. */
  datatype EntryGlobs = EntryGlobs(agentYml: seq<Path>, agentYaml: seq<Path>, boilerplateYml: seq<Path>, boilerplateYaml: seq<Path>)

  /** With no paths the glob results are taken as they are, without `add_file`. */
  function DefaultEntries(inc: EntryInclude, globs: EntryGlobs): seq<Path>
  {
    (if inc.agent then globs.agentYml + globs.agentYaml else []) +
    (if inc.boilerplate then globs.boilerplateYml + globs.boilerplateYaml else [])
  }

  /** What `collect_entry_files` returns: `sorted(set(collected))` and the errors. */
  function CollectEntrySpec(paths: seq<ValidatePaths.PathArg>, dataDir: Path, inc: EntryInclude, globs: EntryGlobs): EntryCollection
  {
    if paths == [] then EntryCollection(SortedUnique(DefaultEntries(inc, globs), ValidatePaths.PathKey), [])
    else
      var c := AddEntryArgs(EntryCollection([], []), paths, dataDir, inc);
      EntryCollection(SortedUnique(c.files, ValidatePaths.PathKey), c.errors)
  }

  method AddFoundEntryFiles(c: EntryCollection, fs: seq<Path>, dataDir: Path, inc: EntryInclude) returns (r: EntryCollection)
    ensures r == AddFoundEntries(c, fs, dataDir, inc)
  {
    r := c;
    for j := 0 to |fs|
      invariant r == AddFoundEntries(c, fs[..j], dataDir, inc)
    {
      assert fs[..j + 1][..j] == fs[..j];
      r := AddEntry(r, fs[j], false, dataDir, inc);
    }
    assert fs[..|fs|] == fs;
  }

  /** The explicit paths, one by one. */
  method AddEntryPaths(paths: seq<ValidatePaths.PathArg>, dataDir: Path, inc: EntryInclude) returns (c: EntryCollection)
    ensures c == AddEntryArgs(EntryCollection([], []), paths, dataDir, inc)
  {
    c := EntryCollection([], []);
    for i := 0 to |paths|
      invariant c == AddEntryArgs(EntryCollection([], []), paths[..i], dataDir, inc)
    {
      assert paths[..i + 1][..i] == paths[..i];
      match paths[i] {
        case Missing(raw) =>
          c := EntryCollection(c.files, c.errors + [ValidatePaths.NotFound(raw)]);
        case RegularFile(p) =>
          c := AddEntry(c, p, true, dataDir, inc);
        case Directory(_, ymls, yamls) =>
          c := AddFoundEntryFiles(c, ymls, dataDir, inc);
          c := AddFoundEntryFiles(c, yamls, dataDir, inc);
      }
    }
    assert paths[..|paths|] == paths;
  }

  method CollectEntryFiles(paths: seq<ValidatePaths.PathArg>, dataDir: Path, inc: EntryInclude, globs: EntryGlobs)
    returns (files: seq<Path>, errors: seq<ValidatePaths.PathError>)
    ensures EntryCollection(files, errors) == CollectEntrySpec(paths, dataDir, inc, globs)
    ensures SortedBy(files, ValidatePaths.PathKey) && NoDuplicates(files)
  {
    var collected: seq<Path> := [];
    errors := [];
    if paths == [] {
      collected := DefaultEntryFiles(inc, globs);
    } else {
      var c := AddEntryPaths(paths, dataDir, inc);
      collected, errors := c.files, c.errors;
    }
    files := SortedUnique(collected, ValidatePaths.PathKey);
  }

  /** The recursive globs of the included kinds, agents first. */
  method DefaultEntryFiles(inc: EntryInclude, globs: EntryGlobs) returns (collected: seq<Path>)
    ensures collected == DefaultEntries(inc, globs)
  {
    collected := [];
    if inc.agent { collected := collected + globs.agentYml + globs.agentYaml; }
    if inc.boilerplate { collected := collected + globs.boilerplateYml + globs.boilerplateYaml; }
  }

  /** A file `add_file` keeps: a YAML file, not `.gitkeep`, of an included kind. */
  predicate Admissible(f: Path, dataDir: Path, inc: EntryInclude)
  {
    ValidatePaths.Name(f) != ".gitkeep" && ValidatePaths.IsYamlFile(f) &&
    GetEntryKind(f, dataDir).Some? && IncludesEntry(inc, GetEntryKind(f, dataDir).value)
  }

  lemma {:induction false} FoundEntriesAdmissible(c: EntryCollection, fs: seq<Path>, dataDir: Path, inc: EntryInclude)
    requires forall f <- c.files :: Admissible(f, dataDir, inc)
    ensures forall f <- AddFoundEntries(c, fs, dataDir, inc).files :: Admissible(f, dataDir, inc)
    ensures AddFoundEntries(c, fs, dataDir, inc).errors == c.errors
  {
    if fs != [] { FoundEntriesAdmissible(c, fs[..|fs| - 1], dataDir, inc); }
  }

  lemma {:induction false} EntryArgsAdmissible(c: EntryCollection, args: seq<ValidatePaths.PathArg>, dataDir: Path, inc: EntryInclude)
    requires forall f <- c.files :: Admissible(f, dataDir, inc)
    ensures forall f <- AddEntryArgs(c, args, dataDir, inc).files :: Admissible(f, dataDir, inc)
    ensures AddEntryArgs(c, args, dataDir, inc).errors == c.errors + EntryArgErrors(args, dataDir)
  {
    if args != [] {
      var prefix := AddEntryArgs(c, args[..|args| - 1], dataDir, inc);
      EntryArgsAdmissible(c, args[..|args| - 1], dataDir, inc);
      match args[|args| - 1]
      case Missing(_) =>
      case RegularFile(p) =>
      case Directory(_, ymls, yamls) =>
        FoundEntriesAdmissible(prefix, ymls, dataDir, inc);
        FoundEntriesAdmissible(AddFoundEntries(prefix, ymls, dataDir, inc), yamls, dataDir, inc);
    }
  }

  /** The error lines the explicit paths produce, argument by argument. */
  function EntryArgErrors(args: seq<ValidatePaths.PathArg>, dataDir: Path): seq<ValidatePaths.PathError>
  {
    if args == [] then []
    else
      EntryArgErrors(args[..|args| - 1], dataDir) +
      match args[|args| - 1]
      case Missing(raw) => [ValidatePaths.NotFound(raw)]
      case RegularFile(p) =>
        if ValidatePaths.Name(p) != ".gitkeep" && ValidatePaths.IsYamlFile(p) && GetEntryKind(p, dataDir).None?
        then [ValidatePaths.OutsideDataDir(p)] else []
      case Directory(_, _, _) => []
  }

  /**
   * With explicit paths, every collected file is an admissible entry file;
   * the errors are one "not found" per missing path and one "outside data
   * directory" per explicit YAML file that is neither an agent nor a
   * boilerplate, in argument order.
   */
  lemma ExplicitEntriesAdmissible(paths: seq<ValidatePaths.PathArg>, dataDir: Path, inc: EntryInclude, globs: EntryGlobs)
    requires paths != []
    ensures forall f <- CollectEntrySpec(paths, dataDir, inc, globs).files :: Admissible(f, dataDir, inc)
    ensures CollectEntrySpec(paths, dataDir, inc, globs).errors == EntryArgErrors(paths, dataDir)
  {
    var c := AddEntryArgs(EntryCollection([], []), paths, dataDir, inc);
    EntryArgsAdmissible(EntryCollection([], []), paths, dataDir, inc);
    var files := SortedUnique(c.files, ValidatePaths.PathKey);
    forall f <- files ensures Admissible(f, dataDir, inc) {
      assert f in Elems(files);
    }
  }

  // ------------------------------------------------------- normalisation

  const GithubPrefix: string := "https://github.com/"

  /** `normalize_repo`: trim, drop one leading GitHub URL prefix, drop one trailing `.git`. */
  function NormalizeRepo(repo: string): (r: string)
    ensures |r| <= |repo|
  {
    TrimRepoUrl(Strip(repo))
  }

  /** The URL prefix, then a `.git` suffix, taken off an already stripped repository. */
  function TrimRepoUrl(s: string): (r: string)
    ensures |r| <= |s|
  {
    var t := if IsPrefix(GithubPrefix, s) then s[|GithubPrefix|..] else s;
    if IsSuffix(".git", t) then t[..|t| - 4] else t
  }

  /** A repository slug as written in the entries: no whitespace, no URL prefix, no `.git`. */
  predicate PlainRepo(p: string)
  {
    (forall i :: 0 <= i < |p| ==> !IsSpace(p[i])) && !IsPrefix(GithubPrefix, p) && !IsSuffix(".git", p)
  }

  lemma StripUnpadded(s: string)
    requires s == [] || (!IsSpace(s[0]) && !IsSpace(s[|s| - 1]))
    ensures Strip(s) == s
  {
    assert LStrip(s) == s;
  }

  /** Surrounding whitespace makes no difference: it is stripped first. */
  lemma {:induction false} NormalizeRepoTrims(repo: string)
    ensures NormalizeRepo(repo) == NormalizeRepo(Strip(repo))
  {
    var s := Strip(repo);
    StripUnpadded(s);
    calc {
      NormalizeRepo(s);
      TrimRepoUrl(Strip(s));
      { assert Strip(s) == s; }
      TrimRepoUrl(s);
      NormalizeRepo(repo);
    }
  }

  /** An already plain `owner/repo` is left as it is. */
  lemma NormalizePlainRepo(p: string)
    requires PlainRepo(p)
    ensures NormalizeRepo(p) == p
  {
    StripUnpadded(p);
  }

  /** Text behind the URL prefix survives the strip and the prefix removal unchanged. */
  lemma PrefixedForm(x: string)
    requires x == [] || !IsSpace(x[|x| - 1])
    ensures Strip(GithubPrefix + x) == GithubPrefix + x
    ensures IsPrefix(GithubPrefix, GithubPrefix + x) && (GithubPrefix + x)[|GithubPrefix|..] == x
  {
    var u := GithubPrefix + x;
    assert u[0] == 'h' && u[|u| - 1] == if x == [] then '/' else x[|x| - 1];
    StripUnpadded(u);
    assert u[..|GithubPrefix|] == GithubPrefix;
  }

  /** The repository URL gives the plain slug back. */
  lemma NormalizeRepoUrl(p: string)
    requires PlainRepo(p)
    ensures NormalizeRepo(GithubPrefix + p) == p
  {
    PrefixedForm(p);
  }

  /** So does the clone URL ending in `.git`. */
  lemma NormalizeCloneUrl(p: string)
    requires PlainRepo(p)
    ensures NormalizeRepo(GithubPrefix + p + ".git") == p
  {
    var t := p + ".git";
    var u := GithubPrefix + t;
    assert GithubPrefix + p + ".git" == u;
    PrefixedForm(t);
    assert t[|t| - 4..] == ".git" && t[..|t| - 4] == p;
    assert IsSuffix(".git", t);
    assert NormalizeRepo(u) == t[..|t| - 4];
  }

  /** `normalize_existing_int`: the integer an existing YAML value stands for. */
  function NormalizeExistingInt(v: Value): (r: Option<int>)
    ensures v.Int? ==> r == Some(v.i)
    ensures v.Bool? ==> r == Some(if v.b then 1 else 0)
    ensures v.Str? ==> (r.Some? <==> v.s != [] && forall i :: 0 <= i < |v.s| ==> IsDigit(v.s[i]))
    ensures r.Some? ==> v.Int? || v.Bool? || v.Str?
  {
    match v
    case Int(i) => Some(i)
    case Bool(b) => Some(if b then 1 else 0)    // a Python bool is an int
    case Str(s) =>
      if s != [] && forall i :: 0 <= i < |s| ==> IsDigit(s[i]) then Some(ParseDigits(s)) else None
    case _ => None
  }

  /** A count written back as a quoted string still reads as that count. */
  lemma ExistingIntOfRenderedCount(n: nat)
    ensures NormalizeExistingInt(Str(NatToString(n))) == Some(n)
  {
    ParseNatToString(n);
  }

  /** `normalize_existing_date`: dates by their ISO text, strings as they are. */
  function NormalizeExistingDate(v: Value): (r: Option<string>)
    ensures r.Some? <==> v.Date? || v.Str?
    ensures v.Date? ==> r == Some(v.iso)
    ensures v.Str? ==> r == Some(v.s)
  {
    match v
    case Date(iso) => Some(iso)
    case Str(s) => Some(s)
    case _ => None
  }

  /** Python's `v == b` between a loaded node and a bool. */
  predicate PyEqualsBool(v: Value, b: bool)
  {
    match v
    case Bool(x) => x == b
    case Int(i) => i == if b then 1 else 0
    case Float(r) => r == if b then 1.0 else 0.0
    case _ => false
  }

  // ------------------------------------------------------------ formatting

  const RepoKey: string := "github_repo"
  const StarsKey: string := "github_stars"
  const DateKey: string := "last_updated"
  const ArchivedKey: string := "is_archived"

  /** A value `build_updates` may put in the update dictionary (or None). */
  datatype Update = NoneValue | Count(n: int) | Day(iso: string) | Flag(b: bool)

  /** `str(value)`. */
  function UpdateText(u: Update): string
  {
    match u
    case NoneValue => "None"
    case Count(n) => IntToString(n)
    case Day(iso) => iso
    case Flag(b) => if b then "True" else "False"
  }

  /** A line `key:` starts, the test `find_key_line` applies. */
  predicate HasKey(line: string, key: string) { IsPrefix(key + ":", line) }

  /** `format_yaml_value`: the line written for a key, or None for a None value. */
  function FormatYamlValue(key: string, u: Update): (r: Option<string>)
    ensures r.None? <==> u.NoneValue?
    ensures r.Some? ==> IsPrefix(key + ": ", r.value) && HasKey(r.value, key)
    ensures r.Some? && key == DateKey ==>
      |r.value| == |key| + 4 + |UpdateText(u)| && r.value[|key| + 2] == '\'' && r.value[|r.value| - 1] == '\''
  {
    if u.NoneValue? then None
    else
      var line :=
        if key == DateKey then key + ": '" + UpdateText(u) + "'"
        else if u.Flag? then key + ": " + (if u.b then "true" else "false")
        else key + ": " + UpdateText(u);
      assert line[..|key| + 1] == key + ":";
      Some(line)
  }

  // ------------------------------------------------------------ key lines

  /** None of the first `n` lines starts with `key:`. */
  predicate KeyFree(lines: seq<string>, key: string, n: nat)
  {
    forall j :: 0 <= j < n && j < |lines| ==> !HasKey(lines[j], key)
  }

  /** `find_key_line`: the first line that starts with `key:`. */
  function KeyLine(lines: seq<string>, key: string): (r: Option<nat>)
    ensures r.Some? ==> r.value < |lines| && HasKey(lines[r.value], key) && KeyFree(lines, key, r.value)
    ensures r.None? <==> KeyFree(lines, key, |lines|)
  {
    if lines == [] then None
    else if HasKey(lines[0], key) then Some(0)
    else
      match KeyLine(lines[1..], key)
      case None => None
      case Some(j) => Some(j + 1)
  }

  /** The first matching line is unique: anything with its two properties is it. */
  lemma KeyLineUnique(lines: seq<string>, key: string, r: Option<nat>)
    requires r.Some? ==> r.value < |lines| && HasKey(lines[r.value], key) && KeyFree(lines, key, r.value)
    requires r.None? ==> KeyFree(lines, key, |lines|)
    ensures KeyLine(lines, key) == r
  {
  }

  method FindKeyLine(lines: seq<string>, key: string) returns (index: Option<nat>)
    ensures index == KeyLine(lines, key)
  {
    for i := 0 to |lines|
      invariant forall j :: 0 <= j < i ==> !HasKey(lines[j], key)
    {
      if IsPrefix(key + ":", lines[i]) {
        KeyLineUnique(lines, key, Some(i));
        return Some(i);
      }
    }
    return None;
  }

  /** A line carries at most one key that has no colon in it. */
  lemma KeyOfLine(line: string, k1: string, k2: string)
    requires ':' !in k1 && ':' !in k2 && HasKey(line, k1)
    ensures HasKey(line, k2) <==> k1 == k2
  {
    if HasKey(line, k2) {
      assert line[|k1|] == ':' && line[|k2|] == ':';
      assert k1 == line[..|k1|] && k2 == line[..|k2|];
    }
  }

  lemma {:induction false} KeyLineConcat(a: seq<string>, b: seq<string>, key: string)
    ensures KeyLine(a, key).Some? ==> KeyLine(a + b, key) == KeyLine(a, key)
    ensures KeyLine(a, key).None? && KeyLine(b, key).None? ==> KeyLine(a + b, key).None?
    ensures KeyLine(a, key).None? && KeyLine(b, key).Some? ==> KeyLine(a + b, key) == Some(|a| + KeyLine(b, key).value)
  {
    if a == [] {
      assert a + b == b;
    } else {
      assert (a + b)[0] == a[0];
      assert (a + b)[1..] == a[1..] + b;
      KeyLineConcat(a[1..], b, key);
    }
  }

  /** Lines that agree on which carry `key` agree on the first such line. */
  lemma KeyLineSame(a: seq<string>, b: seq<string>, key: string)
    requires |a| == |b|
    requires forall j :: 0 <= j < |a| ==> (HasKey(a[j], key) <==> HasKey(b[j], key))
    ensures KeyLine(a, key) == KeyLine(b, key)
  {
    KeyLineUnique(a, key, KeyLine(b, key));
  }

  // ---------------------------------------------------------- the line edit

  /** The key lines to look after, in `build_updates`' fixed order. */
  const TrackedKeys: seq<string> := [StarsKey, DateKey, ArchivedKey]

  /** The keys after whose line missing keys are inserted, as `update_entry_file` passes them. */
  const EntryAnchors: seq<string> := [RepoKey, StarsKey, DateKey]

  /** `ordered_keys`: the tracked keys present in the updates, in the fixed order. */
  function OrderedKeys(updates: map<string, Update>): (r: seq<string>)
    ensures forall k <- r :: k in updates
  {
    (if StarsKey in updates then [StarsKey] else []) +
    (if DateKey in updates then [DateKey] else []) +
    (if ArchivedKey in updates then [ArchivedKey] else [])
  }

  /** The ordered keys are the tracked keys present, each once, none with a colon. */
  lemma OrderedKeysGood(updates: map<string, Update>)
    ensures GoodKeys(updates, OrderedKeys(updates))
    ensures forall k <- OrderedKeys(updates) :: k in TrackedKeys
    ensures forall k <- TrackedKeys :: k in updates ==> k in OrderedKeys(updates)
  {
  }

  /**
   * The insertion point: the line of the last key of `anchorKeys`, in list
   * order, that the file has; None when it has none of them.
   */
  function Anchor(lines: seq<string>, anchorKeys: seq<string>): (r: Option<nat>)
    ensures r.Some? ==> r.value < |lines|
  {
    if anchorKeys == [] then None
    else
      match KeyLine(lines, anchorKeys[|anchorKeys| - 1])
      case Some(j) => Some(j)
      case None => Anchor(lines, anchorKeys[..|anchorKeys| - 1])
  }

  /** The `i`-th anchor key is present and no later one is. */
  predicate LastPresent(lines: seq<string>, anchorKeys: seq<string>, i: nat)
  {
    i < |anchorKeys| && KeyLine(lines, anchorKeys[i]).Some? &&
    forall j :: i < j < |anchorKeys| ==> KeyLine(lines, anchorKeys[j]).None?
  }

  /** No anchor exactly when none of the anchor keys is present. */
  lemma {:induction false} AnchorNone(lines: seq<string>, anchorKeys: seq<string>)
    ensures Anchor(lines, anchorKeys).None? <==> forall i :: 0 <= i < |anchorKeys| ==> KeyLine(lines, anchorKeys[i]).None?
  {
    if anchorKeys != [] {
      var n := |anchorKeys| - 1;
      AnchorNone(lines, anchorKeys[..n]);
      assert forall i :: 0 <= i < n ==> anchorKeys[..n][i] == anchorKeys[i];
    }
  }

  /** Otherwise the anchor is the line of the last anchor key present, in list order. */
  lemma {:induction false} AnchorIsLastPresent(lines: seq<string>, anchorKeys: seq<string>, i: nat)
    requires LastPresent(lines, anchorKeys, i)
    ensures Anchor(lines, anchorKeys) == KeyLine(lines, anchorKeys[i])
  {
    var n := |anchorKeys| - 1;
    if i < n {
      var init := anchorKeys[..n];
      assert init[i] == anchorKeys[i];
      assert LastPresent(lines, init, i);
      AnchorIsLastPresent(lines, init, i);
    }
  }

  /**
   * The edit the key loop makes, relative to the original lines: the lines
   * with each present key's line replaced, the new lines of the missing keys
   * in key order, and whether anything changed.
   */
  datatype Plan = Plan(replaced: seq<string>, inserted: seq<string>, changed: bool)

  function PlanOf(lines: seq<string>, updates: map<string, Update>, keys: seq<string>): (p: Plan)
    requires forall k <- keys :: k in updates
    ensures |p.replaced| == |lines|
  {
    if keys == [] then Plan(lines, [], false)
    else PlanNext(lines, updates, PlanOf(lines, updates, keys[..|keys| - 1]), keys[|keys| - 1])
  }

  /** One key: replace its line when the file has one, otherwise add a new line. */
  function PlanNext(lines: seq<string>, updates: map<string, Update>, p: Plan, key: string): (q: Plan)
    requires key in updates && |p.replaced| == |lines|
    ensures |q.replaced| == |lines|
  {
    match FormatYamlValue(key, updates[key])
    case None => p
    case Some(line) =>
      match KeyLine(lines, key)
      case Some(j) => Plan(p.replaced[j := line], p.inserted, p.changed || p.replaced[j] != line)
      case None => Plan(p.replaced, p.inserted + [line], true)
  }

  lemma PlanSnoc(lines: seq<string>, updates: map<string, Update>, keys: seq<string>, i: nat)
    requires forall k <- keys :: k in updates
    requires i < |keys|
    ensures PlanOf(lines, updates, keys[..i + 1]) == PlanNext(lines, updates, PlanOf(lines, updates, keys[..i]), keys[i])
  {
    assert keys[..i + 1][..i] == keys[..i];
  }

  /** The new lines go right after the anchor line, or at the end without one. */
  function Assemble(anchor: Option<nat>, replaced: seq<string>, inserted: seq<string>): (r: seq<string>)
    requires anchor.Some? ==> anchor.value < |replaced|
    ensures |r| == |replaced| + |inserted|
  {
    match anchor
    case None => replaced + inserted
    case Some(a) => replaced[..a + 1] + inserted + replaced[a + 1..]
  }

  /** Where an original line ends up once `n` lines are inserted. */
  function Shift(anchor: Option<nat>, n: nat, j: nat): nat
  {
    if anchor.Some? && j > anchor.value then j + n else j
  }

  /** Where the inserted block starts. */
  function InsertStart(anchor: Option<nat>, size: nat): nat
  {
    if anchor.Some? then anchor.value + 1 else size
  }

  /** `update_entry_lines`' result. */
  function EditedLines(lines: seq<string>, updates: map<string, Update>, anchorKeys: seq<string>): (r: seq<string>)
  {
    var p := PlanOf(lines, updates, OrderedKeys(updates));
    Assemble(Anchor(lines, anchorKeys), p.replaced, p.inserted)
  }

  /** `update_entry_lines`' `changed` flag. */
  function EditChanged(lines: seq<string>, updates: map<string, Update>): bool
  {
    PlanOf(lines, updates, OrderedKeys(updates)).changed
  }

  lemma AssembleAt(anchor: Option<nat>, replaced: seq<string>, inserted: seq<string>)
    requires anchor.Some? ==> anchor.value < |replaced|
    ensures forall j :: 0 <= j < |replaced| ==>
      Shift(anchor, |inserted|, j) < |replaced| + |inserted| &&
      Assemble(anchor, replaced, inserted)[Shift(anchor, |inserted|, j)] == replaced[j]
    ensures InsertStart(anchor, |replaced|) + |inserted| <= |Assemble(anchor, replaced, inserted)|
    ensures forall m :: 0 <= m < |inserted| ==>
      Assemble(anchor, replaced, inserted)[InsertStart(anchor, |replaced|) + m] == inserted[m]
  {
    forall j | 0 <= j < |replaced|
      ensures Shift(anchor, |inserted|, j) < |replaced| + |inserted|
      ensures Assemble(anchor, replaced, inserted)[Shift(anchor, |inserted|, j)] == replaced[j]
    {
      AssembleOriginal(anchor, replaced, inserted, j);
    }
    forall m | 0 <= m < |inserted|
      ensures Assemble(anchor, replaced, inserted)[InsertStart(anchor, |replaced|) + m] == inserted[m]
    {
      AssembleInserted(anchor, replaced, inserted, m);
    }
  }

  /** An original line keeps its place before the anchor and moves down after it. */
  lemma AssembleOriginal(anchor: Option<nat>, replaced: seq<string>, inserted: seq<string>, j: nat)
    requires anchor.Some? ==> anchor.value < |replaced|
    requires j < |replaced|
    ensures Shift(anchor, |inserted|, j) < |replaced| + |inserted|
    ensures Assemble(anchor, replaced, inserted)[Shift(anchor, |inserted|, j)] == replaced[j]
  {
    match anchor
    case None =>
    case Some(a) =>
      var front, back := replaced[..a + 1], replaced[a + 1..];
      var x := front + (inserted + back);
      assert Assemble(anchor, replaced, inserted) == x;
      if j <= a {
        assert x[j] == front[j];
      } else {
        assert x[j + |inserted|] == (inserted + back)[j - a - 1 + |inserted|] == back[j - a - 1];
      }
  }

  /** The new lines stand together, from just after the anchor or at the end. */
  lemma {:induction false} AssembleInserted(anchor: Option<nat>, replaced: seq<string>, inserted: seq<string>, m: int)
    requires anchor.Some? ==> anchor.value < |replaced|
    requires 0 <= m < |inserted|
    ensures InsertStart(anchor, |replaced|) + m < |replaced| + |inserted|
    ensures Assemble(anchor, replaced, inserted)[InsertStart(anchor, |replaced|) + m] == inserted[m]
  {
    match anchor
    case None =>
    case Some(a) =>
      var front, back := replaced[..a + 1], replaced[a + 1..];
      var x := (front + inserted) + back;
      assert Assemble(anchor, replaced, inserted) == x;
      assert x[a + 1 + m] == (front + inserted)[a + 1 + m] == inserted[m];
  }

  lemma UpdateFront(x: seq<string>, y: seq<string>, j: nat, line: string)
    requires j < |x|
    ensures (x + y)[j := line] == x[j := line] + y
  {
  }

  lemma UpdateBack(x: seq<string>, y: seq<string>, j: nat, line: string)
    requires j < |y|
    ensures (x + y)[|x| + j := line] == x + y[j := line]
  {
  }

  /** Replacing an original line replaces it where it now stands. */
  lemma AssembleReplace(anchor: Option<nat>, replaced: seq<string>, inserted: seq<string>, j: nat, line: string)
    requires anchor.Some? ==> anchor.value < |replaced|
    requires j < |replaced|
    ensures Shift(anchor, |inserted|, j) < |replaced| + |inserted|
    ensures Assemble(anchor, replaced[j := line], inserted)
         == Assemble(anchor, replaced, inserted)[Shift(anchor, |inserted|, j) := line]
  {
    match anchor
    case None =>
      UpdateFront(replaced, inserted, j, line);
    case Some(a) =>
      var front, back := replaced[..a + 1], replaced[a + 1..];
      if j <= a {
        assert replaced[j := line][..a + 1] == front[j := line];
        assert replaced[j := line][a + 1..] == back;
        UpdateFront(front, inserted + back, j, line);
        assert front + inserted + back == front + (inserted + back);
      } else {
        assert replaced[j := line][..a + 1] == front;
        assert replaced[j := line][a + 1..] == back[j - a - 1 := line];
        UpdateBack(front + inserted, back, j - a - 1, line);
      }
  }

  /** One more new line: appended, or put just after the previous new lines. */
  lemma AssembleInsert(anchor: Option<nat>, replaced: seq<string>, inserted: seq<string>, line: string)
    requires anchor.Some? ==> anchor.value < |replaced|
    ensures anchor.None? ==> Assemble(anchor, replaced, inserted + [line]) == Assemble(anchor, replaced, inserted) + [line]
    ensures anchor.Some? ==>
      var x := Assemble(anchor, replaced, inserted);
      var at := anchor.value + |inserted| + 1;
      at <= |x| && Assemble(anchor, replaced, inserted + [line]) == x[..at] + [line] + x[at..]
  {
    if anchor.Some? {
      var a := anchor.value;
      var x := Assemble(anchor, replaced, inserted);
      var at := a + |inserted| + 1;
      assert x[..at] == replaced[..a + 1] + inserted;
      assert x[at..] == replaced[a + 1..];
    }
  }

  /** A block without `key` lines, put inside, only moves the later first `key` line down. */
  lemma KeyLineMiddle(front: seq<string>, mid: seq<string>, back: seq<string>, key: string)
    requires KeyLine(mid, key).None?
    ensures KeyLine(front + back, key).None? ==> KeyLine(front + mid + back, key).None?
    ensures KeyLine(front + back, key).Some? ==>
      var j := KeyLine(front + back, key).value;
      KeyLine(front + mid + back, key) == Some(if j < |front| then j else j + |mid|)
  {
    var fm := front + mid;
    KeyLineConcat(front, back, key);
    KeyLineConcat(front, mid, key);
    KeyLineConcat(fm, back, key);
    match KeyLine(front, key)
    case Some(_) =>
    case None =>
      assert KeyLine(fm, key).None?;
  }

  /** Without `key` lines around it, the block's own first `key` line is the first. */
  lemma {:induction false} KeyLineMiddleOnly(front: seq<string>, mid: seq<string>, back: seq<string>, key: string)
    requires KeyLine(front + back, key).None?
    ensures KeyLine(mid, key).None? ==> KeyLine(front + mid + back, key).None?
    ensures KeyLine(mid, key).Some? ==> KeyLine(front + mid + back, key) == Some(|front| + KeyLine(mid, key).value)
  {
    KeyLineConcat(front, back, key);
    KeyLineConcat(front, mid, key);
    KeyLineConcat(front + mid, back, key);
  }

  /** The first `key` line of the edited text, when the new lines do not carry `key`. */
  lemma KeyLineAssemble(anchor: Option<nat>, replaced: seq<string>, inserted: seq<string>, key: string)
    requires anchor.Some? ==> anchor.value < |replaced|
    requires KeyLine(inserted, key).None?
    ensures KeyLine(replaced, key).None? ==> KeyLine(Assemble(anchor, replaced, inserted), key).None?
    ensures KeyLine(replaced, key).Some? ==>
      KeyLine(Assemble(anchor, replaced, inserted), key) == Some(Shift(anchor, |inserted|, KeyLine(replaced, key).value))
  {
    match anchor
    case None =>
      KeyLineConcat(replaced, inserted, key);
    case Some(a) =>
      var front, back := replaced[..a + 1], replaced[a + 1..];
      assert replaced == front + back;
      assert Assemble(anchor, replaced, inserted) == front + inserted + back;
      KeyLineMiddle(front, inserted, back, key);
  }

  /** The first `key` line of the edited text, when the original lines do not carry `key`. */
  lemma {:induction false} KeyLineAssembleInserted(anchor: Option<nat>, replaced: seq<string>, inserted: seq<string>, key: string)
    requires anchor.Some? ==> anchor.value < |replaced|
    requires KeyLine(replaced, key).None?
    ensures KeyLine(inserted, key).None? ==> KeyLine(Assemble(anchor, replaced, inserted), key).None?
    ensures KeyLine(inserted, key).Some? ==>
      KeyLine(Assemble(anchor, replaced, inserted), key) == Some(InsertStart(anchor, |replaced|) + KeyLine(inserted, key).value)
  {
    match anchor
    case None =>
      KeyLineConcat(replaced, inserted, key);
    case Some(a) =>
      var front, back := replaced[..a + 1], replaced[a + 1..];
      assert KeyLine(front + back, key).None? by { assert replaced == front + back; }
      assert Assemble(anchor, replaced, inserted) == front + inserted + back;
      assert InsertStart(anchor, |replaced|) == |front|;
      KeyLineMiddleOnly(front, inserted, back, key);
  }

  /** The keys processed so far: distinct, colon-free, all in the updates. */
  predicate GoodKeys(updates: map<string, Update>, keys: seq<string>)
  {
    NoDuplicates(keys) && forall k <- keys :: k in updates && ':' !in k
  }

  lemma GoodKeysInit(updates: map<string, Update>, keys: seq<string>, i: nat)
    requires GoodKeys(updates, keys) && i < |keys|
    ensures GoodKeys(updates, keys[..i]) && keys[i] !in keys[..i]
    ensures keys[..i + 1] == keys[..i] + [keys[i]]
  {
  }

  /** A key whose new line the plan inserts, because the file lacks it. */
  predicate Inserts(lines: seq<string>, updates: map<string, Update>, keys: seq<string>, key: string)
  {
    key in keys && key in updates && FormatYamlValue(key, updates[key]).Some? && KeyLine(lines, key).None?
  }

  /** Replacing a key's line by a line of the same key keeps which lines carry `k`. */
  lemma {:induction false} PlanKeepsKeys(lines: seq<string>, updates: map<string, Update>, keys: seq<string>, k: string)
    requires GoodKeys(updates, keys) && ':' !in k
    ensures var p := PlanOf(lines, updates, keys);
      forall j :: 0 <= j < |lines| ==> (HasKey(p.replaced[j], k) <==> HasKey(lines[j], k))
  {
    if keys != [] {
      var n := |keys| - 1;
      GoodKeysInit(updates, keys, n);
      PlanKeepsKeys(lines, updates, keys[..n], k);
      var p := PlanOf(lines, updates, keys[..n]);
      var key := keys[n];
      match FormatYamlValue(key, updates[key])
      case None =>
      case Some(line) =>
        match KeyLine(lines, key)
        case None =>
        case Some(jk) =>
          KeyOfLine(line, key, k);
          KeyOfLine(lines[jk], key, k);
    }
  }

  /** So the first `k` line of the replaced lines is the original one. */
  lemma PlanKeepsKeyLine(lines: seq<string>, updates: map<string, Update>, keys: seq<string>, k: string)
    requires GoodKeys(updates, keys) && ':' !in k
    ensures KeyLine(PlanOf(lines, updates, keys).replaced, k) == KeyLine(lines, k)
  {
    PlanKeepsKeys(lines, updates, keys, k);
    KeyLineSame(PlanOf(lines, updates, keys).replaced, lines, k);
  }

  /** The new lines: exactly one per inserted key, none for any other key. */
  lemma {:induction false} PlanInsertedKeys(lines: seq<string>, updates: map<string, Update>, keys: seq<string>, k: string)
    requires GoodKeys(updates, keys) && ':' !in k
    ensures var p := PlanOf(lines, updates, keys);
      if Inserts(lines, updates, keys, k)
      then KeyLine(p.inserted, k).Some? && p.inserted[KeyLine(p.inserted, k).value] == FormatYamlValue(k, updates[k]).value
      else KeyLine(p.inserted, k).None?
  {
    if keys != [] {
      var n := |keys| - 1;
      GoodKeysInit(updates, keys, n);
      PlanInsertedKeys(lines, updates, keys[..n], k);
      var p := PlanOf(lines, updates, keys[..n]);
      var key := keys[n];
      assert Inserts(lines, updates, keys, k) <==> Inserts(lines, updates, keys[..n], k) || (k == key && Inserts(lines, updates, [key], k));
      match FormatYamlValue(key, updates[key])
      case None =>
      case Some(line) =>
        match KeyLine(lines, key)
        case Some(_) =>
        case None =>
          KeyLineConcat(p.inserted, [line], k);
          KeyOfLine(line, key, k);
          if k == key {
            assert !Inserts(lines, updates, keys[..n], k);
          }
    }
  }

  /** A present key's line holds its new text. */
  lemma {:induction false} PlanReplaces(lines: seq<string>, updates: map<string, Update>, keys: seq<string>, k: string, j: nat)
    requires GoodKeys(updates, keys) && k in keys
    requires FormatYamlValue(k, updates[k]).Some? && KeyLine(lines, k) == Some(j)
    ensures PlanOf(lines, updates, keys).replaced[j] == FormatYamlValue(k, updates[k]).value
  {
    var n := |keys| - 1;
    GoodKeysInit(updates, keys, n);
    var key := keys[n];
    if k != key {
      assert k in keys[..n];
      PlanReplaces(lines, updates, keys[..n], k, j);
      if KeyLine(lines, key) == Some(j) {
        KeyOfLine(lines[j], k, key);
      }
    }
  }

  /** Only the lines of processed keys differ from the original. */
  lemma {:induction false} PlanUntouched(lines: seq<string>, updates: map<string, Update>, keys: seq<string>, j: nat)
    requires GoodKeys(updates, keys) && j < |lines|
    requires forall k <- keys :: KeyLine(lines, k) != Some(j)
    ensures PlanOf(lines, updates, keys).replaced[j] == lines[j]
  {
    if keys != [] {
      var n := |keys| - 1;
      GoodKeysInit(updates, keys, n);
      PlanUntouched(lines, updates, keys[..n], j);
    }
  }

  /** `changed` holds exactly when a line was inserted or a line's text changed. */
  lemma {:induction false} PlanChanged(lines: seq<string>, updates: map<string, Update>, keys: seq<string>)
    requires GoodKeys(updates, keys)
    ensures var p := PlanOf(lines, updates, keys);
      p.changed <==> p.inserted != [] || p.replaced != lines
  {
    if keys != [] {
      var n := |keys| - 1;
      GoodKeysInit(updates, keys, n);
      PlanChanged(lines, updates, keys[..n]);
      var p := PlanOf(lines, updates, keys[..n]);
      var key := keys[n];
      match FormatYamlValue(key, updates[key])
      case None =>
      case Some(line) =>
        match KeyLine(lines, key)
        case None =>
        case Some(jk) =>
          forall k <- keys[..n] ensures KeyLine(lines, k) != Some(jk) {
            if KeyLine(lines, k) == Some(jk) { KeyOfLine(lines[jk], key, k); }
          }
          PlanUntouched(lines, updates, keys[..n], jk);
          if p.replaced != lines {
            var d :| 0 <= d < |lines| && p.replaced[d] != lines[d];
            assert p.replaced[jk := line][d] != lines[d];
          }
          if p.replaced[jk] != line {
            assert p.replaced[jk := line][jk] != lines[jk];
          }
    }
  }

  /** One pass of the key loop: where the current key's line stands in the edited lines. */
  lemma EditStep(lines: seq<string>, updates: map<string, Update>, keys: seq<string>, i: nat, anchor: Option<nat>, out: seq<string>)
    requires GoodKeys(updates, keys) && i < |keys|
    requires anchor.Some? ==> anchor.value < |lines|
    requires out == Assemble(anchor, PlanOf(lines, updates, keys[..i]).replaced, PlanOf(lines, updates, keys[..i]).inserted)
    ensures KeyLine(lines, keys[i]).None? ==> KeyLine(out, keys[i]).None?
    ensures KeyLine(lines, keys[i]).Some? ==>
      KeyLine(out, keys[i]) == Some(Shift(anchor, |PlanOf(lines, updates, keys[..i]).inserted|, KeyLine(lines, keys[i]).value))
  {
    GoodKeysInit(updates, keys, i);
    var p := PlanOf(lines, updates, keys[..i]);
    PlanKeepsKeyLine(lines, updates, keys[..i], keys[i]);
    PlanInsertedKeys(lines, updates, keys[..i], keys[i]);
    KeyLineAssemble(anchor, p.replaced, p.inserted, keys[i]);
  }

  /** The anchor loop at the head of `update_entry_lines`. */
  method FindAnchor(lines: seq<string>, anchorKeys: seq<string>) returns (insertAfter: Option<nat>)
    ensures insertAfter == Anchor(lines, anchorKeys)
  {
    insertAfter := None;
    for i := 0 to |anchorKeys|
      invariant insertAfter == Anchor(lines, anchorKeys[..i])
    {
      assert anchorKeys[..i + 1][..i] == anchorKeys[..i];
      var index := FindKeyLine(lines, anchorKeys[i]);
      if index.Some? {
        insertAfter := index;
      }
    }
    assert anchorKeys[..|anchorKeys|] == anchorKeys;
  }

  /** `update_entry_lines`, editing the line list as the script does. */
  method UpdateEntryLines(lines: seq<string>, updates: map<string, Update>, anchorKeys: seq<string>)
    returns (out: seq<string>, changed: bool)
    ensures out == EditedLines(lines, updates, anchorKeys)
    ensures changed == EditChanged(lines, updates)
  {
    changed := false;
    var insertAfter := FindAnchor(lines, anchorKeys);
    ghost var anchor := insertAfter;
    var keys := OrderedKeys(updates);
    OrderedKeysGood(updates);
    out := lines;
    EditedNothing(lines, updates, keys, anchorKeys);
    for i := 0 to |keys|
      invariant EditedUpTo(lines, updates, keys, i, anchor, out, changed, insertAfter)
    {
      out, changed, insertAfter := ApplyKey(lines, updates, keys, i, anchor, out, changed, insertAfter);
    }
    EditedEverything(lines, updates, anchorKeys, out, changed, insertAfter);
  }

  lemma EditedNothing(lines: seq<string>, updates: map<string, Update>, keys: seq<string>, anchorKeys: seq<string>)
    requires forall k <- keys :: k in updates
    ensures var anchor := Anchor(lines, anchorKeys);
      EditedUpTo(lines, updates, keys, 0, anchor, lines, false, anchor)
  {
    assert keys[..0] == [];
  }

  lemma EditedEverything(lines: seq<string>, updates: map<string, Update>, anchorKeys: seq<string>,
                         out: seq<string>, changed: bool, insertAfter: Option<nat>)
    requires GoodKeys(updates, OrderedKeys(updates))
    requires var keys := OrderedKeys(updates);
      EditedUpTo(lines, updates, keys, |keys|, Anchor(lines, anchorKeys), out, changed, insertAfter)
    ensures out == EditedLines(lines, updates, anchorKeys)
    ensures changed == EditChanged(lines, updates)
  {
    var keys := OrderedKeys(updates);
    assert keys[..|keys|] == keys;
  }

  /** The edit after the first `i` keys: the lines, the flag and the moving insertion point. */
  ghost predicate EditedUpTo(lines: seq<string>, updates: map<string, Update>, keys: seq<string>, i: nat,
                             anchor: Option<nat>, out: seq<string>, changed: bool, insertAfter: Option<nat>)
    requires i <= |keys| && forall k <- keys :: k in updates
  {
    assert forall k <- keys[..i] :: k in keys;
    var p := PlanOf(lines, updates, keys[..i]);
    && (anchor.Some? ==> anchor.value < |lines|)
    && out == Assemble(anchor, p.replaced, p.inserted)
    && changed == p.changed
    && (insertAfter.None? <==> anchor.None?)
    && (insertAfter.Some? ==> insertAfter.value == anchor.value + |p.inserted|)
  }

  /** One pass of the loop over the keys: the key's line replaced, or inserted after the anchor. */
  method ApplyKey(lines: seq<string>, updates: map<string, Update>, keys: seq<string>, i: nat,
                  ghost anchor: Option<nat>, out: seq<string>, changed: bool, insertAfter: Option<nat>)
    returns (out': seq<string>, changed': bool, insertAfter': Option<nat>)
    requires GoodKeys(updates, keys) && i < |keys|
    requires EditedUpTo(lines, updates, keys, i, anchor, out, changed, insertAfter)
    ensures EditedUpTo(lines, updates, keys, i + 1, anchor, out', changed', insertAfter')
  {
    out', changed', insertAfter' := out, changed, insertAfter;
    ghost var p := PlanOf(lines, updates, keys[..i]);
    var key := keys[i];
    PlanSnoc(lines, updates, keys, i);
    ghost var next := PlanOf(lines, updates, keys[..i + 1]);
    var newLine := FormatYamlValue(key, updates[key]);
    if newLine.None? {
      assert next == p;
      return;
    }
    EditStep(lines, updates, keys, i, anchor, out);
    var index := FindKeyLine(out, key);
    if index.Some? {
      ghost var j := KeyLine(lines, key).value;
      assert next == Plan(p.replaced[j := newLine.value], p.inserted, p.changed || p.replaced[j] != newLine.value);
      AssembleReplace(anchor, p.replaced, p.inserted, j, newLine.value);
      AssembleAt(anchor, p.replaced, p.inserted);
      if out[index.value] != newLine.value {
        out' := out[index.value := newLine.value];
        changed' := true;
      }
      return;
    }
    assert next == Plan(p.replaced, p.inserted + [newLine.value], true);
    AssembleInsert(anchor, p.replaced, p.inserted, newLine.value);
    if insertAfter.None? {
      out' := out + [newLine.value];
    } else {
      insertAfter' := Some(insertAfter.value + 1);
      out' := out[..insertAfter'.value] + [newLine.value] + out[insertAfter'.value..];
    }
    changed' := true;
    assert |next.inserted| == |p.inserted| + 1;
  }
  // ------------------------------------------------- what the edit achieves

  /** Every tracked key with a value ends up with its new line, as the first line of that key. */
  lemma UpdateSetsKey(lines: seq<string>, updates: map<string, Update>, anchorKeys: seq<string>, k: string)
    requires k in TrackedKeys && k in updates && FormatYamlValue(k, updates[k]).Some?
    ensures var out := EditedLines(lines, updates, anchorKeys);
      KeyLine(out, k).Some? && out[KeyLine(out, k).value] == FormatYamlValue(k, updates[k]).value
  {
    if KeyLine(lines, k).Some? {
      UpdateSetsPresentKey(lines, updates, anchorKeys, k);
    } else {
      UpdateSetsMissingKey(lines, updates, anchorKeys, k);
    }
  }

  lemma UpdateSetsPresentKey(lines: seq<string>, updates: map<string, Update>, anchorKeys: seq<string>, k: string)
    requires k in TrackedKeys && k in updates && FormatYamlValue(k, updates[k]).Some?
    requires KeyLine(lines, k).Some?
    ensures var out := EditedLines(lines, updates, anchorKeys);
      KeyLine(out, k).Some? && out[KeyLine(out, k).value] == FormatYamlValue(k, updates[k]).value
  {
    var keys := OrderedKeys(updates);
    OrderedKeysGood(updates);
    var p := PlanOf(lines, updates, keys);
    var anchor := Anchor(lines, anchorKeys);
    PlanKeepsKeyLine(lines, updates, keys, k);
    PlanInsertedKeys(lines, updates, keys, k);
    AssembleAt(anchor, p.replaced, p.inserted);
    KeyLineAssemble(anchor, p.replaced, p.inserted, k);
    PlanReplaces(lines, updates, keys, k, KeyLine(lines, k).value);
  }

  lemma {:induction false} UpdateSetsMissingKey(lines: seq<string>, updates: map<string, Update>, anchorKeys: seq<string>, k: string)
    requires k in TrackedKeys && k in updates && FormatYamlValue(k, updates[k]).Some?
    requires KeyLine(lines, k).None?
    ensures var out := EditedLines(lines, updates, anchorKeys);
      KeyLine(out, k).Some? && out[KeyLine(out, k).value] == FormatYamlValue(k, updates[k]).value
  {
    var keys := OrderedKeys(updates);
    OrderedKeysGood(updates);
    var p := PlanOf(lines, updates, keys);
    var anchor := Anchor(lines, anchorKeys);
    PlanKeepsKeyLine(lines, updates, keys, k);
    PlanInsertedKeys(lines, updates, keys, k);
    assert Inserts(lines, updates, keys, k);
    AssembleSetsKey(anchor, p.replaced, p.inserted, k, FormatYamlValue(k, updates[k]).value);
  }

  /** A key only the inserted lines carry is found, with its line, among them after assembly. */
  lemma {:induction false} AssembleSetsKey(anchor: Option<nat>, replaced: seq<string>, inserted: seq<string>, k: string, line: string)
    requires anchor.Some? ==> anchor.value < |replaced|
    requires KeyLine(replaced, k).None?
    requires KeyLine(inserted, k).Some? && inserted[KeyLine(inserted, k).value] == line
    ensures var out := Assemble(anchor, replaced, inserted);
      KeyLine(out, k).Some? && out[KeyLine(out, k).value] == line
  {
    var m := KeyLine(inserted, k).value;
    var at := InsertStart(anchor, |replaced|) + m;
    var out := Assemble(anchor, replaced, inserted);
    assert KeyLine(out, k) == Some(at) by {
      KeyLineAssembleInserted(anchor, replaced, inserted, k);
    }
    assert out[at] == line by {
      AssembleInserted(anchor, replaced, inserted, m);
    }
  }

  /** A present key keeps its place; the lines before the anchor do not move. */
  lemma UpdateKeepsPlace(lines: seq<string>, updates: map<string, Update>, anchorKeys: seq<string>, k: string)
    requires k in TrackedKeys && k in updates && KeyLine(lines, k).Some?
    ensures var out := EditedLines(lines, updates, anchorKeys);
      var j := KeyLine(lines, k).value;
      KeyLine(out, k).Some? &&
      KeyLine(out, k).value == Shift(Anchor(lines, anchorKeys), |out| - |lines|, j)
  {
    var keys := OrderedKeys(updates);
    OrderedKeysGood(updates);
    var p := PlanOf(lines, updates, keys);
    PlanKeepsKeyLine(lines, updates, keys, k);
    PlanInsertedKeys(lines, updates, keys, k);
    KeyLineAssemble(Anchor(lines, anchorKeys), p.replaced, p.inserted, k);
  }

  /** A line that is no tracked key's line keeps its text, moved down past any inserted lines. */
  lemma UpdateKeepsOtherLines(lines: seq<string>, updates: map<string, Update>, anchorKeys: seq<string>, j: nat)
    requires j < |lines|
    requires forall k <- TrackedKeys :: k in updates ==> KeyLine(lines, k) != Some(j)
    ensures var out := EditedLines(lines, updates, anchorKeys);
      var at := Shift(Anchor(lines, anchorKeys), |out| - |lines|, j);
      at < |out| && out[at] == lines[j]
  {
    var keys := OrderedKeys(updates);
    OrderedKeysGood(updates);
    var p := PlanOf(lines, updates, keys);
    PlanUntouched(lines, updates, keys, j);
    AssembleAt(Anchor(lines, anchorKeys), p.replaced, p.inserted);
  }

  /** The inserted lines form one block right after the anchor line, or at the end. */
  lemma UpdateInsertsAfterAnchor(lines: seq<string>, updates: map<string, Update>, anchorKeys: seq<string>)
    ensures var out := EditedLines(lines, updates, anchorKeys);
      |out| >= |lines| &&
      match Anchor(lines, anchorKeys)
      case None => out[|lines|..] == PlanOf(lines, updates, OrderedKeys(updates)).inserted
      case Some(a) => out[a + 1..a + 1 + |out| - |lines|] == PlanOf(lines, updates, OrderedKeys(updates)).inserted
  {
  }

  /** `changed` is reported exactly when the edited lines differ from the original ones. */
  lemma UpdateChangedIff(lines: seq<string>, updates: map<string, Update>, anchorKeys: seq<string>)
    ensures EditChanged(lines, updates) <==> EditedLines(lines, updates, anchorKeys) != lines
  {
    var keys := OrderedKeys(updates);
    OrderedKeysGood(updates);
    var p := PlanOf(lines, updates, keys);
    PlanChanged(lines, updates, keys);
    if p.inserted == [] {
      AssembleNothing(Anchor(lines, anchorKeys), p.replaced);
    }
  }

  lemma AssembleNothing(anchor: Option<nat>, replaced: seq<string>)
    requires anchor.Some? ==> anchor.value < |replaced|
    ensures Assemble(anchor, replaced, []) == replaced
  {
    match anchor
    case None =>
      assert replaced + [] == replaced;
    case Some(a) =>
      assert replaced[..a + 1] + [] + replaced[a + 1..] == replaced;
  }

  /** Every key already carries its new line: the key loop leaves everything as it is. */
  lemma {:induction false} PlanSettled(lines: seq<string>, updates: map<string, Update>, keys: seq<string>)
    requires GoodKeys(updates, keys)
    requires forall k <- keys :: FormatYamlValue(k, updates[k]).Some? ==>
      KeyLine(lines, k).Some? && lines[KeyLine(lines, k).value] == FormatYamlValue(k, updates[k]).value
    ensures PlanOf(lines, updates, keys) == Plan(lines, [], false)
  {
    if keys != [] {
      var n := |keys| - 1;
      GoodKeysInit(updates, keys, n);
      PlanSettled(lines, updates, keys[..n]);
      var key := keys[n];
      if FormatYamlValue(key, updates[key]).Some? {
        var j := KeyLine(lines, key).value;
        assert lines[j := lines[j]] == lines;
      }
    }
  }

  /** Running the edit a second time with the same updates changes nothing. */
  lemma UpdateIdempotent(lines: seq<string>, updates: map<string, Update>, anchorKeys: seq<string>)
    ensures var out := EditedLines(lines, updates, anchorKeys);
      EditedLines(out, updates, anchorKeys) == out && !EditChanged(out, updates)
  {
    var out := EditedLines(lines, updates, anchorKeys);
    var keys := OrderedKeys(updates);
    OrderedKeysGood(updates);
    forall k <- keys | FormatYamlValue(k, updates[k]).Some?
      ensures KeyLine(out, k).Some? && out[KeyLine(out, k).value] == FormatYamlValue(k, updates[k]).value
    {
      UpdateSetsKey(lines, updates, anchorKeys, k);
    }
    PlanSettled(out, updates, keys);
    AssembleNothing(Anchor(out, anchorKeys), out);
  }

  // -------------------------------------------------------- build_updates

  /** What GitHub reported for a repository; None where it reported nothing usable. */
  datatype RepoMetadata = RepoMetadata(stars: Option<int>, lastUpdated: Option<string>, isArchived: Option<bool>)

  /**
   * GitHub's answer to `GET /repos/{repo}`: the status, the two rate-limit
   * headers, the JSON body, and the push date already read from its
   * `pushed_at` text as ISO `YYYY-MM-DD` (None when that text is missing or malformed).
   */
  datatype ApiResponse = ApiResponse(
    status: int, rateRemaining: Option<string>, rateReset: Option<string>,
    body: map<string, Value>, pushedOn: Option<string>)

  const RateLimitMessage: string := "GitHub API rate limit exceeded"

  /** `fetch_repo_metadata` after the request: rate-limit error, nothing known, or the three fields. */
  function MetadataOfResponse(resp: ApiResponse): (r: Result<RepoMetadata, string>)
    ensures r.Err? <==> resp.status == 403 && resp.rateRemaining == Some("0")
    ensures r.Err? ==> IsPrefix(RateLimitMessage, r.error)
    ensures r.Ok? && resp.status != 200 ==> r.value == RepoMetadata(None, None, None)
    ensures r.Ok? && resp.status == 200 ==>
      r.value.lastUpdated == resp.pushedOn &&
      (r.value.stars.Some? <==> Get(resp.body, "stargazers_count").Int? || Get(resp.body, "stargazers_count").Bool?) &&
      (r.value.isArchived.Some? <==> Get(resp.body, "archived").Bool?)
  {
    if resp.status == 403 && resp.rateRemaining == Some("0") then
      var reset := resp.rateReset;
      Err(if reset.Some? && reset.value != "" then RateLimitMessage + ". Reset at " + reset.value else RateLimitMessage)
    else if resp.status != 200 then
      Ok(RepoMetadata(None, None, None))
    else
      var stars := match Get(resp.body, "stargazers_count")
        case Int(i) => Some(i)
        case Bool(b) => Some(if b then 1 else 0)    // isinstance(True, int)
        case _ => None;
      var archived := match Get(resp.body, "archived") case Bool(b) => Some(b) case _ => None;
      Ok(RepoMetadata(stars, resp.pushedOn, archived))
  }

  /** A failed lookup (404 or any other non-200 status) never changes an entry. */
  lemma FailedLookupChangesNothing(data: map<string, Value>, resp: ApiResponse)
    requires resp.status != 200
    requires MetadataOfResponse(resp).Ok?
    ensures BuildUpdates(data, MetadataOfResponse(resp).value) == map[]
  {
    BuildUpdatesNothingKnown(data);
  }

  /** GitHub knows the star count and the entry holds a different one (or none). */
  predicate StaleStars(data: map<string, Value>, meta: RepoMetadata)
  {
    meta.stars.Some? && NormalizeExistingInt(Get(data, StarsKey)) != meta.stars
  }

  /** GitHub knows the last push date and the entry's date text differs (or is missing). */
  predicate StaleDate(data: map<string, Value>, meta: RepoMetadata)
  {
    meta.lastUpdated.Some? && NormalizeExistingDate(Get(data, DateKey)) != meta.lastUpdated
  }

  /** GitHub knows the archived flag and the entry lacks it or holds another value. */
  predicate StaleArchived(data: map<string, Value>, meta: RepoMetadata)
  {
    var existing := Get(data, ArchivedKey);
    meta.isArchived.Some? && (existing.Null? || !PyEqualsBool(existing, meta.isArchived.value))
  }

  lemma TrackedKeysDistinct()
    ensures StarsKey != DateKey && StarsKey != ArchivedKey && DateKey != ArchivedKey
  {
    assert StarsKey[0] == 'g' && DateKey[0] == 'l';
  }

  /** `build_updates`: GitHub's value for each tracked key that is stale in the entry. */
  function BuildUpdates(data: map<string, Value>, meta: RepoMetadata): (r: map<string, Update>)
    ensures forall k <- r :: k in TrackedKeys && FormatYamlValue(k, r[k]).Some?
    ensures StarsKey in r <==> StaleStars(data, meta)
    ensures DateKey in r <==> StaleDate(data, meta)
    ensures ArchivedKey in r <==> StaleArchived(data, meta)
    ensures StarsKey in r ==> r[StarsKey] == Count(meta.stars.value)
    ensures DateKey in r ==> r[DateKey] == Day(meta.lastUpdated.value)
    ensures ArchivedKey in r ==> r[ArchivedKey] == Flag(meta.isArchived.value)
  {
    TrackedKeysDistinct();
    var r0: map<string, Update> := map[];
    var r1 := if StaleStars(data, meta) then r0[StarsKey := Count(meta.stars.value)] else r0;
    var r2 := if StaleDate(data, meta) then r1[DateKey := Day(meta.lastUpdated.value)] else r1;
    if StaleArchived(data, meta) then r2[ArchivedKey := Flag(meta.isArchived.value)] else r2
  }

  /** The node YAML loads back from the line `format_yaml_value` wrote for a key. */
  function ReadBack(key: string, u: Update): (v: Value)
  {
    match u
    case NoneValue => Null
    case Count(n) => Int(n)
    case Day(iso) => if key == DateKey then Str(iso) else Date(iso)   // the date line is quoted
    case Flag(b) => Bool(b)
  }

  /** The entry as loaded again after the updates were written into it. */
  function Reloaded(data: map<string, Value>, updates: map<string, Update>): (d: map<string, Value>)
    ensures forall k <- updates :: k in d && d[k] == ReadBack(k, updates[k])
    ensures forall k <- data :: k !in updates ==> k in d && d[k] == data[k]
  {
    map k | k in data.Keys + updates.Keys :: if k in updates then ReadBack(k, updates[k]) else data[k]
  }

  /** Once the updates are written, the next refresh against the same metadata wants nothing. */
  lemma RefreshSettles(data: map<string, Value>, meta: RepoMetadata)
    ensures BuildUpdates(Reloaded(data, BuildUpdates(data, meta)), meta) == map[]
  {
    var r := BuildUpdates(data, meta);
    var d := Reloaded(data, r);
    assert Get(d, StarsKey) == if StarsKey in r then Int(meta.stars.value) else Get(data, StarsKey);
    assert Get(d, DateKey) == if DateKey in r then Str(meta.lastUpdated.value) else Get(data, DateKey);
    assert Get(d, ArchivedKey) == if ArchivedKey in r then Bool(meta.isArchived.value) else Get(data, ArchivedKey);
  }

  /** A field for a tracked key takes a count, a date or a flag, as the key needs. */
  predicate TracksKind(f: Schema.Field)
  {
    && (f.name == StarsKey ==> f.kind == Schema.Integer)
    && (f.name == DateKey ==> f.kind == Schema.Day)
    && (f.name == ArchivedKey ==> f.kind == Schema.Boolean)
  }

  /** A schema that declares the tracked keys with those kinds. */
  predicate TracksKinds(schema: seq<Schema.Field>)
  {
    && StarsKey in Schema.Names(schema) && DateKey in Schema.Names(schema) && ArchivedKey in Schema.Names(schema)
    && forall i :: 0 <= i < |schema| ==> TracksKind(schema[i])
  }

  /** One field of the reloaded entry: unchanged, or holding a value its kind accepts. */
  lemma ReloadedFieldOk(f: Schema.Field, data: map<string, Value>, meta: RepoMetadata, isUrl: string -> bool)
    requires TracksKind(f)
    requires meta.lastUpdated.Some? ==> Schema.IsIsoDate(meta.lastUpdated.value)
    requires f.name in Reloaded(data, BuildUpdates(data, meta))
    ensures var d := Reloaded(data, BuildUpdates(data, meta));
      (f.name in data && d[f.name] == data[f.name]) || Schema.ValueOk(f.kind, d[f.name], isUrl)
  {
    var r := BuildUpdates(data, meta);
    var d := Reloaded(data, r);
    var n := f.name;
    if n in r {
      TrackedKeysDistinct();
      var v := ReadBack(n, r[n]);
      assert d[n] == v;
      if n == StarsKey {
        assert v == Int(meta.stars.value) && f.kind == Schema.Integer;
      } else if n == DateKey {
        assert v == Str(meta.lastUpdated.value) && f.kind == Schema.Day;
      } else {
        assert v == Bool(meta.isArchived.value) && f.kind == Schema.Boolean;
      }
    }
  }

  /**
   * A refreshed entry still validates: the count and the flag are written
   * as plain scalars and the date as quoted ISO text, which a date field
   * accepts.
   */
  lemma RefreshKeepsConformance(schema: seq<Schema.Field>, data: map<string, Value>, meta: RepoMetadata,
                                isUrl: string -> bool)
    requires Schema.Conforms(schema, data, isUrl) && TracksKinds(schema)
    requires meta.lastUpdated.Some? ==> Schema.IsIsoDate(meta.lastUpdated.value)
    ensures Schema.Conforms(schema, Reloaded(data, BuildUpdates(data, meta)), isUrl)
  {
    var d := Reloaded(data, BuildUpdates(data, meta));
    forall i | 0 <= i < |schema| && schema[i].name in d
      ensures (schema[i].name in data && d[schema[i].name] == data[schema[i].name]) ||
              Schema.ValueOk(schema[i].kind, d[schema[i].name], isUrl)
    {
      ReloadedFieldOk(schema[i], data, meta, isUrl);
    }
    assert d.Keys <= data.Keys + {StarsKey, DateKey, ArchivedKey};
    Schema.ConformsAfterChange(schema, data, d, isUrl);
  }

  /** The agent schema types the tracked keys as count, date and flag. */
  lemma AgentSchemaTracksKinds()
    ensures TracksKinds(Schema.AgentFields)
  {
    var fs := Schema.AgentFields;
    assert fs[13].name == StarsKey && fs[14].name == DateKey && fs[15].name == ArchivedKey;
    forall i | 0 <= i < |fs| ensures TracksKind(fs[i]) {
    }
  }

  /** The boilerplate schema types the tracked keys as count, date and flag. */
  lemma BoilerplateSchemaTracksKinds()
    ensures TracksKinds(Schema.BoilerplateFields)
  {
    var fs := Schema.BoilerplateFields;
    assert fs[13].name == StarsKey && fs[14].name == DateKey && fs[15].name == ArchivedKey;
    forall i | 0 <= i < |fs| ensures TracksKind(fs[i]) {
    }
  }

  /**
   * An agent or boilerplate entry that validated before the refresh still
   * validates once the updates are written and the file is loaded again.
   */
  lemma RefreshedEntryValidates(boilerplate: bool, data: map<string, Value>, meta: RepoMetadata,
                                isUrl: string -> bool)
    requires meta.lastUpdated.Some? ==> Schema.IsIsoDate(meta.lastUpdated.value)
    requires Schema.ValidateRecord(if boilerplate then Schema.BoilerplateFields else Schema.AgentFields, data, isUrl).Ok?
    ensures Schema.ValidateRecord(if boilerplate then Schema.BoilerplateFields else Schema.AgentFields,
                                  Reloaded(data, BuildUpdates(data, meta)), isUrl).Ok?
  {
    var schema := if boilerplate then Schema.BoilerplateFields else Schema.AgentFields;
    if boilerplate { BoilerplateSchemaTracksKinds(); } else { AgentSchemaTracksKinds(); }
    Schema.ValidateRecordIff(schema, data, isUrl);
    RefreshKeepsConformance(schema, data, meta, isUrl);
    Schema.ValidateRecordIff(schema, Reloaded(data, BuildUpdates(data, meta)), isUrl);
  }

  /** An entry that already agrees with GitHub gets no updates. */
  lemma BuildUpdatesAgreeing(data: map<string, Value>, stars: nat, iso: string, archived: bool)
    ensures BuildUpdates(
      data[StarsKey := Int(stars)][DateKey := Date(iso)][ArchivedKey := Bool(archived)],
      RepoMetadata(Some(stars), Some(iso), Some(archived))) == map[]
  {
  }

  /** GitHub reporting nothing leaves the entry alone. */
  lemma BuildUpdatesNothingKnown(data: map<string, Value>)
    ensures BuildUpdates(data, RepoMetadata(None, None, None)) == map[]
  {
  }

  // ------------------------------------------------------------ the main loop

  /**
   * The repository slug the main loop asks GitHub about: `github_repo`,
   * normalized; None when it is empty or has no `/`, and the entry is skipped.
   */
  function EntryRepo(data: map<string, Value>): (r: Option<string>)
    ensures r.Some? ==> Truthy(Get(data, RepoKey)) && '/' in r.value
    ensures !Truthy(Get(data, RepoKey)) ==> r.None?
  {
    var v := Get(data, RepoKey);
    if !Truthy(v) then None
    else match PyStr(v)
      case None => None
      case Some(text) =>
        var repo := NormalizeRepo(text);
        if '/' in repo then Some(repo) else None
  }

  /** A non-empty string under `github_repo` gives its normalized form, if that has a `/`. */
  lemma EntryRepoOfText(data: map<string, Value>, text: string)
    requires text != []
    ensures EntryRepo(data[RepoKey := Str(text)]) ==
      if '/' in NormalizeRepo(text) then Some(NormalizeRepo(text)) else None
  {
    var d := data[RepoKey := Str(text)];
    var repo := NormalizeRepo(text);
    assert Get(d, RepoKey) == Str(text);
    assert Truthy(Str(text)) && PyStr(Str(text)) == Some(text);
    assert EntryRepo(d) == if '/' in repo then Some(repo) else None;
  }

  /** Each spelling of a repository the directory uses leads to the same slug. */
  lemma EntryRepoSpellings(data: map<string, Value>, owner: string, name: string)
    requires PlainRepo(owner + "/" + name)
    ensures var slug := owner + "/" + name;
      EntryRepo(data[RepoKey := Str(slug)]) == Some(slug) &&
      EntryRepo(data[RepoKey := Str(GithubPrefix + slug)]) == Some(slug) &&
      EntryRepo(data[RepoKey := Str(GithubPrefix + slug + ".git")]) == Some(slug)
  {
    var slug := owner + "/" + name;
    assert slug[|owner|] == '/';
    NormalizePlainRepo(slug);
    EntryRepoOfText(data, slug);
    NormalizeRepoUrl(slug);
    EntryRepoOfText(data, GithubPrefix + slug);
    NormalizeCloneUrl(slug);
    EntryRepoOfText(data, GithubPrefix + slug + ".git");
  }

  // ------------------------------------------------------- update_entry_file

  /** `text.splitlines()` for text whose only line break is `\n`. */
  function SplitLines(text: string): (r: seq<string>)
    ensures forall i :: 0 <= i < |r| ==> '\n' !in r[i]
    ensures r == [] <==> text == []
  {
    if text == [] then []
    else if text[|text| - 1] == '\n' then SplitOn(text[..|text| - 1], '\n')
    else SplitOn(text, '\n')
  }

  /** `"\n".join(lines)`, with the final newline put back when the file had one. */
  function RenderLines(lines: seq<string>, trailingNewline: bool): string
  {
    Join(lines, "\n") + if trailingNewline then "\n" else ""
  }

  predicate EndsWithNewline(text: string)
  {
    IsSuffix("\n", text)
  }

  /** Splitting a file into lines and rendering them again gives the file back. */
  lemma SplitLinesRoundTrip(text: string)
    ensures RenderLines(SplitLines(text), EndsWithNewline(text)) == text
  {
    if text != [] {
      var n := |text| - 1;
      if text[n] == '\n' {
        JoinSplit(text[..n], '\n');
        assert text == text[..n] + "\n";
      } else {
        JoinSplit(text, '\n');
        assert !EndsWithNewline(text);
      }
    }
  }

  /**
   * `update_entry_file`: None updates and unchanged lines leave the file alone;
   * otherwise the edited text is written, unless this is a dry run.
   * `written` is the text written to the file, if any.
   */
  method UpdateEntryFile(text: string, updates: map<string, Update>, dryRun: bool)
    returns (updated: bool, written: Option<string>)
    ensures updated <==> updates != map[] && EditChanged(SplitLines(text), updates)
    ensures written.Some? <==> updated && !dryRun
    ensures written.Some? ==>
      written.value == RenderLines(EditedLines(SplitLines(text), updates, EntryAnchors), EndsWithNewline(text))
  {
    if updates == map[] {
      return false, None;
    }
    var trailing := IsSuffix("\n", text);
    var lines := SplitLines(text);
    var edited, changed := UpdateEntryLines(lines, updates, EntryAnchors);
    if !changed {
      return false, None;
    }
    var updatedText := Join(edited, "\n");
    if trailing {
      updatedText := updatedText + "\n";
    }
    if dryRun {
      return true, None;
    }
    return true, Some(updatedText);
  }

  /** Whenever nothing is written, rendering the unedited lines would give back the same file. */
  lemma UnwrittenFileUnchanged(text: string, updates: map<string, Update>)
    requires !(updates != map[] && EditChanged(SplitLines(text), updates))
    ensures RenderLines(EditedLines(SplitLines(text), updates, EntryAnchors), EndsWithNewline(text)) == text
  {
    var lines := SplitLines(text);
    UpdateChangedIff(lines, updates, EntryAnchors);
    if updates == map[] {
      assert OrderedKeys(updates) == [];
      AssembleNothing(Anchor(lines, EntryAnchors), lines);
    }
    SplitLinesRoundTrip(text);
  }
}
