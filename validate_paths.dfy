// Which files the validator looks at: the include map built from the
// command-line flags, the kind of a file given by its first directory under
// the data directory, and the collection of files from explicit paths or
// from the default globs.  File-system access is represented by its results:
// an explicit argument arrives already classified (missing, file, or
// directory with the files its recursive globs found), and the default globs
// arrive as lists.

module ValidatePaths {
  import opened Strings
  import opened Sorting
  import Schema

  // ------------------------------------------------------------ kinds

  datatype Kind = Agent | Category | Boilerplate | BoilerplateCategory

  const AllKinds: set<Kind> := {Agent, Category, Boilerplate, BoilerplateCategory}

  lemma AllKindsComplete(k: Kind)
    ensures k in AllKinds
  {
  }

  /** The top-level directory under the data directory that holds each kind. */
  function RootDir(k: Kind): string
  {
    match k
    case Agent => "agents"
    case Category => "categories"
    case Boilerplate => "boilerplates"
    case BoilerplateCategory => "boilerplate-categories"
  }

  function KindOfRoot(root: string): (r: Option<Kind>)
    ensures r.Some? ==> RootDir(r.value) == root
    ensures r.None? ==> forall k :: RootDir(k) != root
  {
    if root == "agents" then Some(Agent)
    else if root == "categories" then Some(Category)
    else if root == "boilerplates" then Some(Boilerplate)
    else if root == "boilerplate-categories" then Some(BoilerplateCategory)
    else None
  }

  /** The schema each kind is validated against. */
  function SchemaOf(k: Kind): seq<Schema.Field>
  {
    match k
    case Agent => Schema.AgentFields
    case Category => Schema.CategoryFields
    case Boilerplate => Schema.BoilerplateFields
    case BoilerplateCategory => Schema.BoilerplateCategoryFields
  }

  // ------------------------------------------------------- include map

  datatype IncludeMap = IncludeMap(agent: bool, category: bool, boilerplate: bool, boilerplateCategory: bool)

  function Includes(inc: IncludeMap, k: Kind): bool
  {
    match k
    case Agent => inc.agent
    case Category => inc.category
    case Boilerplate => inc.boilerplate
    case BoilerplateCategory => inc.boilerplateCategory
  }

  predicate AnyFlag(inc: IncludeMap) { inc.agent || inc.category || inc.boilerplate || inc.boilerplateCategory }

  /** The flags as given when any is set; otherwise every kind. */
  function BuildIncludeMap(flags: IncludeMap): (r: IncludeMap)
    ensures forall k :: Includes(r, k) <==> Includes(flags, k) || !AnyFlag(flags)
  {
    if AnyFlag(flags) then flags
    else IncludeMap(true, true, true, true)
  }

  /** Some kind is always included, and rebuilding the map changes nothing. */
  lemma IncludeMapNeverEmpty(flags: IncludeMap)
    ensures AnyFlag(BuildIncludeMap(flags))
    ensures BuildIncludeMap(BuildIncludeMap(flags)) == BuildIncludeMap(flags)
  {
  }

  // ------------------------------------------------------------ paths

  /** A resolved path, as its sequence of components. */
  type Path = seq<string>

  function Name(p: Path): string { if p == [] then "" else p[|p| - 1] }

  function LastDot(s: string): (i: int)
    ensures -1 <= i < |s|
    ensures i >= 0 ==> s[i] == '.'
    ensures forall j :: i < j < |s| ==> s[j] != '.'
  {
    if s == [] then -1
    else if s[|s| - 1] == '.' then |s| - 1
    else LastDot(s[..|s| - 1])
  }

  /** `PurePath.suffix`: from the last dot on, unless the dot is first or last. */
  function Suffix(name: string): string
  {
    var i := LastDot(name);
    if 0 < i < |name| - 1 then name[i..] else ""
  }

  predicate IsYamlFile(p: Path) { Suffix(Name(p)) == ".yml" || Suffix(Name(p)) == ".yaml" }

  lemma SuffixOfExtension(name: string, ext: string)
    requires |ext| >= 2 && ext[0] == '.' && '.' !in ext[1..]
    ensures Suffix(name) == ext <==> IsSuffix(ext, name) && |name| > |ext|
  {
    var i := LastDot(name);
    if IsSuffix(ext, name) && |name| > |ext| {
      var d := |name| - |ext|;
      assert name[d] == ext[0];
      forall j | d < j < |name| ensures name[j] != '.' {
        assert name[j] == ext[1..][j - d - 1];
      }
    }
    if Suffix(name) == ext {
      assert name[i..] == ext;
    }
  }

  /** A YAML file is named `<something>.yml` or `<something>.yaml`. */
  lemma IsYamlFileIff(p: Path)
    ensures IsYamlFile(p) <==>
      (IsSuffix(".yml", Name(p)) && |Name(p)| > 4) || (IsSuffix(".yaml", Name(p)) && |Name(p)| > 5)
  {
    SuffixOfExtension(Name(p), ".yml");
    SuffixOfExtension(Name(p), ".yaml");
  }

  lemma GitkeepIsNotYaml(p: Path)
    requires Name(p) == ".gitkeep"
    ensures !IsYamlFile(p)
  {
    IsYamlFileIff(p);
  }

  predicate IsUnder(file: Path, dir: Path) { |dir| <= |file| && file[..|dir|] == dir }

  /** The kind named by the first component below the data directory, if any. */
  function GetFileKind(file: Path, dataDir: Path): (r: Option<Kind>)
    ensures r.Some? <==>
      IsUnder(file, dataDir) && |file| > |dataDir| && exists k :: RootDir(k) == file[|dataDir|]
    ensures r.Some? ==> RootDir(r.value) == file[|dataDir|]
  {
    if !IsUnder(file, dataDir) then None
    else if |file| == |dataDir| then None
    else KindOfRoot(file[|dataDir|])
  }

  // ------------------------------------------------------------ collection

  /** A command-line path after looking at the file system. */
  datatype PathArg =
    | Missing(raw: string)
    | RegularFile(path: Path)
    | Directory(path: Path, ymlFiles: seq<Path>, yamlFiles: seq<Path>)   // rglob("*.yml"), rglob("*.yaml")

  datatype PathError = NotFound(raw: string) | OutsideDataDir(path: Path)

  type Files = map<Kind, seq<Path>>

  datatype Collection = Collection(files: Files, errors: seq<PathError>)

  function Lookup(m: Files, k: Kind): seq<Path> { if k in m then m[k] else [] }

  const NoFiles: Files := map[Agent := [], Category := [], Boilerplate := [], BoilerplateCategory := []]

  /** The nested `add_file` of the collector. */
  function AddFile(c: Collection, f: Path, explicit: bool, dataDir: Path, inc: IncludeMap): Collection
  {
    if Name(f) == ".gitkeep" || !IsYamlFile(f) then c
    else
      match GetFileKind(f, dataDir)
      case None => if explicit then Collection(c.files, c.errors + [OutsideDataDir(f)]) else c
      case Some(k) =>
        if !Includes(inc, k) then c
        else Collection(c.files[k := Lookup(c.files, k) + [f]], c.errors)
  }

  /** Files found under a directory, added in order as not explicit. */
  function AddFound(c: Collection, fs: seq<Path>, dataDir: Path, inc: IncludeMap): Collection
  {
    if fs == [] then c
    else AddFile(AddFound(c, fs[..|fs| - 1], dataDir, inc), fs[|fs| - 1], false, dataDir, inc)
  }

  function AddArg(c: Collection, arg: PathArg, dataDir: Path, inc: IncludeMap): Collection
  {
    match arg
    case Missing(raw) => Collection(c.files, c.errors + [NotFound(raw)])
    case RegularFile(p) => AddFile(c, p, true, dataDir, inc)
    case Directory(_, ymls, yamls) =>
      AddFound(AddFound(c, ymls, dataDir, inc), yamls, dataDir, inc)
  }

  function AddArgs(c: Collection, args: seq<PathArg>, dataDir: Path, inc: IncludeMap): Collection
  {
    if args == [] then c
    else AddArg(AddArgs(c, args[..|args| - 1], dataDir, inc), args[|args| - 1], dataDir, inc)
  }

  /**
   * Python orders paths component by component; each component is encoded
   * as its code points shifted up by one and closed by 0, so that the
   * integer-sequence order agrees with that.
   */
  function PathKey(p: Path): seq<int>
  {
    if p == [] then []
    else seq(|p[0]|, i requires 0 <= i < |p[0]| => p[0][i] as int + 1) + [0] + PathKey(p[1..])
  }

  /** `sorted(set(...))` for every kind. */
  function Finalize(m: Files): Files
  {
    map k | k in m :: SortedUnique(m[k], PathKey)
  }

  function DefaultFiles(inc: IncludeMap, globs: Files): Files
  {
    map k | k in AllKinds :: if Includes(inc, k) then Lookup(globs, k) else []
  }

  /** What `collect_files` returns. */
  function CollectSpec(paths: seq<PathArg>, dataDir: Path, inc: IncludeMap, globs: Files): Collection
  {
    if paths == [] then Collection(Finalize(DefaultFiles(inc, globs)), [])
    else
      var c := AddArgs(Collection(NoFiles, []), paths, dataDir, inc);
      Collection(Finalize(c.files), c.errors)
  }

  /** Adds the files a recursive glob found, in the order found. */
  method AddFoundFiles(c: Collection, fs: seq<Path>, dataDir: Path, inc: IncludeMap) returns (r: Collection)
    ensures r == AddFound(c, fs, dataDir, inc)
  {
    r := c;
    var j := 0;
    while j < |fs|
      invariant 0 <= j <= |fs|
      invariant r == AddFound(c, fs[..j], dataDir, inc)
    {
      assert fs[..j + 1][..j] == fs[..j];
      r := AddFile(r, fs[j], false, dataDir, inc);
      j := j + 1;
    }
    assert fs[..j] == fs;
  }

  /** Replaces every list by its sorted, duplicate-free version, kind by kind. */
  method SortCollected(m: Files) returns (r: Files)
    ensures r == Finalize(m)
  {
    r := m;
    var done: set<Kind> := {};
    while done != m.Keys
      invariant done <= m.Keys && SortedUpTo(m, r, done)
      decreases m.Keys - done
    {
      assert m.Keys - done != {};
      var k :| k in m.Keys - done;
      SortedStep(m, r, done, k);
      r := r[k := SortedUnique(r[k], PathKey)];
      done := done + {k};
    }
    SortedAll(m, r);
  }

  /** The lists of the kinds in `done` are sorted, the others as collected. */
  ghost predicate SortedUpTo(m: Files, r: Files, done: set<Kind>)
  {
    r.Keys == m.Keys &&
    forall k :: k in r ==> r[k] == if k in done then SortedUnique(m[k], PathKey) else m[k]
  }

  lemma SortedStep(m: Files, r: Files, done: set<Kind>, k: Kind)
    requires SortedUpTo(m, r, done) && k in m.Keys - done
    ensures SortedUpTo(m, r[k := SortedUnique(r[k], PathKey)], done + {k})
  {
  }

  lemma SortedAll(m: Files, r: Files)
    requires SortedUpTo(m, r, m.Keys)
    ensures r == Finalize(m)
  {
  }

  /** The default globs of the included kinds. */
  method DefaultSelection(inc: IncludeMap, globs: Files) returns (found: Files)
    ensures found == DefaultFiles(inc, globs)
  {
    found := NoFiles;
    if inc.agent { found := found[Agent := Lookup(globs, Agent)]; }
    if inc.category { found := found[Category := Lookup(globs, Category)]; }
    if inc.boilerplate { found := found[Boilerplate := Lookup(globs, Boilerplate)]; }
    if inc.boilerplateCategory {
      found := found[BoilerplateCategory := Lookup(globs, BoilerplateCategory)];
    }
    assert found.Keys == AllKinds;
    DefaultFilesAt(inc, globs);
    SameFiles(found, DefaultFiles(inc, globs));
  }

  /** The default selection kind by kind. */
  lemma DefaultFilesAt(inc: IncludeMap, globs: Files)
    ensures DefaultFiles(inc, globs).Keys == AllKinds
    ensures DefaultFiles(inc, globs)[Agent] == if inc.agent then Lookup(globs, Agent) else []
    ensures DefaultFiles(inc, globs)[Category] == if inc.category then Lookup(globs, Category) else []
    ensures DefaultFiles(inc, globs)[Boilerplate] == if inc.boilerplate then Lookup(globs, Boilerplate) else []
    ensures DefaultFiles(inc, globs)[BoilerplateCategory] ==
      if inc.boilerplateCategory then Lookup(globs, BoilerplateCategory) else []
  {
  }

  /** Two selections over every kind that agree kind by kind are the same. */
  lemma SameFiles(a: Files, b: Files)
    requires a.Keys == AllKinds && b.Keys == AllKinds
    requires a[Agent] == b[Agent] && a[Category] == b[Category]
    requires a[Boilerplate] == b[Boilerplate] && a[BoilerplateCategory] == b[BoilerplateCategory]
    ensures a == b
  {
    forall k | k in a ensures a[k] == b[k] {
      match k
      case Agent =>
      case Category =>
      case Boilerplate =>
      case BoilerplateCategory =>
    }
  }

  /** The explicit paths, one by one. */
  method AddPaths(paths: seq<PathArg>, dataDir: Path, inc: IncludeMap) returns (c: Collection)
    ensures c == AddArgs(Collection(NoFiles, []), paths, dataDir, inc)
  {
    c := Collection(NoFiles, []);
    var i := 0;
    while i < |paths|
      invariant 0 <= i <= |paths|
      invariant c == AddArgs(Collection(NoFiles, []), paths[..i], dataDir, inc)
    {
      assert paths[..i + 1][..i] == paths[..i];
      match paths[i] {
        case Missing(raw) =>
          c := Collection(c.files, c.errors + [NotFound(raw)]);
        case RegularFile(p) =>
          c := AddFile(c, p, true, dataDir, inc);
        case Directory(_, ymls, yamls) =>
          c := AddFoundFiles(c, ymls, dataDir, inc);
          c := AddFoundFiles(c, yamls, dataDir, inc);
      }
      i := i + 1;
    }
    assert paths[..i] == paths;
  }

  method CollectFiles(paths: seq<PathArg>, dataDir: Path, inc: IncludeMap, globs: Files)
    returns (files: Files, errors: seq<PathError>)
    ensures Collection(files, errors) == CollectSpec(paths, dataDir, inc, globs)
  {
    var c;
    if paths == [] {
      var found := DefaultSelection(inc, globs);
      c := Collection(found, []);
    } else {
      c := AddPaths(paths, dataDir, inc);
    }
    files := SortCollected(c.files);
    errors := c.errors;
  }

  // ----------------------------------------------------- what it promises

  /** Every collected list is in path order and names each file once. */
  lemma CollectedSortedUnique(paths: seq<PathArg>, dataDir: Path, inc: IncludeMap, globs: Files, k: Kind)
    ensures var files := CollectSpec(paths, dataDir, inc, globs).files;
      k in files ==> SortedBy(files[k], PathKey) && NoDuplicates(files[k])
  {
  }

  /** A kind that is not included is never collected, by either route. */
  lemma {:induction false} ExcludedKindEmpty(paths: seq<PathArg>, dataDir: Path, inc: IncludeMap, globs: Files, k: Kind)
    requires !Includes(inc, k)
    ensures Lookup(CollectSpec(paths, dataDir, inc, globs).files, k) == []
  {
    if paths != [] {
      var c := AddArgs(Collection(NoFiles, []), paths, dataDir, inc);
      ArgsKeepWellFormed(Collection(NoFiles, []), paths, dataDir, inc);
      if k in c.files {
        assert c.files[k] == [];
      }
    }
  }

  /** The invariant of the collector: every file is a YAML file of its list's included kind. */
  ghost predicate WellCollected(files: Files, dataDir: Path, inc: IncludeMap)
  {
    forall k :: k in files ==>
      (!Includes(inc, k) ==> files[k] == [])
      && forall f :: f in files[k] ==>
           IsYamlFile(f) && Name(f) != ".gitkeep" && GetFileKind(f, dataDir) == Some(k)
  }

  lemma AddFileKeepsWellFormed(c: Collection, f: Path, explicit: bool, dataDir: Path, inc: IncludeMap)
    requires WellCollected(c.files, dataDir, inc)
    ensures WellCollected(AddFile(c, f, explicit, dataDir, inc).files, dataDir, inc)
  {
  }

  lemma {:induction false} FoundKeepWellFormed(c: Collection, fs: seq<Path>, dataDir: Path, inc: IncludeMap)
    requires WellCollected(c.files, dataDir, inc)
    ensures WellCollected(AddFound(c, fs, dataDir, inc).files, dataDir, inc)
  {
    if fs != [] {
      FoundKeepWellFormed(c, fs[..|fs| - 1], dataDir, inc);
      AddFileKeepsWellFormed(AddFound(c, fs[..|fs| - 1], dataDir, inc), fs[|fs| - 1], false, dataDir, inc);
    }
  }

  lemma {:induction false} ArgsKeepWellFormed(c: Collection, args: seq<PathArg>, dataDir: Path, inc: IncludeMap)
    requires WellCollected(c.files, dataDir, inc)
    ensures WellCollected(AddArgs(c, args, dataDir, inc).files, dataDir, inc)
  {
    if args != [] {
      var prefix := AddArgs(c, args[..|args| - 1], dataDir, inc);
      ArgsKeepWellFormed(c, args[..|args| - 1], dataDir, inc);
      match args[|args| - 1]
      case Missing(_) =>
      case RegularFile(p) => AddFileKeepsWellFormed(prefix, p, true, dataDir, inc);
      case Directory(_, ymls, yamls) =>
        FoundKeepWellFormed(prefix, ymls, dataDir, inc);
        FoundKeepWellFormed(AddFound(prefix, ymls, dataDir, inc), yamls, dataDir, inc);
    }
  }

  /**
   * With explicit paths, everything collected is a YAML file (never
   * `.gitkeep`) whose top directory names its kind, and that kind is included.
   */
  lemma ExplicitCollectionWellFormed(paths: seq<PathArg>, dataDir: Path, inc: IncludeMap, globs: Files, k: Kind, f: Path)
    requires paths != []
    requires k in CollectSpec(paths, dataDir, inc, globs).files
    requires f in CollectSpec(paths, dataDir, inc, globs).files[k]
    ensures IsYamlFile(f) && Name(f) != ".gitkeep"
    ensures GetFileKind(f, dataDir) == Some(k) && Includes(inc, k)
  {
    var c := AddArgs(Collection(NoFiles, []), paths, dataDir, inc);
    ArgsKeepWellFormed(Collection(NoFiles, []), paths, dataDir, inc);
    assert CollectSpec(paths, dataDir, inc, globs).files == Finalize(c.files);
    assert k in c.files;
    var found := c.files[k];
    assert f in Elems(SortedUnique(found, PathKey));
    assert f in found;
    WellCollectedAt(c.files, dataDir, inc, k, f);
  }

  /** One collected file under one kind, as `WellCollected` describes it. */
  lemma WellCollectedAt(files: Files, dataDir: Path, inc: IncludeMap, k: Kind, f: Path)
    requires WellCollected(files, dataDir, inc) && k in files && f in files[k]
    ensures IsYamlFile(f) && Name(f) != ".gitkeep"
    ensures GetFileKind(f, dataDir) == Some(k) && Includes(inc, k)
  {
  }

  /** The errors the explicit paths produce, argument by argument. */
  function ArgErrors(args: seq<PathArg>, dataDir: Path): seq<PathError>
  {
    if args == [] then []
    else
      ArgErrors(args[..|args| - 1], dataDir) +
      match args[|args| - 1]
      case Missing(raw) => [NotFound(raw)]
      case RegularFile(p) =>
        if Name(p) != ".gitkeep" && IsYamlFile(p) && GetFileKind(p, dataDir).None?
        then [OutsideDataDir(p)] else []
      case Directory(_, _, _) => []
  }

  lemma {:induction false} FoundAddsNoErrors(c: Collection, fs: seq<Path>, dataDir: Path, inc: IncludeMap)
    ensures AddFound(c, fs, dataDir, inc).errors == c.errors
  {
    if fs != [] { FoundAddsNoErrors(c, fs[..|fs| - 1], dataDir, inc); }
  }

  lemma {:induction false} ArgsErrors(c: Collection, args: seq<PathArg>, dataDir: Path, inc: IncludeMap)
    ensures AddArgs(c, args, dataDir, inc).errors == c.errors + ArgErrors(args, dataDir)
  {
    if args != [] {
      var prefix := AddArgs(c, args[..|args| - 1], dataDir, inc);
      ArgsErrors(c, args[..|args| - 1], dataDir, inc);
      match args[|args| - 1]
      case Missing(_) =>
      case RegularFile(p) =>
      case Directory(_, ymls, yamls) =>
        FoundAddsNoErrors(prefix, ymls, dataDir, inc);
        FoundAddsNoErrors(AddFound(prefix, ymls, dataDir, inc), yamls, dataDir, inc);
    }
  }

  /**
   * Errors: one "not found" per missing path and one "outside data
   * directory" per explicit YAML file outside the four kind directories, in
   * argument order; directory contents never produce errors.
   */
  lemma CollectErrors(paths: seq<PathArg>, dataDir: Path, inc: IncludeMap, globs: Files)
    ensures CollectSpec(paths, dataDir, inc, globs).errors == ArgErrors(paths, dataDir)
  {
    ArgsErrors(Collection(NoFiles, []), paths, dataDir, inc);
  }

  lemma {:induction false} FoundKeepsFiles(c: Collection, fs: seq<Path>, dataDir: Path, inc: IncludeMap, k: Kind, f: Path)
    requires f in Lookup(c.files, k)
    ensures f in Lookup(AddFound(c, fs, dataDir, inc).files, k)
  {
    if fs != [] { FoundKeepsFiles(c, fs[..|fs| - 1], dataDir, inc, k, f); }
  }

  lemma {:induction false} ArgsKeepFiles(c: Collection, args: seq<PathArg>, dataDir: Path, inc: IncludeMap, k: Kind, f: Path)
    requires f in Lookup(c.files, k)
    ensures f in Lookup(AddArgs(c, args, dataDir, inc).files, k)
  {
    if args != [] {
      var prefix := AddArgs(c, args[..|args| - 1], dataDir, inc);
      ArgsKeepFiles(c, args[..|args| - 1], dataDir, inc, k, f);
      match args[|args| - 1]
      case Missing(_) =>
      case RegularFile(p) =>
      case Directory(_, ymls, yamls) =>
        FoundKeepsFiles(prefix, ymls, dataDir, inc, k, f);
        FoundKeepsFiles(AddFound(prefix, ymls, dataDir, inc), yamls, dataDir, inc, k, f);
    }
  }

  lemma {:induction false} ArgsCollectExplicit(c: Collection, args: seq<PathArg>, dataDir: Path, inc: IncludeMap, i: nat, k: Kind)
    requires i < |args| && args[i].RegularFile?
    requires IsYamlFile(args[i].path) && Name(args[i].path) != ".gitkeep"
    requires GetFileKind(args[i].path, dataDir) == Some(k) && Includes(inc, k)
    ensures args[i].path in Lookup(AddArgs(c, args, dataDir, inc).files, k)
  {
    var prefix := AddArgs(c, args[..|args| - 1], dataDir, inc);
    if i == |args| - 1 {
    } else {
      assert args[..|args| - 1][i] == args[i];
      ArgsCollectExplicit(c, args[..|args| - 1], dataDir, inc, i, k);
      ArgsKeepFiles(prefix, [args[|args| - 1]], dataDir, inc, k, args[i].path);
      assert [args[|args| - 1]][..0] == [];
    }
  }

  /** An explicit YAML file under an included kind's directory is collected. */
  lemma ExplicitFileCollected(paths: seq<PathArg>, dataDir: Path, inc: IncludeMap, globs: Files, i: nat, k: Kind)
    requires i < |paths| && paths[i].RegularFile?
    requires IsYamlFile(paths[i].path) && Name(paths[i].path) != ".gitkeep"
    requires GetFileKind(paths[i].path, dataDir) == Some(k) && Includes(inc, k)
    ensures paths[i].path in Lookup(CollectSpec(paths, dataDir, inc, globs).files, k)
  {
    var c := AddArgs(Collection(NoFiles, []), paths, dataDir, inc);
    ArgsCollectExplicit(Collection(NoFiles, []), paths, dataDir, inc, i, k);
    assert paths[i].path in Elems(c.files[k]);
  }
}
