# Ultimate Agent Directory — a verified Dafny model

The Ultimate Agent Directory keeps a catalogue of AI-agent frameworks, platforms, courses and project
boilerplates as one YAML record per entry under `data/` (`agents/`, `categories/`, `boilerplates/`,
`boilerplate-categories/`). Python scripts validate the records against their schema, check every link,
refresh GitHub metadata in place, migrate older markdown lists into records, and render the README, the
boilerplate README and a static site. The site's JavaScript searches, filters and sorts the cards.

This project models the logic of those scripts and pages in Dafny 4 and proves what they promise:

- **Validation** (`validate_paths.dfy`, `validate.dfy`): the kind of a path, file collection with its
  error rules, the load-outcome taxonomy, category references, URL canonicalisation, duplicate
  grouping, and the exit status.
- **Record schema** (`schema.dfy`, `yaml_value.dfy`): each record kind as a field table, with length
  bounds, closed enumerations, forbidden extra fields, the `github_repo` rule and tag normalisation.
- **Link checking** (`check_links.dfy`): status classification, source types, the per-domain
  sliding-window rate limiter over an integer clock, and the retry and fallback loop of `check_url`
  over a sequence of probe outcomes. Also the three markdown passes, template and static extraction,
  and the dedupe-then-fan-out of URL occurrences.
- **Metadata refresh** (`update_github_metadata.dfy`): repository normalisation, comparison with
  existing values, the in-place line edit with its anchor rule, and the rewrite that keeps the
  trailing newline.
- **Generators** (`grouping.dfy`, `catalog.dfy`, `site_generator.dfy`, `boilerplate_readme.dfy`,
  `slugs.dfy`): grouping with stable multi-key sorts, canonical ecosystem order, search indexes,
  the sitemap, statistics, slugs and description truncation.
- **Migration** (`migrate_boilerplates.py` → `migrate_boilerplates.dfy`, `migrate.py` → `migrate.dfy`):
  slugs, ASCII sanitising, repository extraction, the URL-dedupe counters of the entry parser, tag
  generation, YAML scalars, word wrapping, the markdown table-row parser, and the file-name and
  type rules.
- **Browser pages** (`search.dfy`, `filter_utils.dfy`, `cards.dfy`, `category_page.dfy`,
  `boilerplate_page.dfy`, `format_number.dfy`): search scoring and ranking, query tokens, card
  filters, tag toggling, sorting, the URL-state round trip, and thousands separators.

`strings.dfy` and `sorting.dfy` are shared helpers. Sorting is one stable insertion sort over
lexicographic integer keys, proved to be a permutation, ordered and stable. Sorts by several keys,
such as stars descending then lower-cased name, are one key sequence.

Loops and in-place updates in the source are methods with loop invariants. Each method is proved
equal to a specification function, and the properties are lemmas about those functions. Objects that
update their fields are classes: the rate limiter, the migration parser and the page filter state.

## Model

| member | source | states |
|---|---|---|
| Sorting.SortByKey | scripts/generate_readme.py:58 | Python's `list.sort`: the result is a permutation of the input |
| Sorting.SortByKeySorted | scripts/generate_readme.py:58 | the result is ordered by the key |
| Sorting.SortByKeyStable | scripts/generate_readme.py:58 | elements with equal keys keep their input order |
| Sorting.Dedup | scripts/validate.py:141-142 | `set(...)` keeps exactly the same elements, without duplicates |
| ValidatePaths.KindOfRoot | scripts/validate.py:81-90 | the kind whose directory is `root`, and none exactly when no kind's directory has that name |
| ValidatePaths.BuildIncludeMap | scripts/validate.py:57-66 | a kind is included iff its flag is set or no flag is set at all |
| ValidatePaths.IncludeMapNeverEmpty | scripts/validate.py:57-66 | some kind is always included; building the map from its own result changes nothing |
| ValidatePaths.IsYamlFileIff | scripts/validate.py:69-70 | a path is a YAML file iff its name is `<non-empty>.yml` or `<non-empty>.yaml` (`suffix` ignores a leading dot) |
| ValidatePaths.GitkeepIsNotYaml | scripts/validate.py:69-70 | `.gitkeep` is never a YAML file |
| ValidatePaths.GetFileKind | scripts/validate.py:73-90 | a kind exactly when the path lies strictly below the data directory and its first component there is one of the four kind directories, and then that kind |
| ValidatePaths.AddFoundFiles | scripts/validate.py:134-137 | adding the files a directory scan found, in order and as not explicit, is the collection function `AddFound` |
| ValidatePaths.SortCollected | scripts/validate.py:141-142 | every kind's list is replaced by its sorted, duplicate-free version |
| ValidatePaths.DefaultSelection | scripts/validate.py:116-126 | with no paths, each included kind takes its glob results and every other kind stays empty |
| ValidatePaths.DefaultFilesAt | scripts/validate.py:116-126 | the default selection kind by kind |
| ValidatePaths.AddPaths | scripts/validate.py:127-139 | the explicit arguments processed one by one: a missing path adds an error, a directory adds its scanned files, a file is added as explicit |
| ValidatePaths.CollectFiles | scripts/validate.py:93-144 | `collect_files` returns the collection `CollectSpec` describes |
| ValidatePaths.CollectedSortedUnique | scripts/validate.py:141-142 | every returned list is in path order and duplicate-free |
| ValidatePaths.ExcludedKindEmpty | scripts/validate.py:112-126 | a kind that is not included is never collected, by default globs or by explicit paths |
| ValidatePaths.AddFileKeepsWellFormed | scripts/validate.py:104-114 | `add_file` only adds YAML files that are not `.gitkeep`, under the kind their top directory names, and only for included kinds |
| ValidatePaths.ExplicitCollectionWellFormed | scripts/validate.py:104-142 | with explicit paths, every collected file is a YAML file (never `.gitkeep`) of its list's kind, and that kind is included |
| ValidatePaths.CollectErrors | scripts/validate.py:104-139 | the errors are exactly one "not found" per missing path and one "outside data directory" per explicit YAML file without a kind, in argument order; files found in directories add none |
| ValidatePaths.FoundAddsNoErrors | scripts/validate.py:109-111 | files found by a directory scan never add an error |
| ValidatePaths.ArgsErrors | scripts/validate.py:128-139 | processing the arguments appends exactly their errors to the earlier ones |
| ValidatePaths.ExplicitFileCollected | scripts/validate.py:104-114 | an explicit YAML file under an included kind's directory is collected under that kind |
| Validate.ValidateYamlFile | scripts/validate.py:157-170 | a passing file's keys are all fields of the schema (the closed field set) |
| Validate.ValidateYamlFileIff | scripts/validate.py:147-170 | a file passes with data `m` exactly when it loads to the mapping `m` and `m` conforms to the schema; syntax errors, empty documents and non-mappings fail |
| Validate.CategoryIdOf | scripts/validate.py:178-186 | an id comes only from a file that loaded to a mapping |
| Validate.LoadCategoryIds | scripts/validate.py:173-187 | the ids are exactly the truthy `id`s of the listed files that load to mappings, and none when the directory does not exist; the set is `CategoryIds` of the listing |
| Validate.CategoryIds | scripts/validate.py:173-187 | an id belongs to the set iff the directory exists and some listed file loads to a mapping whose `id` is that truthy string |
| Validate.CheckCategoryReferences | scripts/validate.py:190-200 | the loop reports the unknown references of the entries, in entry order |
| Validate.UnknownRefsExact | scripts/validate.py:194-199 | an error is reported exactly for each entry with a truthy category outside the known ids, with that entry's path and category |
| Validate.KnownCategoryAccepted | scripts/validate.py:196 | an entry whose category is a known id is never reported |
| Validate.NormalizeUrl | scripts/validate.py:216-233 | the scheme becomes https exactly for http and https, any other scheme is kept; the host is lower-cased; the path is kept or loses every trailing slash, except a lone "/"; params and query are kept; the fragment is dropped |
| Validate.NormalizeUrlIdempotent | scripts/validate.py:203-235 | normalising twice is normalising once |
| Validate.NormalizeUrlForgets | scripts/validate.py:216-233 | http and https, host case, the fragment and a trailing slash give the same key |
| Validate.NormalizeUrlKeeps | scripts/validate.py:216-233 | URLs with the same key have the same query and params, the same non-web scheme, and hosts equal up to case |
| Validate.RootSlashKept | scripts/validate.py:223 | a root path "/" is kept, while "" stays "" and "//" collapses to "" |
| Validate.NormalizeUrlString | scripts/validate.py:211-214 | a URL `urlparse` rejects is its own key; otherwise the key is the reassembled normalised URL |
| Validate.UnparseWebUrl | scripts/validate.py:226-233 | an https URL with a host and an absolute path is written back as `https://host/path` |
| Validate.NormalizeUrlExample | scripts/validate.py:203-235 | `http://Example.COM/agents/#top` and `https://example.com/agents` share the key `https://example.com/agents` |
| Validate.GroupsOfExact | scripts/validate.py:250-258 | the dictionary's keys are the entries' keys, each mapped to exactly the entries with that key, in entry order |
| Validate.GroupByKey | scripts/validate.py:249-258 | the `setdefault(...).append` pass builds that dictionary, with its keys in first-seen order |
| Validate.ReportGroups | scripts/validate.py:260-265 | the reporting pass over the sorted keys yields one group per key with more than one entry |
| Validate.CheckDuplicates | scripts/validate.py:238-267 | `check_duplicates` returns the report `DuplicateReport` defines |
| Validate.DuplicateReportExact | scripts/validate.py:250-265 | a group is reported iff it lists all entries sharing its key, in entry order, and there are at least two |
| Validate.DuplicateFound | scripts/validate.py:250-265 | two entries with the same key are always reported, together |
| Validate.DuplicateReportOrdered | scripts/validate.py:260 | groups come in strictly increasing key order, each key once |
| Validate.RepoKeyIsCaseSensitive | scripts/validate.py:254-257 | a `github_repo` value is its own key, without normalisation, so case differences are not duplicates |
| Validate.ValidateKind | scripts/validate.py:301-335 | one validation loop: each file passes or fails, and a passing non-empty file is kept as an entry of that kind |
| Validate.TallyFile | scripts/validate.py:302-310 | one loop step: a pass is counted (and kept when its data is not empty), a failure recorded |
| Validate.ValidateAll | scripts/validate.py:301-335 | every file is counted once, as passed or as an error |
| Validate.ValidateAllSound | scripts/validate.py:301-335 | no error iff every file passes; every kept entry is a listed file of that kind with non-empty data conforming to the schema |
| Validate.ValidateCollected | scripts/validate.py:301-335 | the successes are the passing files of the four kinds in kind order, the file errors are `FileIssues`, the kept agents and boilerplates are the conforming records of their kinds, and each file is counted once |
| Validate.FileIssuesEmpty | scripts/validate.py:301-335 | there is no file error iff every collected file passes its kind's schema |
| Validate.CheckAcrossFiles | scripts/validate.py:337-361 | the cross-file issues are the unknown category references of each included kind, then the duplicate URLs and repositories among the included entries |
| Validate.CheckReferences | scripts/validate.py:337-351 | agents are checked against the agent category ids and boilerplates against the boilerplate category ids, each only when its kind is included |
| Validate.CheckCombined | scripts/validate.py:353-361 | the combined entries are checked for duplicate `url`, then duplicate `github_repo`, and nothing is reported when there are none |
| Validate.AcrossIssuesEmpty | scripts/validate.py:337-361 | no cross-file issue iff every included agent and boilerplate names a known category and the included entries share no URL and no repository |
| Validate.Run | scripts/validate.py:270-374 | the reported errors are exactly `RunErrors`; the exit status is 1 iff some error was reported; exit 0 with a data directory means every collected file was counted as a success |
| Validate.RunErrorsEmpty | scripts/validate.py:270-374 | `main` exits 0 iff the data directory exists, the paths gave no error, and, when some file was collected, every file passes its schema, every included kind names known categories, and no URL or repository is duplicated |
| Validate.CheckCollected | scripts/validate.py:301-361 | the issues are the file errors followed by the cross-file issues of the conforming agents and boilerplates, and every collected file is either a success or a file error |
| Schema.NormalizeTag | scripts/models.py:86-90 | a normalised tag has the input's length and contains no space and no upper-case letter |
| Schema.NormalizeTagIdempotent | scripts/models.py:86-90 | normalising a tag twice is normalising it once |
| Schema.NormalizeTags | scripts/models.py:88-90 | the list keeps its length and stays a list of strings |
| Schema.ValidateFields | scripts/models.py:11-98 | on success the result holds exactly the declared fields, each accepted by its kind (a date field also takes ISO date text) |
| Schema.ValidateRecord | scripts/models.py:100-101 | on success the result holds exactly the declared fields; an undeclared-key error names exactly the undeclared keys, and there is at least one |
| Schema.CheckValueIff | scripts/models.py:11-98 | the executable check of one value accepts exactly what the declarative `ValueOk` allows |
| Schema.DayAcceptsIsoText | scripts/models.py:64-66 | a date field takes a date node, or `YYYY-MM-DD` text naming a real day, which it reads as that date; any other text is rejected |
| Schema.LeapDayAccepted | scripts/models.py:64-66 | `2024-02-29` is a date |
| Schema.LeapDayRejected | scripts/models.py:64-66 | `2023-02-29` is not a date |
| Schema.ConformsAfterChange | scripts/models.py:11-98 | a conforming record keeps conforming when declared keys are added or changed to values their kinds accept |
| Schema.CheckFieldIff | scripts/models.py:11-98 | the check of one field accepts exactly what `FieldOk` allows: a present value of its kind, or an absent optional field |
| Schema.ValidateFieldsIff | scripts/models.py:11-98 | the declared fields pass iff each of them is acceptable |
| Schema.ValidateRecordIff | scripts/models.py:11-101 | the validator accepts exactly the conforming mappings |
| Schema.ExtraKeyRejected | scripts/models.py:100-101 | a mapping with an undeclared key is rejected |
| SchemaFacts.RepoRule | scripts/models.py:92-98 | a `github_repo` string is accepted iff it is empty or contains "/", and is kept unchanged |
| SchemaFacts.RepoRuleExamples | scripts/models.py:92-98 | "a/b/c" is accepted; "owner" is rejected for its missing slash |
| SchemaFacts.TagsNormalised | scripts/models.py:86-90 | validated tags are the input tags one for one, each lower-cased with spaces turned into hyphens |
| SchemaFacts.TagsValidationIdempotent | scripts/models.py:86-90 | validating already validated tags changes nothing |
| SchemaFacts.AgentEntryConstraints | scripts/models.py:11-101 | an accepted agent has only declared keys, a name of 1..100 characters, a URL, a description of 20..1000 characters and a category; a type from the six types; a repository that is empty or has "/"; a pricing from the four pricings |
| SchemaFacts.AgentConforming | scripts/models.py:11-101 | the same constraints follow from conformance |
| SchemaFacts.MinimalAgentAccepted | scripts/models.py:15-25 | name, URL, description and category within their bounds alone make a valid agent entry |
| SchemaFacts.FieldValueInResult | scripts/models.py:11-98 | the validated record holds each declared field's checked value |
| SchemaFacts.DefaultWhenAbsent | scripts/models.py:11-98 | an omitted optional field takes its declared default |
| SchemaFacts.AgentDefaults | scripts/models.py:32-68 | an omitted type is "framework", omitted tags are empty, an omitted repository is null and an omitted `is_archived` is false |
| SchemaFacts.BoilerplateEntryConstraints | scripts/models.py:157-299 | an accepted boilerplate has only declared keys, a name of 1..100 characters, a description of 20..2000 characters, a type from the five types, a pricing from the five pricings including open-core, and stack items whose component is 1..50 characters and technology 1..100 characters, with no other keys |
| SchemaFacts.BoilerplateConforming | scripts/models.py:182-299 | the scalar boilerplate constraints follow from conformance |
| SchemaFacts.BoilerplateStackConforming | scripts/models.py:157-179 | every stack item of a conforming boilerplate is a mapping with component 1..50 and technology 1..100 characters and no undeclared key |
| SchemaFacts.TechStackItem | scripts/models.py:157-179 | an acceptable stack item has only the three fields, a component of 1 to 50 and a technology of 1 to 100 characters, and a reasoning of at most 500 characters when it is not null |
| SchemaFacts.CategoryConstraints | scripts/models.py:104-134 | an accepted category has an id, a title and a description of 10..500 characters; a boilerplate category also needs an ecosystem |
| SchemaFacts.CategoryOrderDefault | scripts/models.py:117 | an omitted category order is 0 |
| LinkCheck.Classify | scripts/check_links.py:430-442 | a code is a success iff it is a response below 400; a warning iff it is 401, 403, 429 or at least 500; an error iff there was no response or it is another 4xx |
| LinkCheck.ClassifyByClass | scripts/check_links.py:430-442 | read by class: 1xx to 3xx pass, 5xx warn, and a 4xx warns exactly for 401, 403 and 429 |
| LinkCheck.SourceTypeOf | scripts/check_links.py:446-454 | a path is YAML iff it ends in `.yml` or `.yaml`; markdown iff not YAML and it ends in `.md`; a template iff neither and it contains `.jinja` or ends in `.html`; static otherwise |
| LinkCheck.SourceTypeExamples | scripts/check_links.py:446-454 | an agent record, a markdown document and an HTML template are classified as such |
| LinkCheck.JinjaIsTemplate | scripts/check_links.py:451 | a `.jinja` path that is neither YAML nor markdown is a template whatever it ends in |
| LinkCheck.CountsPartition | scripts/check_links.py:528-533 | every result is counted in exactly one of success, warnings and errors |
| LinkCheck.Summarize | scripts/check_links.py:526-533 | the total is the number of results and equals success plus warnings plus errors |
| LinkCheck.Recent | scripts/check_links.py:78-82 | the kept stamps are exactly the old ones less than one second before now, no more of them |
| LinkCheck.WaitFor | scripts/check_links.py:84-89 | the sleep is never negative; a positive sleep happens only for a full window and ends exactly when its oldest stamp leaves; a full window is always waited out; an empty window under a limit of zero or less fails on the oldest stamp |
| LinkCheck.WindowRespected | scripts/check_links.py:73-92 | with a limit of at least one and a window within it, the wait succeeds and the recorded request leaves at most the limit in the window ending at its own stamp |
| LinkCheck.RateLimiter.constructor | scripts/check_links.py:63-71 | a limiter starts with its limit and no stamps |
| LinkCheck.RateLimiter.WaitIfNeeded | scripts/check_links.py:73-92 | the domain's list becomes its recent stamps plus the time after the sleep; no other domain changes; a limiter within its limit stays within it |
| LinkCheck.WindowKept | scripts/check_links.py:73-92 | recording one request keeps every domain's window within the limit |
| LinkCheck.ProbeUrl | scripts/check_links.py:337-375 | the retry loop produces the course `Attempts` defines |
| LinkCheck.TryAttempt | scripts/check_links.py:338-373 | one attempt either ends the loop with its result or records a failed attempt, and the GET fallback is used exactly after a first-attempt client error |
| LinkCheck.CheckUrl | scripts/check_links.py:334-375 | the rate limiter is consulted once, then the attempts run; a failing limiter aborts the check |
| LinkCheck.NoAttemptsMeansMaxRetries | scripts/check_links.py:337-375 | "Max retries exceeded" with code 0 comes exactly from a loop with no attempts |
| LinkCheck.AttemptsOutcome | scripts/check_links.py:337-375 | at most `retries` HEAD requests; a `2^a` sleep after each failed attempt but the last; GET exactly after a first-attempt client error; the code is the last answer, or 0 with the final failure's message after all attempts failed |
| LinkCheck.InlinePass | scripts/check_links.py:158-163 | only web URLs are reported, each labelled `inline:[text]`, and every web target is reported |
| LinkCheck.ReferencePass | scripts/check_links.py:165-170 | only web URLs are reported, each labelled `reference:[name]` |
| LinkCheck.ReferencePassKeeps | scripts/check_links.py:166-170 | every reference whose stripped target is a web URL is reported with that target |
| LinkCheck.DirectPass | scripts/check_links.py:172-180 | no captured URL is reported again, every match is captured or reported, each labelled `direct` |
| LinkCheck.DirectPassUnique | scripts/check_links.py:175-180 | the direct pass reports each URL at most once |
| LinkCheck.MarkdownKeepsRepeats | scripts/check_links.py:158-180 | an inline link written twice is reported twice |
| LinkCheck.TemplateLinks | scripts/check_links.py:201-207 | exactly the matches without `{{` or `}}` are reported, labelled `literal` |
| LinkCheck.StaticLinks | scripts/check_links.py:228-231 | every match is reported, in order, labelled `static` |
| LinkCheck.ScanInline | scripts/check_links.py:160-163 | the loop computes the inline pass |
| LinkCheck.ScanReferences | scripts/check_links.py:167-170 | the loop computes the reference pass |
| LinkCheck.ScanDirect | scripts/check_links.py:175-180 | the loop, with the captured set growing, computes the direct pass |
| LinkCheck.ExtractFromMarkdown | scripts/check_links.py:145-186 | the three passes run in order, the direct one skipping what the first two captured |
| LinkCheck.ExtractFromTemplate | scripts/check_links.py:188-212 | the loop computes the template links |
| LinkCheck.ExtractFromStatic | scripts/check_links.py:215-236 | the loop computes the static links |
| LinkCheck.EntryLinks | scripts/check_links.py:112-137 | a record yields at most one link per field, in the order url, documentation, demo, repository; each link carries its field's text, the repository one as its GitHub URL; the record's URL comes first |
| LinkCheck.LinksFrom | scripts/check_links.py:112-137 | at most one link per remaining field, in field order, each made from its field's text |
| LinkCheck.LinksFromHas | scripts/check_links.py:112-137 | a field yields a link exactly when it is read and its value has a text |
| LinkCheck.EntryLinksHas | scripts/check_links.py:112-137 | a record's field yields a link exactly when that path reads it and its value has a text |
| LinkCheck.OptionalLinkIff | scripts/check_links.py:117-135 | a documentation or demo link exists iff the field is truthy on the validated entry, or present on the raw record |
| LinkCheck.RepoBecomesLink | scripts/check_links.py:123-137 | a repository `owner/name` becomes the last link, `https://github.com/owner/name`, on the validated and the fallback path |
| LinkCheck.NoRepoNoLink | scripts/check_links.py:123-137 | without a repository field no `github_repo` link is made |
| LinkCheck.FanSources | scripts/check_links.py:445-464 | one result per source of a URL, in order |
| LinkCheck.FlattenMap | scripts/check_links.py:395-398 | the flattening loop lists every occurrence, file by file |
| LinkCheck.CheckAllUrls | scripts/check_links.py:378-468 | each distinct URL is checked once, in first-seen order, and reported once per occurrence |
| LinkCheck.CheckInBatches | scripts/check_links.py:414-466 | batches of 50 together check every distinct URL in order and give the per-URL reports in that order |
| LinkCheck.CheckBatch | scripts/check_links.py:416-464 | one batch checks each of its URLs and reports it once per source |
| LinkCheck.OnePerOccurrence | scripts/check_links.py:394-464 | the results' (url, file, field) are a rearrangement of the occurrences: exactly one result per occurrence |
| LinkCheck.FanOutReports | scripts/check_links.py:429-464 | every result carries its URL's code and message, the classification of that code and the source type of its file |
| LinkCheck.SameUrlSameOutcome | scripts/check_links.py:429-464 | two results for one URL have the same status, code and message |
| MetadataRefresh.BuildEntryInclude | scripts/update_github_metadata.py:81-88 | with a flag set exactly the flagged kinds are included; with neither, both |
| MetadataRefresh.GetEntryKind | scripts/update_github_metadata.py:95-108 | a file is an agent entry iff it lies below `agents` in the data directory and a boilerplate entry iff below `boilerplates`; anything else, the root included, has no kind |
| MetadataRefresh.AddFoundEntryFiles | scripts/update_github_metadata.py:143-146 | the loop over the files a directory scan found applies `add_file` to each, in order |
| MetadataRefresh.AddEntryPaths | scripts/update_github_metadata.py:137-148 | the loop over the explicit paths handles each one as the script does |
| MetadataRefresh.CollectEntryFiles | scripts/update_github_metadata.py:111-150 | the files are the sorted, duplicate-free set of what was collected, with the error lines in argument order |
| MetadataRefresh.DefaultEntryFiles | scripts/update_github_metadata.py:129-135 | with no paths, the globs of the included kinds are taken, agents first |
| MetadataRefresh.FoundEntriesAdmissible | scripts/update_github_metadata.py:117-127 | files found by scanning are kept only when they are YAML, not `.gitkeep`, of an included kind; they never add an error |
| MetadataRefresh.EntryArgsAdmissible | scripts/update_github_metadata.py:117-148 | every file kept from the arguments is admissible; the errors are one per missing path and one per explicit YAML file outside the entry directories |
| MetadataRefresh.ExplicitEntriesAdmissible | scripts/update_github_metadata.py:111-150 | with explicit paths every collected file is an admissible entry file and the errors are exactly those of the arguments |
| MetadataRefresh.NormalizeRepo | scripts/update_github_metadata.py:163-169 | the result is never longer than the input |
| MetadataRefresh.NormalizeRepoTrims | scripts/update_github_metadata.py:163-169 | surrounding whitespace does not change the normalised repository |
| MetadataRefresh.NormalizePlainRepo | scripts/update_github_metadata.py:163-169 | a plain `owner/repo` is left unchanged |
| MetadataRefresh.NormalizeRepoUrl | scripts/update_github_metadata.py:165-166 | the repository URL gives the plain slug back |
| MetadataRefresh.NormalizeCloneUrl | scripts/update_github_metadata.py:165-168 | the clone URL ending in `.git` gives the plain slug back |
| MetadataRefresh.NormalizeExistingInt | scripts/update_github_metadata.py:225-230 | an integer is itself (a bool counts as 0 or 1); a string has a value iff it is a non-empty run of digits; anything else has none |
| MetadataRefresh.ExistingIntOfRenderedCount | scripts/update_github_metadata.py:228-229 | a count written as digits reads back as that count |
| MetadataRefresh.NormalizeExistingDate | scripts/update_github_metadata.py:217-223 | a date gives its ISO text, a string itself, anything else nothing |
| MetadataRefresh.FormatYamlValue | scripts/update_github_metadata.py:233-242 | no line for None; every line starts with `key: `; the date line is single-quoted |
| MetadataRefresh.KeyLine | scripts/update_github_metadata.py:245-249 | the index is of the first line starting with `key:`, and None exactly when no line does |
| MetadataRefresh.KeyLineUnique | scripts/update_github_metadata.py:245-249 | that first matching line is determined uniquely by the two properties |
| MetadataRefresh.FindKeyLine | scripts/update_github_metadata.py:245-249 | the loop returns the first line starting with `key:` |
| MetadataRefresh.OrderedKeysGood | scripts/update_github_metadata.py:264 | the ordered keys are exactly the tracked keys present in the updates, each once, in the fixed order |
| MetadataRefresh.AnchorNone | scripts/update_github_metadata.py:258-262 | there is no anchor exactly when none of the anchor keys is present |
| MetadataRefresh.AnchorIsLastPresent | scripts/update_github_metadata.py:258-262 | otherwise the anchor is the line of the last anchor key present, in list order |
| MetadataRefresh.FindAnchor | scripts/update_github_metadata.py:258-262 | the anchor loop computes that anchor |
| MetadataRefresh.UpdateEntryLines | scripts/update_github_metadata.py:252-283 | the in-place edit produces `EditedLines` and the flag `EditChanged`, about which the lemmas below are stated |
| MetadataRefresh.UpdateSetsKey | scripts/update_github_metadata.py:266-281 | every key with a value ends up with its new line, as the first line of that key |
| MetadataRefresh.UpdateSetsPresentKey | scripts/update_github_metadata.py:270-275 | a key that had a line has its line replaced by the formatted update |
| MetadataRefresh.UpdateSetsMissingKey | scripts/update_github_metadata.py:276-281 | a key that had no line gets one holding the formatted update |
| MetadataRefresh.UpdateKeepsPlace | scripts/update_github_metadata.py:270-275 | a key that was present keeps its line, shifted only when it lay after the anchor |
| MetadataRefresh.UpdateKeepsOtherLines | scripts/update_github_metadata.py:252-283 | every line that is no updated key's line keeps its text, moved down only past inserted lines |
| MetadataRefresh.UpdateInsertsAfterAnchor | scripts/update_github_metadata.py:276-281 | the missing keys' lines form one block right after the anchor line, or at the end without one, and the list grows by exactly that block |
| MetadataRefresh.UpdateChangedIff | scripts/update_github_metadata.py:257-281 | `changed` is true exactly when the edited lines differ from the original |
| MetadataRefresh.UpdateIdempotent | scripts/update_github_metadata.py:252-283 | editing the result again with the same updates changes nothing and reports no change |
| MetadataRefresh.MetadataOfResponse | scripts/update_github_metadata.py:187-214 | a 403 with no remaining quota is the rate-limit error; any other non-200 status knows nothing; a 200 takes the date and takes stars and archived only when they have the right types |
| MetadataRefresh.FailedLookupChangesNothing | scripts/update_github_metadata.py:197-201 | a 404 or other failed lookup never changes an entry |
| MetadataRefresh.BuildUpdates | scripts/update_github_metadata.py:286-304 | only tracked keys are updated; each exactly when GitHub knows it and the entry's normalised value differs (archived also when missing); the value is GitHub's |
| MetadataRefresh.RefreshKeepsConformance | scripts/update_github_metadata.py:232-240 | under any schema that types the tracked keys as count, date and flag, an entry that conformed still conforms after the refresh is written (the date as quoted ISO text) and loaded again |
| MetadataRefresh.AgentSchemaTracksKinds | scripts/models.py:60-68 | the agent schema declares `github_stars`, `last_updated` and `is_archived` as count, date and flag |
| MetadataRefresh.BoilerplateSchemaTracksKinds | scripts/models.py:236-242 | the boilerplate schema declares the same three keys with the same kinds |
| MetadataRefresh.RefreshedEntryValidates | scripts/update_github_metadata.py:307-327 | an agent or boilerplate entry that validated before the refresh validates after it |
| MetadataRefresh.RefreshSettles | scripts/update_github_metadata.py:286-304 | once the updates are written and the entry loaded again, a second refresh against the same metadata wants nothing |
| MetadataRefresh.BuildUpdatesAgreeing | scripts/update_github_metadata.py:286-304 | an entry that already agrees with GitHub gets no updates |
| MetadataRefresh.BuildUpdatesNothingKnown | scripts/update_github_metadata.py:289-302 | GitHub reporting nothing leaves the entry alone |
| MetadataRefresh.EntryRepo | scripts/update_github_metadata.py:375-385 | a repository is asked about only when `github_repo` is truthy and its normalised form contains `/` |
| MetadataRefresh.EntryRepoOfText | scripts/update_github_metadata.py:375-385 | a non-empty text gives its normalised form when that has a `/`, and is skipped otherwise |
| MetadataRefresh.EntryRepoSpellings | scripts/update_github_metadata.py:375-385 | the slug, its repository URL and its clone URL all lead to the same slug |
| MetadataRefresh.SplitLinesRoundTrip | scripts/update_github_metadata.py:311-322 | splitting a file into lines and rendering them with the newline flag gives the file back |
| MetadataRefresh.UpdateEntryFile | scripts/update_github_metadata.py:307-328 | the file counts as updated iff there are updates and the edit changed something; it is written iff updated and not a dry run, with the edited lines and its final newline kept |
| MetadataRefresh.UnwrittenFileUnchanged | scripts/update_github_metadata.py:307-318 | whenever nothing is written, the file's text is exactly what the edit would give |
| Grouping.GroupBy | scripts/generate_site.py:80-82 | the `defaultdict(list)` append loop builds the dictionary `GroupsOf`, with its keys in first-seen order |
| Grouping.GroupsOfExact | scripts/generate_site.py:80-82 | the dictionary has exactly the keys that occur, each mapped to all items with that key, in input order, and no empty list |
| Grouping.GroupsPartition | scripts/generate_site.py:80-82 | the groups taken in key order hold every item exactly once: together they rearrange the input |
| Grouping.GroupSizes | scripts/generate_site.py:80-82 | the group sizes add up to the number of items |
| Grouping.GroupAndSort | scripts/generate_site.py:78-88 | appending by key and then sorting each group gives `SortedGroupsOf` |
| Grouping.SortEachGroup | scripts/generate_site.py:85-86 | the sorting loop sorts the group of each key it visits and leaves the other groups |
| Grouping.SortedGroup | scripts/generate_readme.py:50-60 | a group exists iff some item has its key; it holds exactly those items, is sorted by the sort key, and keeps input order among equal sort keys |
| Grouping.CanonicalFirstPermutes | scripts/generate_boilerplates.py:152-160 | the ordered list holds every seen key exactly once and nothing else, canonical keys ahead of the rest |
| Grouping.OrderCanonically | scripts/generate_boilerplates.py:153-160 | the two loops list the canonical keys that occur, in canonical order, then the remaining keys in first-seen order |
| Catalog.StarsThenNameOrder | scripts/generate_site.py:101 | sorting by `(-(stars or 0), name.lower())` puts star counts in non-increasing order and equal counts in name order |
| Catalog.CategoryOrderSorted | scripts/generate_site.py:130 | sorting by `order` gives non-decreasing `order` |
| Catalog.GroupAgentsByCategory | scripts/generate_site.py:78-88 | agents grouped by category, each group sorted stably by lower-cased name |
| Catalog.GroupBoilerplatesByCategory | scripts/generate_boilerplates.py:98-110 | boilerplates grouped by category, each group sorted stably by stars descending (None as 0), then lower-cased name |
| Catalog.GroupCategoriesByEcosystem | scripts/generate_boilerplates.py:80-95 | boilerplate categories grouped by ecosystem, each group sorted stably by `order` |
| Catalog.BoilerplateGroupOrder | scripts/generate_site.py:91-103 | a boilerplate group holds exactly that category's boilerplates, stars never increasing |
| Catalog.EcosystemGroupOrder | scripts/generate_site.py:123-130 | an ecosystem group holds exactly that ecosystem's categories, `order` never decreasing |
| Catalog.CanonicalEcosystemOrder | scripts/generate_site.py:132-143 | every ecosystem with a category appears exactly once; the listed ecosystems come before the others |
| SiteGenerator.SiteEcosystemsDistinct | scripts/generate_site.py:111-121 | the display order names each ecosystem once |
| SiteGenerator.GroupBoilerplatesByEcosystem | scripts/generate_site.py:106-143 | the groups are sorted by `order`, and the keys come in display order, then the others as first seen |
| SiteGenerator.TitlesOf | scripts/generate_site.py:153 | the title dictionary has exactly the categories' ids as keys |
| SiteGenerator.TitlesOfLast | scripts/generate_site.py:153 | the title kept for an id is that of the last category with the id |
| SiteGenerator.CategoryTitleLookup | scripts/generate_site.py:153-162 | the title shown is that of the last category with the id, or the raw id when no category has it |
| SiteGenerator.CreateSearchIndex | scripts/generate_site.py:146-170 | one record per agent, in input order, each built from that agent and the title lookup |
| SiteGenerator.TechSummary | scripts/generate_site.py:241-243 | the technologies of the first five components at most, in order; none without a stack |
| SiteGenerator.CreateBoilerplateSearchIndex | scripts/generate_site.py:229-261 | one record per boilerplate, in input order, each built from that boilerplate and the title lookup |
| SiteGenerator.CombinedSearchIndex | scripts/generate_site.py:402-406 | the agents' records come first and are not flagged; the boilerplates' follow, flagged, with at most five technologies |
| SiteGenerator.UrlBlock | scripts/generate_site.py:187-192 | one page is six lines opening with `<url>` |
| SiteGenerator.GenerateSitemap | scripts/generate_site.py:180-222 | the appending code builds the sitemap's lines in order: home, categories, boilerplate index, boilerplate categories |
| SiteGenerator.SitemapUrlCount | scripts/generate_site.py:183-222 | the sitemap has 1 + categories + 1 + boilerplate categories `<url>` blocks |
| SiteGenerator.SitemapBaseUnslashed | scripts/generate_site.py:180 | the base URL has no trailing slash and is a prefix of the configured URL |
| SiteGenerator.CountAgentsByType | scripts/generate_site.py:438-442 | the counting loop builds `TypeCounts` |
| SiteGenerator.TypeCountsExact | scripts/generate_site.py:438-442 | each type's counter is the number of agents of that type; only types that occur have a counter |
| SiteGenerator.TypeCountsTotal | scripts/generate_site.py:438-442 | the per-type counts add up to the number of agents |
| SiteGenerator.CategoryCounts | scripts/generate_site.py:427-433 | the category counts have exactly the listed categories' ids as keys |
| SiteGenerator.AgentsByCategory | scripts/generate_site.py:427-429 | a category's count is the number of agents in it |
| BoilerplateReadme.FormatStarsReadsBack | scripts/generate_boilerplates.py:45-55 | a missing count shows as `-`; a count below 1000 is at most three digits that read back as the count |
| BoilerplateReadme.KeepSlugChars | scripts/generate_boilerplates.py:72 | only slug characters are kept, text made of them is unchanged, and one character is kept iff it is a slug character |
| BoilerplateReadme.KeepSlugCharsAppend | scripts/generate_boilerplates.py:72 | filtering distributes over concatenation, so the kept characters are those of the input in order |
| BoilerplateReadme.SlugifyIsSlug | scripts/generate_boilerplates.py:58-77 | a slug has only `[a-z0-9-]`, no `--` and no hyphen at either end |
| BoilerplateReadme.SlugifyOfSlug | scripts/generate_boilerplates.py:58-77 | a slug is its own slug |
| BoilerplateReadme.SlugifyIdempotent | scripts/generate_boilerplates.py:58-77 | slugifying twice is slugifying once |
| BoilerplateReadme.PyPrefix | scripts/generate_boilerplates.py:121 | Python's `s[:n]` is a prefix, of length `n` when `0 <= n <= len(s)` |
| BoilerplateReadme.BeforeLastSpace | scripts/generate_boilerplates.py:121 | `rsplit(" ", 1)[0]` is a prefix ending right before the last space, or the whole text exactly when it has no space |
| BoilerplateReadme.TruncateDescriptionShort | scripts/generate_boilerplates.py:113-120 | text within the limit comes back with its whitespace collapsed and the same words |
| BoilerplateReadme.TruncateDescriptionLong | scripts/generate_boilerplates.py:119-121 | longer text is cut at a space (or at the cut point), is a prefix of the collapsed text plus `...`, and fits the limit when that is at least 3 |
| BoilerplateReadme.CollapseSpacesIdempotent | scripts/generate_boilerplates.py:118 | collapsing whitespace twice is collapsing it once |
| BoilerplateReadme.ReadmeEcosystemsDistinct | scripts/generate_boilerplates.py:124-137 | the canonical order names each ecosystem once |
| BoilerplateReadme.OrderedEcosystems | scripts/generate_boilerplates.py:146-160 | the groups are sorted by `order`; the ecosystems come in canonical order, then the others as first met |
| Slugs.CollapseHyphens | scripts/generate_boilerplates.py:74 | runs of hyphens become one: no `--` remains, nothing longer, first and last characters kept, text without `--` unchanged |
| Slugs.FinishSlugIsSlug | scripts/generate_boilerplates.py:74-76 | collapsing and stripping hyphens from slug characters gives a slug |
| Slugs.FinishSlugOfSlug | scripts/generate_boilerplates.py:74-76 | a slug passes through unchanged |
| MigrateBoilerplates.HyphenateSeparators | scripts/migrate_boilerplates.py:93 | `+`, `/` and `&` become hyphens, every other character stays, length kept |
| MigrateBoilerplates.IndexOfChar | scripts/migrate_boilerplates.py:95 | the index is that of the first occurrence, or -1 when there is none |
| MigrateBoilerplates.OpenParenthesesPlain | scripts/migrate_boilerplates.py:95 | text without `(` is unchanged |
| MigrateBoilerplates.OpenParenthesesPrefix | scripts/migrate_boilerplates.py:95 | text without `(` in front of the scan is copied and the scan goes on after it |
| MigrateBoilerplates.OpenParenthesesAtGroup | scripts/migrate_boilerplates.py:95 | a group `(b)` at the start, `b` non-empty without `)`, becomes `-b` |
| MigrateBoilerplates.OpenParenthesesGroup | scripts/migrate_boilerplates.py:95 | before the first `(` text is kept, a group `(b)` with non-empty `b` becomes `-b`, and the scan goes on after it |
| MigrateBoilerplates.OpenParenthesesUnclosed | scripts/migrate_boilerplates.py:95 | without `)` nothing is rewritten |
| MigrateBoilerplates.OpenParenthesesExample | scripts/migrate_boilerplates.py:95 | `a(b)c` becomes `a-bc` |
| MigrateBoilerplates.HyphenateOthers | scripts/migrate_boilerplates.py:97 | every non-slug character becomes a hyphen and slug characters stay, length kept |
| MigrateBoilerplates.SlugifyIsSlug | scripts/migrate_boilerplates.py:81-102 | a file name has only `[a-z0-9-]`, no `--` and no hyphen at either end |
| MigrateBoilerplates.SlugifyOfSlug | scripts/migrate_boilerplates.py:81-102 | a slug is its own file name |
| MigrateBoilerplates.SlugifyParentheses | scripts/migrate_boilerplates.py:95-101 | a parenthesised word is joined by one hyphen: `a(b)c` gives `a-bc` |
| MigrateBoilerplates.SlugifyDotBecomesHyphen | scripts/migrate_boilerplates.py:97 | as written, a dot becomes a hyphen: `next.js` gives `next-js` |
| MigrateBoilerplates.DropDotsNone | scripts/migrate_boilerplates.py:85-87 | dropping dots leaves no dot and keeps a text without dots unchanged |
| MigrateBoilerplates.DropDotsAppend | scripts/migrate_boilerplates.py:85-87 | dropping dots distributes over concatenation |
| MigrateBoilerplates.SlugifyDotless | scripts/migrate_boilerplates.py:81-102 | the corrected file name is a slug, and equals `slugify` on text without dots |
| MigrateBoilerplates.SlugifyDotlessJoins | scripts/migrate_boilerplates.py:85-87 | in the corrected file name a dot joins the words around it |
| MigrateBoilerplates.SlugifyDotlessExample | scripts/migrate_boilerplates.py:86 | the corrected file name of `next.js` is the documented `nextjs` |
| MigrateBoilerplates.ReplaceAll | scripts/migrate_boilerplates.py:161-162 | text without the character is unchanged; every output character comes from the replacement or is another input character |
| MigrateBoilerplates.DropNonAscii | scripts/migrate_boilerplates.py:165 | only ASCII characters remain, and ASCII text is unchanged |
| MigrateBoilerplates.SanitizeAscii | scripts/migrate_boilerplates.py:135-165 | the replacement loop then the filter computes `Sanitized` |
| MigrateBoilerplates.SanitizedIsAscii | scripts/migrate_boilerplates.py:135-165 | the result has only characters below 128 |
| MigrateBoilerplates.SanitizedKeepsAscii | scripts/migrate_boilerplates.py:135-165 | ASCII text, the empty text among it, comes back unchanged |
| MigrateBoilerplates.TakeSegment | scripts/migrate_boilerplates.py:180 | `[^/]+` takes the longest prefix without `/` |
| MigrateBoilerplates.RepoAt | scripts/migrate_boilerplates.py:180 | a match at a position is `owner/repo` and starts after `github.com/` |
| MigrateBoilerplates.SearchRepo | scripts/migrate_boilerplates.py:180-182 | the leftmost match is `owner/repo` and the URL contains `github.com/` |
| MigrateBoilerplates.ExtractGithubRepoShape | scripts/migrate_boilerplates.py:176-183 | nothing for an empty or non-GitHub URL; a result always has exactly one `/` with text on both sides |
| MigrateBoilerplates.ExtractGithubRepoOfPage | scripts/migrate_boilerplates.py:176-183 | `https://github.com/owner/repo` gives `owner/repo` |
| MigrateBoilerplates.YamlScalarLosesBackslash | scripts/migrate_boilerplates.py:863-866 | as written, the value `a:\n` (backslash, n) is quoted without escaping the backslash and reads back with a line break |
| MigrateBoilerplates.EscapeForYamlReadsBack | scripts/migrate_boilerplates.py:865 | escaping backslashes and quotes makes the double-quoted reader give the value back |
| MigrateBoilerplates.YamlScalarFixedReadsBack | scripts/migrate_boilerplates.py:843-868 | every quoted scalar of the corrected `yaml_value` reads back as its value |
| MigrateBoilerplates.ReadQuotedNewline | scripts/migrate_boilerplates.py:865-866 | a double-quoted YAML reader turns backslash-n into a line break |
| MigrateBoilerplates.EscapesAgree | scripts/migrate_boilerplates.py:865 | without backslashes, escaping quotes alone equals full escaping |
| MigrateBoilerplates.YamlScalarPlain | scripts/migrate_boilerplates.py:845-868 | the empty value gives `""`; a value needing no quotes is itself; without backslashes the corrected and original forms agree |
| MigrateBoilerplates.WrapText | scripts/migrate_boilerplates.py:870-890 | the lines hold the input's words in order; no line is empty; a line over the width is a single word |
| MigrateBoilerplates.WrapDone | scripts/migrate_boilerplates.py:887-890 | closing the last open line keeps those three properties |
| MigrateBoilerplates.CollectTagsFacts | scripts/migrate_boilerplates.py:638-642 | the starting tags stay in front, no duplicate is added, and the result holds exactly the starting tags and the tags of matching patterns |
| MigrateBoilerplates.GenerateTags | scripts/migrate_boilerplates.py:610-644 | the category id comes first, no tag twice, at most ten; every other tag's pattern matched the name or content, and with room all of them are there |
| MigrateBoilerplates.EntryUrl | scripts/migrate_boilerplates.py:341-349 | the URL is the `url` attribute, else the first link, and missing exactly when both are empty |
| MigrateBoilerplates.TakeAtMost | scripts/migrate_boilerplates.py:363 | `s[:n]` is a prefix of at most `n` characters, the whole text when short enough |
| MigrateBoilerplates.CleanedKeeps | scripts/migrate_boilerplates.py:386-388 | clean-up keeps exactly the fields whose value is not None, `[]` or `""` |
| MigrateBoilerplates.DescriptionFieldBound | scripts/migrate_boilerplates.py:363-365 | a description from the markdown is a prefix of its sanitised text of at most 2000 characters; otherwise the default sentence, which is never empty |
| MigrateBoilerplates.TagsNonEmpty | scripts/migrate_boilerplates.py:368 | an entry's tags are never empty and start with the category id |
| MigrateBoilerplates.MigrationParser.constructor | scripts/migrate_boilerplates.py:199-211 | no entries, no seen URLs, all counters zero |
| MigrateBoilerplates.MigrationParser.ParseEntry | scripts/migrate_boilerplates.py:329-390 | one more entry met; no URL is a skip; a seen URL is a skip and a duplicate; a new URL is remembered and its cleaned entry kept; `total == entries + skipped` and seen URLs match the kept entries throughout |
| MigrateBoilerplates.MigrationParser.Keep | scripts/migrate_boilerplates.py:357-390 | a new URL is counted, remembered and its entry appended, the invariant kept |
| MigrateBoilerplates.UrlKept | scripts/migrate_boilerplates.py:362-388 | a non-empty URL survives the clean-up |
| Migrate.Lookup | scripts/migrate.py:67-72 | a key has a value exactly when it is one of the dictionary's keys |
| Migrate.SetKey | scripts/migrate.py:107-121 | the key gets the value, a present key keeps its place, a new one goes last, other keys unchanged |
| Migrate.CloseBold | scripts/migrate.py:47 | the index is the first `**` at or after the start, or -1 when there is none |
| Migrate.Unbold | scripts/migrate.py:47 | removing bold markers never lengthens the text |
| Migrate.UnboldPlain | scripts/migrate.py:47 | a name without `**` is left as it is |
| Migrate.UnboldWrapped | scripts/migrate.py:47 | `**name**` loses exactly its markers |
| Migrate.LinkAfter | scripts/migrate.py:53 | a link group is an http(s) address without `)` |
| Migrate.SearchLink | scripts/migrate.py:53-54 | the found address is always an http(s) link target |
| Migrate.SearchLinkOf | scripts/migrate.py:53-54 | `[text](url)` for an http(s) address gives back the address |
| Migrate.TakeName | scripts/migrate.py:62 | `[^/\s]+` takes the longest prefix without `/` or whitespace |
| Migrate.TableRepoAt | scripts/migrate.py:62 | a match at a position is `owner/repo` right after `github.com/` |
| Migrate.SearchTableRepo | scripts/migrate.py:62 | the leftmost match is `owner/repo` and the URL contains `github.com/` |
| Migrate.TableRepoShape | scripts/migrate.py:59-64 | a repository is found only in a URL containing `github.com`, and it is always `owner/repo` |
| Migrate.RowEntryShape | scripts/migrate.py:29-74 | only a line starting with `|`, without `---`, with at least three cells and no header word gives an entry, with exactly the four keys, a non-empty name, an http(s) or empty URL and a repository only for GitHub URLs |
| Migrate.RowShape | scripts/migrate.py:67-72 | a row with a non-empty name, an http(s) or empty URL and a GitHub-only repository is well formed, with exactly its four keys |
| Migrate.TableEntriesShape | scripts/migrate.py:27-76 | at most one entry per line, each well formed |
| Migrate.ParseMarkdownTable | scripts/migrate.py:18-76 | the loop over the `\n`-split lines returns the entries of the lines, in order, each well formed |
| Migrate.HyphenateNonAlnum | scripts/migrate.py:98 | lower-case letters and digits stay, every other character becomes a hyphen |
| Migrate.FilenameIsSlug | scripts/migrate.py:98 | the file name has only `[a-z0-9-]`, no `--` and no hyphen at either end |
| Migrate.FilenameOfSlug | scripts/migrate.py:98 | a name that is already a slug is its own file name |
| Migrate.TypeForKeywords | scripts/migrate.py:111-121 | the type is one of five, chosen by the first keyword test that holds in the order framework, platform, course or learning, community, each as an iff; tool iff no keyword |
| Migrate.SaveYamlFile | scripts/migrate.py:94-121 | the file name is the slug of the name; category, date, `verified: false` and the type are set; present keys keep their place and new keys follow |
| Migrate.SetMetadata | scripts/migrate.py:107-109 | one assignment keeps the entry an extension of the original and sets the key |
| Migrate.SetKeyExtends | scripts/migrate.py:107-121 | setting a metadata key keeps the original keys first, in order |
| Search.Score | static/js/search.js:31-60 | a score lies between 0 and 170 and is a multiple of ten |
| Search.ScorePositive | static/js/search.js:31-64 | an entry scores iff the term is in its lower-cased name or description, a tag, its category or its type; an exact name scores at least 100 |
| Search.Hits | static/js/search.js:30-65 | the hits are exactly the index entries with a positive score, each with that score |
| Search.Top | static/js/search.js:68 | at most ten results, a prefix of the ranked hits, all of them when there are no more than ten |
| Search.ScoreEntry | static/js/search.js:31-60 | the additions compute `Score` |
| Search.CollectHits | static/js/search.js:30-65 | the loop over the index computes `Hits` |
| Search.PerformSearch | static/js/search.js:18-69 | no index, an empty index, no query or a query under two characters gives no results; otherwise at most ten hits, each scoring, in non-increasing score |
| Search.RankedFacts | static/js/search.js:62-68 | ranked hits are hits of the index, ordered by non-increasing score |
| Search.HitRanked | static/js/search.js:62-68 | every scoring entry is among the ranked hits |
| Search.TopKeepsBest | static/js/search.js:68 | in ranked hits, a hit is kept or the tenth kept hit scores at least as much |
| Search.ResultsComplete | static/js/search.js:18-69 | every scoring entry is shown, or ten are shown and the last of them scores at least as much |
| FilterUtils.NormalizeQuery | static/js/filter-utils.js:4-6 | `null` or `undefined` gives the empty query; otherwise the result is the lower-cased query with only surrounding whitespace cut off, no upper-case letter and no whitespace at either end |
| FilterUtils.NormalizeQueryExact | static/js/filter-utils.js:5 | any slice of the lower-cased query that drops only whitespace and keeps none at its ends is the normalised query |
| Strings.StripTrims | static/js/filter-utils.js:5 | `trim()` / `str.strip()` keep one slice of the text, with only whitespace outside it and none at its ends |
| Strings.StripUnique | static/js/filter-utils.js:5 | that description determines the stripped text |
| FilterUtils.StripKeeps | static/js/filter-utils.js:5 | trimming only keeps characters of the input |
| FilterUtils.SkipRun | static/js/filter-utils.js:10 | a separator run is skipped entirely and stops at a non-separator or the end |
| FilterUtils.SplitRuns | static/js/filter-utils.js:10 | splitting gives at least one piece, the first a prefix of the text, every piece a run of non-separators of the text, and the pieces joined are the text's non-separator characters in order |
| FilterUtils.SplitRunsPieceIn | static/js/filter-utils.js:10 | a prefix of a piece occurs in the text |
| FilterUtils.LongPieces | static/js/filter-utils.js:11 | exactly the pieces of two or more characters are kept |
| FilterUtils.LongPiecesAppend | static/js/filter-utils.js:11 | filtering keeps order: the tokens of a concatenation are those of each part in turn |
| FilterUtils.TokensShape | static/js/filter-utils.js:8-12 | every token is at least two characters long, lower case and without whitespace |
| FilterUtils.TextMatchesTokensContains | static/js/filter-utils.js:14-23 | text matches iff there are no tokens, or it is non-empty and contains every token; the word-prefix test adds nothing |
| Cards.TagsPassJoined | static/js/category.js:134-141 | with tags set, a card passes iff one of its comma-separated tags is active |
| Cards.Without | static/js/category.js:80-81 | removing a tag keeps exactly the other tags |
| Cards.ToggledFlips | static/js/category.js:77-86 | toggling adds an absent tag, removes a present one, and leaves every other tag as it was |
| Cards.WithoutAbsent | static/js/category.js:80-81 | removing an absent tag changes nothing |
| Cards.ToggledTwice | static/js/category.js:77-86 | toggling a tag on and off again restores the active tags |
| Cards.LeadingDigits | static/js/category.js:161-162 | `parseInt` reads the longest prefix of digits: the digits read are followed by a non-digit or the end |
| Cards.LeadingDigitsAll | static/js/category.js:161-162 | a run of digits is read whole |
| Cards.ParseIntOrZeroOf | static/js/category.js:161-162 | a count written in decimal reads back as itself |
| Cards.SortCardsFacts | static/js/category.js:147-177 | sorting is a permutation; an unknown sort key keeps the order; by stars the counts never increase and equal counts keep their order |
| CategoryPage.Filters.constructor | static/js/category.js:4-10 | no search, type, pricing or tag is set and the sort is by name |
| CategoryPage.Filters.SetSearch | static/js/category.js:30-31 | the search becomes the lower-cased query, other filters unchanged |
| CategoryPage.Filters.ToggleTag | static/js/category.js:77-86 | the active tags are toggled, other filters unchanged |
| CategoryPage.Filters.Reset | static/js/category.js:222-229 | every filter is cleared and the sort is by name |
| CategoryPage.MatchesAll | static/js/category.js:111-144 | a card is shown iff it passes the search, type, pricing and tag (any-of) filters that are set; with none set every card is shown |
| BoilerplatePage.Get | static/js/boilerplate.js:32-51 | a value found belongs to the key; nothing is found iff the key is absent |
| BoilerplatePage.GetAppend | static/js/boilerplate.js:32-51 | the first occurrence of a key wins |
| BoilerplatePage.GetFive | static/js/boilerplate.js:70-82 | in five joined parameter lists the key is looked up in order |
| BoilerplatePage.GetUrlParams | static/js/boilerplate.js:69-83 | only filters differing from their defaults are written: search, ecosystem, pricing, tags joined by commas, and the sort unless it is by stars |
| BoilerplatePage.NonEmpty | static/js/boilerplate.js:51 | empty tag pieces are dropped, every non-empty piece is kept, and only pieces remain |
| BoilerplatePage.NonEmptyAppend | static/js/boilerplate.js:51 | filtering distributes over concatenation, so the kept pieces are the non-empty ones in order |
| BoilerplatePage.NonEmptyAll | static/js/boilerplate.js:51 | pieces that are all non-empty are kept as they are |
| BoilerplatePage.UrlRoundTrip | static/js/boilerplate.js:29-83 | reading back the URL written for a state gives that state, for a lower-case search and comma-free non-empty tags |
| BoilerplatePage.Filters.constructor | static/js/boilerplate.js:4-10 | the filters start at the default state, sorted by stars |
| BoilerplatePage.Filters.InitializeFromUrl | static/js/boilerplate.js:29-66 | the state is read from the parameters, keeping fields whose parameter is missing |
| BoilerplatePage.Filters.UpdateUrl | static/js/boilerplate.js:69-83 | the parameters written are those of the current state |
| BoilerplatePage.Filters.SetSearch | static/js/boilerplate.js:90-91 | only the search changes, to the lower-cased query |
| BoilerplatePage.Filters.ToggleTag | static/js/boilerplate.js:137-147 | only the active tags change, toggled |
| BoilerplatePage.Filters.Reset | static/js/boilerplate.js:279-287 | the state returns to the default |
| BoilerplatePage.MatchesAll | static/js/boilerplate.js:171-204 | a card is shown iff it passes the search, ecosystem, pricing and tag (any-of) filters that are set; the default state shows every card |
| FormatNumber.Grouped | static/js/main.js:109-111 | grouping keeps the first and last digit |
| FormatNumber.CommasFromPlain | static/js/main.js:110 | no comma goes into a tail shorter than three digits or a number of at most three digits |
| FormatNumber.CommasFromLast | static/js/main.js:110 | a comma precedes the last three digits |
| FormatNumber.CommasFromGrouped | static/js/main.js:110 | the left-to-right insertion equals grouping from the right |
| FormatNumber.GroupedSplits | static/js/main.js:110 | split at commas, the groups rejoin to the digits; the first has one to three digits and the others exactly three |
| FormatNumber.SplitOnSnoc | static/js/main.js:110 | splitting after appending a separator and a piece appends that piece |
| FormatNumber.ShortDigits | static/js/main.js:110 | a number below 1000 has at most three digits |
| FormatNumber.GroupedFacts | static/js/main.js:110 | removing the commas gives the digits back, no comma at either end, and the groups have the right sizes |
| FormatNumber.SignedGroupedFacts | static/js/main.js:110 | the same holds after a minus sign |
| FormatNumber.SignedGroups | static/js/main.js:110 | the minus sign joins the first group |
| FormatNumber.FormatNumberFacts | static/js/main.js:109-111 | removing the commas gives the decimal form; below 1000 in magnitude nothing changes; no comma at either end; first group of one to three digits after any sign, the others exactly three |

## Left out

- File and directory I/O: globbing, reading and writing files, `shutil`, and the site configuration loader. Files are values: paths, texts, or load outcomes.
- YAML parsing and dumping. A loaded file is a datatype: syntax error, empty, not a mapping, or a mapping of values. `yaml.dump` in the migration scripts is not modelled.
- Jinja2 rendering of the READMEs and site pages, the printed reports and colours, and the JSON report file. The data handed to the templates is modelled.
- Network calls: the HTTP HEAD and GET probes, the GitHub API requests, `create_github_issues`, and progress bars. A probe is an abstract outcome (status code, timeout, client error, other error), and an API reply is a response value.
- asyncio concurrency in `check_all_urls`. Batches run one after the other, which fixes the order of results.
- Sleeping and wall-clock time. The rate limiter uses an integer millisecond clock passed in by the caller. Backoff delays are recorded, not slept.
- The main loop of `update_github_metadata.py` beyond one entry: the cache, the limit and the pauses between requests.
- Floating point: `parse_star_count`, and the `K` notation of `format_stars`.
- BoilerplateReadme.FormatStars: requires a count below 1000 or none. The `K` branch for larger counts is float formatting.
- `parse_github_date` (`strptime`). The fetched date comes with the response.
- Python `str()` of floats, lists and mappings in `EntryRepo`. Such values yield no repository.
- Validate.CategoryIdOf: a truthy float, list or mapping `id` adds no id, where scripts/validate.py:182-183 adds its `str()` text. An entry that refers to such an id is reported by the model and accepted by the source.
- ValidatePaths.CollectFiles: paths are taken resolved, as component lists. The source collects the raw `Path(raw_path)` and `rglob` results and resolves them only for the kind test (scripts/validate.py:75). A file named two ways, such as `data/agents/a.yml` and its absolute path, is collected once by the model; the source collects it twice, validates it twice and reports its URL as a duplicate of itself.
- ValidatePaths.SortCollected: sorts and removes duplicates among resolved paths, where the source does so among raw paths (scripts/validate.py:141-142), so two spellings of one file stay two entries there.
- MetadataRefresh.CollectEntryFiles: the same resolved-path simplification (scripts/update_github_metadata.py:138-150); a file named two ways is refreshed once, where the source refreshes it twice.
- Pydantic internals. `HttpUrl` validity is an abstract predicate `isUrl`. Of the lax-mode coercions only a date from `YYYY-MM-DD` text is modelled.
- Schema.ValidateFields: the other lax-mode coercions are not modelled: an integer from a digit string or a whole float, a boolean from texts such as `"yes"` or from 0 and 1, a date from a Unix timestamp or a midnight datetime text. A record that needs one is rejected by the model and accepted by Pydantic.
- Schema.ValidateRecord: reports only the first failing field, where Pydantic collects every error. Acceptance (no error at all) agrees with Pydantic except for the coercions named on the Schema.ValidateFields line.
- `urlparse` is an abstract parser `parse`. `urlunparse` is modelled on the split record.
- Character handling is ASCII only: lower-casing, whitespace, and alphanumeric tests. Whitespace is space, tab, line feed, carriage return, vertical tab and form feed; Python's `str.strip()` and `str.split()` also treat `\x1c`-`\x1f` as whitespace, and both languages treat non-ASCII spaces so. `str.splitlines` splits on `\n` only.
- Regex engines: each pattern the model needs is a hand-written scanner. The markdown, template and static extraction passes of the link checker take their regex matches as input lists, so those patterns themselves are not modelled. `YamlLinks` is the YAML path, which reads fields of the loaded record and uses no regex.
- The section parsers of `migrate_boilerplates.py`: `parse_document`, `parse_ecosystem`, `extract_tech_stack_table`, `extract_pros_cons`, `extract_text_section`, `generate_yaml_content` and their statistics counters. Also `extract_section` of `migrate.py`.
- `--dry-run` output and the command-line parsing of every script beyond the flags modelled.
- Browser concerns: DOM updates, event wiring, debouncing, `escapeHtml`, `highlightText`, `history.replaceState`, and `URLSearchParams` percent-encoding. URL parameters are a list of key and value pairs.
- `localeCompare` in the name and date sorts is approximated by code-point order of the text (`Cards.NameKey`, `Cards.DateKey`). Only the stars sort is proved ordered.
- `formatNumber` on non-integers: the model takes an integer.
- FormatNumber.FormatNumber: groups every integer's decimal digits. JavaScript's `toString` prints magnitudes from 1e21 up in exponent form (such as `1e+21`, which gets no commas), and numbers above 2^53 are not exact integers there; both bounds are not modelled.
- Cards.ParseIntOrZero: reads decimal digits only; `parseInt` without a radix also reads a leading `0x` as hexadecimal (static/js/category.js:161-162, static/js/boilerplate.js:221-222).
- LinkCheck.RateLimiter.WaitIfNeeded: the per-domain limit is proved for calls made one after another. The checker starts a whole batch with `asyncio.gather`, and a call can be suspended in its sleep between reading and extending the domain's list, so interleaved calls can exceed the limit. This interleaving is not modelled.
- SiteGenerator.CreateSearchIndex: the record's `url` is `str()` of Pydantic's `HttpUrl` (scripts/generate_site.py:159), which may add a trailing slash or normalise the host. The model copies the field's text.
- SiteGenerator.CreateBoilerplateSearchIndex: the same `str()` of the `HttpUrl` (scripts/generate_site.py:248) is not modelled; the field's text is copied.
- LinkCheck.EntryLinks: on the validated path the URL text is `str()` of Pydantic's `HttpUrl`, which may add a trailing slash or normalise the host. The model uses the field's text as given.
- LinkCheck.EntryLinks: on the fallback path the source appends the raw `data['url']` (and the documentation and demo values) whatever its type. The model renders scalars with Python's `str()` and yields no link for a float, list or mapping value.

## Findings

| source | as written | input that shows it | evidently intended | confidence | as-written member | corrected member |
|---|---|---|---|---|---|---|
| scripts/migrate_boilerplates.py:865 | `yaml_value` escapes only `"` inside a double-quoted scalar; YAML reads a backslash there as an escape | the value `a:\n` (a backslash, then `n`) is written as `"a:\n"` and reads back with a line break | every written value reads back as itself (backslashes escaped first) | not executed | MigrateBoilerplates.YamlScalarLosesBackslash | MigrateBoilerplates.YamlScalarFixedReadsBack |
| scripts/migrate_boilerplates.py:86-87 | `slugify` turns every character outside `[a-z0-9-]`, a dot included, into a hyphen (line 97), while its documented examples drop the dot | `Next.js Boilerplate (ixartz)` gives `next-js-boilerplate-ixartz`, documented as `nextjs-boilerplate-ixartz` | a dot vanishes and joins the words around it | not executed | MigrateBoilerplates.SlugifyDotBecomesHyphen | MigrateBoilerplates.SlugifyDotlessJoins |
