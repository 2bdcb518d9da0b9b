// The record schemas of the directory (agent entries, categories,
// boilerplate entries, boilerplate categories and the technology-stack items
// inside boilerplates) as declarative field lists, one generic validator
// over them, and the declarative conformance predicate it decides.

module Schema {
  import opened Strings
  import opened YamlValue

  /** What a field accepts. */
  datatype FieldKind =
    | Text(minLen: nat, maxLen: Option<nat>)   // str with character-count bounds
    | HttpUrl                                  // str accepted by the URL parser
    | Integer
    | Boolean
    | Day                                      // a date
    | TextList                                 // List[str]
    | Choice(allowed: seq<string>)             // Literal[...]
    | Tags                                     // List[str], normalised after validation
    | Repo                                     // Optional[str] that must contain "/" when non-empty
    | Records(schema: seq<Field>)              // List of nested records

  /** A declared field: absent required fields are errors, absent optional ones take `default`. */
  datatype Field = Field(name: string, kind: FieldKind, required: bool, nullable: bool, default: Value)

  datatype Problem =
    | WrongType
    | TooShort
    | TooLong
    | NotAllowed
    | NoSlash
    | NotUrl
    | ItemNotRecord(index: nat)
    | InItem(index: nat, error: SchemaError)

  datatype SchemaError =
    | Missing(field: string)
    | Invalid(field: string, problem: Problem)
    | Extra(names: set<string>)

  type Record = map<string, Value>

  // ------------------------------------------------------------ tags

  /** `tag.lower().replace(" ", "-")` */
  function NormalizeTag(t: string): (r: string)
    ensures |r| == |t|
    ensures forall i :: 0 <= i < |r| ==> r[i] != ' ' && !IsUpper(r[i])
  {
    ReplaceChar(Lower(t), ' ', '-')
  }

  lemma NormalizeTagIdempotent(t: string)
    ensures NormalizeTag(NormalizeTag(t)) == NormalizeTag(t)
  {
    var once := NormalizeTag(t);
    assert forall i :: 0 <= i < |once| ==> LowerChar(once[i]) == once[i];
  }

  predicate AllText(items: seq<Value>) { forall i :: 0 <= i < |items| ==> items[i].Str? }

  function NormalizeTags(items: seq<Value>): (r: seq<Value>)
    requires AllText(items)
    ensures AllText(r) && |r| == |items|
  {
    seq(|items|, i requires 0 <= i < |items| => Str(NormalizeTag(items[i].s)))
  }

  // ------------------------------------------------------------ dates

  /** The value of the decimal digits `s[i..j]`. */
  function DigitsValue(s: string, i: nat, j: nat): (n: nat)
    requires i <= j <= |s| && forall k :: i <= k < j ==> IsDigit(s[k])
    decreases j - i
  {
    if i == j then 0
    else
      assert IsDigit(s[j - 1]);
      DigitsValue(s, i, j - 1) * 10 + (s[j - 1] as int - '0' as int)
  }

  predicate IsLeapYear(y: int)
  {
    y % 4 == 0 && (y % 100 != 0 || y % 400 == 0)
  }

  function DaysInMonth(y: int, m: int): (d: int)
    requires 1 <= m <= 12
    ensures 28 <= d <= 31
  {
    if m == 2 then (if IsLeapYear(y) then 29 else 28)
    else if m in {4, 6, 9, 11} then 30
    else 31
  }

  /**
   * `YYYY-MM-DD` naming a day of the proleptic Gregorian calendar from year
   * 1 on: the text a date field also accepts in place of a date node.
   */
  predicate IsIsoDate(s: string)
  {
    && |s| == 10 && s[4] == '-' && s[7] == '-'
    && (forall k :: 0 <= k < 10 && k != 4 && k != 7 ==> IsDigit(s[k]))
    && var y, m, d := DigitsValue(s, 0, 4), DigitsValue(s, 5, 7), DigitsValue(s, 8, 10);
       1 <= y && 1 <= m <= 12 && 1 <= d <= DaysInMonth(y, m)
  }

  // ------------------------------------------------------------ validator

  function Names(schema: seq<Field>): set<string>
  {
    set i | 0 <= i < |schema| :: schema[i].name
  }

  function CheckValue(kind: FieldKind, v: Value, isUrl: string -> bool): Result<Value, Problem>
    decreases kind, 3
  {
    match kind
    case Text(lo, hi) =>
      if !v.Str? then Err(WrongType)
      else if |v.s| < lo then Err(TooShort)
      else if hi.Some? && |v.s| > hi.value then Err(TooLong)
      else Ok(v)
    case HttpUrl =>
      if !v.Str? then Err(WrongType) else if !isUrl(v.s) then Err(NotUrl) else Ok(v)
    case Integer => if v.Int? then Ok(v) else Err(WrongType)
    case Boolean => if v.Bool? then Ok(v) else Err(WrongType)
    case Day =>
      if v.Date? then Ok(v)
      else if v.Str? && IsIsoDate(v.s) then Ok(Date(v.s))
      else Err(WrongType)
    case TextList => if v.List? && AllText(v.items) then Ok(v) else Err(WrongType)
    case Choice(allowed) =>
      if !v.Str? then Err(WrongType) else if v.s !in allowed then Err(NotAllowed) else Ok(v)
    case Tags =>
      if v.List? && AllText(v.items) then Ok(List(NormalizeTags(v.items))) else Err(WrongType)
    case Repo =>
      if !v.Str? then Err(WrongType)
      else if v.s != "" && '/' !in v.s then Err(NoSlash)
      else Ok(v)
    case Records(sub) =>
      if !v.List? then Err(WrongType)
      else
        match CheckItems(sub, v.items, isUrl, 0)
        case Ok(items) => Ok(List(items))
        case Err(p) => Err(p)
  }

  function CheckItems(sub: seq<Field>, items: seq<Value>, isUrl: string -> bool, index: nat)
    : Result<seq<Value>, Problem>
    decreases sub, 2, |items|
  {
    if items == [] then Ok([])
    else if !items[0].Mapping? then Err(ItemNotRecord(index))
    else
      match ValidateRecord(sub, items[0].fields, isUrl)
      case Err(e) => Err(InItem(index, e))
      case Ok(m) =>
        match CheckItems(sub, items[1..], isUrl, index + 1)
        case Err(p) => Err(p)
        case Ok(rest) => Ok([Mapping(m)] + rest)
  }

  function CheckField(f: Field, data: Record, isUrl: string -> bool): Result<Value, SchemaError>
    decreases f, 4
  {
    if f.name !in data then
      if f.required then Err(Missing(f.name)) else Ok(f.default)
    else if data[f.name].Null? && f.nullable then Ok(Null)
    else
      match CheckValue(f.kind, data[f.name], isUrl)
      case Ok(w) => Ok(w)
      case Err(p) => Err(Invalid(f.name, p))
  }

  /** Checks the declared fields in declaration order; the first failure is reported. */
  function ValidateFields(schema: seq<Field>, data: Record, isUrl: string -> bool)
    : (r: Result<Record, SchemaError>)
    ensures r.Ok? ==> r.value.Keys == Names(schema)
    ensures r.Err? ==> !r.error.Extra?
    decreases schema, 0
  {
    if schema == [] then Ok(map[])
    else
      match CheckField(schema[0], data, isUrl)
      case Err(e) => Err(e)
      case Ok(v) =>
        match ValidateFields(schema[1..], data, isUrl)
        case Err(e) => Err(e)
        case Ok(m) =>
          assert Names(schema) == Names(schema[1..]) + {schema[0].name} by {
            assert forall i :: 0 < i < |schema| ==> schema[i] == schema[1..][i - 1];
          }
          Ok(m[schema[0].name := v])
  }

  /**
   * `Model(**data)`: every declared field valid and no undeclared key
   * (`extra = "forbid"`).  The result holds every declared field, with
   * defaults filled in and tags normalised.
   */
  function ValidateRecord(schema: seq<Field>, data: Record, isUrl: string -> bool)
    : (r: Result<Record, SchemaError>)
    ensures r.Ok? ==> r.value.Keys == Names(schema)
    ensures r.Err? && r.error.Extra? ==> r.error.names == data.Keys - Names(schema)
    ensures r.Err? && r.error.Extra? ==> r.error.names != {}
    decreases schema, 1
  {
    match ValidateFields(schema, data, isUrl)
    case Err(e) => Err(e)
    case Ok(m) =>
      if data.Keys <= Names(schema) then Ok(m)
      else
        NotSubsetDifference(data.Keys, Names(schema));
        Err(Extra(data.Keys - Names(schema)))
  }

  lemma NotSubsetDifference(a: set<string>, b: set<string>)
    requires !(a <= b)
    ensures a - b != {}
  {
    var k :| k in a && k !in b;
    assert k in a - b;
  }

  // ---------------------------------------------------- declarative spec

  ghost predicate ValueOk(kind: FieldKind, v: Value, isUrl: string -> bool)
    decreases kind, 3
  {
    match kind
    case Text(lo, hi) => v.Str? && lo <= |v.s| && (hi.None? || |v.s| <= hi.value)
    case HttpUrl => v.Str? && isUrl(v.s)
    case Integer => v.Int?
    case Boolean => v.Bool?
    case Day => v.Date? || (v.Str? && IsIsoDate(v.s))
    case TextList => v.List? && AllText(v.items)
    case Choice(allowed) => v.Str? && v.s in allowed
    case Tags => v.List? && AllText(v.items)
    case Repo => v.Str? && (v.s == "" || '/' in v.s)
    case Records(sub) =>
      v.List? && forall i :: 0 <= i < |v.items| ==> ItemOk(sub, v.items[i], isUrl)
  }

  ghost predicate ItemOk(sub: seq<Field>, item: Value, isUrl: string -> bool)
    decreases sub, 2
  {
    item.Mapping? && Conforms(sub, item.fields, isUrl)
  }

  ghost predicate FieldOk(f: Field, data: Record, isUrl: string -> bool)
    decreases f, 4
  {
    if f.name in data then
      (data[f.name].Null? && f.nullable) || ValueOk(f.kind, data[f.name], isUrl)
    else !f.required
  }

  /** A mapping conforms when it has no undeclared key and every declared field is acceptable. */
  ghost predicate Conforms(schema: seq<Field>, data: Record, isUrl: string -> bool)
    decreases schema, 1
  {
    data.Keys <= Names(schema) && forall i :: 0 <= i < |schema| ==> FieldOk(schema[i], data, isUrl)
  }

  lemma {:induction false} CheckValueIff(kind: FieldKind, v: Value, isUrl: string -> bool)
    ensures CheckValue(kind, v, isUrl).Ok? <==> ValueOk(kind, v, isUrl)
    decreases kind, 3
  {
    match kind {
      case Records(sub) =>
        if v.List? { CheckItemsIff(sub, v.items, isUrl, 0); }
      case _ =>
    }
  }

  lemma {:induction false} CheckItemsIff(sub: seq<Field>, items: seq<Value>, isUrl: string -> bool, index: nat)
    ensures CheckItems(sub, items, isUrl, index).Ok?
        <==> forall i :: 0 <= i < |items| ==> ItemOk(sub, items[i], isUrl)
    decreases sub, 2, |items|
  {
    if items != [] {
      if items[0].Mapping? {
        ValidateRecordIff(sub, items[0].fields, isUrl);
      }
      CheckItemsIff(sub, items[1..], isUrl, index + 1);
      assert forall i :: 0 < i < |items| ==> items[i] == items[1..][i - 1];
    }
  }

  lemma {:induction false} CheckFieldIff(f: Field, data: Record, isUrl: string -> bool)
    ensures CheckField(f, data, isUrl).Ok? <==> FieldOk(f, data, isUrl)
    decreases f, 4
  {
    if f.name in data {
      CheckValueIff(f.kind, data[f.name], isUrl);
    }
  }

  lemma {:induction false} ValidateFieldsIff(schema: seq<Field>, data: Record, isUrl: string -> bool)
    ensures ValidateFields(schema, data, isUrl).Ok?
        <==> forall i :: 0 <= i < |schema| ==> FieldOk(schema[i], data, isUrl)
    decreases schema, 0
  {
    if schema != [] {
      CheckFieldIff(schema[0], data, isUrl);
      ValidateFieldsIff(schema[1..], data, isUrl);
      assert forall i :: 0 < i < |schema| ==> schema[i] == schema[1..][i - 1];
    }
  }

  /** The validator accepts exactly the conforming mappings. */
  lemma {:induction false} ValidateRecordIff(schema: seq<Field>, data: Record, isUrl: string -> bool)
    ensures ValidateRecord(schema, data, isUrl).Ok? <==> Conforms(schema, data, isUrl)
    decreases schema, 1
  {
    ValidateFieldsIff(schema, data, isUrl);
  }

  /**
   * A record that conforms keeps conforming when declared keys are added or
   * changed, as long as every changed field holds a value its kind accepts.
   */
  lemma ConformsAfterChange(schema: seq<Field>, data: Record, d: Record, isUrl: string -> bool)
    requires Conforms(schema, data, isUrl)
    requires data.Keys <= d.Keys <= Names(schema)
    requires forall i :: 0 <= i < |schema| && schema[i].name in d ==>
      (schema[i].name in data && d[schema[i].name] == data[schema[i].name]) ||
      ValueOk(schema[i].kind, d[schema[i].name], isUrl)
    ensures Conforms(schema, d, isUrl)
  {
    forall i | 0 <= i < |schema| ensures FieldOk(schema[i], d, isUrl) {
      assert FieldOk(schema[i], data, isUrl);
    }
  }

  /** A date field takes a date node, or the ISO text of a day, which it reads as that date. */
  lemma DayAcceptsIsoText(s: string, isUrl: string -> bool)
    ensures CheckValue(Day, Str(s), isUrl).Ok? <==> IsIsoDate(s)
    ensures IsIsoDate(s) ==> CheckValue(Day, Str(s), isUrl) == Ok(Date(s))
    ensures CheckValue(Day, Date(s), isUrl) == Ok(Date(s))
  {
  }

  /** The leap day of a leap year is a date ... */
  lemma LeapDayAccepted()
    ensures IsIsoDate("2024-02-29")
  {
    assert DigitsValue("2024-02-29", 0, 4) == 2024;
  }

  /** ... and of any other year is not. */
  lemma LeapDayRejected()
    ensures !IsIsoDate("2023-02-29")
  {
    assert DigitsValue("2023-02-29", 0, 4) == 2023;
  }

  /** An undeclared key is always rejected. */
  lemma ExtraKeyRejected(schema: seq<Field>, data: Record, isUrl: string -> bool, k: string)
    requires k in data && k !in Names(schema)
    ensures ValidateRecord(schema, data, isUrl).Err?
  {
  }


  // -------------------------------------------------- the five schemas

  function Req(name: string, kind: FieldKind): Field { Field(name, kind, true, false, Null) }

  function Opt(name: string, kind: FieldKind): Field { Field(name, kind, false, true, Null) }

  function WithDefault(name: string, kind: FieldKind, d: Value): Field { Field(name, kind, false, false, d) }

  const AnyText: FieldKind := Text(0, None)

  const EntryTypes: seq<string> := ["framework", "platform", "tool", "course", "community", "research"]

  const Pricings: seq<string> := ["free", "freemium", "paid", "enterprise"]

  const BoilerplateTypes: seq<string> := ["starter", "boilerplate", "template", "scaffold", "toolkit"]

  const BoilerplatePricings: seq<string> := ["free", "freemium", "paid", "enterprise", "open-core"]

  /** AgentEntry */
  const AgentFields: seq<Field> := [
    Req("name", Text(1, Some(100))),
    Req("url", HttpUrl),
    Req("description", Text(20, Some(1000))),
    Req("category", AnyText),
    Opt("subcategory", AnyText),
    WithDefault("type", Choice(EntryTypes), Str("framework")),
    WithDefault("tags", Tags, List([])),
    Opt("github_repo", Repo),
    Opt("documentation_url", HttpUrl),
    Opt("demo_url", HttpUrl),
    Opt("platform", TextList),
    Opt("license", AnyText),
    Opt("pricing", Choice(Pricings)),
    Opt("github_stars", Integer),
    Opt("last_updated", Day),
    WithDefault("is_archived", Boolean, Bool(false)),
    WithDefault("featured", Boolean, Bool(false)),
    WithDefault("verified", Boolean, Bool(false)),
    Opt("added_date", Day),
    Opt("last_verified", Day)
  ]

  /** Category */
  const CategoryFields: seq<Field> := [
    Req("id", AnyText),
    Req("title", AnyText),
    WithDefault("emoji", AnyText, Str("📦")),
    Req("description", Text(10, Some(500))),
    WithDefault("order", Integer, Int(0)),
    Opt("parent", AnyText),
    WithDefault("show_github_stats", Boolean, Bool(true)),
    WithDefault("table_columns", TextList, List([Str("name"), Str("url"), Str("description")]))
  ]

  /** TechStackComponent */
  const TechStackFields: seq<Field> := [
    Req("component", Text(1, Some(50))),
    Req("technology", Text(1, Some(100))),
    Opt("reasoning", Text(0, Some(500)))
  ]

  /** BoilerplateEntry */
  const BoilerplateFields: seq<Field> := [
    Req("name", Text(1, Some(100))),
    Req("url", HttpUrl),
    Req("description", Text(20, Some(2000))),
    Req("category", AnyText),
    WithDefault("type", Choice(BoilerplateTypes), Str("boilerplate")),
    WithDefault("tags", Tags, List([])),
    Opt("github_repo", Repo),
    Opt("documentation_url", HttpUrl),
    Opt("demo_url", HttpUrl),
    WithDefault("technical_stack", Records(TechStackFields), List([])),
    Opt("platform", TextList),
    Opt("license", AnyText),
    Opt("pricing", Choice(BoilerplatePricings)),
    Opt("github_stars", Integer),
    Opt("last_updated", Day),
    WithDefault("is_archived", Boolean, Bool(false)),
    Opt("key_features", TextList),
    Opt("use_case", Text(0, Some(1000))),
    Opt("pros", TextList),
    Opt("cons", TextList),
    Opt("community", Text(0, Some(500))),
    Opt("deployment", TextList),
    WithDefault("featured", Boolean, Bool(false)),
    WithDefault("verified", Boolean, Bool(false)),
    Opt("added_date", Day),
    Opt("last_verified", Day)
  ]

  /** BoilerplateCategory */
  const BoilerplateCategoryFields: seq<Field> := [
    Req("id", AnyText),
    Req("title", AnyText),
    WithDefault("emoji", AnyText, Str("📦")),
    Req("description", Text(10, Some(500))),
    Req("ecosystem", AnyText),
    WithDefault("order", Integer, Int(0)),
    WithDefault("show_github_stats", Boolean, Bool(true)),
    WithDefault("table_columns", TextList,
      List([Str("name"), Str("url"), Str("description"), Str("github_stars")]))
  ]
}

module SchemaFacts {
  import opened Strings
  import opened YamlValue
  import opened Schema

  /** The repository rule: non-empty values need a "/" somewhere, nothing more. */
  lemma RepoRule(s: string, isUrl: string -> bool)
    ensures CheckValue(Repo, Str(s), isUrl).Ok? <==> s == "" || '/' in s
    ensures CheckValue(Repo, Str(s), isUrl).Ok? ==> CheckValue(Repo, Str(s), isUrl).value == Str(s)
  {
  }

  /** "a/b/c" passes although it is not an owner/repo pair; "owner" does not. */
  lemma RepoRuleExamples(isUrl: string -> bool)
    ensures CheckValue(Repo, Str("a/b/c"), isUrl).Ok?
    ensures CheckValue(Repo, Str("owner"), isUrl) == Err(NoSlash)
  {
    assert "a/b/c"[1] == '/';
  }

  /** Validated tags are the input tags, each lower-cased with spaces turned into hyphens. */
  lemma TagsNormalised(items: seq<Value>, isUrl: string -> bool)
    requires CheckValue(Tags, List(items), isUrl).Ok?
    ensures var out := CheckValue(Tags, List(items), isUrl).value;
      out.List? && |out.items| == |items|
      && forall i :: 0 <= i < |items| ==> items[i].Str? && out.items[i] == Str(NormalizeTag(items[i].s))
  {
  }

  /** Validating already-normalised tags changes nothing. */
  lemma TagsValidationIdempotent(items: seq<Value>, isUrl: string -> bool)
    requires CheckValue(Tags, List(items), isUrl).Ok?
    ensures var out := CheckValue(Tags, List(items), isUrl).value;
      CheckValue(Tags, out, isUrl) == Ok(out)
  {
    var out := CheckValue(Tags, List(items), isUrl).value;
    forall i | 0 <= i < |out.items|
      ensures NormalizeTag(out.items[i].s) == out.items[i].s
    {
      NormalizeTagIdempotent(items[i].s);
    }
    assert NormalizeTags(out.items) == out.items;
  }

  /** What an accepted agent entry is guaranteed to hold. */
  lemma AgentEntryConstraints(data: Record, isUrl: string -> bool)
    requires ValidateRecord(AgentFields, data, isUrl).Ok?
    ensures data.Keys <= Names(AgentFields)
    ensures "name" in data && data["name"].Str? && 1 <= |data["name"].s| <= 100
    ensures "url" in data && data["url"].Str? && isUrl(data["url"].s)
    ensures "description" in data && data["description"].Str?
         && 20 <= |data["description"].s| <= 1000
    ensures "category" in data && data["category"].Str?
    ensures "type" in data ==> data["type"].Str? && data["type"].s in EntryTypes
    ensures "github_repo" in data && !data["github_repo"].Null? ==>
              data["github_repo"].Str? && (data["github_repo"].s == "" || '/' in data["github_repo"].s)
    ensures "pricing" in data && !data["pricing"].Null? ==>
              data["pricing"].Str? && data["pricing"].s in Pricings
  {
    ValidateRecordIff(AgentFields, data, isUrl);
    AgentConforming(data, isUrl);
  }

  lemma {:induction false} AgentConforming(data: Record, isUrl: string -> bool)
    requires Conforms(AgentFields, data, isUrl)
    ensures data.Keys <= Names(AgentFields)
    ensures "name" in data && data["name"].Str? && 1 <= |data["name"].s| <= 100
    ensures "url" in data && data["url"].Str? && isUrl(data["url"].s)
    ensures "description" in data && data["description"].Str?
         && 20 <= |data["description"].s| <= 1000
    ensures "category" in data && data["category"].Str?
    ensures "type" in data ==> data["type"].Str? && data["type"].s in EntryTypes
    ensures "github_repo" in data && !data["github_repo"].Null? ==>
              data["github_repo"].Str? && (data["github_repo"].s == "" || '/' in data["github_repo"].s)
    ensures "pricing" in data && !data["pricing"].Null? ==>
              data["pricing"].Str? && data["pricing"].s in Pricings
  {
    AgentRequiredFields(data, isUrl);
    AgentOptionalFields(data, isUrl);
  }

  lemma AgentRequiredFields(data: Record, isUrl: string -> bool)
    requires Conforms(AgentFields, data, isUrl)
    ensures "name" in data && data["name"].Str? && 1 <= |data["name"].s| <= 100
    ensures "url" in data && data["url"].Str? && isUrl(data["url"].s)
    ensures "description" in data && data["description"].Str?
         && 20 <= |data["description"].s| <= 1000
    ensures "category" in data && data["category"].Str?
  {
    FieldOkAt(AgentFields, data, isUrl, 0);
    FieldOkAt(AgentFields, data, isUrl, 1);
    FieldOkAt(AgentFields, data, isUrl, 2);
    FieldOkAt(AgentFields, data, isUrl, 3);
  }

  lemma AgentOptionalFields(data: Record, isUrl: string -> bool)
    requires Conforms(AgentFields, data, isUrl)
    ensures "type" in data ==> data["type"].Str? && data["type"].s in EntryTypes
    ensures "github_repo" in data && !data["github_repo"].Null? ==>
              data["github_repo"].Str? && (data["github_repo"].s == "" || '/' in data["github_repo"].s)
    ensures "pricing" in data && !data["pricing"].Null? ==>
              data["pricing"].Str? && data["pricing"].s in Pricings
  {
    var kind, repo, pricing := AgentFields[5], AgentFields[7], AgentFields[12];
    assert kind == WithDefault("type", Choice(EntryTypes), Str("framework"));
    assert repo == Opt("github_repo", Repo);
    assert pricing == Opt("pricing", Choice(Pricings));
    FieldOkAt(AgentFields, data, isUrl, 5);
    FieldOkAt(AgentFields, data, isUrl, 7);
    FieldOkAt(AgentFields, data, isUrl, 12);
  }

  lemma FieldOkAt(schema: seq<Field>, data: Record, isUrl: string -> bool, i: nat)
    requires Conforms(schema, data, isUrl) && i < |schema|
    ensures FieldOk(schema[i], data, isUrl)
  {
  }

  /** The four required fields alone, within bounds, make a valid agent entry. */
  lemma MinimalAgentAccepted(name: string, url: string, description: string, category: string,
                             isUrl: string -> bool)
    requires 1 <= |name| <= 100 && 20 <= |description| <= 1000 && isUrl(url)
    ensures ValidateRecord(AgentFields,
              map["name" := Str(name), "url" := Str(url),
                  "description" := Str(description), "category" := Str(category)], isUrl).Ok?
  {
    var data := map["name" := Str(name), "url" := Str(url),
                     "description" := Str(description), "category" := Str(category)];
    assert AgentFields[0].name == "name" && AgentFields[1].name == "url";
    assert AgentFields[2].name == "description" && AgentFields[3].name == "category";
    assert data.Keys <= Names(AgentFields);
    forall i | 0 <= i < |AgentFields| ensures FieldOk(AgentFields[i], data, isUrl) {
      if i >= 4 {
        LaterAgentNames(i);
      }
    }
    ValidateRecordIff(AgentFields, data, isUrl);
  }

  /** No optional agent field shares its name with a required one. */
  lemma LaterAgentNames(i: nat)
    requires 4 <= i < |AgentFields|
    ensures AgentFields[i].name !in {"name", "url", "description", "category"}
  {
  }

  /**
   * The validated record carries the first declared field of that name; for a
   * field whose name no earlier field uses, its own checked value.
   */
  lemma {:induction false} FieldValueInResult(schema: seq<Field>, data: Record, isUrl: string -> bool, i: nat)
    requires i < |schema|
    requires forall a :: 0 <= a < i ==> schema[a].name != schema[i].name
    requires ValidateFields(schema, data, isUrl).Ok?
    ensures CheckField(schema[i], data, isUrl).Ok?
    ensures ValidateFields(schema, data, isUrl).value[schema[i].name]
         == CheckField(schema[i], data, isUrl).value
  {
    if i > 0 {
      assert schema[1..][i - 1] == schema[i];
      FieldValueInResult(schema[1..], data, isUrl, i - 1);
    }
  }

  lemma NameListed(schema: seq<Field>, i: nat)
    requires i < |schema|
    ensures schema[i].name in Names(schema)
  {
  }

  /** An omitted optional field takes its declared default in the validated record. */
  lemma DefaultWhenAbsent(schema: seq<Field>, data: Record, isUrl: string -> bool, i: nat)
    requires i < |schema|
    requires forall a :: 0 <= a < i ==> schema[a].name != schema[i].name
    requires ValidateRecord(schema, data, isUrl).Ok?
    requires schema[i].name !in data
    ensures ValidateRecord(schema, data, isUrl).value[schema[i].name] == schema[i].default
  {
    FieldValueInResult(schema, data, isUrl, i);
  }

  /** Where the defaulted agent fields sit in the declaration, and their defaults. */
  lemma AgentDefaultFields()
    ensures |AgentFields| == 20
    ensures AgentFields[5].name == "type" && AgentFields[5].default == Str("framework")
    ensures AgentFields[6].name == "tags" && AgentFields[6].default == List([])
    ensures AgentFields[7].name == "github_repo" && AgentFields[7].default == Null
    ensures AgentFields[15].name == "is_archived" && AgentFields[15].default == Bool(false)
    ensures forall a, b :: 0 <= a < b < 16 ==> AgentFields[a].name != AgentFields[b].name
  {
  }

  /** Defaults of an agent entry: type "framework", no tags, no repository, not archived. */
  lemma AgentDefaults(data: Record, isUrl: string -> bool)
    requires ValidateRecord(AgentFields, data, isUrl).Ok?
    ensures {"type", "tags", "github_repo", "is_archived"} <= ValidateRecord(AgentFields, data, isUrl).value.Keys
    ensures var r := ValidateRecord(AgentFields, data, isUrl).value;
      ("type" !in data ==> r["type"] == Str("framework"))
      && ("tags" !in data ==> r["tags"] == List([]))
      && ("github_repo" !in data ==> r["github_repo"] == Null)
      && ("is_archived" !in data ==> r["is_archived"] == Bool(false))
  {
    AgentDefaultFields();
    NameListed(AgentFields, 5);
    NameListed(AgentFields, 6);
    NameListed(AgentFields, 7);
    NameListed(AgentFields, 15);
    if "type" !in data { DefaultWhenAbsent(AgentFields, data, isUrl, 5); }
    if "tags" !in data { DefaultWhenAbsent(AgentFields, data, isUrl, 6); }
    if "github_repo" !in data { DefaultWhenAbsent(AgentFields, data, isUrl, 7); }
    if "is_archived" !in data { DefaultWhenAbsent(AgentFields, data, isUrl, 15); }
  }

  /** What an accepted boilerplate entry is guaranteed to hold, down to its stack items. */
  lemma BoilerplateEntryConstraints(data: Record, isUrl: string -> bool)
    requires ValidateRecord(BoilerplateFields, data, isUrl).Ok?
    ensures data.Keys <= Names(BoilerplateFields)
    ensures "name" in data && data["name"].Str? && 1 <= |data["name"].s| <= 100
    ensures "description" in data && data["description"].Str?
         && 20 <= |data["description"].s| <= 2000
    ensures "type" in data ==> data["type"].Str? && data["type"].s in BoilerplateTypes
    ensures "pricing" in data && !data["pricing"].Null? ==>
              data["pricing"].Str? && data["pricing"].s in BoilerplatePricings
    ensures "technical_stack" in data ==>
              data["technical_stack"].List?
              && forall j :: 0 <= j < |data["technical_stack"].items| ==>
                   var item := data["technical_stack"].items[j];
                   item.Mapping? && item.fields.Keys <= {"component", "technology", "reasoning"}
                   && "component" in item.fields && item.fields["component"].Str?
                   && 1 <= |item.fields["component"].s| <= 50
                   && "technology" in item.fields && item.fields["technology"].Str?
                   && 1 <= |item.fields["technology"].s| <= 100
  {
    ValidateRecordIff(BoilerplateFields, data, isUrl);
    BoilerplateConforming(data, isUrl);
    BoilerplateStackConforming(data, isUrl);
  }

  lemma {:induction false} BoilerplateConforming(data: Record, isUrl: string -> bool)
    requires Conforms(BoilerplateFields, data, isUrl)
    ensures data.Keys <= Names(BoilerplateFields)
    ensures "name" in data && data["name"].Str? && 1 <= |data["name"].s| <= 100
    ensures "description" in data && data["description"].Str?
         && 20 <= |data["description"].s| <= 2000
    ensures "type" in data ==> data["type"].Str? && data["type"].s in BoilerplateTypes
    ensures "pricing" in data && !data["pricing"].Null? ==>
              data["pricing"].Str? && data["pricing"].s in BoilerplatePricings
  {
    BoilerplateRequiredFields(data, isUrl);
    BoilerplateOptionalFields(data, isUrl);
  }

  lemma BoilerplateRequiredFields(data: Record, isUrl: string -> bool)
    requires Conforms(BoilerplateFields, data, isUrl)
    ensures "name" in data && data["name"].Str? && 1 <= |data["name"].s| <= 100
    ensures "description" in data && data["description"].Str?
         && 20 <= |data["description"].s| <= 2000
  {
    var name, description := BoilerplateFields[0], BoilerplateFields[2];
    assert name == Req("name", Text(1, Some(100)));
    assert description == Req("description", Text(20, Some(2000)));
    FieldOkAt(BoilerplateFields, data, isUrl, 0);
    FieldOkAt(BoilerplateFields, data, isUrl, 2);
  }

  lemma BoilerplateOptionalFields(data: Record, isUrl: string -> bool)
    requires Conforms(BoilerplateFields, data, isUrl)
    ensures "type" in data ==> data["type"].Str? && data["type"].s in BoilerplateTypes
    ensures "pricing" in data && !data["pricing"].Null? ==>
              data["pricing"].Str? && data["pricing"].s in BoilerplatePricings
  {
    var kind, pricing := BoilerplateFields[4], BoilerplateFields[12];
    assert kind == WithDefault("type", Choice(BoilerplateTypes), Str("boilerplate"));
    assert pricing == Opt("pricing", Choice(BoilerplatePricings));
    FieldOkAt(BoilerplateFields, data, isUrl, 4);
    FieldOkAt(BoilerplateFields, data, isUrl, 12);
  }

  lemma {:induction false} BoilerplateStackConforming(data: Record, isUrl: string -> bool)
    requires Conforms(BoilerplateFields, data, isUrl)
    ensures "technical_stack" in data ==>
              data["technical_stack"].List?
              && forall j :: 0 <= j < |data["technical_stack"].items| ==>
                   var item := data["technical_stack"].items[j];
                   item.Mapping? && item.fields.Keys <= {"component", "technology", "reasoning"}
                   && "component" in item.fields && item.fields["component"].Str?
                   && 1 <= |item.fields["component"].s| <= 50
                   && "technology" in item.fields && item.fields["technology"].Str?
                   && 1 <= |item.fields["technology"].s| <= 100
  {
    assert FieldOk(BoilerplateFields[9], data, isUrl);
    if "technical_stack" in data {
      var items := data["technical_stack"].items;
      forall j | 0 <= j < |items|
        ensures items[j].Mapping? && items[j].fields.Keys <= {"component", "technology", "reasoning"}
        ensures "component" in items[j].fields && items[j].fields["component"].Str?
             && 1 <= |items[j].fields["component"].s| <= 50
        ensures "technology" in items[j].fields && items[j].fields["technology"].Str?
             && 1 <= |items[j].fields["technology"].s| <= 100
      {
        TechStackItem(items[j], isUrl);
      }
    }
  }

  lemma TechStackItem(item: Value, isUrl: string -> bool)
    requires ItemOk(TechStackFields, item, isUrl)
    ensures item.Mapping? && item.fields.Keys <= {"component", "technology", "reasoning"}
    ensures "component" in item.fields && item.fields["component"].Str?
         && 1 <= |item.fields["component"].s| <= 50
    ensures "technology" in item.fields && item.fields["technology"].Str?
         && 1 <= |item.fields["technology"].s| <= 100
    ensures "reasoning" in item.fields && !item.fields["reasoning"].Null? ==>
              item.fields["reasoning"].Str? && |item.fields["reasoning"].s| <= 500
  {
    assert FieldOk(TechStackFields[0], item.fields, isUrl);
    assert FieldOk(TechStackFields[1], item.fields, isUrl);
    assert FieldOk(TechStackFields[2], item.fields, isUrl);
    assert Names(TechStackFields) == {"component", "technology", "reasoning"} by {
      assert TechStackFields[0].name == "component";
      assert TechStackFields[1].name == "technology";
      assert TechStackFields[2].name == "reasoning";
    }
  }

  /** Category and boilerplate-category bounds; the ecosystem is mandatory for the latter. */
  lemma {:induction false} CategoryConstraints(data: Record, isUrl: string -> bool)
    ensures ValidateRecord(CategoryFields, data, isUrl).Ok? ==>
              "id" in data && data["id"].Str? && "title" in data && data["title"].Str?
              && "description" in data && data["description"].Str?
              && 10 <= |data["description"].s| <= 500
    ensures ValidateRecord(BoilerplateCategoryFields, data, isUrl).Ok? ==>
              "ecosystem" in data && data["ecosystem"].Str?
              && "description" in data && data["description"].Str?
              && 10 <= |data["description"].s| <= 500
  {
    ValidateRecordIff(CategoryFields, data, isUrl);
    ValidateRecordIff(BoilerplateCategoryFields, data, isUrl);
    if ValidateRecord(CategoryFields, data, isUrl).Ok? {
      assert FieldOk(CategoryFields[0], data, isUrl);
      assert FieldOk(CategoryFields[1], data, isUrl);
      assert FieldOk(CategoryFields[3], data, isUrl);
    }
    if ValidateRecord(BoilerplateCategoryFields, data, isUrl).Ok? {
      assert FieldOk(BoilerplateCategoryFields[3], data, isUrl);
      assert FieldOk(BoilerplateCategoryFields[4], data, isUrl);
    }
  }

  lemma CategoryOrderField()
    ensures |CategoryFields| == 8
    ensures CategoryFields[4].name == "order" && CategoryFields[4].default == Int(0)
    ensures forall a :: 0 <= a < 4 ==> CategoryFields[a].name != "order"
  {
  }

  /** An omitted category order defaults to 0. */
  lemma CategoryOrderDefault(data: Record, isUrl: string -> bool)
    requires ValidateRecord(CategoryFields, data, isUrl).Ok?
    requires "order" !in data
    ensures "order" in ValidateRecord(CategoryFields, data, isUrl).value
    ensures ValidateRecord(CategoryFields, data, isUrl).value["order"] == Int(0)
  {
    CategoryOrderField();
    NameListed(CategoryFields, 4);
    DefaultWhenAbsent(CategoryFields, data, isUrl, 4);
  }
}
