/**
 * The content loaders of admin/build_data.js: `parseProjects`,
 * `parseExperiences`, `parseBio` and `parseSkills`.
 *
 * The file system is a parameter: whether the directory (or file) exists,
 * and the directory listing in `readdirSync` order with each file's text.
 */
module Loaders {
  import opened Wrappers
  import opened Text
  import opened Frontmatter
  import opened Sorting

  /** A directory entry: the file name and the file's text. */
  datatype Entry = Entry(name: string, text: string)

  predicate IsMarkdown(name: string) {
    EndsWith(name, ".md")
  }

  /** `path.basename(name, '.md')` of a bare file name ending in `.md`; `.md` itself gives "". */
  function IdOf(name: string): (id: string)
    requires IsMarkdown(name)
    ensures id + ".md" == name
  {
    assert name == name[..|name| - 3] + name[|name| - 3..];
    name[..|name| - 3]
  }

  // ----- JavaScript values as the comparators see them -----

  /** A property read `d.k`; None is `undefined`. */
  function Get(d: Data, k: string): Option<Value> {
    if k in d then Some(d[k]) else None
  }

  /** Truthiness: `undefined`, "" and 0 are falsy; every array, even an empty one, is truthy. */
  predicate Truthy(v: Option<Value>) {
    match v
    case None => false
    case Some(Str(s)) => s != ""
    case Some(Num(n)) => n != 0
    case Some(List(_)) => true
  }

  /** `Number(s)` on integer strings: surrounding whitespace is ignored and a blank string is 0; None is NaN. */
  function StringToNumber(s: string): Option<int> {
    var t := Trim(s);
    if t == "" then Some(0)
    else if IsNumeral(t) then Some(NumeralValue(t))
    else None
  }

  /** `Array.prototype.join(',')`. */
  function JoinCommas(items: seq<string>): string {
    if |items| == 0 then ""
    else if |items| == 1 then items[0]
    else items[0] + "," + JoinCommas(items[1..])
  }

  /** The number a value becomes as an operand of `-`; an array goes through its comma-joined text. */
  function ToNumber(v: Value): Option<int> {
    match v
    case Num(n) => Some(n)
    case Str(s) => StringToNumber(s)
    case List(items) => StringToNumber(JoinCommas(items))
  }

  /** Subtraction, NaN if either side is. */
  function Minus(x: Option<int>, y: Option<int>): Option<int> {
    if x.Some? && y.Some? then Some(x.value - y.value) else None
  }

  /** How the sort reads a comparator's result: NaN counts as 0. */
  function SortValue(r: Option<int>): int {
    match r
    case Some(n) => n
    case None => 0
  }

  // ----- Projects -----

  /** The projects comparator: by `order` when both have one, otherwise featured ones first. */
  function ProjectCompare(a: Data, b: Data): Option<int> {
    if Truthy(Get(a, "order")) && Truthy(Get(b, "order")) then
      Minus(ToNumber(a["order"]), ToNumber(b["order"]))
    else if Truthy(Get(a, "featured")) && !Truthy(Get(b, "featured")) then Some(-1)
    else if !Truthy(Get(a, "featured")) && Truthy(Get(b, "featured")) then Some(1)
    else Some(0)
  }

  function ProjectOrder(a: Data, b: Data): int {
    SortValue(ProjectCompare(a, b))
  }

  /** A project record: the header data, with `id` set from the file name. */
  function ProjectRecord(e: Entry): Data
    requires IsMarkdown(e.name)
  {
    FrontmatterOf(e.text).data["id" := Str(IdOf(e.name))]
  }

  /** The records of the `.md` entries, in listing order. */
  function ProjectRecords(entries: seq<Entry>): (r: seq<Data>)
    ensures |r| <= |entries|
  {
    if entries == [] then []
    else
      var e := entries[|entries| - 1];
      ProjectRecords(entries[..|entries| - 1]) + (if IsMarkdown(e.name) then [ProjectRecord(e)] else [])
  }

  lemma ProjectRecordsStep(entries: seq<Entry>, i: nat)
    requires i < |entries|
    ensures ProjectRecords(entries[..i + 1])
      == ProjectRecords(entries[..i]) + (if IsMarkdown(entries[i].name) then [ProjectRecord(entries[i])] else [])
  {
    assert entries[..i + 1][..i] == entries[..i];
  }

  /** `parseProjects`: a missing directory gives no projects; otherwise the records, sorted. */
  method LoadProjects(dirExists: bool, entries: seq<Entry>) returns (projects: seq<Data>)
    ensures !dirExists ==> projects == []
    ensures dirExists ==> projects == SortWith(ProjectRecords(entries), ProjectOrder)
  {
    projects := [];
    if !dirExists {
      return;
    }
    for i := 0 to |entries|
      invariant projects == ProjectRecords(entries[..i])
    {
      var file := entries[i];
      ProjectRecordsStep(entries, i);
      if EndsWith(file.name, ".md") {
        var data, _ := ParseFrontmatter(file.text);
        data := data["id" := Str(IdOf(file.name))];
        projects := projects + [data];
      }
    }
    assert entries[..|entries|] == entries;
    projects := SortWith(projects, ProjectOrder);
  }

  // ----- Experiences -----

  /** `a.order || 999`. */
  function OrderOr999(d: Data): Value {
    if Truthy(Get(d, "order")) then d["order"] else Num(999)
  }

  /** The experiences comparator: by `order`, a missing or falsy one counting as 999. */
  function ExperienceCompare(a: Data, b: Data): Option<int> {
    Minus(ToNumber(OrderOr999(a)), ToNumber(OrderOr999(b)))
  }

  function ExperienceOrder(a: Data, b: Data): int {
    SortValue(ExperienceCompare(a, b))
  }

  /** An experience record: the header data, the body as `description` when it has none, and `id`. */
  function ExperienceRecord(e: Entry): Data
    requires IsMarkdown(e.name)
  {
    var p := FrontmatterOf(e.text);
    var d := if !Truthy(Get(p.data, "description")) && p.content != "" then p.data["description" := Str(p.content)] else p.data;
    d["id" := Str(IdOf(e.name))]
  }

  function ExperienceRecords(entries: seq<Entry>): (r: seq<Data>)
    ensures |r| <= |entries|
  {
    if entries == [] then []
    else
      var e := entries[|entries| - 1];
      ExperienceRecords(entries[..|entries| - 1]) + (if IsMarkdown(e.name) then [ExperienceRecord(e)] else [])
  }

  lemma ExperienceRecordsStep(entries: seq<Entry>, i: nat)
    requires i < |entries|
    ensures ExperienceRecords(entries[..i + 1])
      == ExperienceRecords(entries[..i]) + (if IsMarkdown(entries[i].name) then [ExperienceRecord(entries[i])] else [])
  {
    assert entries[..i + 1][..i] == entries[..i];
  }

  /** `parseExperiences`: a missing directory gives none; otherwise the records, sorted. */
  method LoadExperiences(dirExists: bool, entries: seq<Entry>) returns (experiences: seq<Data>)
    ensures !dirExists ==> experiences == []
    ensures dirExists ==> experiences == SortWith(ExperienceRecords(entries), ExperienceOrder)
  {
    experiences := [];
    if !dirExists {
      return;
    }
    for i := 0 to |entries|
      invariant experiences == ExperienceRecords(entries[..i])
    {
      var file := entries[i];
      ExperienceRecordsStep(entries, i);
      if EndsWith(file.name, ".md") {
        var data, bodyContent := ParseFrontmatter(file.text);
        if !Truthy(Get(data, "description")) && bodyContent != "" {
          data := data["description" := Str(bodyContent)];
        }
        data := data["id" := Str(IdOf(file.name))];
        experiences := experiences + [data];
      }
    }
    assert entries[..|entries|] == entries;
    experiences := SortWith(experiences, ExperienceOrder);
  }

  // ----- Bio and skills -----

  /** `parseBio`: the header of the bio file, or empty `about` and `tagline` when there is no file. */
  function Bio(fileExists: bool, text: string): (d: Data)
    ensures !fileExists ==> d.Keys == {"about", "tagline"} && d["about"] == Str("") && d["tagline"] == Str("")
  {
    if fileExists then FrontmatterOf(text).data
    else map["about" := Str(""), "tagline" := Str("")]
  }

  /** A parsed JSON document. Numbers are left as integers: nothing here reads them. */
  datatype Json =
    | JNull
    | JBool(b: bool)
    | JNumber(n: int)
    | JString(s: string)
    | JArray(elems: seq<Json>)
    | JObject(fields: map<string, Json>)

  /** What `parseSkills` does: return a document, or throw when the log line reads `.length` of a missing `skills`. */
  datatype SkillsOutcome = Returned(doc: Json) | ThrowsTypeError

  /** `data.skills` is neither `undefined` nor `null`. */
  predicate HasSkills(doc: Json) {
    doc.JObject? && "skills" in doc.fields && doc.fields["skills"] != JNull
  }

  /**
   * `parseSkills`, given the document `JSON.parse` returned: an empty skills
   * list when there is no file; otherwise the document, provided reading
   * `data.skills.length` does not throw.
   */
  function Skills(fileExists: bool, parsed: Json): (r: SkillsOutcome)
    ensures r.Returned? <==> !fileExists || HasSkills(parsed)
    ensures r.Returned? ==> HasSkills(r.doc)
    ensures !fileExists ==> r == Returned(JObject(map["skills" := JArray([])]))
    ensures fileExists && HasSkills(parsed) ==> r == Returned(parsed)
  {
    if !fileExists then Returned(JObject(map["skills" := JArray([])]))
    else if HasSkills(parsed) then Returned(parsed)
    else ThrowsTypeError
  }
}
