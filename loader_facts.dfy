/**
 * What the loaders promise: record ids come from file names and are
 * distinct, experiences fall back to their body for `description`, and
 * the sort puts records in `order` (or featured-first) order, keeping
 * the listing order among equals, whenever the comparator is consistent.
 */
module LoaderFacts {
  import opened Wrappers
  import opened Text
  import opened Frontmatter
  import opened Sorting
  import opened Loaders

  // ----- Ids -----

  /** The id is empty only for a file named exactly `.md`. */
  lemma EmptyIdOnlyForBareSuffix(name: string)
    requires IsMarkdown(name)
    ensures IdOf(name) == "" <==> name == ".md"
  {
    if IdOf(name) == "" {
      assert IdOf(name) + ".md" == ".md";
    }
  }

  /** Different file names give different ids. */
  lemma IdOfInjective(a: string, b: string)
    requires IsMarkdown(a) && IsMarkdown(b) && a != b
    ensures IdOf(a) != IdOf(b)
  {
  }

  /** The names of the `.md` entries, in listing order. */
  function MarkdownNames(entries: seq<Entry>): (r: seq<string>)
    ensures forall i :: 0 <= i < |r| ==> IsMarkdown(r[i])
  {
    if entries == [] then []
    else
      var e := entries[|entries| - 1];
      MarkdownNames(entries[..|entries| - 1]) + (if IsMarkdown(e.name) then [e.name] else [])
  }

  function NamesOf(entries: seq<Entry>): set<string> {
    set e | e in entries :: e.name
  }

  /** A listing with no name twice. */
  predicate DistinctNames(entries: seq<Entry>) {
    forall i, j :: 0 <= i < j < |entries| ==> entries[i].name != entries[j].name
  }

  lemma {:induction false} MarkdownNamesDistinct(entries: seq<Entry>)
    requires DistinctNames(entries)
    ensures forall i, j :: 0 <= i < j < |MarkdownNames(entries)| ==> MarkdownNames(entries)[i] != MarkdownNames(entries)[j]
    ensures forall n :: n in MarkdownNames(entries) ==> n in NamesOf(entries)
    decreases |entries|
  {
    if entries != [] {
      var init, e := entries[..|entries| - 1], entries[|entries| - 1];
      assert DistinctNames(init);
      MarkdownNamesDistinct(init);
      assert e.name !in NamesOf(init);
      forall n | n in MarkdownNames(entries) ensures n in NamesOf(entries) {
        if n != e.name {
          assert n in MarkdownNames(init);
          var f :| f in init && f.name == n;
          assert f in entries;
        }
      }
    }
  }

  /** Each project record carries the id of its file, in listing order. */
  lemma {:induction false} ProjectIds(entries: seq<Entry>)
    ensures var r := ProjectRecords(entries); var names := MarkdownNames(entries);
      |r| == |names| && forall i :: 0 <= i < |r| ==> "id" in r[i] && r[i]["id"] == Str(IdOf(names[i]))
    decreases |entries|
  {
    if entries != [] {
      ProjectIds(entries[..|entries| - 1]);
    }
  }

  /** Each experience record carries the id of its file, in listing order. */
  lemma {:induction false} ExperienceIds(entries: seq<Entry>)
    ensures var r := ExperienceRecords(entries); var names := MarkdownNames(entries);
      |r| == |names| && forall i :: 0 <= i < |r| ==> "id" in r[i] && r[i]["id"] == Str(IdOf(names[i]))
    decreases |entries|
  {
    if entries != [] {
      ExperienceIds(entries[..|entries| - 1]);
    }
  }

  /** File names in a directory differ, so the project ids do too. */
  lemma ProjectIdsDistinct(entries: seq<Entry>)
    requires DistinctNames(entries)
    ensures var r := ProjectRecords(entries);
      forall i, j :: 0 <= i < j < |r| ==> Get(r[i], "id") != Get(r[j], "id")
  {
    ProjectIds(entries);
    MarkdownNamesDistinct(entries);
    var names := MarkdownNames(entries);
    forall i, j | 0 <= i < j < |names| ensures IdOf(names[i]) != IdOf(names[j]) {
      IdOfInjective(names[i], names[j]);
    }
  }

  // ----- Record contents -----

  /** A project record is the header data with `id` set; a header `id` is overwritten. */
  lemma ProjectRecordFields(e: Entry)
    requires IsMarkdown(e.name)
    ensures var d := FrontmatterOf(e.text).data; var r := ProjectRecord(e);
      r.Keys == d.Keys + {"id"} && r["id"] == Str(IdOf(e.name))
      && forall k :: k in d && k != "id" ==> r[k] == d[k]
  {
  }

  /**
   * An experience keeps a truthy header `description`; otherwise a
   * non-empty body becomes the description. The id is set last, and
   * nothing else changes.
   */
  lemma ExperienceRecordFields(e: Entry)
    requires IsMarkdown(e.name)
    ensures var p := FrontmatterOf(e.text); var r := ExperienceRecord(e);
      r["id"] == Str(IdOf(e.name))
      && (Truthy(Get(p.data, "description")) || p.content == "" ==> Get(r, "description") == Get(p.data, "description"))
      && (!Truthy(Get(p.data, "description")) && p.content != "" ==> Get(r, "description") == Some(Str(p.content)))
      && forall k :: k != "id" && k != "description" ==> Get(r, k) == Get(p.data, k)
  {
  }

  /** An empty-list `description` is truthy, so the body does not replace it. */
  lemma EmptyListDescriptionKept(e: Entry)
    requires IsMarkdown(e.name)
    requires Get(FrontmatterOf(e.text).data, "description") == Some(List([]))
    ensures Get(ExperienceRecord(e), "description") == Some(List([]))
  {
  }

  /** A file without a header becomes a description holding its whole text, as is, and an id. */
  lemma ExperienceWithoutHeader(e: Entry)
    requires IsMarkdown(e.name) && Split(e.text).None? && e.text != ""
    ensures ExperienceRecord(e) == map["description" := Str(e.text), "id" := Str(IdOf(e.name))]
  {
  }

  /** An existing bio file without a header gives no keys at all, not the empty `about` and `tagline`. */
  lemma BioWithoutHeader(text: string)
    requires Split(text).None?
    ensures Bio(true, text) == map[]
  {
  }

  // ----- Comparators -----

  /** Swapping the operands negates the projects comparator, as the sort reads it. */
  lemma ProjectOrderAntisymmetric(a: Data, b: Data)
    ensures ProjectOrder(a, b) == -ProjectOrder(b, a)
  {
  }

  /** Swapping the operands negates the experiences comparator, as the sort reads it. */
  lemma ExperienceOrderAntisymmetric(a: Data, b: Data)
    ensures ExperienceOrder(a, b) == -ExperienceOrder(b, a)
  {
  }

  /** An array operand is NaN once it has two items: its joined text holds a comma. */
  lemma ListOperand(items: seq<string>)
    ensures |items| == 0 ==> ToNumber(List(items)) == Some(0)
    ensures |items| >= 2 ==> ToNumber(List(items)) == None
  {
    if |items| >= 2 {
      var j := JoinCommas(items);
      assert j[|items[0]|] == ',';
      var t := Trim(j);
      assert t != [] by {
        assert !IsSpace(j[|items[0]|]);
      }
      assert !IsNumeral(t) by {
        CommaSurvivesTrim(j, |items[0]|);
      }
    }
  }

  /** A non-space character is still in the text after trimming. */
  lemma CommaSurvivesTrim(j: string, p: nat)
    requires p < |j| && j[p] == ','
    ensures ',' in Trim(j)
  {
    KeptByTrimStart(j, p);
    var s := TrimStart(j);
    var q :| 0 <= q < |s| && s[q] == ',';
    KeptByTrimEnd(s, q);
  }

  lemma {:induction false} KeptByTrimStart(j: string, p: nat)
    requires p < |j| && !IsSpace(j[p])
    ensures j[p] in TrimStart(j)
    decreases |j|
  {
    if IsSpace(j[0]) {
      KeptByTrimStart(j[1..], p - 1);
    }
  }

  lemma {:induction false} KeptByTrimEnd(j: string, p: nat)
    requires p < |j| && !IsSpace(j[p])
    ensures j[p] in TrimEnd(j)
    decreases |j|
  {
    if IsSpace(j[|j| - 1]) {
      KeptByTrimEnd(j[..|j| - 1], p);
    }
  }

  /** `order: 0`, an empty `order` and a missing one all sort as 999. */
  lemma FalsyOrderIs999(d: Data)
    requires !Truthy(Get(d, "order"))
    ensures ToNumber(OrderOr999(d)) == Some(999)
  {
    assert Trim("999") == "999";
  }

  /** Three projects on which the comparator is not consistent: b before a, a before c, yet b ties with c. */
  const ProjectA: Data := map["order" := Num(1)]
  const ProjectB: Data := map["featured" := Num(1)]
  const ProjectC: Data := map["order" := Num(2), "featured" := Num(1)]

  lemma ProjectComparatorCycle()
    ensures ProjectOrder(ProjectB, ProjectA) < 0 && ProjectOrder(ProjectA, ProjectC) < 0
    ensures ProjectOrder(ProjectB, ProjectC) == 0 && ProjectOrder(ProjectC, ProjectB) == 0
  {
    assert Get(ProjectA, "featured") == None;
    assert Get(ProjectB, "order") == None;
  }

  /** So no key orders these three as the comparator does: the result depends on the sort algorithm. */
  lemma ProjectComparatorInconsistent(key: Data -> int)
    ensures !PutsAfterBy([ProjectA, ProjectB, ProjectC], ProjectOrder, key)
    ensures !OrdersBy([ProjectA, ProjectB, ProjectC], ProjectOrder, key)
  {
    ProjectComparatorCycle();
    ProjectOrderAntisymmetric(ProjectA, ProjectC);
    ProjectOrderAntisymmetric(ProjectB, ProjectA);
    var s := [ProjectA, ProjectB, ProjectC];
    assert ProjectA in s && ProjectB in s && ProjectC in s;
    if key(ProjectC) <= key(ProjectA) {
      assert !(ProjectOrder(ProjectC, ProjectA) > 0 <==> key(ProjectC) > key(ProjectA));
    } else if key(ProjectA) <= key(ProjectB) {
      assert !(ProjectOrder(ProjectA, ProjectB) > 0 <==> key(ProjectA) > key(ProjectB));
    } else {
      assert !(ProjectOrder(ProjectC, ProjectB) > 0 <==> key(ProjectC) > key(ProjectB));
    }
  }

  // ----- Sorted results -----

  /** The sort key of an `order || 999` value; NaN reads as 0. */
  function OrderKey(d: Data): int {
    SortValue(ToNumber(OrderOr999(d)))
  }

  predicate HasNumericOrder(d: Data) {
    Truthy(Get(d, "order")) && ToNumber(d["order"]).Some?
  }

  /** 0 for a featured project, 1 for the rest. */
  function FeaturedRank(d: Data): int {
    if Truthy(Get(d, "featured")) then 0 else 1
  }

  /** When every project has a numeric `order`, they come out by `order`, ties in listing order. */
  lemma ProjectsByOrder(entries: seq<Entry>)
    requires forall d :: d in ProjectRecords(entries) ==> HasNumericOrder(d)
    ensures var r := SortWith(ProjectRecords(entries), ProjectOrder);
      multiset(r) == multiset(ProjectRecords(entries)) && SortedBy(r, OrderKey)
      && forall v :: WithKey(r, OrderKey, v) == WithKey(ProjectRecords(entries), OrderKey, v)
  {
    var s := ProjectRecords(entries);
    assert OrdersBy(s, ProjectOrder, OrderKey) by {
      forall a, b | a in s && b in s
        ensures (ProjectOrder(a, b) > 0 <==> OrderKey(a) > OrderKey(b)) && (ProjectOrder(a, b) < 0 <==> OrderKey(a) < OrderKey(b))
      {
        assert ProjectOrder(a, b) == OrderKey(a) - OrderKey(b);
      }
    }
    SortWithSpec(s, ProjectOrder, OrderKey);
  }

  /** When no project has a truthy `order`, featured ones come first, each group in listing order. */
  lemma ProjectsFeaturedFirst(entries: seq<Entry>)
    requires forall d :: d in ProjectRecords(entries) ==> !Truthy(Get(d, "order"))
    ensures var r := SortWith(ProjectRecords(entries), ProjectOrder);
      multiset(r) == multiset(ProjectRecords(entries)) && SortedBy(r, FeaturedRank)
      && forall v :: WithKey(r, FeaturedRank, v) == WithKey(ProjectRecords(entries), FeaturedRank, v)
  {
    var s := ProjectRecords(entries);
    assert OrdersBy(s, ProjectOrder, FeaturedRank) by {
      forall a, b | a in s && b in s
        ensures (ProjectOrder(a, b) > 0 <==> FeaturedRank(a) > FeaturedRank(b)) && (ProjectOrder(a, b) < 0 <==> FeaturedRank(a) < FeaturedRank(b))
      {
        assert ProjectOrder(a, b) == FeaturedRank(a) - FeaturedRank(b);
      }
    }
    SortWithSpec(s, ProjectOrder, FeaturedRank);
  }

  /** When every `order || 999` is numeric, experiences come out by it, ties in listing order. */
  lemma ExperiencesByOrder(entries: seq<Entry>)
    requires forall d :: d in ExperienceRecords(entries) ==> ToNumber(OrderOr999(d)).Some?
    ensures var r := SortWith(ExperienceRecords(entries), ExperienceOrder);
      multiset(r) == multiset(ExperienceRecords(entries)) && SortedBy(r, OrderKey)
      && forall v :: WithKey(r, OrderKey, v) == WithKey(ExperienceRecords(entries), OrderKey, v)
  {
    var s := ExperienceRecords(entries);
    assert OrdersBy(s, ExperienceOrder, OrderKey) by {
      forall a, b | a in s && b in s
        ensures (ExperienceOrder(a, b) > 0 <==> OrderKey(a) > OrderKey(b)) && (ExperienceOrder(a, b) < 0 <==> OrderKey(a) < OrderKey(b))
      {
        assert ExperienceOrder(a, b) == OrderKey(a) - OrderKey(b);
      }
    }
    SortWithSpec(s, ExperienceOrder, OrderKey);
  }
}
