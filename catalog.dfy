/**
 * The Resources, Thoughts and case-study pages of App.tsx: the category
 * filter buttons, the filtered card list, the code-to-label tables with
 * their raw-code fallback, and the lookup of a case study by its slug.
 * The item lists (`RESOURCES`, `THOUGHTS`, `CASE_STUDIES`) are parameters.
 */
module Catalog {
  import opened Wrappers
  import opened JsArray

  /** A downloadable resource, with the fields the page reads. */
  datatype Resource = Resource(
    title: string, description: string, category: string, fileType: string,
    fileSize: string, filePath: string, fileName: string, enforcementLayers: seq<int>)

  /** The `Thought` record. */
  datatype Thought = Thought(title: string, preview: string, date: string, category: string)

  /** A case study, with the fields the lookup and the heading read. */
  datatype CaseStudy = CaseStudy(slug: string, title: string, industry: string, description: string)

  /** The filter value that shows every item; also the first button. */
  const ALL := "all"

  /**
   * `['all', ...Array.from(new Set(items.map(category)))]`: the filter
   * buttons, `'all'` first and then each category once, in the order the
   * categories first appear among the items.
   */
  function CategoryButtons<T>(items: seq<T>, category: T -> string): (r: seq<string>)
    ensures |r| >= 1 && r[0] == ALL
    ensures forall i :: 1 <= i < |r| ==> exists k :: 0 <= k < |items| && category(items[k]) == r[i]
    ensures forall k :: 0 <= k < |items| ==> category(items[k]) in r[1..]
    ensures NoDuplicates(r[1..])
    ensures forall i :: 1 <= i < |r| ==> r[i] in MapSeq(items, category)
    ensures forall i, j :: 1 <= i < j < |r| ==>
      FirstIndex(MapSeq(items, category), r[i]) < FirstIndex(MapSeq(items, category), r[j])
  {
    var codes := MapSeq(items, category);
    assert |codes| == |items| && forall k :: 0 <= k < |items| ==> codes[k] == category(items[k]);
    DistinctOrder(codes);
    var r := [ALL] + Distinct(codes);
    assert r[1..] == Distinct(codes);
    assert forall i :: 1 <= i < |r| ==> r[i] in codes;
    r
  }

  /** The cards shown for the active filter: every item for `'all'`, otherwise those of that category. */
  function Visible<T>(items: seq<T>, category: T -> string, active: string): (r: seq<T>)
    ensures active == ALL ==> r == items
    ensures active != ALL ==> IsSubsequence(r, items)
    ensures active != ALL ==> forall i :: 0 <= i < |r| ==> category(r[i]) == active
    ensures active != ALL ==> forall k :: 0 <= k < |items| && category(items[k]) == active ==> items[k] in r
  {
    if active == ALL then items
    else
      var r := Keep(items, x => category(x) == active);
      KeepIsSubsequence(items, x => category(x) == active);
      assert forall i :: 0 <= i < |r| ==> r[i] in r;
      r
  }

  /** For a category other than `'all'`, each item is shown exactly as often as it occurs with that category, and no other item is. */
  lemma VisibleExactly<T>(items: seq<T>, category: T -> string, active: string, x: T)
    requires active != ALL
    ensures multiset(Visible(items, category, active))[x] ==
      if category(x) == active then multiset(items)[x] else 0
  {
    KeepCount(items, y => category(y) == active, x);
  }

  /** Every category button other than `'all'` shows at least one card. */
  lemma ButtonNeverEmpty<T>(items: seq<T>, category: T -> string, i: nat)
    requires 1 <= i < |CategoryButtons(items, category)|
    requires CategoryButtons(items, category)[i] != ALL
    ensures |Visible(items, category, CategoryButtons(items, category)[i])| > 0
  {
    var c := CategoryButtons(items, category)[i];
    var k :| 0 <= k < |items| && category(items[k]) == c;
    assert items[k] in Visible(items, category, c);
  }

  /** `FILE_TYPE_LABELS`. */
  const FILE_TYPE_LABELS: map<string, string> := map["pdf" := "PDF", "docx" := "Word", "pptx" := "PowerPoint"]

  /** `CATEGORY_LABELS`. */
  const CATEGORY_LABELS: map<string, string> := map[
    "lead-magnet" := "Lead Magnet",
    "template" := "Template",
    "sales-collateral" := "Sales Collateral",
    "diagram" := "Diagram",
    "deck" := "Deck"
  ]

  /** `table[code] || code`: the table's label, or the raw code when the key is missing or its label is empty. */
  function LabelOr(table: map<string, string>, code: string): string {
    if code in table && table[code] != "" then table[code] else code
  }

  /** The category label on a resource card. */
  function CategoryLabel(code: string): string {
    LabelOr(CATEGORY_LABELS, code)
  }

  /** The file-type label on a resource card and its download link. */
  function FileTypeLabel(code: string): string {
    LabelOr(FILE_TYPE_LABELS, code)
  }

  /** The text of a Resources filter button. */
  function ResourceButtonLabel(cat: string): string {
    if cat == ALL then "All" else CategoryLabel(cat)
  }

  /** The text of a Thoughts filter button. */
  function ThoughtButtonLabel(cat: string): string {
    if cat == ALL then "All" else cat
  }

  /** No label in either table is empty, so the `||` fallback fires exactly for a missing key. */
  lemma LabelTablesHaveNoEmptyLabel()
    ensures forall k :: k in CATEGORY_LABELS ==> CATEGORY_LABELS[k] != ""
    ensures forall k :: k in FILE_TYPE_LABELS ==> FILE_TYPE_LABELS[k] != ""
  {
  }

  /** A category label is the table's entry when the code is a key, and otherwise the raw code. */
  lemma CategoryLabelSpec(code: string)
    ensures code in CATEGORY_LABELS ==> CategoryLabel(code) == CATEGORY_LABELS[code]
    ensures code !in CATEGORY_LABELS ==> CategoryLabel(code) == code
  {
    LabelTablesHaveNoEmptyLabel();
  }

  /** A file-type label is the table's entry when the code is a key, and otherwise the raw code. */
  lemma FileTypeLabelSpec(code: string)
    ensures code in FILE_TYPE_LABELS ==> FileTypeLabel(code) == FILE_TYPE_LABELS[code]
    ensures code !in FILE_TYPE_LABELS ==> FileTypeLabel(code) == code
  {
    LabelTablesHaveNoEmptyLabel();
  }

  /** A filter button reads "All" for `'all'`; otherwise the Resources page shows the category label and the Thoughts page the raw category. */
  lemma ButtonLabelSpec(cat: string)
    ensures ResourceButtonLabel(cat) ==
      if cat == ALL then "All" else if cat in CATEGORY_LABELS then CATEGORY_LABELS[cat] else cat
    ensures ThoughtButtonLabel(cat) == if cat == ALL then "All" else cat
  {
    CategoryLabelSpec(cat);
  }

  /** Whatever the table, a label is either one of its labels or the raw code itself. */
  lemma LabelIsKnownOrRaw(table: map<string, string>, code: string)
    ensures LabelOr(table, code) == code || LabelOr(table, code) in table.Values
  {
  }

  /** A label for a non-empty code is never empty. */
  lemma LabelNonEmpty(table: map<string, string>, code: string)
    requires code != ""
    ensures LabelOr(table, code) != ""
  {
  }

  /** The case-study route's outcome: a distinct not-found state, or the study to render. */
  datatype CaseStudyView = NotFound | Found(study: CaseStudy)

  /** `CASE_STUDIES.find(cs => cs.slug === slug)`, with not-found made explicit. */
  function CaseStudyPage(studies: seq<CaseStudy>, slug: string): (v: CaseStudyView)
    ensures v.NotFound? <==> forall i :: 0 <= i < |studies| ==> studies[i].slug != slug
    ensures v.Found? ==>
      exists i :: (0 <= i < |studies| && studies[i] == v.study && studies[i].slug == slug &&
                   forall j :: 0 <= j < i ==> studies[j].slug != slug)
  {
    match Find(studies, (cs: CaseStudy) => cs.slug == slug)
    case None => NotFound
    case Some(study) => Found(study)
  }

  /** Slugs identify case studies: no two share one. */
  predicate UniqueSlugs(studies: seq<CaseStudy>) {
    forall i, j :: 0 <= i < j < |studies| ==> studies[i].slug != studies[j].slug
  }

  /** With unique slugs, a listed study is always found by its own slug, and the page shows that very study. */
  lemma CaseStudyFoundBySlug(studies: seq<CaseStudy>, i: nat)
    requires UniqueSlugs(studies) && i < |studies|
    ensures CaseStudyPage(studies, studies[i].slug) == Found(studies[i])
  {
    var v := CaseStudyPage(studies, studies[i].slug);
    var k :| 0 <= k < |studies| && studies[k] == v.study && studies[k].slug == studies[i].slug &&
      forall j :: 0 <= j < k ==> studies[j].slug != studies[i].slug;
    assert k == i;
  }
}
