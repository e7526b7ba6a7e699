/** Post-processing of spaCy's named entities (utils/ner_extractor.py). The entities
    spaCy finds in a text are an input: their text, raw category and character offsets. */
module Ner {
  import opened Wrappers
  import opened Text

  /** One entry of `doc.ents`. */
  datatype SpacyEnt = SpacyEnt(text: string, category: string, start: nat, end: nat)

  /** One record of `extract_entities`. */
  datatype EntityRecord = EntityRecord(text: string, category: string, start: nat, end: nat, confidence: real)

  /** A category with the texts grouped under it (one entry of the `defaultdict`). */
  datatype Group = Group(category: string, texts: seq<string>)

  /** The result of `analyze_review`: exactly the four keys `entities`, `products`,
      `brands` and `all_entities`. */
  datatype Analysis = Analysis(
    entities: seq<Group>,
    products: seq<string>,
    brands: seq<string>,
    allEntities: seq<EntityRecord>)

  const EntityMapping: map<string, string> := map[
    "PERSON" := "Persona", "PER" := "Persona", "ORG" := "Organización",
    "GPE" := "Ubicación", "LOC" := "Ubicación", "DATE" := "Fecha", "TIME" := "Tiempo",
    "MONEY" := "Dinero", "QUANTITY" := "Cantidad", "PRODUCT" := "Producto",
    "MISC" := "Misceláneo"
  ]

  const KnownBrands: seq<string> := [
    "Apple", "Samsung", "Google", "Microsoft", "Sony", "LG", "Huawei",
    "Xiaomi", "OnePlus", "Nokia", "Motorola", "HP", "Dell", "Lenovo",
    "Asus", "Acer", "Nike", "Adidas", "Zara", "H&M", "Amazon", "Netflix"
  ]

  const Organization: string := "Organización"

  /** `entity_mapping.get(category, category)`. */
  function MapCategory(category: string): (r: string)
    ensures category in EntityMapping ==> r == EntityMapping[category]
    ensures category !in EntityMapping ==> r == category
  {
    if category in EntityMapping then EntityMapping[category] else category
  }

  /** Organisation entities are the ones labelled `ORG`; people are `PERSON` or `PER`. */
  lemma MapCategoryTargets(category: string)
    ensures category in EntityMapping ==> MapCategory(category) != category
    ensures MapCategory(category) == Organization <==> category == "ORG" || category == Organization
    ensures MapCategory(category) == "Persona" <==> category == "PERSON" || category == "PER" || category == "Persona"
  {
  }

  /** The record `extract_entities` makes of one entity. */
  function RecordOf(e: SpacyEnt): EntityRecord {
    EntityRecord(e.text, MapCategory(e.category), e.start, e.end, 1.0)
  }

  function Records(ents: seq<SpacyEnt>): (rs: seq<EntityRecord>)
    ensures |rs| == |ents| && forall k :: 0 <= k < |ents| ==> rs[k] == RecordOf(ents[k])
  {
    seq(|ents|, k requires 0 <= k < |ents| => RecordOf(ents[k]))
  }

  /** `extract_entities`: one record per entity, in order, with mapped category, copied
      offsets and confidence 1.0. */
  method ExtractEntities(ents: seq<SpacyEnt>) returns (records: seq<EntityRecord>)
    ensures |records| == |ents|
    ensures forall k :: 0 <= k < |ents| ==>
      records[k].text == ents[k].text && records[k].category == MapCategory(ents[k].category)
      && records[k].start == ents[k].start && records[k].end == ents[k].end
      && records[k].confidence == 1.0
  {
    records := [];
    for k := 0 to |ents|
      invariant |records| == k
      invariant forall m :: 0 <= m < k ==> records[m] == RecordOf(ents[m])
    {
      var e := ents[k];
      records := records + [EntityRecord(e.text, MapCategory(e.category), e.start, e.end, 1.0)];
    }
  }

  // ---------------------------------------------------------------------
  // Grouping by category

  /** The category of each element, in order: `category` projects a group or a record
      onto its label. */
  function Categories<T>(xs: seq<T>, category: T -> string): (r: seq<string>)
    ensures |r| == |xs| && forall k :: 0 <= k < |xs| ==> r[k] == category(xs[k])
  {
    seq(|xs|, k requires 0 <= k < |xs| => category(xs[k]))
  }

  function GroupCategory(g: Group): string { g.category }

  function RecordCategory(r: EntityRecord): string { r.category }

  /** The texts of the records labelled `category`, in order. */
  function TextsWithCategory(rs: seq<EntityRecord>, category: string): (r: seq<string>)
  {
    if rs == [] then []
    else
      var last := rs[|rs| - 1];
      TextsWithCategory(rs[..|rs| - 1], category) + (if last.category == category then [last.text] else [])
  }

  lemma {:induction false} TextsWithCategoryIff(rs: seq<EntityRecord>, category: string, x: string)
    ensures x in TextsWithCategory(rs, category) <==> exists k :: 0 <= k < |rs| && rs[k].category == category && rs[k].text == x
  {
    if rs != [] {
      var p := rs[..|rs| - 1];
      TextsWithCategoryIff(p, category, x);
      assert forall k :: 0 <= k < |p| ==> p[k] == rs[k];
    }
  }

  /** The first group labelled `category`. */
  function FindGroup(gs: seq<Group>, category: string): (r: Option<nat>)
    ensures r.Some? ==> r.value < |gs| && gs[r.value].category == category
    ensures r.None? ==> forall k :: 0 <= k < |gs| ==> gs[k].category != category
  {
    if gs == [] then None
    else if gs[0].category == category then Some(0)
    else
      var rest := FindGroup(gs[1..], category);
      if rest.None? then None else Some(rest.value + 1)
  }

  /** `grouped[category].append(text)` on a `defaultdict(list)`. */
  function AddToGroup(gs: seq<Group>, category: string, text: string): seq<Group> {
    var i := FindGroup(gs, category);
    if i.Some? then gs[i.value := Group(category, gs[i.value].texts + [text])]
    else gs + [Group(category, [text])]
  }

  /** The grouping loop over the first records, before duplicate removal. */
  function Grouped(rs: seq<EntityRecord>): seq<Group> {
    if rs == [] then []
    else
      var last := rs[|rs| - 1];
      AddToGroup(Grouped(rs[..|rs| - 1]), last.category, last.text)
  }

  /** The groups are keyed by the labels in order of first occurrence, and each holds
      the texts of its category in record order. */
  lemma {:induction false} GroupedShape(rs: seq<EntityRecord>)
    ensures Categories(Grouped(rs), GroupCategory) == Dedup(Categories(rs, RecordCategory))
    ensures forall k :: 0 <= k < |Grouped(rs)| ==> Grouped(rs)[k].texts == TextsWithCategory(rs, Grouped(rs)[k].category)
  {
    if rs != [] {
      var p := rs[..|rs| - 1];
      var last := rs[|rs| - 1];
      GroupedShape(p);
      assert Categories(p, RecordCategory) == Categories(rs, RecordCategory)[..|rs| - 1];
      GroupedStep(p, last);
      assert p + [last] == rs;
    }
  }

  /** Appending a record extends exactly the texts of its own category. */
  lemma TextsWithCategoryAppend(p: seq<EntityRecord>, last: EntityRecord, category: string)
    ensures TextsWithCategory(p + [last], category)
      == TextsWithCategory(p, category) + (if last.category == category then [last.text] else [])
  {
    assert (p + [last])[..|p|] == p;
  }

  lemma {:induction false} TextsWithCategoryEmpty(rs: seq<EntityRecord>, category: string)
    requires category !in Categories(rs, RecordCategory)
    ensures TextsWithCategory(rs, category) == []
  {
    if rs != [] {
      var p := rs[..|rs| - 1];
      assert Categories(p, RecordCategory) == Categories(rs, RecordCategory)[..|rs| - 1];
      TextsWithCategoryEmpty(p, category);
      assert Categories(rs, RecordCategory)[|rs| - 1] == rs[|rs| - 1].category;
    }
  }

  lemma CategoriesAppend(g: seq<Group>, x: Group)
    ensures Categories(g + [x], GroupCategory) == Categories(g, GroupCategory) + [x.category]
  {
  }

  lemma CategoriesUpdate(g: seq<Group>, i: nat, x: Group)
    requires i < |g| && x.category == g[i].category
    ensures Categories(g[i := x], GroupCategory) == Categories(g, GroupCategory)
  {
  }

  lemma GroupedStep(p: seq<EntityRecord>, last: EntityRecord)
    requires Categories(Grouped(p), GroupCategory) == Dedup(Categories(p, RecordCategory))
    requires forall k :: 0 <= k < |Grouped(p)| ==> Grouped(p)[k].texts == TextsWithCategory(p, Grouped(p)[k].category)
    ensures var rs := p + [last];
      && Categories(Grouped(rs), GroupCategory) == Dedup(Categories(rs, RecordCategory))
      && forall k :: 0 <= k < |Grouped(rs)| ==> Grouped(rs)[k].texts == TextsWithCategory(rs, Grouped(rs)[k].category)
  {
    var rs := p + [last];
    assert rs[..|rs| - 1] == p;
    assert Categories(rs, RecordCategory) == Categories(p, RecordCategory) + [last.category];
    if FindGroup(Grouped(p), last.category).Some? {
      GroupedStepOld(p, last);
    } else {
      GroupedStepNew(p, last);
    }
  }

  lemma GroupedStepOld(p: seq<EntityRecord>, last: EntityRecord)
    requires Categories(Grouped(p), GroupCategory) == Dedup(Categories(p, RecordCategory))
    requires forall k :: 0 <= k < |Grouped(p)| ==> Grouped(p)[k].texts == TextsWithCategory(p, Grouped(p)[k].category)
    requires FindGroup(Grouped(p), last.category).Some?
    ensures var rs := p + [last];
      && Categories(AddToGroup(Grouped(p), last.category, last.text), GroupCategory) == Dedup(Categories(p, RecordCategory) + [last.category])
      && forall k :: 0 <= k < |Grouped(p)| ==>
        AddToGroup(Grouped(p), last.category, last.text)[k].texts
          == TextsWithCategory(rs, AddToGroup(Grouped(p), last.category, last.text)[k].category)
  {
    var g := Grouped(p);
    var d := Dedup(Categories(p, RecordCategory));
    var i := FindGroup(g, last.category).value;
    var g' := AddToGroup(g, last.category, last.text);
    assert d[i] == last.category;
    var xs := Categories(p, RecordCategory) + [last.category];
    assert xs[..|xs| - 1] == Categories(p, RecordCategory);
    assert Dedup(xs) == d;
    CategoriesUpdate(g, i, Group(last.category, g[i].texts + [last.text]));
    forall k | 0 <= k < |g| ensures g'[k].texts == TextsWithCategory(p + [last], g'[k].category) {
      TextsWithCategoryAppend(p, last, g[k].category);
      if k != i {
        assert d[k] != d[i];
      }
    }
  }

  lemma GroupedStepNew(p: seq<EntityRecord>, last: EntityRecord)
    requires Categories(Grouped(p), GroupCategory) == Dedup(Categories(p, RecordCategory))
    requires forall k :: 0 <= k < |Grouped(p)| ==> Grouped(p)[k].texts == TextsWithCategory(p, Grouped(p)[k].category)
    requires FindGroup(Grouped(p), last.category).None?
    ensures var rs := p + [last];
      && Categories(AddToGroup(Grouped(p), last.category, last.text), GroupCategory) == Dedup(Categories(p, RecordCategory) + [last.category])
      && forall k :: 0 <= k <= |Grouped(p)| ==>
        AddToGroup(Grouped(p), last.category, last.text)[k].texts
          == TextsWithCategory(rs, AddToGroup(Grouped(p), last.category, last.text)[k].category)
  {
    var g := Grouped(p);
    var d := Dedup(Categories(p, RecordCategory));
    var g' := AddToGroup(g, last.category, last.text);
    UnseenCategory(p, last.category);
    var xs := Categories(p, RecordCategory) + [last.category];
    assert xs[..|xs| - 1] == Categories(p, RecordCategory);
    assert Dedup(xs) == d + [last.category];
    var added := Group(last.category, [last.text]);
    assert g' == g + [added];
    CategoriesAppend(g, added);
    TextsWithCategoryEmpty(p, last.category);
    forall k | 0 <= k <= |g| ensures g'[k].texts == TextsWithCategory(p + [last], g'[k].category) {
      if k < |g| {
        assert g'[k] == g[k];
        TextsWithCategoryAppend(p, last, g[k].category);
      } else {
        assert g'[k] == added;
        TextsWithCategoryAppend(p, last, last.category);
      }
    }
  }

  /** A label without a group occurs in no record. */
  lemma UnseenCategory(p: seq<EntityRecord>, category: string)
    requires Categories(Grouped(p), GroupCategory) == Dedup(Categories(p, RecordCategory))
    requires FindGroup(Grouped(p), category).None?
    ensures category !in Dedup(Categories(p, RecordCategory)) && category !in Categories(p, RecordCategory)
  {
    var g := Grouped(p);
    var d := Dedup(Categories(p, RecordCategory));
    forall k | 0 <= k < |d| ensures d[k] != category {
      assert d[k] == g[k].category;
    }
    forall k | 0 <= k < |p| ensures Categories(p, RecordCategory)[k] != category {
      assert Categories(p, RecordCategory)[k] in d;
    }
  }

  /** What `extract_entities_by_type` returns: for every category in order of first
      occurrence, the texts of that category without repeats, in first-occurrence order. */
  function EntitiesByType(rs: seq<EntityRecord>): (r: seq<Group>)
    ensures Categories(r, GroupCategory) == Dedup(Categories(rs, RecordCategory))
    ensures forall k :: 0 <= k < |r| ==> r[k].texts == Dedup(TextsWithCategory(rs, r[k].category))
  {
    var labels := Dedup(Categories(rs, RecordCategory));
    seq(|labels|, k requires 0 <= k < |labels| => Group(labels[k], Dedup(TextsWithCategory(rs, labels[k]))))
  }

  /** Every group is non-empty and duplicate-free, and a text is in a group exactly
      when some record of that category has it. */
  lemma GroupContents(rs: seq<EntityRecord>, k: nat, x: string)
    requires k < |EntitiesByType(rs)|
    ensures EntitiesByType(rs)[k].texts != [] && NoDup(EntitiesByType(rs)[k].texts)
    ensures x in EntitiesByType(rs)[k].texts <==>
      exists m :: 0 <= m < |rs| && rs[m].category == EntitiesByType(rs)[k].category && rs[m].text == x
  {
    var g := EntitiesByType(rs);
    var labels := Dedup(Categories(rs, RecordCategory));
    assert g[k].category == labels[k] && labels[k] in Categories(rs, RecordCategory);
    var m :| 0 <= m < |rs| && Categories(rs, RecordCategory)[m] == labels[k];
    TextsWithCategoryIff(rs, g[k].category, rs[m].text);
    TextsWithCategoryIff(rs, g[k].category, x);
    var t := TextsWithCategory(rs, g[k].category);
    assert t != [] && t[0] in Dedup(t);
    DedupMembers(t);
  }

  /** The group categories are distinct and are exactly the categories that occur. */
  lemma GroupCategories(rs: seq<EntityRecord>, x: string)
    ensures NoDup(Categories(EntitiesByType(rs), GroupCategory))
    ensures x in Categories(EntitiesByType(rs), GroupCategory) <==> exists m :: 0 <= m < |rs| && rs[m].category == x
  {
    DedupMembers(Categories(rs, RecordCategory));
    if x in Categories(rs, RecordCategory) {
      var m :| 0 <= m < |rs| && Categories(rs, RecordCategory)[m] == x;
    }
  }

  /** Duplicate removal of one group: `list(dict.fromkeys(...))`. */
  method DedupGroups(gs: seq<Group>) returns (r: seq<Group>)
    ensures |r| == |gs| && forall k :: 0 <= k < |gs| ==> r[k] == Group(gs[k].category, Dedup(gs[k].texts))
  {
    r := gs;
    for k := 0 to |gs|
      invariant |r| == |gs|
      invariant forall m :: 0 <= m < |gs| ==> r[m] == if m < k then Group(gs[m].category, Dedup(gs[m].texts)) else gs[m]
    {
      r := r[k := Group(r[k].category, Dedup(r[k].texts))];
    }
  }

  /** `extract_entities_by_type`: fills the `defaultdict` record by record, then removes
      repeats within every group. */
  method ExtractEntitiesByType(ents: seq<SpacyEnt>) returns (groups: seq<Group>)
    ensures groups == EntitiesByType(Records(ents))
  {
    var records := ExtractEntities(ents);
    assert records == Records(ents);
    var grouped: seq<Group> := [];
    for k := 0 to |records|
      invariant grouped == Grouped(records[..k])
    {
      GroupedLoopStep(records, k);
      var i := FindGroup(grouped, records[k].category);
      if i.Some? {
        grouped := grouped[i.value := Group(records[k].category, grouped[i.value].texts + [records[k].text])];
      } else {
        grouped := grouped + [Group(records[k].category, [records[k].text])];
      }
    }
    assert records[..|records|] == records;
    GroupedShape(records);
    groups := DedupGroups(grouped);
    assert Categories(groups, GroupCategory) == Categories(grouped, GroupCategory);
  }

  /** One more record is added to its group, or opens a new one. */
  lemma GroupedLoopStep(records: seq<EntityRecord>, k: nat)
    requires k < |records|
    ensures Grouped(records[..k + 1]) == AddToGroup(Grouped(records[..k]), records[k].category, records[k].text)
  {
    assert records[..k + 1][..k] == records[..k];
  }

  // ---------------------------------------------------------------------
  // Products and brands

  /** A spaCy entity `extract_product_mentions` keeps: raw category `PRODUCT` or `MISC` and at
      most three whitespace-separated words. */
  predicate IsProductEnt(e: SpacyEnt) {
    (e.category == "PRODUCT" || e.category == "MISC") && |Split(e.text)| <= 3
  }

  /** `extract_product_mentions`: the matches of the two product patterns (an input here)
      and the texts of the kept entities, without repeats. `list(set(...))` has no fixed
      order; this model keeps first occurrences, and the contract claims no order. */
  method ExtractProductMentions(patternMatches: seq<string>, ents: seq<SpacyEnt>) returns (products: seq<string>)
    ensures NoDup(products)
    ensures forall x :: x in products <==>
      x in patternMatches || exists k :: 0 <= k < |ents| && IsProductEnt(ents[k]) && ents[k].text == x
  {
    var found := patternMatches;
    for k := 0 to |ents|
      invariant forall x :: x in found <==>
        x in patternMatches || exists m :: 0 <= m < k && IsProductEnt(ents[m]) && ents[m].text == x
    {
      if (ents[k].category == "PRODUCT" || ents[k].category == "MISC") && |Split(ents[k].text)| <= 3 {
        found := found + [ents[k].text];
      }
    }
    products := Dedup(found);
    DedupMembers(found);
  }

  /** `x in Dedup(xs)` exactly when `x in xs`. */
  lemma DedupMembers<T>(xs: seq<T>)
    ensures forall x :: x in Dedup(xs) <==> x in xs
  {
    forall x ensures x in Dedup(xs) <==> x in xs {
      if x in xs {
        var k :| 0 <= k < |xs| && xs[k] == x;
      }
      if x in Dedup(xs) {
        var k :| 0 <= k < |Dedup(xs)| && Dedup(xs)[k] == x;
      }
    }
  }

  /** `extract_brands`: every known brand whose lower-cased name occurs in the lower-cased
      text, then the `Organización` group, without repeats (`list(set(...))`, no order
      claimed). */
  method ExtractBrands(text: string, ents: seq<SpacyEnt>) returns (brands: seq<string>)
    ensures NoDup(brands)
    ensures forall x :: x in brands <==>
      (x in KnownBrands && Contains(Lower(text), Lower(x)))
      || exists k :: 0 <= k < |ents| && MapCategory(ents[k].category) == Organization && ents[k].text == x
  {
    var found: seq<string> := [];
    var low := Lower(text);
    for b := 0 to |KnownBrands|
      invariant forall x :: x in found <==> x in KnownBrands[..b] && Contains(low, Lower(x))
    {
      KnownStep(KnownBrands, b, low, found);
      if Contains(low, Lower(KnownBrands[b])) {
        found := found + [KnownBrands[b]];
      }
    }
    assert KnownBrands[..|KnownBrands|] == KnownBrands;
    var groups := ExtractEntitiesByType(ents);
    var i := FindGroup(groups, Organization);
    if i.Some? {
      found := found + groups[i.value].texts;
      OrganizationTexts(ents, i.value);
    } else {
      NoOrganization(ents);
    }
    brands := Dedup(found);
    DedupMembers(found);
  }

  /** One more table brand: it joins the found list exactly when the text mentions it. */
  lemma KnownStep(known: seq<string>, b: nat, low: string, found: seq<string>)
    requires b < |known| && forall x :: x in found <==> x in known[..b] && Contains(low, Lower(x))
    ensures var next := if Contains(low, Lower(known[b])) then found + [known[b]] else found;
      forall x :: x in next <==> x in known[..b + 1] && Contains(low, Lower(x))
  {
    assert known[..b + 1] == known[..b] + [known[b]];
  }

  /** Without an `Organización` group no entity maps to that label. */
  lemma NoOrganization(ents: seq<SpacyEnt>)
    requires FindGroup(EntitiesByType(Records(ents)), Organization).None?
    ensures forall k :: 0 <= k < |ents| ==> MapCategory(ents[k].category) != Organization
  {
    var rs := Records(ents);
    forall k | 0 <= k < |ents| ensures MapCategory(ents[k].category) != Organization {
      GroupCategories(rs, Organization);
      assert rs[k].category == MapCategory(ents[k].category);
    }
  }

  lemma OrganizationTexts(ents: seq<SpacyEnt>, i: nat)
    requires i < |EntitiesByType(Records(ents))| && EntitiesByType(Records(ents))[i].category == Organization
    ensures forall x :: x in EntitiesByType(Records(ents))[i].texts <==>
      exists k :: 0 <= k < |ents| && MapCategory(ents[k].category) == Organization && ents[k].text == x
  {
    forall x ensures x in EntitiesByType(Records(ents))[i].texts <==>
      exists k :: 0 <= k < |ents| && MapCategory(ents[k].category) == Organization && ents[k].text == x
    {
      GroupContents(Records(ents), i, x);
    }
  }

  /** `analyze_review`: the four parts of the analysis of one review text, given spaCy's
      entities for it and the product-pattern matches. */
  method AnalyzeReview(text: string, ents: seq<SpacyEnt>, patternMatches: seq<string>) returns (a: Analysis)
    ensures a.entities == EntitiesByType(Records(ents)) && a.allEntities == Records(ents)
    ensures NoDup(a.products) && NoDup(a.brands)
    ensures forall x :: x in a.products <==>
      x in patternMatches || exists k :: 0 <= k < |ents| && IsProductEnt(ents[k]) && ents[k].text == x
    ensures forall x :: x in a.brands <==>
      (x in KnownBrands && Contains(Lower(text), Lower(x)))
      || exists k :: 0 <= k < |ents| && MapCategory(ents[k].category) == Organization && ents[k].text == x
  {
    var entities := ExtractEntitiesByType(ents);
    var products := ExtractProductMentions(patternMatches, ents);
    var brands := ExtractBrands(text, ents);
    var all := ExtractEntities(ents);
    assert all == Records(ents);
    a := Analysis(entities, products, brands, all);
  }
}
