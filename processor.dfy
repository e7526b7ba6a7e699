/** The orchestrator `OpinionExtractor` (utils/main_processor.py): brand
    normalisation, the per-review pipeline, event look-up by type, the brand
    analysis and the summary report. */
module Processor {
  import opened Wrappers
  import opened Text
  import opened EntityMaps
  import opened Records
  import Ner
  import Events
  import Relations
  import Cleaning
  import Search
  import Knowledge

  // ---------------------------------------------------------------------
  // Brand names

  /** The fixed table of standard spellings, keyed by the lower-case form. */
  const BrandMappings: map<string, string> := map[
    "sony" := "Sony", "apple" := "Apple", "samsung" := "Samsung", "amazon" := "Amazon",
    "google" := "Google", "microsoft" := "Microsoft", "lg" := "LG", "hp" := "HP",
    "dell" := "Dell", "lenovo" := "Lenovo", "asus" := "ASUS", "acer" := "Acer",
    "nike" := "Nike", "adidas" := "Adidas", "foundation" := "Foundation", "intex" := "Intex"
  ]

  /** `v` is a standard spelling of the lower-case `key`: it is not blank, has no
      whitespace at either end and lowers back to `key`. */
  predicate Canonical(key: string, v: string) {
    v != [] && !IsSpace(v[0]) && !IsSpace(v[|v| - 1]) && Lower(v) == key
  }

  lemma MappingsFirst()
    ensures Canonical("sony", "Sony") && Canonical("apple", "Apple")
    ensures Canonical("samsung", "Samsung") && Canonical("amazon", "Amazon")
  {
  }

  lemma MappingsSecond()
    ensures Canonical("google", "Google") && Canonical("microsoft", "Microsoft")
    ensures Canonical("lg", "LG") && Canonical("hp", "HP")
  {
  }

  lemma MappingsThird()
    ensures Canonical("dell", "Dell") && Canonical("lenovo", "Lenovo")
    ensures Canonical("asus", "ASUS") && Canonical("acer", "Acer")
  {
  }

  lemma MappingsFourth()
    ensures Canonical("nike", "Nike") && Canonical("adidas", "Adidas")
    ensures Canonical("foundation", "Foundation") && Canonical("intex", "Intex")
  {
  }

  /** Every entry of the table maps a key to a standard spelling of that key. */
  lemma MappingsCanonical()
    ensures forall k :: k in BrandMappings ==> Canonical(k, BrandMappings[k])
  {
    MappingsFirst();
    MappingsSecond();
    MappingsThird();
    MappingsFourth();
  }

  /** `_normalize_brand_name`: the table's spelling of the stripped, lowered
      name, or that form capitalised when the table does not know it. */
  function NormalizeBrandName(brand: string): (r: string)
    ensures r == "" <==> Strip(brand) == ""
  {
    if brand == "" then ""
    else
      var n := Lower(Strip(brand));
      if n in BrandMappings then MappingsCanonical(); BrandMappings[n] else Capitalize(n)
  }

  /** Capitalising the lowered form of a name with visible ends gives a standard spelling. */
  lemma CapitalizeCanonical(s: string)
    requires s != [] && !IsSpace(s[0]) && !IsSpace(s[|s| - 1])
    ensures Canonical(Lower(s), Capitalize(Lower(s)))
  {
    var n := Lower(s);
    var r := Capitalize(n);
    LowerIdempotent(s);
    LowerCapitalize(n);
    CaseKeepsVisible(s[0]);
    CaseKeepsVisible(n[0]);
    CaseKeepsVisible(s[|s| - 1]);
    if |n| > 1 {
      assert r[|r| - 1] == Lower(n[1..])[|n| - 2] == LowerChar(n[|n| - 1]);
      CaseKeepsVisible(n[|n| - 1]);
    }
  }

  /** A non-empty normal form is a standard spelling of the stripped, lowered input. */
  lemma {:induction false} NormalizeCanonical(brand: string)
    ensures NormalizeBrandName(brand) != "" ==> Canonical(Lower(Strip(brand)), NormalizeBrandName(brand))
  {
    var r := NormalizeBrandName(brand);
    if r != "" {
      var s := Strip(brand);
      var n := Lower(s);
      if n in BrandMappings {
        MappingsCanonical();
      } else {
        assert r == Capitalize(n) && s != [];
        CapitalizeCanonical(s);
      }
    }
  }

  /** Names that differ only in case and surrounding whitespace normalise alike. */
  lemma NormalizeCaseBlind(a: string, b: string)
    requires Lower(Strip(a)) == Lower(Strip(b))
    ensures NormalizeBrandName(a) == NormalizeBrandName(b)
  {
  }

  /** Normalising a normal form changes nothing. */
  lemma NormalizeIdempotent(brand: string)
    ensures NormalizeBrandName(NormalizeBrandName(brand)) == NormalizeBrandName(brand)
  {
    var r := NormalizeBrandName(brand);
    if r != "" {
      NormalizeCanonical(brand);
      StripUnchanged(r);
      var n := Lower(Strip(brand));
      assert Lower(Strip(r)) == n;
    }
  }

  /** The non-empty images of `xs` under `f`, in order. */
  function NonEmptyImages(xs: seq<string>, f: string -> string): (r: seq<string>)
    ensures |r| <= |xs|
    ensures forall k :: 0 <= k < |r| ==> r[k] != ""
  {
    if xs == [] then []
    else
      var p := NonEmptyImages(xs[..|xs| - 1], f);
      var y := f(xs[|xs| - 1]);
      if y != "" then p + [y] else p
  }

  lemma {:induction false} NonEmptyImagesIff(xs: seq<string>, f: string -> string, x: string)
    ensures x in NonEmptyImages(xs, f) <==> x != "" && exists k :: 0 <= k < |xs| && f(xs[k]) == x
  {
    if xs != [] {
      var p := xs[..|xs| - 1];
      NonEmptyImagesIff(p, f, x);
      assert forall k :: 0 <= k < |p| ==> p[k] == xs[k];
    }
  }

  /** The normal forms `_clean_and_deduplicate_brands` keeps, duplicates included:
      the non-empty normal forms of the non-empty names, in order. */
  function NormalizedBrands(brands: seq<string>): seq<string> {
    NonEmptyImages(brands, NormalizeBrandName)
  }

  lemma NormalizedBrandsIff(brands: seq<string>, x: string)
    ensures x in NormalizedBrands(brands) <==>
      x != "" && exists k :: 0 <= k < |brands| && NormalizeBrandName(brands[k]) == x
  {
    NonEmptyImagesIff(brands, NormalizeBrandName, x);
  }

  /** What `_clean_and_deduplicate_brands` returns. */
  function CleanedBrands(brands: seq<string>): seq<string> {
    Dedup(NormalizedBrands(brands))
  }

  /** The cleaned list holds each normal form once, in order of first appearance;
      it holds exactly the non-empty normal forms of the inputs, each a fixed point
      of normalisation. */
  lemma CleanedBrandsShape(brands: seq<string>)
    ensures NoDup(CleanedBrands(brands)) && |CleanedBrands(brands)| <= |brands|
    ensures FirstOccurrenceOrdered(NormalizedBrands(brands), CleanedBrands(brands))
    ensures forall x :: x in CleanedBrands(brands) <==>
      x != "" && exists k :: 0 <= k < |brands| && NormalizeBrandName(brands[k]) == x
    ensures forall k :: 0 <= k < |CleanedBrands(brands)| ==>
      NormalizeBrandName(CleanedBrands(brands)[k]) == CleanedBrands(brands)[k]
  {
    var c := CleanedBrands(brands);
    DedupFirstOccurrenceOrder(NormalizedBrands(brands));
    forall x ensures x in c <==> x != "" && exists k :: 0 <= k < |brands| && NormalizeBrandName(brands[k]) == x {
      NormalizedBrandsIff(brands, x);
      Ner.DedupMembers(NormalizedBrands(brands));
    }
    forall i | 0 <= i < |c| ensures NormalizeBrandName(c[i]) == c[i] {
      NormalizedBrandsIff(brands, c[i]);
      var k :| 0 <= k < |brands| && NormalizeBrandName(brands[k]) == c[i];
      NormalizeIdempotent(brands[k]);
    }
  }

  /** `_clean_and_deduplicate_brands`, with the `seen` set of the source. The ghost
      `norms` records the normal form computed for each name so far (`""` for an
      empty name). */
  method CleanAndDeduplicateBrands(brands: seq<string>) returns (cleaned: seq<string>)
    ensures cleaned == CleanedBrands(brands)
  {
    if |brands| == 0 {
      return [];
    }
    cleaned := [];
    var seen: set<string> := {};
    ghost var norms: seq<string> := [];
    for i := 0 to |brands|
      invariant |norms| == i
      invariant forall k :: 0 <= k < i ==> IsNormalOf(norms[k], brands[k])
      invariant cleaned == KeptNormals(brands[..i], norms)
      invariant forall x :: x in seen <==> x in cleaned
    {
      var brand := brands[i];
      if brand != "" {
        var normalized := NormalizeBrand(brand);
        KeptStep(brands, norms, i, normalized);
        if normalized != "" && normalized !in seen {
          SeenStep(seen, cleaned, normalized);
          cleaned := cleaned + [normalized];
          seen := seen + {normalized};
        }
        NormsStep(brands, norms, i, normalized);
        norms := norms + [normalized];
      } else {
        NormalizeEmpty();
        KeptStep(brands, norms, i, "");
        NormsStep(brands, norms, i, "");
        norms := norms + [""];
      }
    }
    assert brands[..|brands|] == brands;
    KeptNormalsIs(brands, norms);
  }

  /** The brand-cleaning loop as a fold: name `k` contributes its normal form
      `norms[k]` when the name and that form are non-empty and the form is new. */
  function KeptNormals(brands: seq<string>, norms: seq<string>): seq<string>
    requires |norms| == |brands|
  {
    if brands == [] then []
    else
      var c := KeptNormals(brands[..|brands| - 1], norms[..|norms| - 1]);
      var n := norms[|norms| - 1];
      if brands[|brands| - 1] != "" && n != "" && n !in c then c + [n] else c
  }

  /** The loop's step on the next name and its normal form `n`. */
  lemma KeptStep(brands: seq<string>, norms: seq<string>, i: nat, n: string)
    requires i < |brands| && |norms| == i
    ensures var c := KeptNormals(brands[..i], norms);
      KeptNormals(brands[..i + 1], norms + [n])
        == if brands[i] != "" && n != "" && n !in c then c + [n] else c
  {
    assert brands[..i + 1][..i] == brands[..i];
    assert (norms + [n])[..i] == norms;
  }

  /** Recording the next name's normal form keeps `norms` the normal forms of the names so far. */
  lemma NormsStep(brands: seq<string>, norms: seq<string>, i: nat, n: string)
    requires i < |brands| && |norms| == i && IsNormalOf(n, brands[i])
    requires forall k :: 0 <= k < i ==> IsNormalOf(norms[k], brands[k])
    ensures forall k :: 0 <= k < i + 1 ==> IsNormalOf((norms + [n])[k], brands[k])
  {
    forall k | 0 <= k < i + 1 ensures IsNormalOf((norms + [n])[k], brands[k]) {
      if k < i {
        assert (norms + [n])[k] == norms[k];
      }
    }
  }

  /** An empty name normalises to the empty form. */
  lemma NormalizeEmpty()
    ensures NormalizeBrandName("") == "" && IsNormalOf("", "")
  {
  }

  /** Folding over the true normal forms gives the cleaned list. */
  lemma {:induction false} KeptNormalsIs(brands: seq<string>, norms: seq<string>)
    requires |norms| == |brands|
    requires forall k :: 0 <= k < |brands| ==> IsNormalOf(norms[k], brands[k])
    ensures KeptNormals(brands, norms) == CleanedBrands(brands)
  {
    if brands != [] {
      var j := |brands| - 1;
      var p, q := brands[..j], norms[..j];
      assert forall k :: 0 <= k < j ==> p[k] == brands[k] && q[k] == norms[k];
      KeptNormalsIs(p, q);
      var c := KeptNormals(p, q);
      var n := norms[j];
      KeptStep(brands, q, j, n);
      SplitLast(brands);
      SplitLast(norms);
      assert IsNormalOf(n, brands[j]);
      assert n == NormalizeBrandName(brands[j]);
      NormalizeEmpty();
      assert c == Dedup(NonEmptyImages(brands[..j], NormalizeBrandName));
      CleanedStep(brands, j, NormalizeBrandName);
      assert CleanedBrands(brands) == if n != "" && n !in c then c + [n] else c;
    }
  }

  /** Adding a name to both the `seen` set and the list keeps them in step. */
  lemma SeenStep(seen: set<string>, cleaned: seq<string>, x: string)
    requires forall y :: y in seen <==> y in cleaned
    ensures forall y :: y in seen + {x} <==> y in cleaned + [x]
  {
  }

  /** `n` is the normal form of `brand`. The equation sits under a quantifier so
      that normalisation is unfolded only where a proof mentions
      `NormalizeBrandName(brand)` itself. */
  ghost predicate IsNormalOf(n: string, brand: string) {
    forall b :: b == brand ==> n == NormalizeBrandName(b)
  }

  /** `_normalize_brand_name` as the processor calls it. */
  method NormalizeBrand(brand: string) returns (normalized: string)
    ensures IsNormalOf(normalized, brand)
    ensures normalized == "" <==> Strip(brand) == ""
  {
    normalized := NormalizeBrandName(brand);
  }

  /** One more name: its non-empty image joins the cleaned list unless already there. */
  lemma CleanedStep(brands: seq<string>, i: nat, f: string -> string)
    requires i < |brands| && f("") == ""
    ensures var d := Dedup(NonEmptyImages(brands[..i], f));
      Dedup(NonEmptyImages(brands[..i + 1], f))
        == if f(brands[i]) != "" && f(brands[i]) !in d then d + [f(brands[i])] else d
  {
    assert brands[..i + 1][..i] == brands[..i];
    var n := NonEmptyImages(brands[..i], f);
    if f(brands[i]) != "" {
      assert NonEmptyImages(brands[..i + 1], f) == n + [f(brands[i])];
      assert (n + [f(brands[i])])[..|n|] == n;
    }
  }

  // ---------------------------------------------------------------------
  // Reading the processed records

  /** `review.get(key, [])` on a key that may be absent. */
  function OrEmpty<T>(o: Option<seq<T>>): seq<T> {
    if o.Some? then o.value else []
  }

  function ProductsOf(r: ProcessedReview): seq<string> { OrEmpty(r.products) }
  function BrandsOf(r: ProcessedReview): seq<string> { OrEmpty(r.brands) }
  function RawBrandsOf(r: ProcessedReview): seq<string> { OrEmpty(r.rawBrands) }
  function EventsOf(r: ProcessedReview): seq<Events.Event> { OrEmpty(r.events) }

  /** The lists `field` gives for each review, extended one after the other. */
  function Gather<T>(reviews: seq<ProcessedReview>, field: ProcessedReview -> seq<T>): seq<T> {
    if reviews == [] then []
    else Gather(reviews[..|reviews| - 1], field) + field(reviews[|reviews| - 1])
  }

  lemma GatherStep<T>(reviews: seq<ProcessedReview>, field: ProcessedReview -> seq<T>, i: nat)
    requires i < |reviews|
    ensures Gather(reviews[..i + 1], field) == Gather(reviews[..i], field) + field(reviews[i])
  {
    assert reviews[..i + 1][..i] == reviews[..i];
  }

  lemma {:induction false} GatherIff<T>(reviews: seq<ProcessedReview>, field: ProcessedReview -> seq<T>, x: T)
    ensures x in Gather(reviews, field) <==> exists j :: 0 <= j < |reviews| && x in field(reviews[j])
  {
    if reviews != [] {
      var p := reviews[..|reviews| - 1];
      GatherIff(p, field, x);
      assert forall j :: 0 <= j < |p| ==> p[j] == reviews[j];
    }
  }

  /** The `type` of each event, in order. */
  function Kinds(events: seq<Events.Event>): (r: seq<string>)
    ensures |r| == |events|
  {
    if events == [] then [] else Kinds(events[..|events| - 1]) + [events[|events| - 1].kind]
  }

  lemma {:induction false} KindsAppend(a: seq<Events.Event>, b: seq<Events.Event>)
    ensures Kinds(a + b) == Kinds(a) + Kinds(b)
  {
    if b != [] {
      var b' := b[..|b| - 1];
      assert (a + b)[..|a + b| - 1] == a + b';
      assert (a + b)[|a + b| - 1] == b[|b| - 1];
      KindsAppend(a, b');
    } else {
      assert a + b == a;
    }
  }

  // ---------------------------------------------------------------------
  // Events by type

  /** One entry of `get_events_by_type`. */
  datatype EventRef = EventRef(event: string, actor: Option<string>, obj: Option<string>, sentiment: string)

  function RefOf(eventType: string, reviewId: string, e: Events.Event): EventRef {
    EventRef(eventType + "_" + reviewId, e.actor, e.obj, Events.SentimentLabel(e.sentiment))
  }

  /** The entries for the events of type `eventType` among `events` of one review. */
  function RefsOfType(reviewId: string, events: seq<Events.Event>, eventType: string): (r: seq<EventRef>)
    ensures |r| <= |events|
  {
    if events == [] then []
    else
      var p := RefsOfType(reviewId, events[..|events| - 1], eventType);
      var e := events[|events| - 1];
      if e.kind == eventType then p + [RefOf(eventType, reviewId, e)] else p
  }

  /** What `get_events_by_type` returns over `reviews`. */
  function EventsOfType(reviews: seq<ProcessedReview>, eventType: string): seq<EventRef> {
    if reviews == [] then []
    else
      var r := reviews[|reviews| - 1];
      EventsOfType(reviews[..|reviews| - 1], eventType) + RefsOfType(r.id, EventsOf(r), eventType)
  }

  lemma {:induction false} RefsOfTypeIff(reviewId: string, events: seq<Events.Event>, eventType: string, x: EventRef)
    ensures x in RefsOfType(reviewId, events, eventType) <==>
      exists k :: 0 <= k < |events| && events[k].kind == eventType && x == RefOf(eventType, reviewId, events[k])
  {
    if events != [] {
      var p := events[..|events| - 1];
      RefsOfTypeIff(reviewId, p, eventType, x);
      assert forall k :: 0 <= k < |p| ==> p[k] == events[k];
    }
  }

  /** An entry is listed exactly when some review has an event of the requested
      type; the entry names the type and that review's id and copies the
      event's actor, object and sentiment. */
  lemma {:induction false} EventsOfTypeIff(reviews: seq<ProcessedReview>, eventType: string, x: EventRef)
    ensures x in EventsOfType(reviews, eventType) <==>
      exists j, k :: 0 <= j < |reviews| && 0 <= k < |EventsOf(reviews[j])|
        && EventsOf(reviews[j])[k].kind == eventType && x == RefOf(eventType, reviews[j].id, EventsOf(reviews[j])[k])
  {
    if reviews != [] {
      var p := reviews[..|reviews| - 1];
      var r := reviews[|reviews| - 1];
      EventsOfTypeIff(p, eventType, x);
      RefsOfTypeIff(r.id, EventsOf(r), eventType, x);
      assert forall j :: 0 <= j < |p| ==> p[j] == reviews[j];
      if x in RefsOfType(r.id, EventsOf(r), eventType) {
        var k :| 0 <= k < |EventsOf(r)| && EventsOf(r)[k].kind == eventType && x == RefOf(eventType, r.id, EventsOf(r)[k]);
        assert reviews[|reviews| - 1] == r;
      }
    }
  }

  lemma {:induction false} RefsOfTypeCount(reviewId: string, events: seq<Events.Event>, eventType: string)
    ensures |RefsOfType(reviewId, events, eventType)| == multiset(Kinds(events))[eventType]
  {
    if events != [] {
      RefsOfTypeCount(reviewId, events[..|events| - 1], eventType);
    }
  }

  /** There is one entry for every event of the type, so the list is as long as
      that type's tally in the report. */
  lemma {:induction false} EventsOfTypeCount(reviews: seq<ProcessedReview>, eventType: string)
    ensures |EventsOfType(reviews, eventType)| == multiset(Kinds(Gather(reviews, EventsOf)))[eventType]
  {
    if reviews != [] {
      var p := reviews[..|reviews| - 1];
      var r := reviews[|reviews| - 1];
      EventsOfTypeCount(p, eventType);
      RefsOfTypeCount(r.id, EventsOf(r), eventType);
      KindsAppend(Gather(p, EventsOf), EventsOf(r));
    }
  }

  // ---------------------------------------------------------------------
  // Brand analysis

  const NoReviews: string := "No hay reseñas procesadas"

  /** The result of `get_detailed_brand_analysis`. Counters are multisets; the
      order `most_common` gives them is not modelled. */
  datatype BrandAnalysis = BrandAnalysis(
    totalRawBrands: nat,
    totalCleanedBrands: nat,
    rawBrandCounts: multiset<string>,
    cleanedBrandCounts: multiset<string>,
    brandVariations: map<string, set<string>>,
    duplicateExamples: seq<string>)

  /** `brand_variations[cleaned].add(raw)`, creating the empty set first. */
  function AddVariation(m: map<string, set<string>>, cleaned: string, raw: string): map<string, set<string>> {
    m[cleaned := (if cleaned in m then m[cleaned] else {}) + {raw}]
  }

  /** Every raw name whose image under `f` is non-empty and differs from it,
      filed under that image. */
  function VariationsUnder(raws: seq<string>, f: string -> string): map<string, set<string>> {
    if raws == [] then map[]
    else
      var m := VariationsUnder(raws[..|raws| - 1], f);
      var raw := raws[|raws| - 1];
      var c := f(raw);
      if c != "" && raw != c then AddVariation(m, c, raw) else m
  }

  ghost predicate VariationsExact(v: map<string, set<string>>, raws: seq<string>, f: string -> string) {
    && (forall c :: c in v ==> v[c] != {})
    && (forall c, raw :: c in v && raw in v[c] ==> raw in raws && f(raw) == c && c != "" && raw != c)
    && (forall raw :: raw in raws && f(raw) != "" && raw != f(raw) ==> f(raw) in v && raw in v[f(raw)])
  }

  lemma {:induction false} VariationsUnderExact(raws: seq<string>, f: string -> string)
    ensures VariationsExact(VariationsUnder(raws, f), raws, f)
  {
    if raws != [] {
      var p := raws[..|raws| - 1];
      VariationsUnderExact(p, f);
      assert raws == p + [raws[|raws| - 1]];
      VariationExactStep(VariationsUnder(p, f), p, raws[|raws| - 1], f);
    }
  }

  /** Filing one more raw name keeps the variations exact. */
  lemma VariationExactStep(m: map<string, set<string>>, p: seq<string>, raw: string, f: string -> string)
    requires VariationsExact(m, p, f)
    ensures VariationsExact(if f(raw) != "" && raw != f(raw) then AddVariation(m, f(raw), raw) else m, p + [raw], f)
  {
    if f(raw) != "" && raw != f(raw) {
      VariationExactAdd(m, p, raw, f);
    } else {
      VariationExactKeep(m, p, raw, f);
    }
  }

  lemma VariationExactAdd(m: map<string, set<string>>, p: seq<string>, raw: string, f: string -> string)
    requires VariationsExact(m, p, f) && f(raw) != "" && raw != f(raw)
    ensures VariationsExact(AddVariation(m, f(raw), raw), p + [raw], f)
  {
    var raws := p + [raw];
    var m' := AddVariation(m, f(raw), raw);
    assert forall x :: x in raws <==> x in p || x == raw;
    forall c | c in m' ensures m'[c] != {} {
      if c == f(raw) {
        assert raw in m'[c];
      }
    }
    forall c, x | c in m' && x in m'[c] ensures x in raws && f(x) == c && c != "" && x != c {
      if c != f(raw) || x != raw {
        assert c in m && x in m[c];
      }
    }
  }

  lemma VariationExactKeep(m: map<string, set<string>>, p: seq<string>, raw: string, f: string -> string)
    requires VariationsExact(m, p, f) && !(f(raw) != "" && raw != f(raw))
    ensures VariationsExact(m, p + [raw], f)
  {
    KeepSound(m, p, raw, f);
    KeepComplete(m, p, raw, f);
  }

  lemma KeepSound(m: map<string, set<string>>, p: seq<string>, raw: string, f: string -> string)
    requires forall c, x :: c in m && x in m[c] ==> x in p && f(x) == c && c != "" && x != c
    ensures forall c, x :: c in m && x in m[c] ==> x in p + [raw] && f(x) == c && c != "" && x != c
  {
    forall c, x | c in m && x in m[c] ensures x in p + [raw] {
      assert x in p;
    }
  }

  lemma KeepComplete(m: map<string, set<string>>, p: seq<string>, raw: string, f: string -> string)
    requires forall x :: x in p && f(x) != "" && x != f(x) ==> f(x) in m && x in m[f(x)]
    requires !(f(raw) != "" && raw != f(raw))
    ensures forall x :: x in p + [raw] && f(x) != "" && x != f(x) ==> f(x) in m && x in m[f(x)]
  {
    forall x | x in p + [raw] && f(x) != "" && x != f(x) ensures f(x) in m && x in m[f(x)] {
      assert x != raw;
      assert x in p;
    }
  }

  /** The brand variations, each raw brand filed under its own normal form. */
  function Variations(raws: seq<string>): map<string, set<string>> {
    VariationsUnder(raws, NormalizeBrandName)
  }

  /** `zip(raw_brands, cleaned_brands)` as the source pairs them: position by
      position over the first `n` positions. */
  function ZipVariations(m: map<string, set<string>>, raws: seq<string>, cleaned: seq<string>, n: nat): map<string, set<string>>
    requires n <= |raws| && n <= |cleaned|
  {
    if n == 0 then m
    else
      var m' := ZipVariations(m, raws, cleaned, n - 1);
      if raws[n - 1] != cleaned[n - 1] then AddVariation(m', cleaned[n - 1], raws[n - 1]) else m'
  }

  /** The variations as `get_detailed_brand_analysis` builds them: every review's
      raw brands zipped with its cleaned brands. */
  function ZippedVariations(reviews: seq<ProcessedReview>): map<string, set<string>> {
    if reviews == [] then map[]
    else
      var r := reviews[|reviews| - 1];
      var raws := RawBrandsOf(r);
      var cleaned := BrandsOf(r);
      ZipVariations(ZippedVariations(reviews[..|reviews| - 1]), raws, cleaned,
                    if |raws| <= |cleaned| then |raws| else |cleaned|)
  }

  /** Some position of the review pairs the raw name `raw` with the differing
      cleaned name `cleaned`. */
  ghost predicate ZipPair(r: ProcessedReview, cleaned: string, raw: string) {
    exists i :: 0 <= i < |RawBrandsOf(r)| && i < |BrandsOf(r)|
      && RawBrandsOf(r)[i] == raw && BrandsOf(r)[i] == cleaned && raw != cleaned
  }

  /** The zip over the first `n` positions adds a key exactly for a differing pair
      and files a raw name exactly under the cleaned name at its own position. */
  lemma {:induction false} ZipVariationsIff(m: map<string, set<string>>, raws: seq<string>, cleaned: seq<string>,
                                            n: nat, c: string, raw: string)
    requires n <= |raws| && n <= |cleaned|
    ensures c in ZipVariations(m, raws, cleaned, n) <==>
      c in m || exists i :: 0 <= i < n && cleaned[i] == c && raws[i] != c
    ensures (c in ZipVariations(m, raws, cleaned, n) && raw in ZipVariations(m, raws, cleaned, n)[c]) <==>
      (c in m && raw in m[c]) || exists i :: 0 <= i < n && raws[i] == raw && cleaned[i] == c && raw != c
    ensures c in m && m[c] != {} ==> ZipVariations(m, raws, cleaned, n)[c] != {}
    ensures c !in m && c in ZipVariations(m, raws, cleaned, n) ==> ZipVariations(m, raws, cleaned, n)[c] != {}
  {
    if n > 0 {
      ZipVariationsIff(m, raws, cleaned, n - 1, c, raw);
      var m' := ZipVariations(m, raws, cleaned, n - 1);
      if raws[n - 1] != cleaned[n - 1] && c == cleaned[n - 1] {
        assert raws[n - 1] in AddVariation(m', cleaned[n - 1], raws[n - 1])[c];
      }
    }
  }

  /** The source's variations hold `raw` under `cleaned` exactly when some review
      pairs the two, position by position over the shorter of its two brand lists,
      and they differ; every key holds at least one raw name. */
  lemma {:induction false} ZippedVariationsIff(reviews: seq<ProcessedReview>, c: string, raw: string)
    ensures (c in ZippedVariations(reviews) && raw in ZippedVariations(reviews)[c]) <==>
      exists j :: 0 <= j < |reviews| && ZipPair(reviews[j], c, raw)
    ensures c in ZippedVariations(reviews) ==> ZippedVariations(reviews)[c] != {}
  {
    if reviews != [] {
      var p := reviews[..|reviews| - 1];
      var r := reviews[|reviews| - 1];
      var raws, cleaned := RawBrandsOf(r), BrandsOf(r);
      var n := if |raws| <= |cleaned| then |raws| else |cleaned|;
      ZippedVariationsIff(p, c, raw);
      ZipVariationsIff(ZippedVariations(p), raws, cleaned, n, c, raw);
      assert forall j :: 0 <= j < |p| ==> p[j] == reviews[j];
      if exists i :: 0 <= i < n && raws[i] == raw && cleaned[i] == c && raw != c {
        assert ZipPair(r, c, raw);
      }
      if ZipPair(r, c, raw) {
        var i :| 0 <= i < |raws| && i < |cleaned| && raws[i] == raw && cleaned[i] == c && raw != c;
        assert i < n;
      }
    }
  }

  /** Deduplication that removes nothing returns its input. */
  lemma {:induction false} DedupFull<T>(xs: seq<T>)
    requires |Dedup(xs)| == |xs|
    ensures Dedup(xs) == xs
  {
    if xs != [] {
      var p := xs[..|xs| - 1];
      assert |Dedup(p)| <= |p|;
      DedupFull(p);
      assert xs == p + [xs[|xs| - 1]];
    }
  }

  /** When no image is empty, the non-empty images are the images, position by position. */
  lemma {:induction false} NonEmptyFull(xs: seq<string>, f: string -> string)
    requires |NonEmptyImages(xs, f)| == |xs|
    ensures forall k :: 0 <= k < |xs| ==> NonEmptyImages(xs, f)[k] == f(xs[k])
  {
    if xs != [] {
      var p := xs[..|xs| - 1];
      assert |NonEmptyImages(p, f)| <= |p|;
      NonEmptyFull(p, f);
      assert forall k :: 0 <= k < |p| ==> p[k] == xs[k];
    }
  }

  /** A cleaned list as long as its raw list is the raw list's normal forms, position
      by position, none of them empty. */
  lemma CleanedAligned(raws: seq<string>)
    requires |CleanedBrands(raws)| == |raws|
    ensures forall k :: 0 <= k < |raws| ==>
      CleanedBrands(raws)[k] == NormalizeBrandName(raws[k]) != ""
  {
    var ns := NormalizedBrands(raws);
    assert |Dedup(ns)| <= |ns| <= |raws|;
    DedupFull(ns);
    NonEmptyFull(raws, NormalizeBrandName);
  }

  /** Zipping with the images position by position files each raw name under its image. */
  lemma {:induction false} ZipAligned(filed: seq<string>, raws: seq<string>, cleaned: seq<string>, n: nat,
                                      f: string -> string)
    requires n <= |raws| && n <= |cleaned|
    requires forall k :: 0 <= k < n ==> cleaned[k] == f(raws[k]) != ""
    ensures ZipVariations(VariationsUnder(filed, f), raws, cleaned, n) == VariationsUnder(filed + raws[..n], f)
  {
    if n == 0 {
      assert filed + raws[..0] == filed;
    } else {
      var k := n - 1;
      ZipAligned(filed, raws, cleaned, k, f);
      var m := VariationsUnder(filed + raws[..k], f);
      assert ZipVariations(VariationsUnder(filed, f), raws, cleaned, n)
        == if raws[k] != cleaned[k] then AddVariation(m, cleaned[k], raws[k]) else m;
      assert cleaned[k] == f(raws[k]) != "";
      VariationsStep(filed, raws, k, f);
    }
  }

  /** When cleaning drops no name of any review, the source's zip and the filing by
      normal form agree. */
  lemma {:induction false} ZipAgreesWithoutDrops(reviews: seq<ProcessedReview>)
    requires forall j :: 0 <= j < |reviews| ==>
      BrandsOf(reviews[j]) == CleanedBrands(RawBrandsOf(reviews[j]))
      && |CleanedBrands(RawBrandsOf(reviews[j]))| == |RawBrandsOf(reviews[j])|
    ensures ZippedVariations(reviews) == Variations(Gather(reviews, RawBrandsOf))
  {
    if reviews != [] {
      var p := reviews[..|reviews| - 1];
      var r := reviews[|reviews| - 1];
      var raws := RawBrandsOf(r);
      assert forall j :: 0 <= j < |p| ==> p[j] == reviews[j];
      ZipAgreesWithoutDrops(p);
      CleanedAligned(raws);
      ZipAligned(Gather(p, RawBrandsOf), raws, BrandsOf(r), |raws|, NormalizeBrandName);
      assert raws[..|raws|] == raws;
    }
  }

  /** A review as the pipeline records it for the raw brands "SONY", "Sony", "LG". */
  function ThreeBrandReview(): ProcessedReview {
    ProcessedReview("review_0", Some(""), "", map[], Some([]), Some([]),
                    Some(["Sony", "LG"]), Some(["SONY", "Sony", "LG"]), [], Some([]))
  }

  /** Three names where the first two share a normal form and the third has another
      one, which is the second name as written: the cleaned list drops the second
      name, and the zip pairs the second name with the third's normal form. */
  lemma {:induction false} ZipAfterDrop(xs: seq<string>, f: string -> string)
    requires |xs| == 3 && f(xs[0]) == f(xs[1]) != "" && f(xs[2]) != "" && f(xs[2]) != f(xs[0])
    requires xs[1] != f(xs[2])
    ensures Dedup(NonEmptyImages(xs, f)) == [f(xs[0]), f(xs[2])]
    ensures f(xs[2]) in ZipVariations(map[], xs, [f(xs[0]), f(xs[2])], 2)
    ensures xs[1] in ZipVariations(map[], xs, [f(xs[0]), f(xs[2])], 2)[f(xs[2])]
  {
    ImagesOfThree(xs, f);
    DedupRepeatedFirst(f(xs[0]), f(xs[2]));
    var c := [f(xs[0]), f(xs[2])];
    var m1 := ZipVariations(map[], xs, c, 1);
    assert ZipVariations(map[], xs, c, 2) == AddVariation(m1, c[1], xs[1]);
  }

  /** The images of three names with non-empty images, in order. */
  lemma ImagesOfThree(xs: seq<string>, f: string -> string)
    requires |xs| == 3 && f(xs[0]) != "" && f(xs[1]) != "" && f(xs[2]) != ""
    ensures NonEmptyImages(xs, f) == [f(xs[0]), f(xs[1]), f(xs[2])]
  {
    assert xs[..2][..1][..0] == [];
    assert NonEmptyImages(xs[..2][..1], f) == [f(xs[0])];
    assert NonEmptyImages(xs[..2], f) == [f(xs[0]), f(xs[1])];
  }

  /** A repeated first name is kept once. */
  lemma DedupRepeatedFirst(a: string, b: string)
    requires a != b
    ensures Dedup([a, a, b]) == [a, b]
  {
    var n := [a, a, b];
    assert n[..2][..1][..0] == [];
    assert Dedup(n[..2][..1]) == [a];
    assert Dedup(n[..2]) == [a];
  }

  /** With the same three names, filing each raw name under its own normal form
      records only the first name, under the shared form. */
  lemma {:induction false} VariationsOfThree(xs: seq<string>, f: string -> string)
    requires |xs| == 3 && f(xs[0]) == f(xs[1]) == xs[1] != "" && f(xs[2]) == xs[2] != "" && xs[0] != xs[1]
    ensures VariationsUnder(xs, f) == map[xs[1] := {xs[0]}]
  {
    var one := xs[..2][..1];
    assert one[..0] == [] && one[0] == xs[0];
    assert VariationsUnder(one, f) == AddVariation(map[], xs[1], xs[0]);
    assert ({} + {xs[0]}) == {xs[0]};
    assert VariationsUnder(xs[..2], f) == map[xs[1] := {xs[0]}];
  }

  lemma MappedName(brand: string, key: string)
    requires brand != "" && (!IsSpace(brand[0]) && !IsSpace(brand[|brand| - 1]))
    requires Lower(brand) == key && key in BrandMappings
    ensures NormalizeBrandName(brand) == BrandMappings[key]
  {
    StripUnchanged(brand);
  }

  lemma SonyMapped()
    ensures "sony" in BrandMappings && BrandMappings["sony"] == "Sony"
  {
  }

  lemma UpperSonyNormalized()
    ensures NormalizeBrandName("SONY") == "Sony"
  {
    SonyMapped();
    assert Lower("SONY") == "sony";
    MappedName("SONY", "sony");
  }

  lemma SonyNormalized()
    ensures NormalizeBrandName("Sony") == "Sony"
  {
    SonyMapped();
    assert Lower("Sony") == "sony";
    MappedName("Sony", "sony");
  }

  lemma LgNormalized()
    ensures NormalizeBrandName("LG") == "LG"
  {
    assert "lg" in BrandMappings && BrandMappings["lg"] == "LG";
    assert Lower("LG") == "lg";
    MappedName("LG", "lg");
  }

  lemma ThreeBrandsNormalized()
    ensures NormalizeBrandName("SONY") == "Sony"
    ensures NormalizeBrandName("Sony") == "Sony"
    ensures NormalizeBrandName("LG") == "LG"
  {
    UpperSonyNormalized();
    SonyNormalized();
    LgNormalized();
  }

  /** Pairing by position goes wrong once a duplicate has been dropped: the pipeline
      cleans "SONY", "Sony", "LG" to "Sony", "LG", and the zip then files "Sony"
      as a variation of "LG", a brand it does not normalise to. */
  lemma ZipMisfiles()
    ensures CleanedBrands(["SONY", "Sony", "LG"]) == ["Sony", "LG"]
    ensures "LG" in ZippedVariations([ThreeBrandReview()])
    ensures "Sony" in ZippedVariations([ThreeBrandReview()])["LG"]
    ensures NormalizeBrandName("Sony") == "Sony" != "LG"
    ensures Variations(["SONY", "Sony", "LG"]) == map["Sony" := {"SONY"}]
  {
    var xs := ["SONY", "Sony", "LG"];
    ThreeBrandsNormalized();
    ZipAfterDrop(xs, NormalizeBrandName);
    VariationsOfThree(xs, NormalizeBrandName);
    assert [ThreeBrandReview()][..0] == [];
  }

  /** The names `Counter.items()` yields that occur more than once and are not
      lower-case, in the counter's order. */
  function DuplicateCandidates(distinct: seq<string>, counts: multiset<string>): (r: seq<string>)
    ensures |r| <= |distinct|
  {
    if distinct == [] then []
    else
      var p := DuplicateCandidates(distinct[..|distinct| - 1], counts);
      var b := distinct[|distinct| - 1];
      if counts[b] > 1 && Lower(b) != b then p + [b] else p
  }

  lemma {:induction false} DuplicateCandidatesIff(distinct: seq<string>, counts: multiset<string>, x: string)
    ensures x in DuplicateCandidates(distinct, counts) <==> x in distinct && counts[x] > 1 && Lower(x) != x
  {
    if distinct != [] {
      var p := distinct[..|distinct| - 1];
      DuplicateCandidatesIff(p, counts, x);
      assert x in distinct <==> x in p || x == distinct[|distinct| - 1];
    }
  }

  lemma {:induction false} DuplicateCandidatesNoDup(distinct: seq<string>, counts: multiset<string>)
    requires NoDup(distinct)
    ensures NoDup(DuplicateCandidates(distinct, counts))
  {
    if distinct != [] {
      var p := distinct[..|distinct| - 1];
      var b := distinct[|distinct| - 1];
      DuplicateCandidatesNoDup(p, counts);
      DuplicateCandidatesIff(p, counts, b);
      assert b !in p;
    }
  }

  /** The slice `xs[:n]`. */
  function Take<T>(xs: seq<T>, n: nat): (r: seq<T>)
    ensures |r| <= n && |r| <= |xs| && r == xs[..|r|]
    ensures |xs| <= n ==> r == xs
  {
    if |xs| <= n then xs else xs[..n]
  }

  /** `duplicate_examples`: at most ten raw names that occur more than once and
      are not already lower-case. */
  function DuplicateExamples(raws: seq<string>): seq<string> {
    Take(DuplicateCandidates(Dedup(raws), multiset(raws)), 10)
  }

  ghost predicate ExamplesValid(examples: seq<string>, raws: seq<string>) {
    && |examples| <= 10
    && NoDup(examples)
    && (forall k :: 0 <= k < |examples| ==> multiset(raws)[examples[k]] >= 2 && Lower(examples[k]) != examples[k])
    && (|examples| < 10 ==> forall b :: b in raws && multiset(raws)[b] >= 2 && Lower(b) != b ==> b in examples)
  }

  /** Each example is a repeated name that is not lower-case, none twice; with
      fewer than ten examples, every such name is among them. */
  lemma DuplicateExamplesValid(raws: seq<string>)
    ensures ExamplesValid(DuplicateExamples(raws), raws)
  {
    var d := Dedup(raws);
    var c := DuplicateCandidates(d, multiset(raws));
    var e := DuplicateExamples(raws);
    DuplicateCandidatesNoDup(d, multiset(raws));
    assert NoDup(e) by {
      forall i, j | 0 <= i < j < |e| ensures e[i] != e[j] {
        assert e[i] == c[i] && e[j] == c[j];
      }
    }
    forall k | 0 <= k < |e| ensures multiset(raws)[e[k]] >= 2 && Lower(e[k]) != e[k] {
      assert e[k] == c[k];
      DuplicateCandidatesIff(d, multiset(raws), e[k]);
    }
    if |e| < 10 {
      assert e == c;
      forall b | b in raws && multiset(raws)[b] >= 2 && Lower(b) != b ensures b in e {
        Ner.DedupMembers(raws);
        DuplicateCandidatesIff(d, multiset(raws), b);
      }
    }
  }

  /** What `get_detailed_brand_analysis` returns for `reviews`, with the variations
      filed under each raw name's own normal form (see `ZipMisfiles`). */
  function BrandAnalysisOf(reviews: seq<ProcessedReview>): Result<BrandAnalysis> {
    if reviews == [] then Failure(NoReviews)
    else
      var raws := Gather(reviews, RawBrandsOf);
      var cleaned := Gather(reviews, BrandsOf);
      Success(BrandAnalysis(|set b | b in raws|, |set b | b in cleaned|, multiset(raws), multiset(cleaned),
                            Variations(raws), DuplicateExamples(raws)))
  }

  /** The number of distinct names is at most the number of names. */
  lemma {:induction false} DistinctBound<T>(xs: seq<T>)
    ensures |set x | x in xs| <= |xs|
  {
    if xs != [] {
      var p := xs[..|xs| - 1];
      DistinctBound(p);
      assert (set x | x in xs) == (set x | x in p) + {xs[|xs| - 1]};
    }
  }

  /** The analysis is an error exactly when there are no reviews. Otherwise it
      counts at most as many distinct names as names, files every raw name under
      its own normal form when that differs from it, and lists valid duplicate
      examples. */
  lemma BrandAnalysisShape(reviews: seq<ProcessedReview>)
    ensures BrandAnalysisOf(reviews).Failure? <==> reviews == []
    ensures BrandAnalysisOf(reviews).Failure? ==> BrandAnalysisOf(reviews).error == NoReviews
    ensures BrandAnalysisOf(reviews).Success? ==>
      && BrandAnalysisOf(reviews).value.totalRawBrands <= |Gather(reviews, RawBrandsOf)|
      && BrandAnalysisOf(reviews).value.totalCleanedBrands <= |Gather(reviews, BrandsOf)|
      && VariationsExact(BrandAnalysisOf(reviews).value.brandVariations, Gather(reviews, RawBrandsOf), NormalizeBrandName)
      && ExamplesValid(BrandAnalysisOf(reviews).value.duplicateExamples, Gather(reviews, RawBrandsOf))
  {
    if reviews != [] {
      var raws := Gather(reviews, RawBrandsOf);
      DistinctBound(raws);
      DistinctBound(Gather(reviews, BrandsOf));
      VariationsUnderExact(raws, NormalizeBrandName);
      DuplicateExamplesValid(raws);
    }
  }

  /** Every review's brands are the cleaned list of its raw brands, as the
      pipeline records them. */
  ghost predicate BrandsCleaned(reviews: seq<ProcessedReview>) {
    forall j :: 0 <= j < |reviews| ==> BrandsOf(reviews[j]) == CleanedBrands(RawBrandsOf(reviews[j]))
  }

  lemma CleanedHasRaw(reviews: seq<ProcessedReview>, x: string)
    requires BrandsCleaned(reviews)
    requires x in Gather(reviews, BrandsOf)
    ensures x != "" && exists raw :: raw in Gather(reviews, RawBrandsOf) && NormalizeBrandName(raw) == x
  {
    GatherIff(reviews, BrandsOf, x);
    var j :| 0 <= j < |reviews| && x in BrandsOf(reviews[j]);
    var rb := RawBrandsOf(reviews[j]);
    CleanedBrandsShape(rb);
    var k :| 0 <= k < |rb| && NormalizeBrandName(rb[k]) == x;
    GatherIff(reviews, RawBrandsOf, rb[k]);
  }

  lemma RawHasCleaned(reviews: seq<ProcessedReview>, raw: string)
    requires BrandsCleaned(reviews)
    requires raw in Gather(reviews, RawBrandsOf) && NormalizeBrandName(raw) != ""
    ensures NormalizeBrandName(raw) in Gather(reviews, BrandsOf)
  {
    GatherIff(reviews, RawBrandsOf, raw);
    var j :| 0 <= j < |reviews| && raw in RawBrandsOf(reviews[j]);
    var rb := RawBrandsOf(reviews[j]);
    var k :| 0 <= k < |rb| && rb[k] == raw;
    CleanedBrandsShape(rb);
    GatherIff(reviews, BrandsOf, NormalizeBrandName(raw));
  }

  /** For reviews the pipeline recorded, the cleaned brands are exactly the
      non-empty normal forms of the raw brands, and every key of the variations
      is a cleaned brand. */
  lemma CleanedFromRaw(reviews: seq<ProcessedReview>, x: string)
    requires BrandsCleaned(reviews)
    ensures x in Gather(reviews, BrandsOf) <==>
      x != "" && exists raw :: raw in Gather(reviews, RawBrandsOf) && NormalizeBrandName(raw) == x
    ensures x in Variations(Gather(reviews, RawBrandsOf)) ==> x in Gather(reviews, BrandsOf)
  {
    var raws := Gather(reviews, RawBrandsOf);
    if x in Gather(reviews, BrandsOf) {
      CleanedHasRaw(reviews, x);
    }
    if x != "" && exists raw :: raw in raws && NormalizeBrandName(raw) == x {
      var raw :| raw in raws && NormalizeBrandName(raw) == x;
      RawHasCleaned(reviews, raw);
    }
    if x in Variations(raws) {
      VariationKeyCleaned(reviews, x);
    }
  }

  lemma VariationKeyCleaned(reviews: seq<ProcessedReview>, x: string)
    requires BrandsCleaned(reviews)
    requires x in Variations(Gather(reviews, RawBrandsOf))
    ensures x in Gather(reviews, BrandsOf)
  {
    var raws := Gather(reviews, RawBrandsOf);
    var v := VariationsUnder(raws, NormalizeBrandName);
    VariationsUnderExact(raws, NormalizeBrandName);
    assert x in v && v[x] != {};
    var raw :| raw in v[x];
    assert raw in raws && NormalizeBrandName(raw) == x != "";
    RawHasCleaned(reviews, raw);
  }

  /** The inner loop of `get_detailed_brand_analysis` over one review's raw brands,
      with `normalize` the brand normaliser. */
  method FileVariations(variations: map<string, set<string>>, filed: seq<string>, raws: seq<string>,
                        normalize: string -> string)
    returns (r: map<string, set<string>>)
    requires variations == VariationsUnder(filed, normalize)
    ensures r == VariationsUnder(filed + raws, normalize)
  {
    r := variations;
    assert filed + raws[..0] == filed;
    for k := 0 to |raws|
      invariant r == VariationsUnder(filed + raws[..k], normalize)
    {
      VariationsStep(filed, raws, k, normalize);
      var c := normalize(raws[k]);
      if c != "" && raws[k] != c {
        r := AddVariation(r, c, raws[k]);
      }
    }
    assert raws[..|raws|] == raws;
  }

  /** One more raw name: it is filed under its image when that is non-empty and differs from it. */
  lemma VariationsStep(filed: seq<string>, raws: seq<string>, k: nat, normalize: string -> string)
    requires k < |raws|
    ensures var m := VariationsUnder(filed + raws[..k], normalize);
      var c := normalize(raws[k]);
      VariationsUnder(filed + raws[..k + 1], normalize)
        == if c != "" && raws[k] != c then AddVariation(m, c, raws[k]) else m
  {
    var xs := filed + raws[..k + 1];
    assert xs[..|xs| - 1] == filed + raws[..k];
    assert xs[|xs| - 1] == raws[k];
  }

  /** `get_detailed_brand_analysis` over `reviews`. */
  method DetailedBrandAnalysis(reviews: seq<ProcessedReview>) returns (r: Result<BrandAnalysis>)
    ensures r == BrandAnalysisOf(reviews)
  {
    if |reviews| == 0 {
      return Failure(NoReviews);
    }
    var raws: seq<string> := [];
    var cleaned: seq<string> := [];
    var variations: map<string, set<string>> := map[];
    for i := 0 to |reviews|
      invariant raws == Gather(reviews[..i], RawBrandsOf)
      invariant cleaned == Gather(reviews[..i], BrandsOf)
      invariant variations == VariationsUnder(raws, NormalizeBrandName)
    {
      GatherStep(reviews, RawBrandsOf, i);
      GatherStep(reviews, BrandsOf, i);
      var rb := RawBrandsOf(reviews[i]);
      variations := FileVariations(variations, raws, rb, NormalizeBrandName);
      raws := raws + rb;
      cleaned := cleaned + BrandsOf(reviews[i]);
    }
    assert reviews[..|reviews|] == reviews;
    assert variations == Variations(raws);
    r := Success(BrandAnalysis(|set b | b in raws|, |set b | b in cleaned|, multiset(raws), multiset(cleaned),
                               variations, DuplicateExamples(raws)));
  }

  // ---------------------------------------------------------------------
  // The report

  /** `resumen_general`. */
  datatype Summary = Summary(totalReviews: nat, uniqueProducts: nat, uniqueBrands: nat, totalEvents: nat)

  /** The result of `generate_report`, without its timestamp. Counters are
      multisets; the order `most_common` gives them is not modelled. */
  datatype Report = Report(
    summary: Summary,
    productCounts: multiset<string>,
    brandCounts: multiset<string>,
    sentimentCounts: map<string, nat>,
    eventTypeCounts: multiset<string>,
    graphStats: Knowledge.GraphStats,
    searchStats: Search.SearchStats,
    brandAnalysis: BrandAnalysis)

  /** The number of `events` with sentiment `s`. */
  function SentimentCount(events: seq<Events.Event>, s: Events.Sentiment): (n: nat)
    ensures n <= |events|
  {
    if events == [] then 0
    else SentimentCount(events[..|events| - 1], s) + (if events[|events| - 1].sentiment == s then 1 else 0)
  }

  /** `distribución_sentimientos`: the three labels, each with its tally. */
  function SentimentCounts(events: seq<Events.Event>): map<string, nat> {
    map["positive" := SentimentCount(events, Events.Positive),
        "negative" := SentimentCount(events, Events.Negative),
        "neutral" := SentimentCount(events, Events.Neutral)]
  }

  /** Every event has exactly one of the three sentiments, so the tallies add up
      to the number of events. */
  lemma {:induction false} SentimentCountsTotal(events: seq<Events.Event>)
    ensures SentimentCount(events, Events.Positive) + SentimentCount(events, Events.Negative)
            + SentimentCount(events, Events.Neutral) == |events|
  {
    if events != [] {
      SentimentCountsTotal(events[..|events| - 1]);
    }
  }

  /** The sentiment section has exactly the three labels, and their tallies add
      up to the number of events. */
  lemma SentimentCountsShape(events: seq<Events.Event>)
    ensures SentimentCounts(events).Keys == {"positive", "negative", "neutral"}
    ensures SentimentCounts(events)["positive"] + SentimentCounts(events)["negative"]
            + SentimentCounts(events)["neutral"] == |events|
  {
    SentimentCountsTotal(events);
  }

  /** What `generate_report` returns for `reviews`, given the graph's and the
      index's statistics. */
  function ReportOf(reviews: seq<ProcessedReview>, graphStats: Knowledge.GraphStats,
                    searchStats: Search.SearchStats): Result<Report>
  {
    if reviews == [] then Failure(NoReviews)
    else
      var products := Gather(reviews, ProductsOf);
      var brands := Gather(reviews, BrandsOf);
      var events := Gather(reviews, EventsOf);
      Success(Report(
        Summary(|reviews|, |set x | x in products|, |set x | x in brands|, |events|),
        multiset(products), multiset(brands), SentimentCounts(events), multiset(Kinds(events)),
        graphStats, searchStats, BrandAnalysisOf(reviews).value))
  }

  /** The report is an error exactly when there are no reviews. Otherwise the
      three sentiment tallies add up to the number of events, each event type's
      tally is the number of entries `get_events_by_type` lists for it, there are
      at most as many distinct products and brands as mentions, and the brand
      section is the brand analysis. */
  lemma ReportShape(reviews: seq<ProcessedReview>, graphStats: Knowledge.GraphStats, searchStats: Search.SearchStats)
    ensures ReportOf(reviews, graphStats, searchStats).Failure? <==> reviews == []
    ensures ReportOf(reviews, graphStats, searchStats).Failure? ==>
      ReportOf(reviews, graphStats, searchStats).error == NoReviews
    ensures ReportOf(reviews, graphStats, searchStats).Success? ==>
      && ReportOf(reviews, graphStats, searchStats).value.summary.totalReviews == |reviews|
      && ReportOf(reviews, graphStats, searchStats).value.sentimentCounts.Keys == {"positive", "negative", "neutral"}
      && ReportOf(reviews, graphStats, searchStats).value.sentimentCounts["positive"]
         + ReportOf(reviews, graphStats, searchStats).value.sentimentCounts["negative"]
         + ReportOf(reviews, graphStats, searchStats).value.sentimentCounts["neutral"]
         == ReportOf(reviews, graphStats, searchStats).value.summary.totalEvents
      && ReportOf(reviews, graphStats, searchStats).value.summary.uniqueProducts <= |Gather(reviews, ProductsOf)|
      && ReportOf(reviews, graphStats, searchStats).value.summary.uniqueBrands <= |Gather(reviews, BrandsOf)|
      && ReportOf(reviews, graphStats, searchStats).value.brandAnalysis == BrandAnalysisOf(reviews).value
      && ReportOf(reviews, graphStats, searchStats).value.graphStats == graphStats
      && ReportOf(reviews, graphStats, searchStats).value.searchStats == searchStats
    ensures ReportOf(reviews, graphStats, searchStats).Success? ==>
      forall t :: ReportOf(reviews, graphStats, searchStats).value.eventTypeCounts[t] == |EventsOfType(reviews, t)|
  {
    if reviews != [] {
      var products := Gather(reviews, ProductsOf);
      var brands := Gather(reviews, BrandsOf);
      var events := Gather(reviews, EventsOf);
      SentimentCountsShape(events);
      DistinctBound(products);
      DistinctBound(brands);
      forall t ensures multiset(Kinds(events))[t] == |EventsOfType(reviews, t)| {
        EventsOfTypeCount(reviews, t);
      }
    }
  }

  /** The trigger table's event types. */
  function TableKinds(): (r: set<string>)
    ensures |r| <= |Events.EventTriggers|
  {
    var ks := seq(|Events.EventTriggers|, j requires 0 <= j < |Events.EventTriggers| => Events.EventTriggers[j].0);
    DistinctBound(ks);
    set x | x in ks
  }

  lemma {:induction false} SubsetCard<T>(a: set<T>, b: set<T>)
    requires a <= b
    ensures |a| <= |b|
  {
    if a != {} {
      var x :| x in a;
      SubsetCard(a - {x}, b - {x});
    }
  }

  /** When every event has a type from the trigger table, as the pipeline builds
      them, there are at most eight event types, so `most_common(10)` drops none. */
  lemma EventTypesFit(reviews: seq<ProcessedReview>)
    requires forall e :: e in Gather(reviews, EventsOf) ==> e.kind in TableKinds()
    ensures |set t | t in Kinds(Gather(reviews, EventsOf))| <= 8
  {
    var events := Gather(reviews, EventsOf);
    var ts := set t | t in Kinds(events);
    forall t | t in ts ensures t in TableKinds() {
      var k :| 0 <= k < |Kinds(events)| && Kinds(events)[k] == t;
      KindsAt(events, k);
    }
    SubsetCard(ts, TableKinds());
  }

  lemma {:induction false} KindsAt(events: seq<Events.Event>, k: nat)
    requires k < |events|
    ensures Kinds(events)[k] == events[k].kind
  {
    if k < |events| - 1 {
      KindsAt(events[..|events| - 1], k);
    }
  }

  /** `generate_report` over `reviews`. */
  method BuildReport(reviews: seq<ProcessedReview>, graphStats: Knowledge.GraphStats, searchStats: Search.SearchStats)
    returns (report: Result<Report>)
    ensures report == ReportOf(reviews, graphStats, searchStats)
  {
    if |reviews| == 0 {
      return Failure(NoReviews);
    }
    var products: seq<string> := [];
    var brands: seq<string> := [];
    var events: seq<Events.Event> := [];
    var counts := map["positive" := 0, "negative" := 0, "neutral" := 0];
    for i := 0 to |reviews|
      invariant products == Gather(reviews[..i], ProductsOf)
      invariant brands == Gather(reviews[..i], BrandsOf)
      invariant events == Gather(reviews[..i], EventsOf)
      invariant counts == SentimentCounts(events)
    {
      assert reviews[..i + 1][..i] == reviews[..i];
      var review := reviews[i];
      products := products + ProductsOf(review);
      brands := brands + BrandsOf(review);
      var evs := EventsOf(review);
      counts := CountSentiments(counts, events, evs);
      events := events + evs;
    }
    assert reviews[..|reviews|] == reviews;
    var analysis := DetailedBrandAnalysis(reviews);
    report := Success(Report(
      Summary(|reviews|, |set x | x in products|, |set x | x in brands|, |events|),
      multiset(products), multiset(brands), counts, multiset(Kinds(events)),
      graphStats, searchStats, analysis.value));
  }

  /** One more event adds one to the tally of its label. */
  lemma SentimentCountsStep(events: seq<Events.Event>, e: Events.Event)
    ensures SentimentCounts(events + [e]) ==
      SentimentCounts(events)[Events.SentimentLabel(e.sentiment) := SentimentCounts(events)[Events.SentimentLabel(e.sentiment)] + 1]
  {
    var all := events + [e];
    assert all[..|all| - 1] == events && all[|all| - 1] == e;
  }

  /** The inner loop of `generate_report` over one review's events. */
  method CountSentiments(counts: map<string, nat>, seen: seq<Events.Event>, events: seq<Events.Event>)
    returns (r: map<string, nat>)
    requires counts == SentimentCounts(seen)
    ensures r == SentimentCounts(seen + events)
  {
    r := counts;
    assert seen + events[..0] == seen;
    for k := 0 to |events|
      invariant r == SentimentCounts(seen + events[..k])
    {
      assert seen + events[..k + 1] == (seen + events[..k]) + [events[k]];
      SentimentCountsStep(seen + events[..k], events[k]);
      var sentiment := Events.SentimentLabel(events[k].sentiment);
      r := r[sentiment := r[sentiment] + 1];
    }
    assert events[..|events|] == events;
  }

  // ---------------------------------------------------------------------
  // One review through the pipeline

  /** What the pipeline is given for one review: its text, spaCy's entities and
      dependency parse of it, and the matches of the product patterns. */
  datatype ReviewInput = ReviewInput(text: string, ents: seq<Ner.SpacyEnt>, doc: Relations.Doc, patternMatches: seq<string>)

  /** The NER analysis as the relation and event extractors look it up: only its
      `products` and `brands` keys hold lists of names, and neither extractor
      asks for `entities` or `all_entities`. */
  function AnalysisEntities(products: seq<string>, brands: seq<string>): Entities {
    map["products" := products, "brands" := brands]
  }

  /** `r` is the record `process_single_review` builds for `input` under `id`.
      The fields are stated by `ProcessedFields`, under a quantifier so that
      they are unfolded only where a proof mentions them. */
  ghost predicate IsProcessed(r: ProcessedReview, input: ReviewInput, id: string,
                              findall: (Cleaning.PatternKind, string) -> seq<string>) {
    forall x :: x == r ==> ProcessedFields(x, input, id, findall)
  }

  /** The fields of the record `process_single_review` builds for `input` under `id`. */
  ghost predicate ProcessedFields(r: ProcessedReview, input: ReviewInput, id: string,
                                  findall: (Cleaning.PatternKind, string) -> seq<string>) {
    && Relations.WellFormed(input.doc)
    && r.id == id && r.originalText == Some(input.text)
    && Cleaning.IsCleaningOf(r.cleanText, input.text)
    && r.regexPatterns == Cleaning.ExtractAllPatterns(input.text, findall)
    && r.entities == Some(Ner.EntitiesByType(Ner.Records(input.ents)))
    && r.products.Some? && r.rawBrands.Some? && r.events.Some?
    && NoDup(r.products.value)
    && (forall x :: x in r.products.value <==>
          x in input.patternMatches
          || exists k :: 0 <= k < |input.ents| && Ner.IsProductEnt(input.ents[k]) && input.ents[k].text == x)
    && NoDup(r.rawBrands.value)
    && (forall x :: x in r.rawBrands.value <==>
          (x in Ner.KnownBrands && Contains(Lower(input.text), Lower(x)))
          || exists k :: 0 <= k < |input.ents| && Ner.MapCategory(input.ents[k].category) == Ner.Organization
                         && input.ents[k].text == x)
    && r.brands == Some(CleanedBrands(r.rawBrands.value))
    && |r.relations| == |Relations.Triples(input.doc, |input.doc.sents|)|
    && (forall k :: 0 <= k < |r.relations| ==>
          r.relations[k] == Relations.SvoRelation(Relations.Triples(input.doc, |input.doc.sents|)[k]))
    && PipelineEvents(r.events.value, input.text, r.products.value, r.rawBrands.value)
  }

  /** `events` is what the event extractor finds in `text` given the analysis's
      products and brands. */
  ghost predicate PipelineEvents(events: seq<Events.Event>, text: string, products: seq<string>, brands: seq<string>) {
    Events.EventsAt(Events.EventTriggers, events,
                    Events.Matches(Events.EventTriggers, Lower(text), |Events.EventTriggers|),
                    text, AnalysisEntities(products, brands))
  }

  /** `a` is the NER analysis of the input, stated by `AnalysisFields`, under a
      quantifier like `IsProcessed`. */
  ghost predicate IsAnalysisOf(a: Ner.Analysis, input: ReviewInput) {
    forall x :: x == a ==> AnalysisFields(x, input)
  }

  ghost predicate AnalysisFields(a: Ner.Analysis, input: ReviewInput) {
    && a.entities == Ner.EntitiesByType(Ner.Records(input.ents))
    && NoDup(a.products) && NoDup(a.brands)
    && (forall x :: x in a.products <==>
          x in input.patternMatches
          || exists k :: 0 <= k < |input.ents| && Ner.IsProductEnt(input.ents[k]) && input.ents[k].text == x)
    && (forall x :: x in a.brands <==>
          (x in Ner.KnownBrands && Contains(Lower(input.text), Lower(x)))
          || exists k :: 0 <= k < |input.ents| && Ner.MapCategory(input.ents[k].category) == Ner.Organization
                         && input.ents[k].text == x)
  }

  /** `rel` holds one relation per subject-verb-object triple of the parse, in order,
      and nothing else. */
  ghost predicate IsSvoRelationsOf(rel: seq<Relations.Relation>, doc: Relations.Doc) {
    forall x :: x == rel ==> SvoRelationsFields(x, doc)
  }

  ghost predicate SvoRelationsFields(rel: seq<Relations.Relation>, doc: Relations.Doc) {
    && Relations.WellFormed(doc)
    && |rel| == |Relations.Triples(doc, |doc.sents|)|
    && forall k :: 0 <= k < |rel| ==> rel[k] == Relations.SvoRelation(Relations.Triples(doc, |doc.sents|)[k])
  }

  ghost predicate IsPipelineEventsOf(events: seq<Events.Event>, text: string, products: seq<string>, brands: seq<string>) {
    forall x :: x == events ==> PipelineEvents(x, text, products, brands)
  }

  /** `clean_text` on the review's text. */
  method CleanInput(text: string) returns (c: string)
    ensures Cleaning.IsCleaningOf(c, text)
  {
    c := Cleaning.CleanText(text);
  }

  /** `analyze_review` on the review's text, entities and product matches. */
  method AnalyzeInput(input: ReviewInput) returns (a: Ner.Analysis)
    ensures IsAnalysisOf(a, input)
  {
    a := Ner.AnalyzeReview(input.text, input.ents, input.patternMatches);
    assert AnalysisFields(a, input);
  }

  /** `extract_all_relations` given the analysis: only the triples, since the analysis
      names no person. */
  method PipelineRelations(doc: Relations.Doc, text: string, products: seq<string>, brands: seq<string>)
    returns (rel: seq<Relations.Relation>)
    requires Relations.WellFormed(doc)
    ensures IsSvoRelationsOf(rel, doc)
  {
    rel := Relations.ExtractAllRelations(doc, text, AnalysisEntities(products, brands));
    NoPurchaseRelations(text, products, brands);
    assert SvoRelationsFields(rel, doc);
  }

  /** `extract_events` given the analysis. */
  method PipelineEventsFor(text: string, products: seq<string>, brands: seq<string>)
    returns (events: seq<Events.Event>)
    ensures IsPipelineEventsOf(events, text, products, brands)
  {
    events := Events.ExtractEvents(text, AnalysisEntities(products, brands));
    assert PipelineEvents(events, text, products, brands);
  }

  /** A record built from those parts is the processed record of the input. */
  lemma ProcessedIntro(r: ProcessedReview, input: ReviewInput, id: string,
                       findall: (Cleaning.PatternKind, string) -> seq<string>, a: Ner.Analysis)
    requires Relations.WellFormed(input.doc)
    requires r.id == id && r.originalText == Some(input.text) && Cleaning.IsCleaningOf(r.cleanText, input.text)
    requires r.regexPatterns == Cleaning.ExtractAllPatterns(input.text, findall)
    requires IsAnalysisOf(a, input)
    requires r.entities == Some(a.entities) && r.products == Some(a.products) && r.rawBrands == Some(a.brands)
    requires r.brands == Some(CleanedBrands(a.brands))
    requires IsSvoRelationsOf(r.relations, input.doc)
    requires r.events.Some? && IsPipelineEventsOf(r.events.value, input.text, a.products, a.brands)
    ensures IsProcessed(r, input, id, findall)
  {
    assert AnalysisFields(a, input);
    assert SvoRelationsFields(r.relations, input.doc);
    assert PipelineEvents(r.events.value, input.text, a.products, a.brands);
    assert ProcessedFields(r, input, id, findall);
  }

  /** The analysis has no `Persona` key, so the purchase relations are always empty. */
  lemma NoPurchaseRelations(text: string, products: seq<string>, brands: seq<string>)
    ensures Relations.PurchaseRelations(text, AnalysisEntities(products, brands)) == []
  {
    var m := AnalysisEntities(products, brands);
    assert Relations.Persons(m) == [];
  }

  /** Every event of a processed review has no actor, time or location, since the
      analysis has no `Person`, `Date` or `Location` key, and its object is the
      first product. */
  lemma PipelineEventSlots(events: seq<Events.Event>, text: string, products: seq<string>, brands: seq<string>, k: nat)
    requires PipelineEvents(events, text, products, brands) && k < |events|
    ensures events[k].actor == None && events[k].time == None && events[k].location == None
    ensures events[k].obj == First(products)
  {
    var m := AnalysisEntities(products, brands);
    assert Get(m, "Person") == [] && Get(m, "Date") == [] && Get(m, "Location") == [];
    assert Get(m, "Product") + Get(m, "products") == products;
  }

  /** Every event of a processed review has a type from the trigger table. */
  lemma PipelineEventKind(events: seq<Events.Event>, text: string, products: seq<string>, brands: seq<string>, k: nat)
    requires PipelineEvents(events, text, products, brands) && k < |events|
    ensures events[k].kind in TableKinds()
  {
    var found := Events.Matches(Events.EventTriggers, Lower(text), |Events.EventTriggers|);
    var j := found[k].0;
    assert j < |Events.EventTriggers| && events[k].kind == Events.EventTriggers[j].0;
    var ks := seq(|Events.EventTriggers|, i requires 0 <= i < |Events.EventTriggers| => Events.EventTriggers[i].0);
    assert ks[j] == Events.EventTriggers[j].0;
  }

  /** The number a string of decimal digits denotes, most significant digit first. */
  function DigitsValue(s: string): nat
    requires forall k :: 0 <= k < |s| ==> '0' <= s[k] <= '9'
  {
    if s == [] then 0 else DigitsValue(s[..|s| - 1]) * 10 + (s[|s| - 1] - '0') as nat
  }

  /** The decimal digits of `n`, as `f"{n}"` writes them: digits only, denoting `n`,
      with no leading zero. */
  function NatToString(n: nat): (s: string)
    ensures |s| >= 1 && forall k :: 0 <= k < |s| ==> '0' <= s[k] <= '9'
    ensures DigitsValue(s) == n
    ensures s[0] == '0' ==> s == "0"
  {
    var d := ['0' + ((n % 10) as char)];
    if n < 10 then d
    else
      var p := NatToString(n / 10);
      assert (p + d)[..|p|] == p;
      p + d
  }

  /** `f"review_{idx}"`. */
  function ReviewId(idx: nat): string {
    "review_" + NatToString(idx)
  }

  /** Distinct rows get distinct review ids. */
  lemma ReviewIdInjective(i: nat, j: nat)
    requires ReviewId(i) == ReviewId(j)
    ensures i == j
  {
    var a, b := ReviewId(i), ReviewId(j);
    assert NatToString(i) == a[7..] && NatToString(j) == b[7..];
  }

  // ---------------------------------------------------------------------
  // The orchestrator

  class OpinionExtractor {
    var processedReviews: seq<ProcessedReview>
    const knowledge: Knowledge.KnowledgeGraph
    const engine: Search.SearchEngine

    ghost predicate Valid()
      reads this, engine
    {
      engine.Valid()
    }

    constructor()
      ensures Valid() && processedReviews == []
      ensures fresh(knowledge) && knowledge.graph == {}
      ensures fresh(engine) && engine.documents == [] && engine.metadata == [] && engine.fitted == None
      ensures !engine.tfidfFitted
    {
      knowledge := new Knowledge.KnowledgeGraph();
      engine := new Search.SearchEngine();
      processedReviews := [];
    }

    /** `process_single_review`: cleaning and pattern extraction on the text, the
        NER analysis, the cleaned brands, the relations and the events. */
    method ProcessSingleReview(input: ReviewInput, reviewId: string,
                               findall: (Cleaning.PatternKind, string) -> seq<string>)
      returns (r: ProcessedReview)
      requires Relations.WellFormed(input.doc)
      ensures IsProcessed(r, input, reviewId, findall)
    {
      var text := input.text;
      var clean := CleanInput(text);
      var patterns := Cleaning.ExtractAllPatterns(text, findall);
      var analysis := AnalyzeInput(input);
      var rawBrands := analysis.brands;
      var cleanedBrands := CleanAndDeduplicateBrands(rawBrands);
      var relations := PipelineRelations(input.doc, text, analysis.products, analysis.brands);
      var events := PipelineEventsFor(text, analysis.products, analysis.brands);
      r := ProcessedReview(reviewId, Some(text), clean, patterns, Some(analysis.entities), Some(analysis.products),
                           Some(cleanedBrands), Some(rawBrands), relations, Some(events));
      ProcessedIntro(r, input, reviewId, findall, analysis);
    }

    /** The loop of `process_csv` over the rows, each under the id `review_<row>`. */
    method ProcessRows(inputs: seq<ReviewInput>, findall: (Cleaning.PatternKind, string) -> seq<string>)
      returns (processed: seq<ProcessedReview>)
      requires forall i :: 0 <= i < |inputs| ==> Relations.WellFormed(inputs[i].doc)
      ensures |processed| == |inputs|
      ensures forall i {:trigger IsProcessed(processed[i], inputs[i], ReviewId(i), findall)} ::
                0 <= i < |inputs| ==> IsProcessed(processed[i], inputs[i], ReviewId(i), findall)
    {
      processed := [];
      for idx := 0 to |inputs|
        invariant |processed| == idx
        invariant forall i {:trigger IsProcessed(processed[i], inputs[i], ReviewId(i), findall)} ::
                    0 <= i < idx ==> IsProcessed(processed[i], inputs[i], ReviewId(i), findall)
      {
        var r := ProcessSingleReview(inputs[idx], ReviewId(idx), findall);
        processed := processed + [r];
      }
    }

    /** The part of `process_csv` after the rows are read: each row is processed
        under the id `review_<row>`, the records replace the stored ones, their
        events are added to the graph and the index is rebuilt from them.
        `keptTerms` is the number of terms the vectoriser keeps for the batch;
        `raised` reports the `ValueError` of the fit, which `process_csv` does not
        catch, so it escapes after every state change above has been made. */
    method ProcessReviews(inputs: seq<ReviewInput>, findall: (Cleaning.PatternKind, string) -> seq<string>,
                          keptTerms: nat)
      returns (raised: bool)
      requires Valid()
      requires forall i :: 0 <= i < |inputs| ==> Relations.WellFormed(inputs[i].doc)
      modifies this, knowledge, engine
      ensures Valid()
      ensures |processedReviews| == |inputs|
      ensures forall i {:trigger IsProcessed(processedReviews[i], inputs[i], ReviewId(i), findall)} ::
                0 <= i < |inputs| ==> IsProcessed(processedReviews[i], inputs[i], ReviewId(i), findall)
      ensures knowledge.graph == old(knowledge.graph) + Knowledge.ReviewsTriples(processedReviews)
      ensures engine.metadata == processedReviews && engine.documents == Search.Documents(processedReviews)
      ensures raised <==> inputs != [] && Search.FitFails(|inputs|, keptTerms)
      ensures engine.fitted == if inputs == [] || raised then old(engine.fitted) else Some(|inputs|)
      ensures engine.tfidfFitted == if inputs == [] then old(engine.tfidfFitted) else !raised
    {
      var processed := ProcessRows(inputs, findall);
      processedReviews := processed;
      knowledge.CreateProductSentimentGraph(processed);
      raised := engine.IndexDocuments(processed, keptTerms);
    }

    /** `get_semantic_search_results`. */
    method SemanticSearchResults(query: string, topK: int, similarity: (string, nat) -> real)
      returns (r: Result<seq<Search.SearchResult>>)
      ensures r == engine.Outcome(query, topK, similarity)
    {
      r := engine.Search(query, topK, similarity);
    }

    /** `get_events_by_type`. */
    method GetEventsByType(eventType: string) returns (events: seq<EventRef>)
      ensures events == EventsOfType(processedReviews, eventType)
    {
      events := [];
      for i := 0 to |processedReviews|
        invariant events == EventsOfType(processedReviews[..i], eventType)
      {
        assert processedReviews[..i + 1][..i] == processedReviews[..i];
        var review := processedReviews[i];
        var evs := EventsOf(review);
        var found := RefsFor(eventType, review.id, evs);
        events := events + found;
      }
      assert processedReviews[..|processedReviews|] == processedReviews;
    }

    /** `get_detailed_brand_analysis`. */
    method GetDetailedBrandAnalysis() returns (r: Result<BrandAnalysis>)
      ensures r == BrandAnalysisOf(processedReviews)
    {
      r := DetailedBrandAnalysis(processedReviews);
    }

    /** `generate_report`; the vocabulary size of the fitted vectoriser is given. */
    method GenerateReport(vocabularySize: nat) returns (r: Result<Report>)
      ensures r == ReportOf(processedReviews, knowledge.Stats(), engine.Statistics(vocabularySize))
    {
      if |processedReviews| == 0 {
        return Failure(NoReviews);
      }
      var graphStats := knowledge.Stats();
      var searchStats := engine.Statistics(vocabularySize);
      r := BuildReport(processedReviews, graphStats, searchStats);
    }
  }

  /** The inner loop of `get_events_by_type` over one review's events. */
  method RefsFor(eventType: string, reviewId: string, events: seq<Events.Event>) returns (found: seq<EventRef>)
    ensures found == RefsOfType(reviewId, events, eventType)
  {
    found := [];
    for k := 0 to |events|
      invariant found == RefsOfType(reviewId, events[..k], eventType)
    {
      assert events[..k + 1][..k] == events[..k];
      var e := events[k];
      if e.kind == eventType {
        found := found + [EventRef(eventType + "_" + reviewId, e.actor, e.obj, Events.SentimentLabel(e.sentiment))];
      }
    }
    assert events[..|events|] == events;
  }
}
