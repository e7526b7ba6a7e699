/** The review search index (utils/semantic_search.py): the tokenizer, the
    text indexed for each review, the documents/metadata bookkeeping and the
    selection of the best-scoring reviews. The TF-IDF vectors and their
    cosine similarities are a library's business; the index sees them as a
    function from (processed query, row) to a score. */
module Search {
  import opened Wrappers
  import opened Text
  import opened Records
  import Ner

  // ---------------------------------------------------------------------
  // The tokenizer

  const Stopwords: set<string> := {
    "the", "and", "is", "in", "to", "of", "a", "for", "it", "on", "with", "as", "this", "that",
    "at", "by", "an", "be", "are", "from", "was", "or", "but", "not", "have", "has", "had",
    "they", "you", "we", "he", "she", "his", "her", "their", "them", "our", "us", "were",
    "can", "will", "would", "should", "could", "may", "might", "do", "does", "did", "so",
    "if", "about", "which", "who", "whom", "what", "when", "where", "why", "how", "all",
    "any", "some", "no", "more", "most", "other", "such", "only", "own", "same", "than",
    "too", "very", "just", "also", "into", "over", "after", "before", "between", "because",
    "while", "during", "each", "few", "many", "both", "every", "either", "neither"
  }

  /** `re.sub(r'[^\w\s]', ' ', s)`: every character that is neither a word character
      nor whitespace becomes a blank. */
  function Blank(s: string): string {
    seq(|s|, i requires 0 <= i < |s| => if IsWordChar(s[i]) || IsSpace(s[i]) then s[i] else ' ')
  }

  /** The filter of the list comprehension: not a stop-word and longer than two. */
  predicate KeptWord(w: string) {
    w !in Stopwords && |w| > 2
  }

  function KeepWords(ws: seq<string>): (r: seq<string>)
    ensures |r| <= |ws|
    ensures forall k :: 0 <= k < |r| ==> r[k] in ws && KeptWord(r[k])
    ensures forall k :: 0 <= k < |ws| && KeptWord(ws[k]) ==> ws[k] in r
  {
    if ws == [] then []
    else
      var r := KeepWords(ws[..|ws| - 1]);
      assert forall k :: 0 <= k < |ws| - 1 ==> ws[..|ws| - 1][k] == ws[k];
      if KeptWord(ws[|ws| - 1]) then r + [ws[|ws| - 1]] else r
  }

  lemma {:induction false} KeepAllWords(ws: seq<string>)
    requires forall k :: 0 <= k < |ws| ==> KeptWord(ws[k])
    ensures KeepWords(ws) == ws
  {
    if ws != [] {
      var p := ws[..|ws| - 1];
      assert forall k :: 0 <= k < |p| ==> p[k] == ws[k];
      KeepAllWords(p);
      assert KeptWord(ws[|ws| - 1]);
      assert ws == p + [ws[|ws| - 1]];
    }
  }

  /** The words `preprocess_text` keeps, in order. */
  function Tokens(text: string): (r: seq<string>)
    ensures forall k :: 0 <= k < |r| ==> KeptWord(r[k])
  {
    KeepWords(Split(CollapseSpaces(Blank(Lower(text)))))
  }

  /** `preprocess_text`. */
  function Preprocess(text: string): (r: string)
    ensures r == [] <==> Tokens(text) == []
  {
    Join(" ", Tokens(text))
  }

  /** A lower-case run of word characters that the filter keeps. */
  predicate IsToken(w: string) {
    KeptWord(w) && forall i :: 0 <= i < |w| ==> IsWordChar(w[i]) && LowerChar(w[i]) == w[i]
  }

  lemma TokensShape(text: string)
    ensures forall k :: 0 <= k < |Tokens(text)| ==> IsToken(Tokens(text)[k]) && IsWord(Tokens(text)[k])
  {
    var t := Blank(Lower(text));
    var Q := (c: char) => IsWordChar(c) && LowerChar(c) == c;
    assert forall k :: 0 <= k < |t| && !IsSpace(t[k]) ==> Q(t[k]);
    var c := CollapseSpaces(t);
    CollapseChars(t, Q);
    SplitChars(c, Q);
    var ws := Split(c);
    forall k | 0 <= k < |Tokens(text)| ensures IsToken(Tokens(text)[k]) && IsWord(Tokens(text)[k]) {
      var w := Tokens(text)[k];
      var m :| 0 <= m < |ws| && ws[m] == w;
      assert forall i :: 0 <= i < |w| ==> Q(ws[m][i]);
    }
  }

  /** The output is the space-joined tokens: single-spaced, without a blank at either
      end, and every word of it is a lower-case run of word characters that is not a
      stop-word and is longer than two. */
  lemma PreprocessShape(text: string)
    ensures var r := Preprocess(text);
      && SingleSpaced(r)
      && (r == [] || (!IsSpace(r[0]) && !IsSpace(r[|r| - 1])))
      && Split(r) == Tokens(text)
      && forall k :: 0 <= k < |Split(r)| ==> IsToken(Split(r)[k])
  {
    var ws := Tokens(text);
    TokensShape(text);
    JoinSingleSpaced(ws);
    JoinWordsEnds(ws);
    SplitJoin(ws);
  }

  /** Preprocessing twice is preprocessing once. */
  lemma PreprocessIdempotent(text: string)
    ensures Preprocess(Preprocess(text)) == Preprocess(text)
  {
    var ws := Tokens(text);
    var r := Join(" ", ws);
    TokensShape(text);
    JoinChars(" ", ws, (c: char) => (IsWordChar(c) && LowerChar(c) == c) || c == ' ');
    LowerOfLowerCase(r);
    assert Blank(r) == r;
    JoinSingleSpaced(ws);
    CollapseSingleSpaced(r);
    SplitJoin(ws);
    KeepAllWords(ws);
  }

  // ---------------------------------------------------------------------
  // The text indexed for a review

  /** `' ' + ' '.join(xs)` */
  function Part(xs: seq<string>): string {
    " " + Join(" ", xs)
  }

  /** One part per entity group, in the groups' key order. */
  function GroupsPart(gs: seq<Ner.Group>): string {
    if gs == [] then "" else GroupsPart(gs[..|gs| - 1]) + Part(gs[|gs| - 1].texts)
  }

  function OriginalText(r: ProcessedReview): string {
    if r.originalText.None? then "" else r.originalText.value
  }

  function EntityPart(r: ProcessedReview): string {
    if r.entities.None? then "" else GroupsPart(r.entities.value)
  }

  function ProductPart(r: ProcessedReview): string {
    if r.products.None? then "" else Part(r.products.value)
  }

  function BrandPart(r: ProcessedReview): string {
    if r.brands.None? then "" else Part(r.brands.value)
  }

  /** The composite text of a review: the original text, then the entity groups, the
      products and the brands, each only when its key is present. */
  function Composite(r: ProcessedReview): string {
    OriginalText(r) + EntityPart(r) + ProductPart(r) + BrandPart(r)
  }

  lemma PartContains(xs: seq<string>, k: nat)
    requires k < |xs|
    ensures Contains(Part(xs), xs[k])
  {
    JoinContains(" ", xs, k);
    ContainsSuffix(" ", Join(" ", xs), xs[k]);
  }

  lemma {:induction false} GroupsPartContains(gs: seq<Ner.Group>, g: nat, k: nat)
    requires g < |gs| && k < |gs[g].texts|
    ensures Contains(GroupsPart(gs), gs[g].texts[k])
  {
    var p := gs[..|gs| - 1];
    if g == |gs| - 1 {
      PartContains(gs[g].texts, k);
      ContainsSuffix(GroupsPart(p), Part(gs[g].texts), gs[g].texts[k]);
    } else {
      assert p[g] == gs[g];
      GroupsPartContains(p, g, k);
      ContainsPrefix(GroupsPart(p), Part(gs[|gs| - 1].texts), gs[g].texts[k]);
    }
  }

  lemma CompositeHasEntity(r: ProcessedReview, g: nat, k: nat)
    requires r.entities.Some? && g < |r.entities.value| && k < |r.entities.value[g].texts|
    ensures Contains(Composite(r), r.entities.value[g].texts[k])
  {
    var x := r.entities.value[g].texts[k];
    var a := OriginalText(r);
    var b := EntityPart(r);
    var cd := ProductPart(r) + BrandPart(r);
    GroupsPartContains(r.entities.value, g, k);
    ContainsSuffix(a, b, x);
    ContainsPrefix(a + b, cd, x);
    assert Composite(r) == (a + b) + cd;
  }

  lemma CompositeHasProduct(r: ProcessedReview, k: nat)
    requires r.products.Some? && k < |r.products.value|
    ensures Contains(Composite(r), r.products.value[k])
  {
    var x := r.products.value[k];
    var ab := OriginalText(r) + EntityPart(r);
    PartContains(r.products.value, k);
    ContainsSuffix(ab, ProductPart(r), x);
    ContainsPrefix(ab + ProductPart(r), BrandPart(r), x);
  }

  lemma CompositeHasBrand(r: ProcessedReview, k: nat)
    requires r.brands.Some? && k < |r.brands.value|
    ensures Contains(Composite(r), r.brands.value[k])
  {
    PartContains(r.brands.value, k);
    ContainsSuffix(OriginalText(r) + EntityPart(r) + ProductPart(r), BrandPart(r), r.brands.value[k]);
  }

  /** The composite text starts with the original text and contains every entity
      text, product and brand of the review. */
  lemma CompositeCovers(r: ProcessedReview)
    ensures IsPrefix(OriginalText(r), Composite(r))
    ensures r.entities.Some? ==>
      forall g, k :: 0 <= g < |r.entities.value| && 0 <= k < |r.entities.value[g].texts| ==>
        Contains(Composite(r), r.entities.value[g].texts[k])
    ensures r.products.Some? ==>
      forall k :: 0 <= k < |r.products.value| ==> Contains(Composite(r), r.products.value[k])
    ensures r.brands.Some? ==>
      forall k :: 0 <= k < |r.brands.value| ==> Contains(Composite(r), r.brands.value[k])
  {
    var a := OriginalText(r);
    var rest := EntityPart(r) + ProductPart(r) + BrandPart(r);
    assert Composite(r) == a + rest;
    assert (a + rest)[..|a|] == a;
    if r.entities.Some? {
      forall g, k | 0 <= g < |r.entities.value| && 0 <= k < |r.entities.value[g].texts|
        ensures Contains(Composite(r), r.entities.value[g].texts[k])
      {
        CompositeHasEntity(r, g, k);
      }
    }
    if r.products.Some? {
      forall k | 0 <= k < |r.products.value| ensures Contains(Composite(r), r.products.value[k]) {
        CompositeHasProduct(r, k);
      }
    }
    if r.brands.Some? {
      forall k | 0 <= k < |r.brands.value| ensures Contains(Composite(r), r.brands.value[k]) {
        CompositeHasBrand(r, k);
      }
    }
  }

  /** The document indexed for a review: its composite text, preprocessed. */
  function Document(r: ProcessedReview): string {
    Preprocess(Composite(r))
  }

  /** `d` is the document indexed for `r`. The equation sits under a quantifier so
      that the tokenizer is unfolded only where a proof mentions `Document(r)`. */
  ghost predicate IsDocumentOf(d: string, r: ProcessedReview) {
    forall x :: x == r ==> d == Document(x)
  }

  /** The document indexed for each review, in order. */
  function Documents(reviews: seq<ProcessedReview>): seq<string> {
    seq(|reviews|, k requires 0 <= k < |reviews| => Document(reviews[k]))
  }

  /** One more review adds its document at the end. */
  lemma DocumentsStep(reviews: seq<ProcessedReview>, i: nat, d: string)
    requires i < |reviews| && IsDocumentOf(d, reviews[i])
    ensures Documents(reviews[..i + 1]) == Documents(reviews[..i]) + [d]
  {
    var a := Documents(reviews[..i + 1]);
    var b := Documents(reviews[..i]) + [d];
    assert d == Document(reviews[i]);
    forall k | 0 <= k < i + 1 ensures a[k] == b[k] {
      assert reviews[..i + 1][k] == reviews[k];
      if k < i {
        assert reviews[..i][k] == reviews[k];
      }
    }
  }

  lemma GroupsPartStep(gs: seq<Ner.Group>, g: nat)
    requires g < |gs|
    ensures GroupsPart(gs[..g + 1]) == GroupsPart(gs[..g]) + Part(gs[g].texts)
  {
    assert gs[..g + 1][..g] == gs[..g];
  }

  /** The entity part of the composite text, one `+=` per group. */
  method GroupsText(gs: seq<Ner.Group>) returns (text: string)
    ensures text == GroupsPart(gs)
  {
    text := "";
    for g := 0 to |gs|
      invariant text == GroupsPart(gs[..g])
    {
      GroupsPartStep(gs, g);
      text := text + (" " + Join(" ", gs[g].texts));
    }
    assert gs[..|gs|] == gs;
  }

  /** The composite text built with `+=` as `index_documents` does. */
  method CompositeText(review: ProcessedReview) returns (text: string)
    ensures text == Composite(review)
  {
    text := if review.originalText.None? then "" else review.originalText.value;
    if review.entities.Some? {
      var groups := GroupsText(review.entities.value);
      text := text + groups;
    }
    ghost var head := text;
    assert head == OriginalText(review) + EntityPart(review);
    if review.products.Some? {
      text := text + (" " + Join(" ", review.products.value));
    }
    ghost var middle := text;
    assert middle == head + ProductPart(review);
    if review.brands.Some? {
      text := text + (" " + Join(" ", review.brands.value));
    }
    assert text == middle + BrandPart(review);
  }

  /** The document of one review. */
  method IndexText(review: ProcessedReview) returns (processed: string)
    ensures IsDocumentOf(processed, review)
  {
    var text := CompositeText(review);
    processed := Preprocess(text);
  }

  // ---------------------------------------------------------------------
  // Selection of the best-scoring rows

  function Range(n: nat): seq<nat> {
    seq(n, i requires 0 <= i < n => i)
  }

  /** `scores` ordered by the row indices it lists: each index within range, no
      repeats, and a score never below a later one. */
  predicate Descending(scores: seq<real>, idxs: seq<nat>) {
    (forall k :: 0 <= k < |idxs| ==> idxs[k] < |scores|)
    && forall i, j :: 0 <= i < j < |idxs| ==> scores[idxs[i]] >= scores[idxs[j]]
  }

  lemma RangePermutation(n: nat, r: seq<nat>)
    requires multiset(r) == multiset(Range(n))
    ensures |r| == n && NoDup(r)
    ensures forall i :: 0 <= i < |r| ==> r[i] < n
    ensures forall i :: 0 <= i < n ==> i in r
  {
    assert |multiset(r)| == |r| && |multiset(Range(n))| == n;
    MultisetNoDup(Range(n), r);
    forall i | 0 <= i < |r| ensures r[i] < n {
      assert r[i] in multiset(r);
      assert r[i] in Range(n);
    }
    forall i | 0 <= i < n ensures i in r {
      assert Range(n)[i] == i;
      assert i in multiset(Range(n));
    }
  }

  /** `np.argsort(scores)`: every row once, ascending by score. */
  function ArgSort(scores: seq<real>): (r: seq<nat>)
    ensures |r| == |scores| && NoDup(r)
    ensures forall i :: 0 <= i < |scores| ==> i in r
    ensures forall k :: 0 <= k < |r| ==> r[k] < |scores|
    ensures forall i, j :: 0 <= i < j < |r| ==> scores[r[i]] <= scores[r[j]]
  {
    var key := (k: nat) => if k < |scores| then scores[k] else 0.0;
    var r := SortBy(Range(|scores|), key);
    RangePermutation(|scores|, r);
    assert forall i, j :: 0 <= i < j < |r| ==> key(r[i]) <= key(r[j]);
    r
  }

  /** `[::-1]` */
  function Reverse(s: seq<nat>): seq<nat> {
    seq(|s|, i requires 0 <= i < |s| => s[|s| - 1 - i])
  }

  /** Where Python's slice `[:k]` ends in a sequence of length `n`. */
  function SliceEnd(n: nat, k: int): (e: nat)
    ensures e <= n
    ensures k >= 0 ==> e == if k < n then k else n
    ensures k < 0 ==> e == if n + k > 0 then n + k else 0
  {
    if k >= 0 then (if k < n then k else n) else if n + k > 0 then n + k else 0
  }

  /** `np.argsort(scores)[::-1][:top_k]` */
  function Top(scores: seq<real>, topK: int): (r: seq<nat>)
    ensures |r| == SliceEnd(|scores|, topK)
    ensures forall k :: 0 <= k < |r| ==> r[k] < |scores|
  {
    var d := Reverse(ArgSort(scores));
    d[..SliceEnd(|d|, topK)]
  }

  /** The listed rows whose score is positive, in order. */
  function Positive(scores: seq<real>, idxs: seq<nat>): (r: seq<nat>)
    requires forall k :: 0 <= k < |idxs| ==> idxs[k] < |scores|
    ensures |r| <= |idxs|
    ensures forall k :: 0 <= k < |r| ==> r[k] < |scores| && scores[r[k]] > 0.0
  {
    if idxs == [] then []
    else
      var p := idxs[..|idxs| - 1];
      var x := idxs[|idxs| - 1];
      assert forall k :: 0 <= k < |p| ==> p[k] == idxs[k];
      if scores[x] > 0.0 then Positive(scores, p) + [x] else Positive(scores, p)
  }

  /** The filtered rows are exactly the listed rows with a positive score. */
  lemma {:induction false} PositiveMembers(scores: seq<real>, idxs: seq<nat>)
    requires forall k :: 0 <= k < |idxs| ==> idxs[k] < |scores|
    ensures forall k :: 0 <= k < |Positive(scores, idxs)| ==> Positive(scores, idxs)[k] in idxs
    ensures forall k :: 0 <= k < |idxs| && scores[idxs[k]] > 0.0 ==> idxs[k] in Positive(scores, idxs)
  {
    if idxs != [] {
      var p := idxs[..|idxs| - 1];
      assert forall k :: 0 <= k < |p| ==> p[k] == idxs[k];
      PositiveMembers(scores, p);
    }
  }

  /** Filtering keeps a list free of repeats and in descending score order. */
  lemma {:induction false} PositiveKeeps(scores: seq<real>, idxs: seq<nat>)
    requires Descending(scores, idxs) && NoDup(idxs)
    ensures Descending(scores, Positive(scores, idxs)) && NoDup(Positive(scores, idxs))
  {
    if idxs != [] {
      var p := idxs[..|idxs| - 1];
      var x := idxs[|idxs| - 1];
      var r := Positive(scores, p);
      assert forall k :: 0 <= k < |p| ==> p[k] == idxs[k];
      PositiveKeeps(scores, p);
      PositiveMembers(scores, p);
      if scores[x] > 0.0 {
        forall k | 0 <= k < |r| ensures r[k] != x && scores[r[k]] >= scores[x] {
          var m := FirstIndex(p, r[k]);
          assert idxs[m] == r[k];
        }
        AppendKeeps(scores, r, x);
      }
    }
  }

  lemma AppendKeeps(scores: seq<real>, r: seq<nat>, x: nat)
    requires Descending(scores, r) && NoDup(r) && x < |scores|
    requires forall k :: 0 <= k < |r| ==> r[k] != x && scores[r[k]] >= scores[x]
    ensures Descending(scores, r + [x]) && NoDup(r + [x])
  {
    var s := r + [x];
    assert forall i :: 0 <= i < |r| ==> s[i] == r[i];
  }

  /** The rows `search` reports. */
  function Select(scores: seq<real>, topK: int): (r: seq<nat>)
    ensures |r| <= SliceEnd(|scores|, topK)
    ensures forall k :: 0 <= k < |r| ==> r[k] < |scores| && scores[r[k]] > 0.0
  {
    var t := Top(scores, topK);
    Positive(scores, t)
  }


  lemma TopShape(scores: seq<real>, topK: int)
    ensures var t := Top(scores, topK);
      && Descending(scores, t) && NoDup(t)
      && (topK >= 0 ==> |t| <= topK)
      && (topK >= |scores| ==> |t| == |scores|)
      && forall i :: 0 <= i < |scores| && i !in t ==>
           forall j :: 0 <= j < |t| ==> scores[i] <= scores[t[j]]
  {
    var t := Top(scores, topK);
    forall k | 0 <= k < |t| ensures t[k] < |scores| {
      TopAt(scores, topK, k);
    }
    forall i, j | 0 <= i < j < |t| ensures scores[t[i]] >= scores[t[j]] && t[i] != t[j] {
      TopPair(scores, topK, i, j);
    }
    forall i | 0 <= i < |scores| && i !in t ensures forall j :: 0 <= j < |t| ==> scores[i] <= scores[t[j]] {
      TopBeatsRest(scores, topK, i);
    }
  }

  /** A row left out of the top rows scores no higher than any of them. */
  lemma {:induction false} TopBeatsRest(scores: seq<real>, topK: int, i: nat)
    requires i < |scores| && i !in Top(scores, topK)
    ensures forall j :: 0 <= j < |Top(scores, topK)| ==> scores[i] <= scores[Top(scores, topK)[j]]
  {
    var a := ArgSort(scores);
    var t := Top(scores, topK);
    var m := RestPosition(scores, topK, i);
    forall j | 0 <= j < |t| ensures scores[i] <= scores[t[j]] {
      TopAt(scores, topK, j);
      var q := |a| - 1 - j;
      assert m < q;
      assert scores[a[m]] <= scores[a[q]];
    }
  }

  /** Of two top rows, the earlier scores at least as high, and they differ. */
  lemma TopPair(scores: seq<real>, topK: int, i: nat, j: nat)
    requires i < j < |Top(scores, topK)|
    ensures scores[Top(scores, topK)[i]] >= scores[Top(scores, topK)[j]]
    ensures Top(scores, topK)[i] != Top(scores, topK)[j]
  {
    var a := ArgSort(scores);
    TopAt(scores, topK, i);
    TopAt(scores, topK, j);
    var p, q := |a| - 1 - i, |a| - 1 - j;
    assert q < p;
  }

  /** The `j`-th top row is the `j`-th from the end of the ascending order. */
  lemma TopAt(scores: seq<real>, topK: int, j: nat)
    requires j < |Top(scores, topK)|
    ensures |Top(scores, topK)| <= |scores|
    ensures Top(scores, topK)[j] == ArgSort(scores)[|scores| - 1 - j]
  {
  }

  /** A row left out of the top rows sits, in the ascending order, below all the top positions. */
  lemma RestPosition(scores: seq<real>, topK: int, i: nat) returns (m: nat)
    requires i < |scores| && i !in Top(scores, topK)
    ensures m < |scores| && ArgSort(scores)[m] == i
    ensures |Top(scores, topK)| <= |scores| - 1 - m
  {
    m := ArgSortIndex(scores, i);
    if |scores| - 1 - m < |Top(scores, topK)| {
      TopAt(scores, topK, |scores| - 1 - m);
      assert false;
    }
  }

  /** Every row has a position in the ascending order. */
  lemma ArgSortIndex(scores: seq<real>, i: nat) returns (m: nat)
    requires i < |scores|
    ensures m < |scores| && ArgSort(scores)[m] == i
  {
    m := FirstIndex(ArgSort(scores), i);
  }

  /** The selected rows have positive scores, come in non-increasing score order without
      repeats, number at most `topK` when it is not negative, and beat every positive
      row left out. With `topK` at least the number of rows, every positive row is
      selected. */
  lemma SelectShape(scores: seq<real>, topK: int)
    ensures var s := Select(scores, topK);
      && (forall k :: 0 <= k < |s| ==> s[k] < |scores| && scores[s[k]] > 0.0)
      && Descending(scores, s) && NoDup(s)
      && (topK >= 0 ==> |s| <= topK)
      && (forall i :: 0 <= i < |scores| && scores[i] > 0.0 && i !in s ==>
            forall j :: 0 <= j < |s| ==> scores[i] <= scores[s[j]])
      && (topK >= |scores| ==> forall i :: 0 <= i < |scores| && scores[i] > 0.0 ==> i in s)
  {
    var t := Top(scores, topK);
    TopShape(scores, topK);
    var s := Select(scores, topK);
    PositiveKeeps(scores, t);
    PositiveMembers(scores, t);
    forall i | 0 <= i < |scores| && scores[i] > 0.0 && i in t ensures i in s {
      var m := FirstIndex(t, i);
    }
    forall j | 0 <= j < |s| ensures s[j] < |scores| && scores[s[j]] > 0.0 && s[j] in t {
    }
    if topK >= |scores| {
      forall i | 0 <= i < |scores| && scores[i] > 0.0 ensures i in s {
        TopCovers(scores, topK, i);
      }
    }
  }

  lemma TopCovers(scores: seq<real>, topK: int, i: nat)
    requires topK >= |scores| && i < |scores|
    ensures i in Top(scores, topK)
  {
    var m := ArgSortIndex(scores, i);
    var j := |scores| - 1 - m;
    TopAt(scores, topK, j);
  }

  /** One search hit: a copy of the review's record plus `similarity_score` and
      `matched_text`. */
  datatype SearchResult = SearchResult(review: ProcessedReview, similarityScore: real, matchedText: string)

  /** The hits for the selected rows, or `IndexError` as soon as a selected row has no
      record. */
  function Respond(sel: seq<nat>, scores: seq<real>, metadata: seq<ProcessedReview>, documents: seq<string>)
    : (r: Result<seq<SearchResult>>)
    requires forall k :: 0 <= k < |sel| ==> sel[k] < |scores|
    ensures r.Failure? <==> exists k :: 0 <= k < |sel| && (sel[k] >= |metadata| || sel[k] >= |documents|)
    ensures r.Failure? ==> r == Failure("IndexError")
    ensures r.Success? ==> |r.value| == |sel| && forall k :: 0 <= k < |sel| ==>
      r.value[k] == SearchResult(metadata[sel[k]], scores[sel[k]], documents[sel[k]])
  {
    if sel == [] then Success([])
    else
      var p := sel[..|sel| - 1];
      var x := sel[|sel| - 1];
      assert forall k :: 0 <= k < |p| ==> p[k] == sel[k];
      var r := Respond(p, scores, metadata, documents);
      if r.Failure? then r
      else if x >= |metadata| || x >= |documents| then Failure("IndexError")
      else Success(r.value + [SearchResult(metadata[x], scores[x], documents[x])])
  }

  /** The similarity of the processed query to each of the `n` fitted rows. */
  function Scores(processedQuery: string, n: nat, similarity: (string, nat) -> real): (s: seq<real>)
    ensures |s| == n
  {
    seq(n, i requires 0 <= i < n => similarity(processedQuery, i))
  }

  // ---------------------------------------------------------------------
  // Query expansion

  /** `search_by_product`'s query. */
  function ProductQuery(name: string): string {
    "product " + name + " review opinion"
  }

  const PositiveQuery: string := "excellent good great perfect recommended"
  const NegativeQuery: string := "bad terrible horrible defective disappointing"
  const NeutralQuery: string := "average normal acceptable regular"

  /** `search_by_sentiment`'s query: the keywords of a sentiment label in any case,
      otherwise the label itself. */
  function SentimentQuery(sentiment: string): (q: string)
    ensures Lower(sentiment) == "positive" ==> q == PositiveQuery
    ensures Lower(sentiment) == "negative" ==> q == NegativeQuery
    ensures Lower(sentiment) == "neutral" ==> q == NeutralQuery
    ensures Lower(sentiment) !in {"positive", "negative", "neutral"} ==> q == sentiment
  {
    var l := Lower(sentiment);
    if l == "positive" then PositiveQuery
    else if l == "negative" then NegativeQuery
    else if l == "neutral" then NeutralQuery
    else sentiment
  }

  /** The table of `search_by_sentiment`. */
  const SentimentQueries: map<string, string> :=
    map["positive" := PositiveQuery, "negative" := NegativeQuery, "neutral" := NeutralQuery]

  /** Looking the lower-cased label up in the table, with the label itself as the
      default, gives the sentiment query. */
  lemma SentimentQueriesLookup(sentiment: string)
    ensures var l := Lower(sentiment);
      (if l in SentimentQueries then SentimentQueries[l] else sentiment) == SentimentQuery(sentiment)
  {
  }

  /** Labels that agree up to case get the same query when they lower-case to one of
      the three sentiment labels; otherwise each is its own query. */
  lemma SentimentQueryIgnoresCase(a: string, b: string)
    requires Lower(a) == Lower(b)
    ensures Lower(a) in {"positive", "negative", "neutral"} ==> SentimentQuery(a) == SentimentQuery(b)
    ensures Lower(a) !in {"positive", "negative", "neutral"} ==> SentimentQuery(a) == a && SentimentQuery(b) == b
  {
  }

  // ---------------------------------------------------------------------
  // Index statistics

  datatype SearchStats =
    | NotIndexed(error: string)
    | Stats(totalDocuments: nat, vocabularySize: nat, averageDocumentLength: real)

  /** Total number of words over `docs`. */
  function WordCount(docs: seq<string>): (n: nat)
    ensures docs == [] ==> n == 0
  {
    if docs == [] then 0 else WordCount(docs[..|docs| - 1]) + |Split(docs[|docs| - 1])|
  }

  lemma {:induction false} WordCountBound(docs: seq<string>, m: nat)
    requires forall k :: 0 <= k < |docs| ==> |Split(docs[k])| <= m
    ensures WordCount(docs) <= |docs| * m
  {
    if docs != [] {
      var p := docs[..|docs| - 1];
      assert forall k :: 0 <= k < |p| ==> p[k] == docs[k];
      WordCountBound(p, m);
      assert |docs| * m == |p| * m + m;
    }
  }

  // ---------------------------------------------------------------------
  // Fitting the vectoriser

  /** The vectoriser's `min_df=2` and `max_df=0.8`. */
  const MinDf: nat := 2
  const MaxDf: real := 0.8

  /** Whether scikit-learn's `fit_transform` raises `ValueError` on `n` documents of
      which its document-frequency pruning keeps `keptTerms` terms: a `max_df` share
      of the documents below `min_df`, or no term left (an empty vocabulary
      included). */
  predicate FitFails(n: nat, keptTerms: nat) {
    (n as real) * MaxDf < MinDf as real || keptTerms == 0
  }

  /** One or two documents are always refused, whatever their words; from three
      documents on a fit fails only when pruning leaves no term. */
  lemma FitFailsSmallBatches(n: nat, keptTerms: nat)
    requires n >= 1
    ensures FitFails(n, keptTerms) <==> n <= 2 || keptTerms == 0
  {
  }

  // ---------------------------------------------------------------------
  // The index

  class SearchEngine {
    var documents: seq<string>
    var metadata: seq<ProcessedReview>
    /** `document_vectors`: `None` before the first fit, else the number of rows fitted. */
    var fitted: Option<nat>
    /** Whether the vectoriser's tf-idf stage is fitted. Every call of `fit_transform`
        starts from a fresh, unfitted stage, so a refused refit leaves it unfitted
        while the old vectors stay. */
    var tfidfFitted: bool

    /** The two lists stay aligned. The fit may lag behind them: indexing no reviews,
        or a batch the vectoriser refuses, replaces the lists and keeps the old vectors.
        A fitted tf-idf stage comes from the last fit of a non-empty batch, so it
        matches the lists unless they were since emptied. */
    ghost predicate Valid()
      reads this
    {
      && |documents| == |metadata|
      && (tfidfFitted ==> fitted.Some?)
      && (tfidfFitted && documents != [] ==> fitted == Some(|documents|))
    }

    constructor()
      ensures Valid() && documents == [] && metadata == [] && fitted == None && !tfidfFitted
    {
      documents := [];
      metadata := [];
      fitted := None;
      tfidfFitted := false;
    }

    /** `index_documents`: both lists are rebuilt from `reviews`, and the vectors are
        refitted only when there is at least one document. `keptTerms` is the number
        of terms the vectoriser's document-frequency pruning keeps for this batch;
        `raised` reports the `ValueError` of `fit_transform`, after which the old
        vectors stay in place and the tf-idf stage is unfitted. */
    method IndexDocuments(reviews: seq<ProcessedReview>, keptTerms: nat) returns (raised: bool)
      requires Valid()
      modifies this
      ensures Valid()
      ensures metadata == reviews && documents == Documents(reviews)
      ensures raised <==> reviews != [] && FitFails(|reviews|, keptTerms)
      ensures fitted == if reviews == [] || raised then old(fitted) else Some(|reviews|)
      ensures tfidfFitted == if reviews == [] then old(tfidfFitted) else !raised
    {
      documents := [];
      metadata := [];
      for i := 0 to |reviews|
        invariant metadata == reviews[..i]
        invariant documents == Documents(reviews[..i])
        invariant fitted == old(fitted) && tfidfFitted == old(tfidfFitted)
      {
        var processed := IndexText(reviews[i]);
        DocumentsStep(reviews, i, processed);
        documents := documents + [processed];
        metadata := metadata + [reviews[i]];
      }
      assert reviews[..|reviews|] == reviews;
      raised := false;
      if documents != [] {
        if FitFails(|documents|, keptTerms) {
          tfidfFitted := false;
          return true;
        }
        fitted := Some(|documents|);
        tfidfFitted := true;
      }
    }

    /** What `search` returns for `query`. */
    function Outcome(query: string, topK: int, similarity: (string, nat) -> real): Result<seq<SearchResult>>
      reads this
    {
      if fitted.None? then Success([])
      else if !tfidfFitted then Failure("NotFittedError")
      else
        var scores := Scores(Preprocess(query), fitted.value, similarity);
        SelectShape(scores, topK);
        Respond(Select(scores, topK), scores, metadata, documents)
    }

    /** Before the first fit there is nothing to find; after a refused refit the query
        cannot be vectorised. Otherwise a successful search reports the selected rows,
        each as its record, its score and its document, so every score is positive, the
        scores do not increase, and there are at most `topK` hits. The only other
        failure is the stale index: a selected row among vectors fitted earlier, when
        the lists have since been emptied. */
    lemma OutcomeShape(query: string, topK: int, similarity: (string, nat) -> real)
      requires Valid()
      ensures fitted.None? ==> Outcome(query, topK, similarity) == Success([])
      ensures fitted.Some? && !tfidfFitted ==> Outcome(query, topK, similarity) == Failure("NotFittedError")
      ensures var r := Outcome(query, topK, similarity);
        r.Failure? && tfidfFitted ==>
          r.error == "IndexError" && metadata == [] && fitted.Some? && fitted.value > 0
      ensures var r := Outcome(query, topK, similarity);
        tfidfFitted ==>
          var s := Select(Scores(Preprocess(query), fitted.value, similarity), topK);
          (r.Failure? <==> exists k :: 0 <= k < |s| && s[k] >= |metadata|)
      ensures var r := Outcome(query, topK, similarity);
        r.Success? && fitted.Some? ==>
          var scores := Scores(Preprocess(query), fitted.value, similarity);
          var s := Select(scores, topK);
          && |r.value| == |s|
          && (topK >= 0 ==> |r.value| <= topK)
          && (forall k :: 0 <= k < |s| ==>
                r.value[k] == SearchResult(metadata[s[k]], scores[s[k]], documents[s[k]])
                && r.value[k].similarityScore > 0.0)
          && (forall i, j :: 0 <= i < j < |r.value| ==> r.value[i].similarityScore >= r.value[j].similarityScore)
    {
      if fitted.Some? {
        var scores := Scores(Preprocess(query), fitted.value, similarity);
        SelectShape(scores, topK);
      }
    }

    /** `search`. */
    method Search(query: string, topK: int, similarity: (string, nat) -> real)
      returns (r: Result<seq<SearchResult>>)
      ensures r == Outcome(query, topK, similarity)
    {
      if fitted.None? {
        return Success([]);
      }
      var processed := Preprocess(query);
      if !tfidfFitted {
        return Failure("NotFittedError");
      }
      var scores := Scores(processed, fitted.value, similarity);
      var top := Top(scores, topK);
      TopShape(scores, topK);
      r := Collect(top, scores, metadata, documents);
    }

    /** `search_by_product`. */
    method SearchByProduct(name: string, topK: int, similarity: (string, nat) -> real)
      returns (r: Result<seq<SearchResult>>)
      ensures r == Outcome(ProductQuery(name), topK, similarity)
    {
      r := Search("product " + name + " review opinion", topK, similarity);
    }

    /** `search_by_sentiment`. */
    method SearchBySentiment(sentiment: string, topK: int, similarity: (string, nat) -> real)
      returns (r: Result<seq<SearchResult>>)
      ensures r == Outcome(SentimentQuery(sentiment), topK, similarity)
    {
      var queries := SentimentQueries;
      var l := Lower(sentiment);
      var query := if l in queries then queries[l] else sentiment;
      SentimentQueriesLookup(sentiment);
      r := Search(query, topK, similarity);
    }

    /** `get_search_statistics`: an error entry before the first fit, then the number of
        documents, the vocabulary size and the mean number of words per document, which
        is 0 when the lists are empty (an empty batch indexed after a fit). */
    function Statistics(vocabularySize: nat): (r: SearchStats)
      reads this
      ensures fitted.None? <==> r.NotIndexed?
      ensures r.NotIndexed? ==> r.error == "No documents indexed"
      ensures r.Stats? ==> r.totalDocuments == |documents| && r.vocabularySize == vocabularySize
      ensures r.Stats? ==> r.averageDocumentLength * (|documents| as real) == WordCount(documents) as real
      ensures r.Stats? ==> r.averageDocumentLength >= 0.0
      ensures r.Stats? && documents == [] ==> r.averageDocumentLength == 0.0
    {
      if fitted.None? then NotIndexed("No documents indexed")
      else
        var average := if documents == [] then 0.0 else WordCount(documents) as real / |documents| as real;
        Stats(|documents|, vocabularySize, average)
    }
  }

  /** The loop of `search` over the top rows: a hit for each positive one. */
  method Collect(top: seq<nat>, scores: seq<real>, metadata: seq<ProcessedReview>, documents: seq<string>)
    returns (r: Result<seq<SearchResult>>)
    requires forall k :: 0 <= k < |top| ==> top[k] < |scores|
    ensures r == Respond(Positive(scores, top), scores, metadata, documents)
  {
    var results: seq<SearchResult> := [];
    ghost var hits: seq<nat> := [];
    for i := 0 to |top|
      invariant hits == Positive(scores, top[..i])
      invariant Respond(hits, scores, metadata, documents) == Success(results)
    {
      var idx := top[i];
      PositiveStep(scores, top, i);
      if scores[idx] > 0.0 {
        if idx >= |metadata| || idx >= |documents| {
          CollectFails(scores, top, i, metadata, documents);
          return Failure("IndexError");
        }
        RespondStep(hits, idx, scores, metadata, documents, results);
        results := results + [SearchResult(metadata[idx], scores[idx], documents[idx])];
        hits := hits + [idx];
      }
    }
    assert top[..|top|] == top;
    return Success(results);
  }

  lemma PositiveStep(scores: seq<real>, top: seq<nat>, i: nat)
    requires forall k :: 0 <= k < |top| ==> top[k] < |scores|
    requires i < |top|
    ensures Positive(scores, top[..i + 1])
      == if scores[top[i]] > 0.0 then Positive(scores, top[..i]) + [top[i]] else Positive(scores, top[..i])
  {
    assert top[..i + 1][..i] == top[..i];
  }

  /** A positive row at position `i` without a record makes the whole search fail. */
  lemma CollectFails(scores: seq<real>, top: seq<nat>, i: nat, metadata: seq<ProcessedReview>, documents: seq<string>)
    requires forall k :: 0 <= k < |top| ==> top[k] < |scores|
    requires i < |top| && scores[top[i]] > 0.0 && (top[i] >= |metadata| || top[i] >= |documents|)
    ensures Respond(Positive(scores, top), scores, metadata, documents) == Failure("IndexError")
  {
    PositiveHas(scores, top, i);
    RespondFails(Positive(scores, top), scores, metadata, documents, top[i]);
  }

  /** One more row with a record adds its hit at the end. */
  lemma RespondStep(sel: seq<nat>, x: nat, scores: seq<real>, metadata: seq<ProcessedReview>, documents: seq<string>,
                    results: seq<SearchResult>)
    requires forall k :: 0 <= k < |sel| ==> sel[k] < |scores|
    requires x < |scores| && x < |metadata| && x < |documents|
    requires Respond(sel, scores, metadata, documents) == Success(results)
    ensures Respond(sel + [x], scores, metadata, documents)
         == Success(results + [SearchResult(metadata[x], scores[x], documents[x])])
  {
    assert (sel + [x])[..|sel|] == sel;
  }

  lemma RespondFails(sel: seq<nat>, scores: seq<real>, metadata: seq<ProcessedReview>, documents: seq<string>, idx: nat)
    requires forall k :: 0 <= k < |sel| ==> sel[k] < |scores|
    requires idx in sel && (idx >= |metadata| || idx >= |documents|)
    ensures Respond(sel, scores, metadata, documents) == Failure("IndexError")
  {
    var k := FirstIndex(sel, idx);
  }

  /** A positive row at position `i` of the scanned list is among the selected rows. */
  lemma PositiveHas(scores: seq<real>, top: seq<nat>, i: nat)
    requires forall k :: 0 <= k < |top| ==> top[k] < |scores|
    requires i < |top| && scores[top[i]] > 0.0
    ensures top[i] in Positive(scores, top)
  {
    PositiveMembers(scores, top);
  }
}
