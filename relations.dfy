/** Relation extraction (utils/relationship_extractor.py): subject-verb-object
    triples read off a dependency parse, and purchase relations between the people
    and products named in a review. The parse is an input: a token's index is its
    position in `tokens`, and its `children` list the indices of its dependents in
    the order the parser yields them. */
module Relations {
  import opened Wrappers
  import opened Text
  import opened EntityMaps

  datatype Token = Token(text: string, dep: string, pos: string, baseForm: string, children: seq<nat>)

  /** A sentence: the tokens with indices `start .. end - 1`. */
  datatype Span = Span(start: nat, end: nat)

  datatype Doc = Doc(tokens: seq<Token>, sents: seq<Span>)

  /** Children and sentences point inside the token list. */
  predicate WellFormed(doc: Doc) {
    && (forall k, c :: 0 <= k < |doc.tokens| && 0 <= c < |doc.tokens[k].children| ==>
          doc.tokens[k].children[c] < |doc.tokens|)
    && (forall s :: 0 <= s < |doc.sents| ==> doc.sents[s].start <= doc.sents[s].end <= |doc.tokens|)
  }

  /** What a dependency parse guarantees besides: no token is its own child, and no
      child is listed twice. */
  predicate DistinctChildren(doc: Doc) {
    forall k :: 0 <= k < |doc.tokens| ==> NoDup(doc.tokens[k].children) && k !in doc.tokens[k].children
  }

  /** A relation record. SVO records carry `'type': 'svo'`; purchase records have no
      `type` key. */
  datatype Relation = Relation(subject: string, verb: string, obj: string, confidence: real, kind: Option<string>)

  // ---------------------------------------------------------------------
  // Noun phrases

  predicate IsModifierDep(dep: string) {
    dep == "det" || dep == "amod" || dep == "compound" || dep == "nmod"
  }

  /** The modifiers among `cs`, in the order of `cs`. */
  function Modifiers(doc: Doc, cs: seq<nat>): (r: seq<nat>)
    requires forall c :: 0 <= c < |cs| ==> cs[c] < |doc.tokens|
    ensures forall k :: 0 <= k < |r| ==> r[k] < |doc.tokens| && r[k] in cs
    ensures NoDup(cs) ==> NoDup(r)
  {
    if cs == [] then []
    else
      var p := cs[..|cs| - 1];
      var last := cs[|cs| - 1];
      assert cs == p + [last];
      Modifiers(doc, p) + (if IsModifierDep(doc.tokens[last].dep) then [last] else [])
  }

  /** A child is kept exactly when its dependency is a modifier. */
  lemma {:induction false} ModifierIff(doc: Doc, cs: seq<nat>, x: nat)
    requires forall c :: 0 <= c < |cs| ==> cs[c] < |doc.tokens|
    ensures x in Modifiers(doc, cs) <==> x in cs && IsModifierDep(doc.tokens[x].dep)
  {
    if cs != [] {
      var p := cs[..|cs| - 1];
      assert cs == p + [cs[|cs| - 1]];
      ModifierIff(doc, p, x);
    }
  }

  /** The tokens of the phrase headed by `i`: the head and its modifier children,
      arranged by `sort(key=lambda x: x.i)`. */
  function PhraseOrder(doc: Doc, i: nat): (r: seq<nat>)
    requires WellFormed(doc) && i < |doc.tokens|
    ensures multiset(r) == multiset([i] + Modifiers(doc, doc.tokens[i].children))
    ensures SortedBy(r, IndexKey)
    ensures forall k :: 0 <= k < |r| ==> r[k] < |doc.tokens|
  {
    var ps := [i] + Modifiers(doc, doc.tokens[i].children);
    var r := SortBy(ps, IndexKey);
    InBounds(ps, r, |doc.tokens|);
    r
  }

  lemma InBounds(ps: seq<nat>, r: seq<nat>, n: nat)
    requires forall k :: 0 <= k < |ps| ==> ps[k] < n
    requires multiset(r) == multiset(ps)
    ensures forall k :: 0 <= k < |r| ==> r[k] < n
  {
    forall k | 0 <= k < |r| ensures r[k] < n {
      assert r[k] in multiset(r);
      assert r[k] in ps;
    }
  }

  /** The texts of the tokens at `ps`. */
  function Texts(doc: Doc, ps: seq<nat>): (r: seq<string>)
    requires forall k :: 0 <= k < |ps| ==> ps[k] < |doc.tokens|
    ensures |r| == |ps| && forall k :: 0 <= k < |ps| ==> r[k] == doc.tokens[ps[k]].text
  {
    seq(|ps|, k requires 0 <= k < |ps| => doc.tokens[ps[k]].text)
  }

  /** The phrase headed by token `i`. */
  function Phrase(doc: Doc, i: nat): string
    requires WellFormed(doc) && i < |doc.tokens|
  {
    Join(" ", Texts(doc, PhraseOrder(doc, i)))
  }

  /** The phrase consists of the head and exactly its modifier children, each once, in
      strictly increasing token index. */
  lemma PhraseOrderShape(doc: Doc, i: nat)
    requires WellFormed(doc) && DistinctChildren(doc) && i < |doc.tokens|
    ensures var r := PhraseOrder(doc, i);
      && (forall a, b :: 0 <= a < b < |r| ==> r[a] < r[b])
      && (forall x: nat :: x in r <==> x == i || (x in doc.tokens[i].children && IsModifierDep(doc.tokens[x].dep)))
  {
    var ps := [i] + Modifiers(doc, doc.tokens[i].children);
    var r := PhraseOrder(doc, i);
    HeadAndModifiersDistinct(doc, i);
    MultisetNoDup(ps, r);
    forall x: nat ensures x in r <==> x == i || (x in doc.tokens[i].children && IsModifierDep(doc.tokens[x].dep)) {
      assert x in r <==> x in multiset(r);
      assert x in ps <==> x in multiset(ps);
      ModifierIff(doc, doc.tokens[i].children, x);
    }
    SortedDistinctIncreasing(r);
  }

  lemma HeadAndModifiersDistinct(doc: Doc, i: nat)
    requires WellFormed(doc) && DistinctChildren(doc) && i < |doc.tokens|
    ensures NoDup([i] + Modifiers(doc, doc.tokens[i].children))
  {
    var ms := Modifiers(doc, doc.tokens[i].children);
    var ps := [i] + ms;
    forall a, b | 0 <= a < b < |ps| ensures ps[a] != ps[b] {
      if a > 0 {
        assert ps[a] == ms[a - 1] && ps[b] == ms[b - 1];
      } else {
        assert ps[b] in ms;
      }
    }
  }

  /** `_get_full_phrase`: collect the head and its modifier children, sort them by
      position, and join their texts with single blanks. */
  method GetFullPhrase(doc: Doc, i: nat) returns (phrase: string)
    requires WellFormed(doc) && i < |doc.tokens|
    ensures phrase == Phrase(doc, i)
  {
    var children := doc.tokens[i].children;
    var tokens := [i];
    for c := 0 to |children|
      invariant tokens == [i] + Modifiers(doc, children[..c])
    {
      assert children[..c + 1][..c] == children[..c];
      if IsModifierDep(doc.tokens[children[c]].dep) {
        tokens := tokens + [children[c]];
      }
    }
    assert children[..|children|] == children;
    tokens := SortBy(tokens, IndexKey);
    assert tokens == PhraseOrder(doc, i);
    phrase := Join(" ", Texts(doc, tokens));
  }

  // ---------------------------------------------------------------------
  // Subject-verb-object triples

  predicate IsRootVerb(t: Token) {
    t.dep == "ROOT" && t.pos == "VERB"
  }

  predicate IsSubjectDep(dep: string) {
    dep == "nsubj" || dep == "nsubjpass"
  }

  predicate IsObjectDep(dep: string) {
    dep == "dobj" || dep == "pobj" || dep == "attr"
  }

  /** A subject dependency when `subject`, an object dependency otherwise. */
  predicate IsWantedDep(dep: string, subject: bool) {
    if subject then IsSubjectDep(dep) else IsObjectDep(dep)
  }

  /** The first root verb among the tokens `lo .. hi - 1`. */
  function FirstRootVerb(doc: Doc, lo: nat, hi: nat): (r: Option<nat>)
    requires lo <= hi <= |doc.tokens|
    ensures r.Some? ==>
      (lo <= r.value < hi && IsRootVerb(doc.tokens[r.value])
       && forall k :: lo <= k < r.value ==> !IsRootVerb(doc.tokens[k]))
    ensures r.None? ==> forall k :: lo <= k < hi ==> !IsRootVerb(doc.tokens[k])
    decreases hi - lo
  {
    if lo == hi then None
    else if IsRootVerb(doc.tokens[lo]) then Some(lo)
    else FirstRootVerb(doc, lo + 1, hi)
  }

  /** The position in `cs` of the first child that is a subject (`subject`) or an
      object (`!subject`). */
  function FirstChild(doc: Doc, cs: seq<nat>, subject: bool): (r: Option<nat>)
    requires forall c :: 0 <= c < |cs| ==> cs[c] < |doc.tokens|
    ensures r.Some? ==>
      (r.value < |cs| && IsWantedDep(doc.tokens[cs[r.value]].dep, subject)
       && forall p :: 0 <= p < r.value ==> !IsWantedDep(doc.tokens[cs[p]].dep, subject))
    ensures r.None? ==> forall p :: 0 <= p < |cs| ==> !IsWantedDep(doc.tokens[cs[p]].dep, subject)
  {
    if cs == [] then None
    else if IsWantedDep(doc.tokens[cs[0]].dep, subject) then Some(0)
    else
      var rest := FirstChild(doc, cs[1..], subject);
      if rest.None? then None else Some(rest.value + 1)
  }

  /** The triple of one sentence, if any. The `if root_verb` test is false for a token
      with empty text, since a spaCy token's truth value is that of its length. */
  function SentenceTriple(doc: Doc, s: Span): Option<(string, string, string)>
    requires WellFormed(doc) && s.start <= s.end <= |doc.tokens|
  {
    var root := FirstRootVerb(doc, s.start, s.end);
    if root.None? || doc.tokens[root.value].text == [] then None
    else
      var verb := doc.tokens[root.value];
      var a := FirstChild(doc, verb.children, true);
      var b := FirstChild(doc, verb.children, false);
      if a.None? || b.None? then None
      else
        var subject := Phrase(doc, verb.children[a.value]);
        var obj := Phrase(doc, verb.children[b.value]);
        if subject != [] && obj != [] then Some((subject, verb.baseForm, obj)) else None
  }

  /** The triples of the first `n` sentences, in sentence order. */
  function Triples(doc: Doc, n: nat): (r: seq<(string, string, string)>)
    requires WellFormed(doc) && n <= |doc.sents|
    ensures |r| <= n
  {
    if n == 0 then []
    else
      var t := SentenceTriple(doc, doc.sents[n - 1]);
      Triples(doc, n - 1) + (if t.Some? then [t.value] else [])
  }

  /** A triple names the lemma of its sentence's first root verb, and phrases headed by
      a subject child and an object child of that verb, both non-empty. */
  lemma TripleFromRootVerb(doc: Doc, s: Span, t: (string, string, string))
    requires WellFormed(doc) && s.start <= s.end <= |doc.tokens|
    requires SentenceTriple(doc, s) == Some(t)
    ensures exists v ::
      (s.start <= v < s.end && IsRootVerb(doc.tokens[v]) && t.1 == doc.tokens[v].baseForm
       && (forall k :: s.start <= k < v ==> !IsRootVerb(doc.tokens[k]))
       && exists a, b ::
         (0 <= a < |doc.tokens[v].children| && 0 <= b < |doc.tokens[v].children|
          && IsSubjectDep(doc.tokens[doc.tokens[v].children[a]].dep)
          && IsObjectDep(doc.tokens[doc.tokens[v].children[b]].dep)
          && t.0 == Phrase(doc, doc.tokens[v].children[a]) && t.2 == Phrase(doc, doc.tokens[v].children[b])
          && t.0 != [] && t.2 != []))
  {
    var v := FirstRootVerb(doc, s.start, s.end).value;
    var cs := doc.tokens[v].children;
    var a := FirstChild(doc, cs, true).value;
    var b := FirstChild(doc, cs, false).value;
    assert IsSubjectDep(doc.tokens[cs[a]].dep) && IsObjectDep(doc.tokens[cs[b]].dep);
  }

  /** A sentence without a root verb, or whose first root verb has no subject child,
      yields no triple. */
  lemma NoSubjectNoTriple(doc: Doc, s: Span)
    requires WellFormed(doc) && s.start <= s.end <= |doc.tokens|
    requires forall v :: s.start <= v < s.end && IsRootVerb(doc.tokens[v]) ==>
      forall c :: 0 <= c < |doc.tokens[v].children| ==> !IsSubjectDep(doc.tokens[doc.tokens[v].children[c]].dep)
    ensures SentenceTriple(doc, s) == None
  {
  }

  /** The phrase of the first subject (or object) child in `cs`, as the loops of
      `extract_subject_verb_object` compute it: `_get_full_phrase` of the first hit,
      then `break`. */
  method FindPhrase(doc: Doc, cs: seq<nat>, subject: bool) returns (phrase: Option<string>)
    requires WellFormed(doc) && forall c :: 0 <= c < |cs| ==> cs[c] < |doc.tokens|
    ensures var first := FirstChild(doc, cs, subject);
      phrase == if first.None? then None else Some(Phrase(doc, cs[first.value]))
  {
    phrase := None;
    for c := 0 to |cs|
      invariant forall p :: 0 <= p < c ==> !IsWantedDep(doc.tokens[cs[p]].dep, subject)
    {
      if IsWantedDep(doc.tokens[cs[c]].dep, subject) {
        FirstChildAt(doc, cs, subject, c);
        var text := GetFullPhrase(doc, cs[c]);
        phrase := Some(text);
        return;
      }
    }
    FirstChildNone(doc, cs, subject);
  }

  lemma FirstChildAt(doc: Doc, cs: seq<nat>, subject: bool, c: nat)
    requires forall p :: 0 <= p < |cs| ==> cs[p] < |doc.tokens|
    requires c < |cs| && IsWantedDep(doc.tokens[cs[c]].dep, subject)
    requires forall p :: 0 <= p < c ==> !IsWantedDep(doc.tokens[cs[p]].dep, subject)
    ensures FirstChild(doc, cs, subject) == Some(c)
  {
  }

  lemma FirstChildNone(doc: Doc, cs: seq<nat>, subject: bool)
    requires forall p :: 0 <= p < |cs| ==> cs[p] < |doc.tokens|
    requires forall p :: 0 <= p < |cs| ==> !IsWantedDep(doc.tokens[cs[p]].dep, subject)
    ensures FirstChild(doc, cs, subject) == None
  {
  }

  /** The loop of `extract_subject_verb_object` that looks for the sentence's root verb
      and stops at the first one. */
  method FindRootVerb(doc: Doc, sent: Span) returns (root: Option<nat>)
    requires sent.start <= sent.end <= |doc.tokens|
    ensures root == FirstRootVerb(doc, sent.start, sent.end)
  {
    root := None;
    var k := sent.start;
    while k < sent.end
      invariant sent.start <= k <= sent.end
      invariant forall j :: sent.start <= j < k ==> !IsRootVerb(doc.tokens[j])
      decreases sent.end - k
    {
      if IsRootVerb(doc.tokens[k]) {
        root := Some(k);
        return;
      }
      k := k + 1;
    }
  }

  /** One sentence of `extract_subject_verb_object`. */
  method SentenceRelation(doc: Doc, sent: Span) returns (triple: Option<(string, string, string)>)
    requires WellFormed(doc) && sent.start <= sent.end <= |doc.tokens|
    ensures triple == SentenceTriple(doc, sent)
  {
    triple := None;
    var root := FindRootVerb(doc, sent);
    if root.Some? && doc.tokens[root.value].text != [] {
      var verb := doc.tokens[root.value];
      var subject := FindPhrase(doc, verb.children, true);
      var obj := FindPhrase(doc, verb.children, false);
      if subject.Some? && subject.value != [] && obj.Some? && obj.value != [] {
        triple := Some((subject.value, verb.baseForm, obj.value));
      }
    }
  }

  /** `extract_subject_verb_object`: per sentence, the first root verb, then the phrases
      of its first subject child and its first object child; a triple is kept when
      the verb and both phrases are non-empty. */
  method ExtractSubjectVerbObject(doc: Doc) returns (relations: seq<(string, string, string)>)
    requires WellFormed(doc)
    ensures relations == Triples(doc, |doc.sents|)
  {
    relations := [];
    for n := 0 to |doc.sents|
      invariant relations == Triples(doc, n)
    {
      var triple := SentenceRelation(doc, doc.sents[n]);
      if triple.Some? {
        relations := relations + [triple.value];
      }
    }
  }

  // ---------------------------------------------------------------------
  // Purchase relations

  /** `relation_patterns['compra']`, the only row of the pattern table in use. */
  const PurchaseVerbs: seq<string> := ["compré", "compró", "adquirí", "pedí", "ordené"]

  const PurchasePredicate: string := "compró"
  const PurchaseConfidence: real := 0.8
  const SvoConfidence: real := 0.5

  function PurchaseOf(person: string, product: string): Relation {
    Relation(person, PurchasePredicate, product, PurchaseConfidence, None)
  }

  /** Both names occur, lower-cased, in the lower-cased text. */
  predicate BothMentioned(person: string, product: string, low: string) {
    Contains(low, Lower(person)) && Contains(low, Lower(product))
  }

  /** The relations of `person` with the first `m` products. */
  function PersonRelations(person: string, products: seq<string>, low: string, m: nat): (r: seq<Relation>)
    requires m <= |products|
  {
    if m == 0 then []
    else
      PersonRelations(person, products, low, m - 1)
      + (if BothMentioned(person, products[m - 1], low) then [PurchaseOf(person, products[m - 1])] else [])
  }

  /** The relations of each of the first `n` persons, one block per person. */
  function PersonBlocks(persons: seq<string>, products: seq<string>, low: string, n: nat): (b: seq<seq<Relation>>)
    requires n <= |persons|
    ensures |b| == n && forall k :: 0 <= k < n ==> b[k] == PersonRelations(persons[k], products, low, |products|)
  {
    seq(n, k requires 0 <= k < n => PersonRelations(persons[k], products, low, |products|))
  }

  /** The relations of the first `n` persons: person-major, then product order. */
  function PairRelations(persons: seq<string>, products: seq<string>, low: string, n: nat): (r: seq<Relation>)
    requires n <= |persons|
  {
    Concat(PersonBlocks(persons, products, low, n))
  }

  /** The blocks, one after the other. */
  function Concat<T>(blocks: seq<seq<T>>): seq<T> {
    if blocks == [] then [] else Concat(blocks[..|blocks| - 1]) + blocks[|blocks| - 1]
  }

  /** An element of a block is an element of the concatenation. */
  lemma {:induction false} ConcatHas<T>(blocks: seq<seq<T>>, k: nat, x: T)
    requires k < |blocks| && x in blocks[k]
    ensures x in Concat(blocks)
  {
    var p := blocks[..|blocks| - 1];
    if k < |blocks| - 1 {
      assert p[k] == blocks[k];
      ConcatHas(p, k, x);
    }
  }

  /** The block an element of the concatenation comes from. */
  lemma {:induction false} ConcatWitness<T>(blocks: seq<seq<T>>, x: T) returns (k: nat)
    requires x in Concat(blocks)
    ensures k < |blocks| && x in blocks[k]
  {
    var p := blocks[..|blocks| - 1];
    if x in Concat(p) {
      k := ConcatWitness(p, x);
      assert p[k] == blocks[k];
    } else {
      k := |blocks| - 1;
    }
  }

  /** One more person appends that person's block. */
  lemma PairRelationsStep(persons: seq<string>, products: seq<string>, low: string, i: nat)
    requires i < |persons|
    ensures PairRelations(persons, products, low, i + 1)
      == PairRelations(persons, products, low, i) + PersonRelations(persons[i], products, low, |products|)
  {
    var b := PersonBlocks(persons, products, low, i + 1);
    assert b[..i] == PersonBlocks(persons, products, low, i);
  }

  /** `k` copies of `xs`, one after the other. */
  function Repeat<T>(xs: seq<T>, k: nat): (r: seq<T>)
    ensures |r| == k * |xs|
  {
    if k == 0 then [] else Repeat(xs, k - 1) + xs
  }

  function Persons(entities: Entities): seq<string> {
    Get(entities, "Persona")
  }

  function Products(entities: Entities): seq<string> {
    Get(entities, "Producto") + Get(entities, "products")
  }

  /** What `extract_purchase_relations` returns: the qualifying (person, product) pairs,
      once for every purchase verb found in the text. */
  function PurchaseRelations(text: string, entities: Entities): seq<Relation> {
    var low := Lower(text);
    var persons := Persons(entities);
    Repeat(PairRelations(persons, Products(entities), low, |persons|), CountFound(PurchaseVerbs, low))
  }

  lemma {:induction false} PersonRelationsIff(person: string, products: seq<string>, low: string, m: nat, r: Relation)
    requires m <= |products|
    ensures r in PersonRelations(person, products, low, m) <==>
      exists j :: 0 <= j < m && r == PurchaseOf(person, products[j]) && BothMentioned(person, products[j], low)
  {
    if m > 0 {
      PersonRelationsIff(person, products, low, m - 1, r);
    }
  }

  /** A mentioned pair with product `j` among the first `m` is in the person's relations. */
  lemma {:induction false} PersonRelationsHas(person: string, products: seq<string>, low: string, m: nat, j: nat)
    requires j < m <= |products| && BothMentioned(person, products[j], low)
    ensures PurchaseOf(person, products[j]) in PersonRelations(person, products, low, m)
  {
    if j < m - 1 {
      PersonRelationsHas(person, products, low, m - 1, j);
    }
  }

  /** A mentioned pair with person `i` among the first `n` is in the pair relations. */
  lemma PairRelationsHas(persons: seq<string>, products: seq<string>, low: string, n: nat, i: nat, j: nat)
    requires i < n <= |persons| && j < |products| && BothMentioned(persons[i], products[j], low)
    ensures PurchaseOf(persons[i], products[j]) in PairRelations(persons, products, low, n)
  {
    PersonRelationsHas(persons[i], products, low, |products|, j);
    ConcatHas(PersonBlocks(persons, products, low, n), i, PurchaseOf(persons[i], products[j]));
  }

  /** The product position a person's relation comes from. */
  lemma {:induction false} PersonRelationsWitness(person: string, products: seq<string>, low: string, m: nat, r: Relation)
    returns (j: nat)
    requires m <= |products| && r in PersonRelations(person, products, low, m)
    ensures j < m && r == PurchaseOf(person, products[j]) && BothMentioned(person, products[j], low)
  {
    var prev := PersonRelations(person, products, low, m - 1);
    if r in prev {
      j := PersonRelationsWitness(person, products, low, m - 1, r);
    } else {
      j := m - 1;
    }
  }

  /** The (person, product) positions a pair relation comes from. */
  lemma PairRelationsWitness(persons: seq<string>, products: seq<string>, low: string, n: nat, r: Relation)
    returns (i: nat, j: nat)
    requires n <= |persons| && r in PairRelations(persons, products, low, n)
    ensures i < n && j < |products|
    ensures r == PurchaseOf(persons[i], products[j]) && BothMentioned(persons[i], products[j], low)
  {
    i := ConcatWitness(PersonBlocks(persons, products, low, n), r);
    j := PersonRelationsWitness(persons[i], products, low, |products|, r);
  }

  lemma PairRelationsIff(persons: seq<string>, products: seq<string>, low: string, n: nat, r: Relation)
    requires n <= |persons|
    ensures r in PairRelations(persons, products, low, n) <==>
      exists i, j ::
        (0 <= i < n && 0 <= j < |products|
         && r == PurchaseOf(persons[i], products[j]) && BothMentioned(persons[i], products[j], low))
  {
    if r in PairRelations(persons, products, low, n) {
      var i, j := PairRelationsWitness(persons, products, low, n, r);
    }
    if exists i, j :: 0 <= i < n && 0 <= j < |products|
                      && r == PurchaseOf(persons[i], products[j]) && BothMentioned(persons[i], products[j], low) {
      var i, j :| 0 <= i < n && 0 <= j < |products|
                  && r == PurchaseOf(persons[i], products[j]) && BothMentioned(persons[i], products[j], low);
      PairRelationsHas(persons, products, low, n, i, j);
    }
  }

  lemma {:induction false} RepeatMembers<T>(xs: seq<T>, k: nat, x: T)
    ensures x in Repeat(xs, k) <==> k > 0 && x in xs
  {
    if k > 0 {
      RepeatMembers(xs, k - 1, x);
    }
  }

  /** A purchase relation pairs a person of `Persona` with a product of `Producto` or
      `products`, both mentioned in the text, under the predicate `compró` with confidence
      0.8; every such pair is reported as soon as one purchase verb occurs. */
  lemma PurchaseRelationsIff(text: string, entities: Entities, r: Relation)
    ensures r in PurchaseRelations(text, entities) <==>
      (CountFound(PurchaseVerbs, Lower(text)) > 0
       && exists i, j ::
         (0 <= i < |Persons(entities)| && 0 <= j < |Products(entities)|
          && r == PurchaseOf(Persons(entities)[i], Products(entities)[j])
          && BothMentioned(Persons(entities)[i], Products(entities)[j], Lower(text))))
  {
    var low := Lower(text);
    var persons := Persons(entities);
    var pairs := PairRelations(persons, Products(entities), low, |persons|);
    RepeatMembers(pairs, CountFound(PurchaseVerbs, low), r);
    PairRelationsIff(persons, Products(entities), low, |persons|, r);
  }

  /** No purchase verb in the text, no purchase relation. */
  lemma NoVerbNoPurchase(text: string, entities: Entities)
    requires forall k :: 0 <= k < |PurchaseVerbs| ==> !Contains(Lower(text), PurchaseVerbs[k])
    ensures PurchaseRelations(text, entities) == []
  {
    CountFoundZero(PurchaseVerbs, Lower(text));
  }

  /** The innermost loop of `extract_purchase_relations`: one person against every product. */
  method PairPerson(person: string, products: seq<string>, low: string) returns (found: seq<Relation>)
    ensures found == PersonRelations(person, products, low, |products|)
  {
    found := [];
    for j := 0 to |products|
      invariant found == PersonRelations(person, products, low, j)
    {
      if Contains(low, Lower(person)) && Contains(low, Lower(products[j])) {
        found := found + [PurchaseOf(person, products[j])];
      }
    }
  }

  /** The two inner loops of `extract_purchase_relations`: every person against every product. */
  method PairAll(persons: seq<string>, products: seq<string>, low: string) returns (found: seq<Relation>)
    ensures found == PairRelations(persons, products, low, |persons|)
  {
    found := [];
    for i := 0 to |persons|
      invariant found == PairRelations(persons, products, low, i)
    {
      PairRelationsStep(persons, products, low, i);
      var more := PairPerson(persons[i], products, low);
      found := found + more;
    }
  }

  /** `extract_purchase_relations`: for every purchase verb found, every (person, product)
      pair whose names both occur; pairs repeat across verbs. */
  method ExtractPurchaseRelations(text: string, entities: Entities) returns (relations: seq<Relation>)
    ensures relations == PurchaseRelations(text, entities)
  {
    var low := Lower(text);
    relations := [];
    ghost var pairs := PairRelations(Persons(entities), Products(entities), low, |Persons(entities)|);
    for v := 0 to |PurchaseVerbs|
      invariant relations == Repeat(pairs, CountFound(PurchaseVerbs[..v], low))
    {
      RepeatStep(pairs, PurchaseVerbs, v, low);
      if Contains(low, PurchaseVerbs[v]) {
        var persons := Get(entities, "Persona");
        var products := Get(entities, "Producto") + Get(entities, "products");
        var found := PairAll(persons, products, low);
        relations := relations + found;
      }
    }
    assert PurchaseVerbs[..|PurchaseVerbs|] == PurchaseVerbs;
  }

  /** One more verb: the pairs are repeated once more exactly when the verb is found. */
  lemma RepeatStep(pairs: seq<Relation>, verbs: seq<string>, v: nat, low: string)
    requires v < |verbs|
    ensures Repeat(pairs, CountFound(verbs[..v + 1], low))
      == Repeat(pairs, CountFound(verbs[..v], low)) + (if Contains(low, verbs[v]) then pairs else [])
  {
    assert verbs[..v + 1][..v] == verbs[..v];
    if !Contains(low, verbs[v]) {
      assert Repeat(pairs, CountFound(verbs[..v], low)) + [] == Repeat(pairs, CountFound(verbs[..v], low));
    }
  }

  // ---------------------------------------------------------------------
  // All relations

  function SvoRelation(t: (string, string, string)): Relation {
    Relation(t.0, t.1, t.2, SvoConfidence, Some("svo"))
  }

  /** `extract_all_relations`: every subject-verb-object record (confidence 0.5, type
      `svo`) before every purchase record. `doc` is the parse of `text`. */
  method ExtractAllRelations(doc: Doc, text: string, entities: Entities) returns (relations: seq<Relation>)
    requires WellFormed(doc)
    ensures var triples := Triples(doc, |doc.sents|);
      && |relations| == |triples| + |PurchaseRelations(text, entities)|
      && (forall k :: 0 <= k < |triples| ==> relations[k] == SvoRelation(triples[k]))
      && relations[|triples|..] == PurchaseRelations(text, entities)
  {
    var triples := ExtractSubjectVerbObject(doc);
    relations := [];
    for k := 0 to |triples|
      invariant |relations| == k
      invariant forall m :: 0 <= m < k ==> relations[m] == SvoRelation(triples[m])
    {
      var (subject, verb, obj) := triples[k];
      relations := relations + [Relation(subject, verb, obj, SvoConfidence, Some("svo"))];
    }
    var purchases := ExtractPurchaseRelations(text, entities);
    relations := relations + purchases;
  }
}
