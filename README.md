# Opinion extraction over product reviews, modelled in Dafny

This project models the deterministic core of a review-analysis pipeline. For each
review the pipeline:

- cleans the text;
- groups the named entities a tagger found;
- extracts brands and product mentions;
- derives subject–verb–object and purchase relations from a dependency parse;
- detects events from a fixed trigger table, with a keyword sentiment vote.

It then stores each processed review. The stored records are:

- turned into RDF triples for a knowledge graph;
- indexed for similarity search;
- summarised in a brand analysis and a report.

Everything the pipeline takes from outside libraries enters the model as plain input data:

- spaCy's entities: a sequence of `SpacyEnt`.
- spaCy's parse: a `Relations.Doc`, with tokens, dependencies, children and sentence spans.
- The regex `findall` results: a function from pattern kind and text to the matches.
- The TF-IDF/cosine similarity: a function from processed query and row to a score.
- The fitted vocabulary size, and the number of terms the vectoriser keeps after pruning a
  batch: numbers.

The model follows the source's own form:

- Pure code becomes functions with lemmas about them. This covers brand normalisation,
  sentiment voting, URI naming, text cleaning and query preprocessing.
- Loops become methods with loop invariants, each proved equal to a specification function.
- Objects whose fields change become classes:
  - the search index `Search.SearchEngine`;
  - the RDF store `Knowledge.KnowledgeGraph`, whose graph is a `set<Triple>`;
  - the orchestrator `Processor.OpinionExtractor`.

Two facts that cross files are proved rather than assumed:

- `process_single_review` hands the whole NER analysis to the event and relation extractors.
  Its keys are `entities`, `products`, `brands` and `all_entities`, so:
  - the `Persona` lookup finds nothing, and purchase relations are always empty
    (`Processor.NoPurchaseRelations`);
  - every event has no actor, time or location, and its object is the first product
    (`Processor.PipelineEventSlots`).
- The search index can lag behind its document lists. Two cases replace the lists but
  keep the previously fitted vectors:
  - indexing an empty review list;
  - a batch that scikit-learn's `fit_transform` refuses with `ValueError`. With
    `min_df=2` and `max_df=0.8` this is every batch of one or two reviews, and any batch
    whose pruning leaves no term. `process_csv` does not catch the error, so it escapes
    after the records, the graph and the lists have been replaced.

  Every `fit_transform` starts from a fresh, unfitted tf-idf stage, so after a refused
  batch a later `search` cannot transform its query and raises `NotFittedError`. The
  statistics still answer, because their guard looks only at the old vectors, and they
  describe the new lists. After an empty review list the old fit stays usable, and a
  later `search` can select a row that has no record, which raises `IndexError`. The model keeps both behaviours: they are the only failures
  `Search.SearchEngine.OutcomeShape` allows.

Files:

| File | Module | What it models |
|---|---|---|
| `wrappers.dfy` | `Wrappers` | `Option` and `Result` |
| `text.dfy` | `Text` | The Python string built-ins the pipeline relies on: `isspace`/`\s`, `\w`, `lower`, `in`, `split`, `join`, `strip`, `capitalize`, `dict.fromkeys`, and a stable sort by key |
| `entities.dfy` | `EntityMaps` | `dict.get(key, [])` |
| `cleaning.dfy` | `Cleaning` | `clean_text` and `extract_all_patterns` |
| `ner.dfy` | `Ner` | NER post-processing |
| `events.dfy` | `Events` | Event extraction |
| `relations.dfy` | `Relations` | Relation extraction |
| `records.dfy` | `Records` | The processed-review record |
| `search.dfy` | `Search` | The search index |
| `knowledge.dfy` | `Knowledge` | The RDF graph |
| `processor.dfy` | `Processor` | The orchestrator |

## Model

| member | source | states |
|---|---|---|
| `Events.ExtractSentiment` | utils/event_extractor.py:93-105 | Positive exactly when more positive than negative keywords occur in the lowered text; negative exactly when fewer; neutral exactly on a tie (the neutral list is never read) |
| `Events.NoKeywordNeutral` | utils/event_extractor.py:97-105 | A text containing no positive and no negative keyword is neutral |
| `Events.RowMatches` | utils/event_extractor.py:50-51 | Every listed position is in the given row, below `n`, and its trigger occurs in the lowered text |
| `Events.Matches` | utils/event_extractor.py:49-51 | Every listed position names an existing type and trigger of the table, and that trigger occurs in the lowered text |
| `Events.MatchesIff` | utils/event_extractor.py:49-51 | A (type, trigger) position is matched exactly when its trigger occurs in the lowered text |
| `Events.MatchesIncreasing` | utils/event_extractor.py:26-35 | Matches come in table order, types first and then triggers, each position at most once |
| `Events.NoTriggerNoMatches` | utils/event_extractor.py:49-56 | With no trigger in the text there is no match, so no event |
| `Events.CreateEvent` | utils/event_extractor.py:58-91 | The event carries the given type and trigger, the whole-text sentiment and confidence 0.7. Actor, object, time and location are the first of `Person`, of `Product` followed by `products`, of `Date` and of `Location`, each absent when its list is empty; the result is never falsy |
| `Events.ScanTriggers` | utils/event_extractor.py:44-56 | The nested scan over any trigger table yields the k-th event for the k-th matched (type, trigger) position, in table order |
| `Events.ExtractEvents` | utils/event_extractor.py:44-56 | The k-th event is the event of the k-th matched position of the fixed trigger table |
| `Events.EventsAgree` | utils/event_extractor.py:52-68 | Every event has the text's sentiment (so all events of a call agree) and confidence 0.7. Its type is a table key, and its trigger is one of that key's triggers and occurs in the lowered text |
| `Relations.Modifiers` | utils/relationship_extractor.py:78-80 | The kept children are children of the token, in child order, without repeats when the children have none |
| `Relations.ModifierIff` | utils/relationship_extractor.py:78-80 | A child is kept exactly when its dependency is `det`, `amod`, `compound` or `nmod` |
| `Relations.PhraseOrder` | utils/relationship_extractor.py:75-83 | The phrase tokens are a permutation of the head and its modifiers, sorted by token index |
| `Relations.PhraseOrderShape` | utils/relationship_extractor.py:75-83 | The phrase tokens strictly increase in index and are exactly the head and its modifier children |
| `Relations.Texts` | utils/relationship_extractor.py:84 | The k-th word of the phrase is the text of the k-th phrase token |
| `Relations.GetFullPhrase` | utils/relationship_extractor.py:73-84 | The loop that collects, sorts and joins the phrase tokens returns the head and modifiers joined by single spaces in index order |
| `Relations.FirstRootVerb` | utils/relationship_extractor.py:47-51 | The first token of the sentence with dependency `ROOT` and part of speech `VERB`, or none when there is none |
| `Relations.FirstChild` | utils/relationship_extractor.py:55-66 | The first child with a subject dependency (`nsubj`, `nsubjpass`) or an object dependency (`dobj`, `pobj`, `attr`), or none |
| `Relations.TripleFromRootVerb` | utils/relationship_extractor.py:45-69 | A sentence triple comes from the sentence's first root verb: its lemma is the verb, and subject and object are the non-empty phrases of a subject child and an object child |
| `Relations.NoSubjectNoTriple` | utils/relationship_extractor.py:53-69 | A sentence whose root verbs have no subject child yields no triple |
| `Relations.FindPhrase` | utils/relationship_extractor.py:55-66 | The break-loop over the children finds the phrase of the first wanted child |
| `Relations.FindRootVerb` | utils/relationship_extractor.py:47-51 | The break-loop over a sentence finds its first root verb |
| `Relations.SentenceRelation` | utils/relationship_extractor.py:46-69 | One sentence's loop body gives that sentence's triple |
| `Relations.ExtractSubjectVerbObject` | utils/relationship_extractor.py:40-71 | The triples of all sentences, in sentence order, at most one per sentence |
| `Relations.PersonRelationsIff` | utils/relationship_extractor.py:101-108 | A person's relations are exactly the purchase relations with products both of whose lowered names occur in the lowered text |
| `Relations.PairRelationsIff` | utils/relationship_extractor.py:100-108 | The relations of all persons are exactly the purchase relations of (person, product) pairs both of whose names occur |
| `Relations.RepeatMembers` | utils/relationship_extractor.py:94-108 | Repeating the pairs once per found verb holds a relation exactly when some verb is found and the relation is a pair |
| `Relations.PurchaseRelationsIff` | utils/relationship_extractor.py:92-108 | A purchase relation is present exactly when some `compra` verb occurs and it relates a `Persona` entry to a `Producto`/`products` entry, both mentioned in the text |
| `Relations.NoVerbNoPurchase` | utils/relationship_extractor.py:92-95 | With no purchase verb in the lowered text there is no purchase relation |
| `Relations.PairPerson` | utils/relationship_extractor.py:101-108 | The innermost loop yields one person's relations in product order |
| `Relations.PairAll` | utils/relationship_extractor.py:100-108 | The two inner loops yield the pairs person-major, then product order |
| `Relations.ExtractPurchaseRelations` | utils/relationship_extractor.py:86-110 | The pairs are repeated once per found verb in verb order, with no removal of repeats: their number is the verbs found times the qualifying pairs |
| `Relations.ExtractAllRelations` | utils/relationship_extractor.py:112-130 | Every SVO relation (confidence 0.5, type `svo`) comes first, in triple order, followed by exactly the purchase relations |
| `Ner.MapCategory` | utils/ner_extractor.py:35-55 | A mapped label gives its table category; an unmapped label passes through unchanged |
| `Ner.MapCategoryTargets` | utils/ner_extractor.py:35-47 | Every table label changes; `Organización` comes exactly from `ORG`, and `Persona` exactly from `PERSON` or `PER` (or an already-mapped label) |
| `Ner.ExtractEntities` | utils/ner_extractor.py:49-64 | One record per entity, in order, with its text, mapped label and span, and confidence 1.0 |
| `Ner.EntitiesByType` | utils/ner_extractor.py:66-78 | The group labels are the record labels without repeats, in first-occurrence order. Each group holds its label's texts without repeats |
| `Ner.GroupedShape` | utils/ner_extractor.py:69-72 | Before duplicate removal, each group holds all texts of its label in record order |
| `Ner.GroupContents` | utils/ner_extractor.py:66-78 | Every group is non-empty and has no repeats. A text is in a group exactly when some entity with that label has that text |
| `Ner.GroupCategories` | utils/ner_extractor.py:66-78 | The group labels are distinct and are exactly the labels that occur |
| `Ner.DedupGroups` | utils/ner_extractor.py:75-76 | Each group's texts are replaced by their first occurrences |
| `Ner.ExtractEntitiesByType` | utils/ner_extractor.py:66-78 | The defaultdict loop, then per-group duplicate removal, gives `EntitiesByType` of the records |
| `Ner.ExtractProductMentions` | utils/ner_extractor.py:80-101 | No repeats. A text is present exactly when it is a pattern match or the text of a `PRODUCT`/`MISC` entity of at most three words |
| `Ner.ExtractBrands` | utils/ner_extractor.py:103-124 | No repeats. A name is present exactly when it is a known brand whose lowered form occurs in the lowered text, or the text of an entity mapped to `Organización` |
| `Ner.AnalyzeReview` | utils/ner_extractor.py:126-133 | The analysis holds the grouped entities, the product mentions, the brands and all entity records, each with the properties above |
| `Cleaning.KeepAllowed` | utils/regex_extractor.py:67 | Every kept character is a word character, whitespace or one of `. , ! ? ; : ( ) -`; a string of such characters comes back unchanged; no whitespace other than blanks is introduced |
| `Cleaning.KeepAllowedCounts` | utils/regex_extractor.py:67 | Each allowed character occurs in the result exactly as often as in the input, and every other character not at all |
| `Cleaning.KeepAllowedAppend` | utils/regex_extractor.py:67 | The filter works character by character: filtering a concatenation concatenates the filtered parts, so the order of what is kept is the input's |
| `Cleaning.CleanText` | utils/regex_extractor.py:55-69 | No whitespace at either end; every character is a word character, a plain blank or kept punctuation; no `@`, `#` or `$`; never longer than the input |
| `Cleaning.CleanTextKeepsClean` | utils/regex_extractor.py:55-69 | A text of allowed characters only, with single blanks as its only whitespace and visible ends, comes back unchanged (allowed characters exclude `/`, `@` and `#`, so it holds no URL, mention or hashtag) |
| `Cleaning.UrlBodyRun` | utils/regex_extractor.py:58 | The run is the longest prefix of URL body characters: all of it is body, and the next character is not |
| `Cleaning.UrlMatchLength` | utils/regex_extractor.py:58 | A match is `https://` or `http://` followed by a maximal non-empty run of body characters; there is no match exactly when neither scheme is followed by a body character |
| `Cleaning.RemoveUrls` | utils/regex_extractor.py:58 | Never longer than the input, no URL match starts anywhere in the result, and a text in which no match starts comes back unchanged |
| `Cleaning.WordRun` | utils/regex_extractor.py:61 | The run is the longest prefix of word characters: all of it is word characters, and the next character is not |
| `Cleaning.RemoveTags` | utils/regex_extractor.py:61 | Never longer than the input, no mention or hashtag (`@` or `#` followed by a word character) starts anywhere in the result, and a text without one comes back unchanged |
| `Cleaning.NoSlashUrlFree` | utils/regex_extractor.py:58 | Both schemes hold a `/`, so in a text without `/` no URL match starts anywhere |
| `Cleaning.RemoveTagsWithoutMarks` | utils/regex_extractor.py:61 | A text without `@` or `#` has no mention or hashtag to remove |
| `Cleaning.CleanTextNotIdempotent` | utils/regex_extractor.py:64-69 | Cleaning `"a $ b"` gives `"a  b"`, and cleaning that again gives something else: the filter runs after the space collapse |
| `Cleaning.ExtractAllPatterns` | utils/regex_extractor.py:46-53 | Exactly the keys `prices`, `dates`, `models`, `ratings`, each holding the matches of its own pattern |
| `Search.KeepWords` | utils/semantic_search.py:63 | The kept words are input words that pass the filter, and every input word that passes the filter is kept |
| `Search.Tokens` | utils/semantic_search.py:52-63 | Every token is longer than two characters and not a stop-word |
| `Search.Preprocess` | utils/semantic_search.py:50-65 | The output is empty exactly when no token is kept |
| `Search.TokensShape` | utils/semantic_search.py:52-63 | Every token is lower-case, made of word characters, longer than two characters and not a stop-word |
| `Search.PreprocessShape` | utils/semantic_search.py:50-65 | The output is single-spaced with no space at either end, and its words are exactly the kept tokens |
| `Search.PreprocessIdempotent` | utils/semantic_search.py:50-65 | Preprocessing twice is preprocessing once |
| `Search.CompositeCovers` | utils/semantic_search.py:74-85 | The composite text starts with the original text and contains every entity text, product and brand present in the record |
| `Search.GroupsText` | utils/semantic_search.py:77-79 | The `+=` loop over the groups appends a space and the space-joined texts of each group, in key order |
| `Search.CompositeText` | utils/semantic_search.py:74-85 | The `+=` chain gives the original text, then the entity groups, products and brands, each part present only when its key is |
| `Search.IndexText` | utils/semantic_search.py:74-88 | The document of one review is its composite text, preprocessed |
| `Search.SearchEngine.constructor` | utils/semantic_search.py:26-36 | An empty index with no vectors and an unfitted tf-idf stage |
| `Search.FitFailsSmallBatches` | utils/semantic_search.py:27-33 | With `min_df=2` and `max_df=0.8`, a fit of one or two documents always fails; from three documents on, it fails exactly when pruning keeps no term |
| `Search.SearchEngine.IndexDocuments` | utils/semantic_search.py:67-94 | The records are exactly the reviews, and the documents are exactly their processed composites, in order. The fit raises exactly for a non-empty batch the vectoriser refuses. The vectors are refitted on a non-empty batch that does not raise; otherwise the old fit is kept. The tf-idf stage is fitted after a batch that does not raise and unfitted after one that does; an empty list leaves it as it was |
| `Search.ArgSort` | utils/semantic_search.py:111 | Every row exactly once, in non-decreasing score order |
| `Search.SliceEnd` | utils/semantic_search.py:111 | Where Python's `[:k]` stops, for non-negative and negative `k` |
| `Search.Top` | utils/semantic_search.py:111 | As many rows as Python's `[:top_k]` leaves of the row count, each an existing row |
| `Search.TopShape` | utils/semantic_search.py:111 | The top rows are distinct and in non-increasing score order. There are at most `top_k` of them, all rows when `top_k` reaches the row count, and no row left out scores above a row kept |
| `Search.TopCovers` | utils/semantic_search.py:111 | With `top_k` at least the row count, every row is among the top rows |
| `Search.Positive` | utils/semantic_search.py:114-115 | Only rows with a positive score are kept |
| `Search.PositiveMembers` | utils/semantic_search.py:114-115 | The kept rows are exactly the listed rows with a positive score |
| `Search.Select` | utils/semantic_search.py:111-115 | No more rows than the `[:top_k]` slice, each an existing row with a positive score |
| `Search.SelectShape` | utils/semantic_search.py:111-115 | The reported rows have positive scores and are distinct, in non-increasing score order, at most `top_k` of them. No positive row left out scores above a reported one, and with a large `top_k` every positive row is reported |
| `Search.Respond` | utils/semantic_search.py:114-121 | Each hit is the row's record with its score and document. The result is `IndexError` exactly when a selected row has no record |
| `Search.Collect` | utils/semantic_search.py:113-121 | The result loop of `search` equals `Respond` on the positive top rows |
| `Search.SentimentQuery` | utils/semantic_search.py:128-136 | `positive`, `negative` and `neutral` in any case map to their fixed keyword queries; any other label is its own query |
| `Search.SentimentQueryIgnoresCase` | utils/semantic_search.py:136 | Two labels equal up to case that lower-case to `positive`, `negative` or `neutral` get the same query; otherwise each label is its own query |
| `Search.SearchEngine.OutcomeShape` | utils/semantic_search.py:96-121 | Before the first fit the result is empty. With old vectors but an unfitted tf-idf stage, after a refused refit, the search fails with `NotFittedError`. Otherwise a success lists the selected rows with positive, non-increasing scores, at most `top_k` of them, and the search fails, with `IndexError`, exactly when a selected row lies beyond the records, which happens only when the lists were emptied after the last fit |
| `Search.SearchEngine.Search` | utils/semantic_search.py:96-121 | The method computes `Outcome` for the preprocessed query |
| `Search.SearchEngine.SearchByProduct` | utils/semantic_search.py:123-126 | Searches for `product <name> review opinion` |
| `Search.SearchEngine.SearchBySentiment` | utils/semantic_search.py:128-137 | Searches with the expanded sentiment query |
| `Search.SearchEngine.Statistics` | utils/semantic_search.py:139-148 | An error entry exactly before the first fit. Otherwise: the document count, the given vocabulary size, and a mean words-per-document that times the count gives the total word count; the mean is 0 when an empty batch was indexed after a fit |
| `Search.WordCountBound` | utils/semantic_search.py:147 | The total word count is bounded by the document count times the longest document's word count |
| `Knowledge.CleanName` | utils/knowledge_representation.py:40-53 | Same length; no space or hyphen is left; every other character is kept in place |
| `Knowledge.CleanNameIdempotent` | utils/knowledge_representation.py:40 | Cleaning a cleaned name changes nothing |
| `Knowledge.CreateUri` | utils/knowledge_representation.py:38-49 | The URI is the type's namespace (`user`, `product`, `event`, else review) followed by the cleaned name, which has no space or hyphen |
| `Knowledge.CreatePredicateUri` | utils/knowledge_representation.py:51-54 | The predicate is the review namespace followed by the cleaned name |
| `Knowledge.NamespacesSeparate` | utils/knowledge_representation.py:13-49 | URIs in different namespaces differ, whatever their names |
| `Knowledge.KnowledgeGraph.constructor` | utils/knowledge_representation.py:9-10 | The graph starts empty |
| `Knowledge.KnowledgeGraph.AddTriple` | utils/knowledge_representation.py:25-36 | Adds exactly one triple: a `user` subject, a review predicate, and a literal or typed-URI object |
| `Knowledge.EventTriplesShape` | utils/knowledge_representation.py:56-77 | All triples of an event share a subject. The type, sentiment and trigger triples are always present. An actor triple exists exactly when the actor is truthy, pointing into `user`; an object triple exactly when the object is truthy, pointing into `product` |
| `Knowledge.EventTripleCases` | utils/knowledge_representation.py:56-77 | An event contributes no other triple than these five kinds |
| `Knowledge.SameTypeSameSubject` | utils/knowledge_representation.py:58-59 | Two events of the same type in one review share their subject, and with the same trigger their trigger triple coincides |
| `Knowledge.PredicatesDistinct` | utils/knowledge_representation.py:62-77 | The event predicates are pairwise different URIs |
| `Knowledge.KnowledgeGraph.AddEventToGraph` | utils/knowledge_representation.py:56-77 | The graph grows by exactly the event's triples, so adding an event twice changes nothing the second time |
| `Knowledge.KnowledgeGraph.CreateProductSentimentGraph` | utils/knowledge_representation.py:79-87 | The graph grows by exactly the triples of every event of every review |
| `Knowledge.GraphHoldsEvents` | utils/knowledge_representation.py:79-87 | Every event of every review has its type, sentiment and trigger triples in the graph |
| `Knowledge.KnowledgeGraph.Stats` | utils/knowledge_representation.py:110-117 | The triple count, and the distinct subjects, predicates and objects, each no more than the triples |
| `Processor.NormalizeBrandName` | utils/main_processor.py:29-62 | Empty exactly when the name is empty or all whitespace |
| `Processor.MappingsCanonical` | utils/main_processor.py:38-55 | Every mapping value is a standard spelling of its key: it lowers back to the key and has visible ends |
| `Processor.NormalizeCanonical` | utils/main_processor.py:35-62 | A non-empty normal form is a standard spelling of the stripped, lowered name, whether it comes from the table or from `capitalize` |
| `Processor.NormalizeCaseBlind` | utils/main_processor.py:35 | Names equal up to case and surrounding whitespace normalise alike |
| `Processor.NormalizeIdempotent` | utils/main_processor.py:29-62 | Normalising a normal form changes nothing |
| `Processor.CleanedBrandsShape` | utils/main_processor.py:64-80 | The cleaned list has no repeats and no empty name, and is no longer than the input. Its members are exactly the non-empty normal forms of the inputs, in first-occurrence order, and each is its own normal form |
| `Processor.CleanAndDeduplicateBrands` | utils/main_processor.py:64-80 | The loop with its `seen` set computes `CleanedBrands` |
| `Processor.NormalizeBrand` | utils/main_processor.py:75 | The call returns the normal form of the name, empty exactly when the name is blank |
| `Processor.GatherIff` | utils/main_processor.py:207-208 | An element is in the extended list exactly when some review's list holds it |
| `Processor.RefsOfTypeIff` | utils/main_processor.py:172-179 | One review's entries are exactly the entries of its events of the asked type |
| `Processor.EventsOfTypeIff` | utils/main_processor.py:168-180 | The entries are exactly those of events of the asked type over all reviews, each named `<type>_<review id>` with the event's actor, object and sentiment |
| `Processor.EventsOfTypeCount` | utils/main_processor.py:168-180 | One entry per event of the asked type: the count is that type's multiplicity among all event types |
| `Processor.OpinionExtractor.GetEventsByType` | utils/main_processor.py:168-180 | The nested loop returns `EventsOfType` of the processed reviews |
| `Processor.RefsFor` | utils/main_processor.py:172-179 | The inner loop returns one review's entries of the type |
| `Processor.VariationsUnderExact` | utils/main_processor.py:210-215 | Each raw name is filed under its own non-empty normal form when it differs from it, and nothing else is filed |
| `Processor.FileVariations` | utils/main_processor.py:211-215 | The corrected filing loop extends the variations by the new raw names, each under its own normal form |
| `Processor.ZipVariationsIff` | utils/main_processor.py:211-215 | The source's zip over the first `n` positions adds a key exactly for a position whose raw and cleaned names differ, and files a raw name under a cleaned name exactly when some such position pairs them |
| `Processor.ZippedVariationsIff` | utils/main_processor.py:203-215 | The source's variations hold a raw name under a cleaned name exactly when some review pairs the two at one position, over the shorter of its two brand lists, and they differ; no key is left empty |
| `Processor.ZipAgreesWithoutDrops` | utils/main_processor.py:203-215 | When the cleaning drops no name of any review, the source's zip and the filing by normal form give the same variations |
| `Processor.ZipMisfiles` | utils/main_processor.py:211-215 | Zipping raw `SONY, Sony, LG` with cleaned `Sony, LG` files `Sony` as a variation of `LG`; filing by normal form files only `SONY` under `Sony` |
| `Processor.DuplicateCandidatesIff` | utils/main_processor.py:227-229 | A raw name is a duplicate example exactly when it occurs more than once and is not lower-case |
| `Processor.DuplicateExamplesValid` | utils/main_processor.py:227-230 | At most ten distinct examples, each a raw name that is repeated and not lower-case; with fewer than ten, every such name is among them |
| `Processor.BrandAnalysisShape` | utils/main_processor.py:193-231 | An error exactly when there are no reviews. Otherwise the distinct raw and cleaned counts are bounded by the list lengths, the variations are the corrected filing, exactly, and the examples valid |
| `Processor.CleanedFromRaw` | utils/main_processor.py:199-208 | For reviews whose brands are the cleaned raw brands, a cleaned brand is exactly a non-empty normal form of some raw brand, and every variation key is a cleaned brand |
| `Processor.DetailedBrandAnalysis` | utils/main_processor.py:193-231 | The loop computes `BrandAnalysisOf` of the reviews, with the corrected variations |
| `Processor.OpinionExtractor.GetDetailedBrandAnalysis` | utils/main_processor.py:193-231 | The brand analysis of the processed reviews, with the corrected variations |
| `Processor.SentimentCountsTotal` | utils/main_processor.py:245-255 | The three sentiment tallies add up to the number of events |
| `Processor.SentimentCountsShape` | utils/main_processor.py:245-255 | The distribution has exactly the three labels, and they add up to the number of events |
| `Processor.CountSentiments` | utils/main_processor.py:253-255 | The inner loop adds one review's events to the tallies |
| `Processor.ReportShape` | utils/main_processor.py:233-292 | An error exactly when there are no reviews. Otherwise: the total is the review count, and the sentiment tallies add up to the event total. Unique products and brands are bounded by the list lengths. Each event type's count is the number of its events. The graph and search statistics and the brand analysis are the ones given |
| `Processor.EventTypesFit` | utils/main_processor.py:263-285 | When every event type comes from the trigger table, there are at most eight distinct types, so `most_common(10)` keeps them all |
| `Processor.BuildReport` | utils/main_processor.py:233-292 | The accumulating loops compute `ReportOf` |
| `Processor.OpinionExtractor.GenerateReport` | utils/main_processor.py:233-292 | The report of the processed reviews, with the graph's and the index's statistics |
| `Processor.NoPurchaseRelations` | utils/main_processor.py:130-137 | The analysis passed as entities has no `Persona` key, so there is never a purchase relation in the pipeline |
| `Processor.PipelineEventSlots` | utils/main_processor.py:130-140 | In the pipeline every event has no actor, time or location, and its object is the first product mention |
| `Processor.PipelineEventKind` | utils/main_processor.py:140 | In the pipeline every event type comes from the trigger table |
| `Processor.NatToString` | utils/main_processor.py:101 | A non-empty string of decimal digits that denotes the row number, with no leading zero |
| `Processor.ReviewIdInjective` | utils/main_processor.py:101 | Distinct rows get distinct `review_<i>` ids |
| `Processor.OpinionExtractor.constructor` | utils/main_processor.py:19-27 | No processed reviews, an empty graph and an empty index with neither vectors nor a fitted tf-idf stage |
| `Processor.OpinionExtractor.ProcessSingleReview` | utils/main_processor.py:122-158 | The record holds the id and the original text. It also holds the cleaned text, the pattern report, the NER analysis, the cleaned and raw brands, the relations of the whole analysis, and the events |
| `Processor.OpinionExtractor.ProcessRows` | utils/main_processor.py:97-107 | One record per row, the i-th processed under `review_<i>` |
| `Processor.OpinionExtractor.ProcessReviews` | utils/main_processor.py:97-120 | The stored records are the processed rows; the graph grows by their triples; the index holds their documents and records. The fit's `ValueError` escapes exactly for a non-empty batch the vectoriser refuses, and then the old vectors stay and the tf-idf stage is unfitted |
| `Processor.OpinionExtractor.SemanticSearchResults` | utils/main_processor.py:160-162 | The search engine's outcome for the query |
| `Text.Split` | utils/semantic_search.py:62 | `str.split()`: every word is a non-empty run of non-whitespace |
| `Text.SplitJoin` | utils/semantic_search.py:62-65 | Splitting a space-joined list of words gives the words back |
| `Text.CollapseSpaces` | utils/regex_extractor.py:64 | Every whitespace character left is a blank, and the result is no longer |
| `Text.Strip` | utils/regex_extractor.py:69 | No whitespace at either end, and the result is the middle of the input left after removing whitespace from both ends |
| `Text.Capitalize` | utils/main_processor.py:62 | First character upper-case, the rest lower-case |
| `Text.Dedup` | utils/ner_extractor.py:76 | No repeats, and exactly the input's elements |
| `Text.DedupFirstOccurrenceOrder` | utils/ner_extractor.py:74-76 | The kept elements are in the order of their first occurrences |
| `Text.ContainsIff` | utils/event_extractor.py:51 | Python's `in` on strings holds exactly when the pattern occurs at some offset |

## Left out

- Outside libraries are inputs, not models:
  - spaCy's tagging and parsing, the regex `findall` patterns of the extractors and of
    the product patterns, and the TF-IDF vectoriser and cosine similarity;
  - the vocabulary size reported by the statistics, and the number of terms the
    vectoriser's `min_df`/`max_df` pruning keeps for a batch. From that number and the
    batch size the model decides when `fit_transform` raises, as scikit-learn's fit
    does; the fact itself is taken from scikit-learn, which is not part of this model.
    So is the fact that scikit-learn 1.3.0 replaces the tf-idf stage by an unfitted one at
    the start of every `fit_transform`, which is why a refused refit leaves it unfitted.
- `Search.ArgSort`: does not model numpy's order among equal scores. It is a stable
  insertion sort, so the model claims nothing about which of two equal-scored rows comes
  first.
- Floating point: the similarity comes as `real`, and `np.mean` is exact division.
- `list(set(...))` in product and brand extraction has no fixed order in Python. The
  model keeps first occurrences, and contracts claim only membership and no repeats.
- `Counter.most_common` ordering in the report and the brand analysis: the counts are
  modelled as multisets, without the order of their keys.
- `query_products_by_sentiment`, which is a SPARQL query evaluated by rdflib.
- I/O and timestamps: `process_csv`'s CSV loading, column check and printing,
  `export_results`, `export_knowledge_graph`, `export_to_turtle`, `save_report`, and the
  `processed_at`/`generado_en` timestamps. `ProcessReviews` models the row loop and what
  follows it.
- The `metadata` field of a processed record and the fields copied from it.
- Non-string brand items are skipped by `_clean_and_deduplicate_brands`. In the model
  brands are always strings.
- The Flask app, the start-up script, the dependency installer and the charts.
- Case mapping and `\w` cover ASCII and Latin-1 only. Beyond Latin-1, characters are
  treated as having no case and as non-word characters.
- Capitalize: leaves a first `ß`, `ÿ` or `µ` unchanged, where Python's `capitalize` gives
  `Ss`, `Ÿ` and `Μ`. The last two lie outside Latin-1, and `ß` becomes two characters.
  So `NormalizeBrandName("ßony")` is `ßony` here and `Ssony` in the source.
- FileVariations: files each raw name under its own normal form, which is the corrected
  behaviour of the Findings row. The source's loop zips raw with cleaned names by position
  (`ZippedVariations`). After a dropped duplicate or blank the two disagree;
  `ZipAgreesWithoutDrops` proves they agree when nothing is dropped.
- DetailedBrandAnalysis: returns the corrected variations, not the source's zipped ones,
  for the same reason.
- GetDetailedBrandAnalysis: returns the corrected variations, and so does the brand
  section of the report, for the same reason.
- BrandAnalysisShape: proves the corrected variations exact. For the variations the
  source's zip records, the positional if-and-only-if is `ZippedVariationsIff`.
- Tokens, Preprocess, Top and Select: their own contracts state only what the table says.
  The full properties are the lemmas `TokensShape`, `PreprocessShape`, `TopShape` and
  `SelectShape`. Stated on the functions, those quantified facts would be unfolded at
  every use of the functions.
- The URL pattern of `clean_text` is modelled by its character class: ASCII letters,
  digits, `!` and the range `$`..`_`.

## Findings

| source | as written | input that shows it | evidently intended | confidence | as-written member | corrected member |
|---|---|---|---|---|---|---|
| utils/main_processor.py:211-215 | `zip(raw_brands, cleaned_brands)` pairs raw and cleaned brands by position, but the cleaning drops duplicates and blanks, so the two lists fall out of step | raw brands `["SONY", "Sony", "LG"]` are cleaned to `["Sony", "LG"]`, and the zip records `Sony` as a variation of `LG` | each raw brand is recorded under its own normal form when the two differ | not executed | `Processor.ZipMisfiles` | `Processor.VariationsUnderExact` |

`Processor.ZippedVariationsIff` states what the source's zip records in general, and
`Processor.ZipAgreesWithoutDrops` shows the two filings differ only after a dropped name.
