/** The record `process_single_review` builds for one review
    (utils/main_processor.py:143-156). Keys that the search index and the
    report read with `in` or `.get` are optional here, since those readers
    accept any dictionary; `metadata` and `processed_at` are not modelled. */
module Records {
  import opened Wrappers
  import Ner
  import Events
  import Relations

  datatype ProcessedReview = ProcessedReview(
    id: string,
    originalText: Option<string>,
    cleanText: string,
    regexPatterns: map<string, seq<string>>,
    entities: Option<seq<Ner.Group>>,
    products: Option<seq<string>>,
    brands: Option<seq<string>>,
    rawBrands: Option<seq<string>>,
    relations: seq<Relations.Relation>,
    events: Option<seq<Events.Event>>)
}
