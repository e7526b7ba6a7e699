/** The RDF view of the extracted events (utils/knowledge_representation.py).
    A URI is its full IRI string and a literal its lexical form; the graph is
    the set of triples the library keeps. */
module Knowledge {
  import opened Wrappers
  import opened Text
  import opened Records
  import Events

  const ReviewNs: string := "http://example.org/review/"
  const ProductNs: string := "http://example.org/product/"
  const UserNs: string := "http://example.org/user/"
  const EventNs: string := "http://example.org/event/"
  const RdfType: string := "http://www.w3.org/1999/02/22-rdf-syntax-ns#type"

  datatype Node = Uri(iri: string) | Lit(lexical: string)

  datatype Triple = Triple(subject: Node, property: Node, obj: Node)

  // ---------------------------------------------------------------------
  // Naming

  /** `name.replace(" ", "_").replace("-", "_")`. */
  function CleanName(name: string): (r: string)
    ensures |r| == |name|
    ensures forall i :: 0 <= i < |r| ==> r[i] != ' ' && r[i] != '-'
    ensures forall i :: 0 <= i < |r| && name[i] != ' ' && name[i] != '-' ==> r[i] == name[i]
  {
    seq(|name|, i requires 0 <= i < |name| => if name[i] == ' ' || name[i] == '-' then '_' else name[i])
  }

  /** Cleaning a cleaned name changes nothing. */
  lemma CleanNameIdempotent(name: string)
    ensures CleanName(CleanName(name)) == CleanName(name)
  {
  }

  /** The namespace `_create_uri` picks for a type prefix. */
  function Namespace(typePrefix: string): string {
    if typePrefix == "user" then UserNs
    else if typePrefix == "product" then ProductNs
    else if typePrefix == "event" then EventNs
    else ReviewNs
  }

  /** `_create_uri`: the cleaned name in the namespace of `typePrefix`. */
  function CreateUri(name: string, typePrefix: string): (u: Node)
    ensures u.Uri? && IsPrefix(Namespace(typePrefix), u.iri)
    ensures var local := u.iri[|Namespace(typePrefix)|..];
      local == CleanName(name) && forall i :: 0 <= i < |local| ==> local[i] != ' ' && local[i] != '-'
  {
    var ns := Namespace(typePrefix);
    var u := Uri(ns + CleanName(name));
    assert u.iri[..|ns|] == ns && u.iri[|ns|..] == CleanName(name);
    u
  }

  /** `_create_predicate_uri`: the cleaned predicate in the review namespace. */
  function CreatePredicateUri(name: string): (u: Node)
    ensures u.Uri? && IsPrefix(ReviewNs, u.iri)
    ensures var local := u.iri[|ReviewNs|..];
      local == CleanName(name) && forall i :: 0 <= i < |local| ==> local[i] != ' ' && local[i] != '-'
  {
    var u := Uri(ReviewNs + CleanName(name));
    assert u.iri[..|ReviewNs|] == ReviewNs && u.iri[|ReviewNs|..] == CleanName(name);
    u
  }

  /** Users, products and events never share a URI, and none of them is named like a
      review-namespace resource: the namespaces differ before the local name starts. */
  lemma NamespacesSeparate(a: string, b: string, ta: string, tb: string)
    requires Namespace(ta) != Namespace(tb)
    ensures CreateUri(a, ta) != CreateUri(b, tb)
  {
    var x, y := CreateUri(a, ta).iri, CreateUri(b, tb).iri;
    MarkDetermines(ta, tb);
    MarkedAt(x, ta);
    MarkedAt(y, tb);
  }

  /** An IRI in the namespace of `typePrefix` carries that namespace's mark at 19. */
  lemma MarkedAt(iri: string, typePrefix: string)
    requires IsPrefix(Namespace(typePrefix), iri)
    ensures |iri| > 19 && iri[19] == NamespaceMark(typePrefix)
  {
    var ns := Namespace(typePrefix);
    NamespaceMarked(typePrefix);
    assert iri[..|ns|] == ns;
    assert iri[19] == iri[..|ns|][19];
  }

  /** The mark tells the namespace. */
  lemma MarkDetermines(ta: string, tb: string)
    ensures NamespaceMark(ta) == NamespaceMark(tb) ==> Namespace(ta) == Namespace(tb)
  {
  }

  /** The first letter of a namespace's own path segment. */
  function NamespaceMark(typePrefix: string): char {
    if typePrefix == "user" then 'u'
    else if typePrefix == "product" then 'p'
    else if typePrefix == "event" then 'e'
    else 'r'
  }

  /** The four namespaces share their first 19 characters and differ in the next one. */
  lemma NamespaceMarked(typePrefix: string)
    ensures |Namespace(typePrefix)| > 19 && Namespace(typePrefix)[19] == NamespaceMark(typePrefix)
  {
    if typePrefix == "user" {
      assert UserNs[19] == 'u';
    } else if typePrefix == "product" {
      assert ProductNs[19] == 'p';
    } else if typePrefix == "event" {
      assert EventNs[19] == 'e';
    } else {
      assert ReviewNs[19] == 'r';
    }
  }

  // ---------------------------------------------------------------------
  // Triples of one event

  const HasActor: Node := Uri(EventNs + "hasActor")
  const HasObject: Node := Uri(EventNs + "hasObject")
  const HasSentiment: Node := Uri(EventNs + "hasSentiment")
  const HasTrigger: Node := Uri(EventNs + "hasTrigger")

  /** Python truthiness of an optional string: present and non-empty. */
  predicate Truthy(x: Option<string>) {
    x.Some? && x.value != ""
  }

  /** The subject `add_event_to_graph` uses: it depends only on the review and the type. */
  function EventUri(reviewId: string, kind: string): Node {
    CreateUri("event_" + reviewId + "_" + kind, "event")
  }

  function TypeTriple(reviewId: string, e: Events.Event): Triple {
    Triple(EventUri(reviewId, e.kind), Uri(RdfType), Uri(EventNs + Capitalize(e.kind)))
  }

  function TriggerTriple(reviewId: string, e: Events.Event): Triple {
    Triple(EventUri(reviewId, e.kind), HasTrigger, Lit(e.trigger))
  }

  function SentimentTriple(reviewId: string, e: Events.Event): Triple {
    Triple(EventUri(reviewId, e.kind), HasSentiment, Lit(Events.SentimentLabel(e.sentiment)))
  }

  /** The triples one event contributes. */
  function EventTriples(reviewId: string, e: Events.Event): set<Triple> {
    var u := EventUri(reviewId, e.kind);
    {TypeTriple(reviewId, e)}
    + (if Truthy(e.actor) then {Triple(u, HasActor, CreateUri(e.actor.value, "user"))} else {})
    + (if Truthy(e.obj) then {Triple(u, HasObject, CreateUri(e.obj.value, "product"))} else {})
    + {SentimentTriple(reviewId, e)}
    + {TriggerTriple(reviewId, e)}
  }

  /** Every triple of an event has the event URI as subject; the type, sentiment and
      trigger triples are always there; an actor or object triple is there exactly
      when that field is truthy, and then it names the user or product. */
  lemma EventTriplesShape(reviewId: string, e: Events.Event)
    ensures forall t :: t in EventTriples(reviewId, e) ==> t.subject == EventUri(reviewId, e.kind)
    ensures TypeTriple(reviewId, e) in EventTriples(reviewId, e)
    ensures SentimentTriple(reviewId, e) in EventTriples(reviewId, e)
    ensures TriggerTriple(reviewId, e) in EventTriples(reviewId, e)
    ensures (exists t :: t in EventTriples(reviewId, e) && t.property == HasActor) <==> Truthy(e.actor)
    ensures (exists t :: t in EventTriples(reviewId, e) && t.property == HasObject) <==> Truthy(e.obj)
    ensures forall t :: t in EventTriples(reviewId, e) && t.property == HasActor ==>
      t.obj == CreateUri(e.actor.value, "user")
    ensures forall t :: t in EventTriples(reviewId, e) && t.property == HasObject ==>
      t.obj == CreateUri(e.obj.value, "product")
  {
    PredicatesDistinct();
    var u := EventUri(reviewId, e.kind);
    forall t | t in EventTriples(reviewId, e)
      ensures t.subject == u
      ensures t.property == HasActor ==> Truthy(e.actor) && t.obj == CreateUri(e.actor.value, "user")
      ensures t.property == HasObject ==> Truthy(e.obj) && t.obj == CreateUri(e.obj.value, "product")
    {
      EventTripleCases(reviewId, e, t);
    }
    if Truthy(e.actor) {
      assert Triple(u, HasActor, CreateUri(e.actor.value, "user")) in EventTriples(reviewId, e);
    }
    if Truthy(e.obj) {
      assert Triple(u, HasObject, CreateUri(e.obj.value, "product")) in EventTriples(reviewId, e);
    }
  }

  /** A triple of an event is one of its five kinds. */
  lemma EventTripleCases(reviewId: string, e: Events.Event, t: Triple)
    requires t in EventTriples(reviewId, e)
    ensures var u := EventUri(reviewId, e.kind);
      || t == TypeTriple(reviewId, e) || t == SentimentTriple(reviewId, e) || t == TriggerTriple(reviewId, e)
      || (Truthy(e.actor) && t == Triple(u, HasActor, CreateUri(e.actor.value, "user")))
      || (Truthy(e.obj) && t == Triple(u, HasObject, CreateUri(e.obj.value, "product")))
  {
  }

  /** The five predicates of an event are five different URIs. */
  lemma PredicatesDistinct()
    ensures HasActor != HasObject && HasActor != HasSentiment && HasActor != HasTrigger
    ensures HasObject != HasSentiment && HasObject != HasTrigger && HasSentiment != HasTrigger
    ensures Uri(RdfType) != HasActor && Uri(RdfType) != HasObject
  {
    var n := |EventNs|;
    assert HasActor.iri[n + 3] == 'A' && HasObject.iri[n + 3] == 'O';
    assert HasSentiment.iri[n + 3] == 'S' && HasTrigger.iri[n + 3] == 'T';
    assert Uri(RdfType).iri[7] == 'w' && HasActor.iri[7] == 'e' && HasObject.iri[7] == 'e';
  }

  /** Two events of the same type in one review share their subject. */
  lemma SameTypeSameSubject(reviewId: string, e1: Events.Event, e2: Events.Event)
    requires e1.kind == e2.kind
    ensures TypeTriple(reviewId, e1).subject == TypeTriple(reviewId, e2).subject
    ensures e1.trigger == e2.trigger ==> TriggerTriple(reviewId, e1) == TriggerTriple(reviewId, e2)
  {
  }

  /** The triples of a review's events, in order. */
  function EventsTriples(reviewId: string, events: seq<Events.Event>): set<Triple> {
    if events == [] then {}
    else EventsTriples(reviewId, events[..|events| - 1]) + EventTriples(reviewId, events[|events| - 1])
  }

  function ReviewTriples(r: ProcessedReview): set<Triple> {
    if r.events.None? then {} else EventsTriples(r.id, r.events.value)
  }

  /** The triples of all reviews. */
  function ReviewsTriples(reviews: seq<ProcessedReview>): set<Triple> {
    if reviews == [] then {}
    else ReviewsTriples(reviews[..|reviews| - 1]) + ReviewTriples(reviews[|reviews| - 1])
  }

  lemma EventsTriplesStep(reviewId: string, events: seq<Events.Event>, k: nat)
    requires k < |events|
    ensures EventsTriples(reviewId, events[..k + 1])
         == EventsTriples(reviewId, events[..k]) + EventTriples(reviewId, events[k])
  {
    assert events[..k + 1][..k] == events[..k];
  }

  lemma ReviewsTriplesStep(reviews: seq<ProcessedReview>, j: nat)
    requires j < |reviews|
    ensures ReviewsTriples(reviews[..j + 1]) == ReviewsTriples(reviews[..j]) + ReviewTriples(reviews[j])
  {
    assert reviews[..j + 1][..j] == reviews[..j];
  }

  lemma {:induction false} EventsTriplesHas(reviewId: string, events: seq<Events.Event>, k: nat)
    requires k < |events|
    ensures EventTriples(reviewId, events[k]) <= EventsTriples(reviewId, events)
  {
    if k < |events| - 1 {
      var p := events[..|events| - 1];
      assert p[k] == events[k];
      EventsTriplesHas(reviewId, p, k);
    }
  }

  lemma {:induction false} ReviewsTriplesHas(reviews: seq<ProcessedReview>, j: nat)
    requires j < |reviews|
    ensures ReviewTriples(reviews[j]) <= ReviewsTriples(reviews)
  {
    if j < |reviews| - 1 {
      var p := reviews[..|reviews| - 1];
      assert p[j] == reviews[j];
      ReviewsTriplesHas(p, j);
    }
  }

  /** Every event of every review is in the graph with its type, sentiment and trigger. */
  lemma GraphHoldsEvents(reviews: seq<ProcessedReview>, j: nat, k: nat)
    requires j < |reviews| && reviews[j].events.Some? && k < |reviews[j].events.value|
    ensures var e := reviews[j].events.value[k];
      && TypeTriple(reviews[j].id, e) in ReviewsTriples(reviews)
      && SentimentTriple(reviews[j].id, e) in ReviewsTriples(reviews)
      && TriggerTriple(reviews[j].id, e) in ReviewsTriples(reviews)
  {
    ReviewsTriplesHas(reviews, j);
    EventsTriplesHas(reviews[j].id, reviews[j].events.value, k);
    EventTriplesShape(reviews[j].id, reviews[j].events.value[k]);
  }

  // ---------------------------------------------------------------------
  // Statistics

  function Subjects(g: set<Triple>): set<Node> {
    set t | t in g :: t.subject
  }

  function Predicates(g: set<Triple>): set<Node> {
    set t | t in g :: t.property
  }

  function Objects(g: set<Triple>): set<Node> {
    set t | t in g :: t.obj
  }

  /** A set each of whose members is the image of some member of `g` is no larger than `g`. */
  lemma {:induction false} ImageBound(g: set<Triple>, img: set<Node>, f: Triple -> Node)
    requires forall y :: y in img ==> exists t :: t in g && f(t) == y
    ensures |img| <= |g|
    decreases |g|
  {
    if g != {} {
      var t :| t in g;
      var g', img' := g - {t}, img - {f(t)};
      forall y | y in img' ensures exists t' :: t' in g' && f(t') == y {
        var t0 :| t0 in g && f(t0) == y;
        assert t0 != t;
      }
      ImageBound(g', img', f);
    } else {
      assert forall y :: y !in img;
      assert img == {};
    }
  }

  datatype GraphStats = GraphStats(totalTriples: nat, uniqueSubjects: nat, uniquePredicates: nat, uniqueObjects: nat)

  // ---------------------------------------------------------------------
  // The graph

  class KnowledgeGraph {
    var graph: set<Triple>

    constructor()
      ensures graph == {}
    {
      graph := {};
    }

    /** `add_triple`: the subject is always a user URI; the object is a URI in the
        namespace of `objType`, or a literal when `objType` is `"literal"`. */
    method AddTriple(subject: string, property: string, obj: string, objType: string)
      modifies this
      ensures graph == old(graph) + {Triple(CreateUri(subject, "user"), CreatePredicateUri(property),
                                            if objType == "literal" then Lit(obj) else CreateUri(obj, objType))}
    {
      var objNode := if objType == "literal" then Lit(obj) else CreateUri(obj, objType);
      graph := graph + {Triple(CreateUri(subject, "user"), CreatePredicateUri(property), objNode)};
    }

    /** `add_event_to_graph`. Adding the same event twice leaves the graph as it was
        after the first time, since the graph is a set. */
    method AddEventToGraph(e: Events.Event, reviewId: string)
      modifies this
      ensures graph == old(graph) + EventTriples(reviewId, e)
    {
      var eventUri := CreateUri("event_" + reviewId + "_" + e.kind, "event");
      graph := graph + {Triple(eventUri, Uri(RdfType), Uri(EventNs + Capitalize(e.kind)))};
      if e.actor.Some? && e.actor.value != "" {
        graph := graph + {Triple(eventUri, HasActor, CreateUri(e.actor.value, "user"))};
      }
      if e.obj.Some? && e.obj.value != "" {
        graph := graph + {Triple(eventUri, HasObject, CreateUri(e.obj.value, "product"))};
      }
      graph := graph + {Triple(eventUri, HasSentiment, Lit(Events.SentimentLabel(e.sentiment)))};
      graph := graph + {Triple(eventUri, HasTrigger, Lit(e.trigger))};
    }

    /** `create_product_sentiment_graph`: the events of every review that has them,
        added to what the graph already holds. */
    method CreateProductSentimentGraph(reviews: seq<ProcessedReview>)
      modifies this
      ensures graph == old(graph) + ReviewsTriples(reviews)
    {
      for j := 0 to |reviews|
        invariant graph == old(graph) + ReviewsTriples(reviews[..j])
      {
        var review := reviews[j];
        ReviewsTriplesStep(reviews, j);
        if review.events.Some? {
          var events := review.events.value;
          for k := 0 to |events|
            invariant graph == old(graph) + ReviewsTriples(reviews[..j]) + EventsTriples(review.id, events[..k])
          {
            EventsTriplesStep(review.id, events, k);
            AddEventToGraph(events[k], review.id);
          }
          assert events[..|events|] == events;
        }
      }
      assert reviews[..|reviews|] == reviews;
    }

    /** `get_graph_stats`: each count of distinct subjects, predicates and objects is at
        most the number of triples. */
    function Stats(): (r: GraphStats)
      reads this
      ensures r.totalTriples == |graph|
      ensures r.uniqueSubjects == |Subjects(graph)| <= r.totalTriples
      ensures r.uniquePredicates == |Predicates(graph)| <= r.totalTriples
      ensures r.uniqueObjects == |Objects(graph)| <= r.totalTriples
    {
      ImageBound(graph, Subjects(graph), (t: Triple) => t.subject);
      ImageBound(graph, Predicates(graph), (t: Triple) => t.property);
      ImageBound(graph, Objects(graph), (t: Triple) => t.obj);
      GraphStats(|graph|, |Subjects(graph)|, |Predicates(graph)|, |Objects(graph)|)
    }
  }
}
