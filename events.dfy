/** Event detection over product reviews (utils/event_extractor.py). */
module Events {
  import opened Wrappers
  import opened Text
  import opened EntityMaps

  datatype Sentiment = Positive | Negative | Neutral

  /** The string stored under `sentiment`. */
  function SentimentLabel(s: Sentiment): string {
    if s == Positive then "positive" else if s == Negative then "negative" else "neutral"
  }

  /** One structured event: `type`, `trigger`, the four slots filled from the
      entities, the whole-text sentiment and the fixed confidence. */
  datatype Event = Event(
    kind: string,
    trigger: string,
    actor: Option<string>,
    obj: Option<string>,
    time: Option<string>,
    location: Option<string>,
    sentiment: Sentiment,
    confidence: real)

  /** The trigger table, in the dictionary's insertion order. */
  const EventTriggers: seq<(string, seq<string>)> := [
    ("purchase", ["bought", "purchased", "ordered", "acquired", "got"]),
    ("return", ["returned", "sent back", "exchanged", "gave back"]),
    ("complaint", ["complain", "complained", "claim", "protest", "upset"]),
    ("recommendation", ["recommend", "suggest", "advise"]),
    ("failure", ["failed", "broke", "stopped working", "does not work", "defective"]),
    ("function", ["works well", "works perfectly", "operates correctly"]),
    ("delivery", ["arrived", "received", "delivered", "came"]),
    ("rating", ["rate", "score", "value", "give stars"])
  ]

  const PositiveWords: seq<string> := ["excellent", "good", "great", "perfect", "amazing", "recommended"]
  const NegativeWords: seq<string> := ["bad", "terrible", "horrible", "defective", "broken", "disappointing"]
  /** Listed in the table but never consulted by the sentiment vote. */
  const NeutralWords: seq<string> := ["normal", "average", "acceptable", "regular"]

  const EventConfidence: real := 0.7

  // ---------------------------------------------------------------------
  // Sentiment vote

  /** `_extract_sentiment`: a vote of positive against negative keywords over the
      lower-cased text; a tie, including no keyword at all, is neutral. */
  function ExtractSentiment(text: string): (s: Sentiment)
    ensures s == Positive <==> CountFound(PositiveWords, Lower(text)) > CountFound(NegativeWords, Lower(text))
    ensures s == Negative <==> CountFound(PositiveWords, Lower(text)) < CountFound(NegativeWords, Lower(text))
    ensures s == Neutral <==> CountFound(PositiveWords, Lower(text)) == CountFound(NegativeWords, Lower(text))
  {
    var low := Lower(text);
    var pos := CountFound(PositiveWords, low);
    var neg := CountFound(NegativeWords, low);
    if pos > neg then Positive else if neg > pos then Negative else Neutral
  }

  /** A text holding none of the positive and negative keywords is neutral, whatever
      neutral keywords it holds. */
  lemma NoKeywordNeutral(text: string)
    requires forall k :: 0 <= k < |PositiveWords| ==> !Contains(Lower(text), PositiveWords[k])
    requires forall k :: 0 <= k < |NegativeWords| ==> !Contains(Lower(text), NegativeWords[k])
    ensures ExtractSentiment(text) == Neutral
  {
    CountFoundZero(PositiveWords, Lower(text));
    CountFoundZero(NegativeWords, Lower(text));
  }

  // ---------------------------------------------------------------------
  // Matching triggers

  /** Positions `(j, t)` with `t < n` of the triggers of row `j` found in `low`, in order. */
  function RowMatches(j: nat, triggers: seq<string>, low: string, n: nat): (r: seq<(nat, nat)>)
    requires n <= |triggers|
    ensures forall k :: 0 <= k < |r| ==> r[k].0 == j && r[k].1 < n && Contains(low, triggers[r[k].1])
  {
    if n == 0 then []
    else RowMatches(j, triggers, low, n - 1) + (if Contains(low, triggers[n - 1]) then [(j, n - 1)] else [])
  }

  /** Positions `(row, trigger)` of the first `n` rows of `table` whose trigger is found
      in `low`: rows first, then triggers within a row. */
  function Matches(table: seq<(string, seq<string>)>, low: string, n: nat): (r: seq<(nat, nat)>)
    requires n <= |table|
    ensures forall k :: 0 <= k < |r| ==> r[k].0 < n && r[k].1 < |table[r[k].0].1|
    ensures forall k :: 0 <= k < |r| ==> Contains(low, table[r[k].0].1[r[k].1])
  {
    if n == 0 then []
    else
      var row := RowMatches(n - 1, table[n - 1].1, low, |table[n - 1].1|);
      Matches(table, low, n - 1) + row
  }

  /** Strictly increasing in (row, trigger) order: each pair at most once, in table order. */
  predicate LexIncreasing(r: seq<(nat, nat)>) {
    forall a, b :: 0 <= a < b < |r| ==> r[a].0 < r[b].0 || (r[a].0 == r[b].0 && r[a].1 < r[b].1)
  }

  lemma {:induction false} RowMatchesIff(j: nat, triggers: seq<string>, low: string, n: nat, t: nat)
    requires n <= |triggers|
    ensures (j, t) in RowMatches(j, triggers, low, n) <==> t < n && Contains(low, triggers[t])
  {
    if n > 0 {
      RowMatchesIff(j, triggers, low, n - 1, t);
    }
  }

  lemma {:induction false} RowMatchesIncreasing(j: nat, triggers: seq<string>, low: string, n: nat)
    requires n <= |triggers|
    ensures LexIncreasing(RowMatches(j, triggers, low, n))
  {
    if n > 0 {
      RowMatchesIncreasing(j, triggers, low, n - 1);
    }
  }

  /** A position is matched exactly when it names a trigger of the table found in `low`. */
  lemma {:induction false} MatchesIff(table: seq<(string, seq<string>)>, low: string, n: nat, j: nat, t: nat)
    requires n <= |table|
    ensures (j, t) in Matches(table, low, n)
      <==> j < n && t < |table[j].1| && Contains(low, table[j].1[t])
  {
    if n > 0 {
      MatchesIff(table, low, n - 1, j, t);
      RowMatchesIff(n - 1, table[n - 1].1, low, |table[n - 1].1|, t);
    }
  }

  /** Matches come in table order, each at most once. */
  lemma {:induction false} MatchesIncreasing(table: seq<(string, seq<string>)>, low: string, n: nat)
    requires n <= |table|
    ensures LexIncreasing(Matches(table, low, n))
  {
    if n > 0 {
      MatchesIncreasing(table, low, n - 1);
      RowMatchesIncreasing(n - 1, table[n - 1].1, low, |table[n - 1].1|);
    }
  }

  /** With no trigger of the table in `low` there is no match. */
  lemma NoTriggerNoMatches(table: seq<(string, seq<string>)>, low: string)
    requires forall j, t :: 0 <= j < |table| && 0 <= t < |table[j].1| ==> !Contains(low, table[j].1[t])
    ensures Matches(table, low, |table|) == []
  {
    var m := Matches(table, low, |table|);
    if m != [] {
      MatchesIff(table, low, |table|, m[0].0, m[0].1);
    }
  }

  // ---------------------------------------------------------------------
  // Building events

  /** What `_create_event` stores for `trigger` of type `kind`. */
  ghost predicate IsEventFor(e: Event, text: string, trigger: string, kind: string, entities: Entities) {
    && e.kind == kind
    && e.trigger == trigger
    && e.actor == First(Get(entities, "Person"))
    && e.obj == First(Get(entities, "Product") + Get(entities, "products"))
    && e.time == First(Get(entities, "Date"))
    && e.location == First(Get(entities, "Location"))
    && e.sentiment == ExtractSentiment(text)
    && e.confidence == EventConfidence
  }

  /** `_create_event`: every slot starts empty and is overwritten with the first
      entity of its label when there is one. */
  method CreateEvent(text: string, trigger: string, kind: string, entities: Entities) returns (e: Event)
    ensures IsEventFor(e, text, trigger, kind, entities)
  {
    e := Event(kind, trigger, None, None, None, None, ExtractSentiment(text), EventConfidence);
    var persons := Get(entities, "Person");
    if persons != [] {
      e := e.(actor := Some(persons[0]));
    }
    var products := Get(entities, "Product") + Get(entities, "products");
    if products != [] {
      e := e.(obj := Some(products[0]));
    }
    var dates := Get(entities, "Date");
    if dates != [] {
      e := e.(time := Some(dates[0]));
    }
    var locations := Get(entities, "Location");
    if locations != [] {
      e := e.(location := Some(locations[0]));
    }
  }

  /** `events[k]` is the event of the `k`-th position of `table` in `found`. */
  ghost predicate EventsAt(table: seq<(string, seq<string>)>, events: seq<Event>, found: seq<(nat, nat)>,
                           text: string, entities: Entities) {
    |events| == |found|
    && forall k :: 0 <= k < |found| ==>
      var (j, t) := found[k];
      j < |table| && t < |table[j].1|
      && IsEventFor(events[k], text, table[j].1[t], table[j].0, entities)
  }

  lemma EventsAtAppend(table: seq<(string, seq<string>)>, events: seq<Event>, found: seq<(nat, nat)>,
                       text: string, entities: Entities, e: Event, j: nat, t: nat)
    requires EventsAt(table, events, found, text, entities)
    requires j < |table| && t < |table[j].1|
    requires IsEventFor(e, text, table[j].1[t], table[j].0, entities)
    ensures EventsAt(table, events + [e], found + [(j, t)], text, entities)
  {
    var es, fs := events + [e], found + [(j, t)];
    forall k | 0 <= k < |fs|
      ensures fs[k].0 < |table| && fs[k].1 < |table[fs[k].0].1|
        && IsEventFor(es[k], text, table[fs[k].0].1[fs[k].1], table[fs[k].0].0, entities)
    {
      if k < |found| {
        assert es[k] == events[k] && fs[k] == found[k];
      }
    }
  }

  /** One found trigger of the inner scan: its event joins the events, its position the row. */
  lemma ScanStep(table: seq<(string, seq<string>)>, events: seq<Event>, found: seq<(nat, nat)>, row: seq<(nat, nat)>,
                 text: string, entities: Entities, e: Event, j: nat, t: nat)
    requires EventsAt(table, events, found + row, text, entities)
    requires j < |table| && t < |table[j].1|
    requires IsEventFor(e, text, table[j].1[t], table[j].0, entities)
    ensures EventsAt(table, events + [e], found + (row + [(j, t)]), text, entities)
  {
    EventsAtAppend(table, events, found + row, text, entities, e, j, t);
    AppendAssoc(found, row, [(j, t)]);
  }

  /** The nested scan of `extract_events` over any trigger table. */
  method ScanTriggers(table: seq<(string, seq<string>)>, text: string, entities: Entities)
    returns (events: seq<Event>)
    ensures EventsAt(table, events, Matches(table, Lower(text), |table|), text, entities)
  {
    var low := Lower(text);
    events := [];
    ghost var found: seq<(nat, nat)> := [];
    for j: nat := 0 to |table|
      invariant found == Matches(table, low, j)
      invariant EventsAt(table, events, found, text, entities)
    {
      ghost var row;
      events, row := ScanRow(table, j, low, text, entities, events, found);
      found := found + row;
    }
  }

  /** The inner loop of the scan over the triggers of row `j`: an event for each trigger
      found in `low`, appended to `before`. */
  method ScanRow(table: seq<(string, seq<string>)>, j: nat, low: string, text: string, entities: Entities,
                 before: seq<Event>, ghost found: seq<(nat, nat)>)
    returns (events: seq<Event>, ghost row: seq<(nat, nat)>)
    requires j < |table|
    requires EventsAt(table, before, found, text, entities)
    ensures row == RowMatches(j, table[j].1, low, |table[j].1|)
    ensures EventsAt(table, events, found + row, text, entities)
  {
    var (kind, triggers) := table[j];
    events := before;
    row := [];
    for t: nat := 0 to |triggers|
      invariant row == RowMatches(j, triggers, low, t)
      invariant EventsAt(table, events, found + row, text, entities)
    {
      if Contains(low, triggers[t]) {
        var e := CreateEvent(text, triggers[t], kind, entities);
        ScanStep(table, events, found, row, text, entities, e, j, t);
        events := events + [e];
        row := row + [(j, t)];
      }
    }
  }

  /** `extract_events`: one event per (type, trigger) of the table whose trigger occurs
      in the lower-cased text, in table order. The `if event` guard always passes,
      since an event record is never empty. */
  method ExtractEvents(text: string, entities: Entities) returns (events: seq<Event>)
    ensures EventsAt(EventTriggers, events, Matches(EventTriggers, Lower(text), |EventTriggers|), text, entities)
  {
    events := ScanTriggers(EventTriggers, text, entities);
  }

  /** Every event of a call shares the whole-text sentiment and the fixed confidence, and
      names a trigger of the table, listed under its own type and found in the text. */
  lemma EventsAgree(text: string, entities: Entities, events: seq<Event>, k: nat)
    requires EventsAt(EventTriggers, events, Matches(EventTriggers, Lower(text), |EventTriggers|), text, entities)
    requires k < |events|
    ensures events[k].sentiment == ExtractSentiment(text) && events[k].confidence == 0.7
    ensures exists j, t ::
      (0 <= j < |EventTriggers| && 0 <= t < |EventTriggers[j].1|
       && events[k].kind == EventTriggers[j].0 && events[k].trigger == EventTriggers[j].1[t]
       && Contains(Lower(text), events[k].trigger))
  {
    var m := Matches(EventTriggers, Lower(text), |EventTriggers|);
    MatchesIff(EventTriggers, Lower(text), |EventTriggers|, m[k].0, m[k].1);
    assert m[k] in m;
  }
}
