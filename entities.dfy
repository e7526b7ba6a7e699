/** The entity dictionaries the extractors receive: a label mapped to the texts found
    under it (utils/event_extractor.py, utils/relationship_extractor.py). */
module EntityMaps {
  type Entities = map<string, seq<string>>

  /** `entities.get(key, [])`. */
  function Get(entities: Entities, key: string): (r: seq<string>)
    ensures key in entities ==> r == entities[key]
    ensures key !in entities ==> r == []
  {
    if key in entities then entities[key] else []
  }
}
