/**
 * The HTTP API's query parsers and the status decisions of the two id
 * routes, `GET /memories/:id` and `DELETE /memories/:id`.
 */
module Server {
  import opened Wrappers
  import opened Types
  import Text
  import Engine

  /** `parseCategory`, the lenient one: an unknown or missing category is no filter, never an error. */
  function ParseCategory(value: Option<string>): (r: Option<Category>)
    ensures r.Some? <==> value.Some? && value.value in CategoryNames
    ensures r.Some? ==> CategoryName(r.value) == value.value
  {
    if value.None? || value.value == "" then None
    else CategoryOf(value.value)
  }

  /** `parseTags`: a missing or empty parameter is no filter at all; otherwise the trimmed, non-empty comma pieces. */
  function ParseTags(value: Option<string>): (r: Option<seq<string>>)
    ensures r.None? <==> value.None? || value.value == ""
    ensures r.Some? ==> forall i :: 0 <= i < |r.value| ==> Text.IsCleanTag(r.value[i])
  {
    if value.None? || value.value == "" then None
    else
      Text.CommaListClean(value.value);
      Some(Text.CommaList(value.value))
  }

  /** A non-empty comma-joined tag list comes back unchanged. */
  lemma ParseTagsJoin(tags: seq<string>)
    requires |tags| > 0
    requires forall i :: 0 <= i < |tags| ==> Text.IsCleanTag(tags[i])
    ensures ParseTags(Some(Text.Join(tags, ","))) == Some(tags)
  {
    Text.CommaListJoin(tags);
  }

  /** A non-empty parameter of commas and blanks parses to an empty list, which filters nothing. */
  lemma OnlySeparatorsFilterNothing(v: string)
    requires v != ""
    requires forall i :: 0 <= i < |v| ==> v[i] == ',' || Text.IsWhitespace(v[i])
    ensures ParseTags(Some(v)) == Some([])
    ensures !TagFilterActive(ParseTags(Some(v)))
  {
    Text.CommaListOfSeparators(v);
  }

  /** What a route sends back. */
  datatype Body = Record(memory: MemoryRecord) | NotFound | Failure(cause: Engine.EngineError) | NoContent

  datatype Response = Response(status: int, body: Body)

  /** The answer of `GET /memories/:id` to what `get` returned. */
  function GetResponse(found: Option<MemoryRecord>): (r: Response)
    ensures r.status == 404 <==> found.None?
    ensures found.None? ==> r.body == NotFound
    ensures found.Some? ==> r.status == 200 && r.body == Record(found.value)
  {
    match found
    case None => Response(404, NotFound)
    case Some(m) => Response(200, Record(m))
  }

  /** The answer of `DELETE /memories/:id` to what `delete` returned or threw. */
  function DeleteResponse(outcome: Result<bool, Engine.EngineError>): (r: Response)
    ensures r.status == 204 <==> outcome == Ok(true)
    ensures r.status == 404 <==> outcome == Ok(false)
    ensures r.status == 400 <==> outcome.Err?
    ensures outcome.Err? ==> r.body == Failure(outcome.error)
  {
    match outcome
    case Ok(true) => Response(204, NoContent)
    case Ok(false) => Response(404, NotFound)
    case Err(e) => Response(400, Failure(e))
  }

  /** `GET /memories/:id`: 404 exactly when no record has the id; otherwise the record as the read boosted it. */
  method HandleGet(engine: Engine.MemoryEngine, id: string, now: int) returns (r: Response)
    requires engine.Valid()
    modifies engine.store
    ensures engine.Valid()
    ensures r.status == 404 <==> id !in old(engine.store.memories)
    ensures id in old(engine.store.memories) ==>
              && r.status == 200 && id in engine.store.memories
              && r.body == Record(engine.store.memories[id])
              && r.body.memory.id == id && r.body.memory.lastAccessed == now
  {
    var found := engine.Get(id, now);
    r := GetResponse(found);
  }

  /**
   * `DELETE /memories/:id`: 400 for an empty id, 204 when a record was
   * removed, 404 when there was none; in the last two cases no record with
   * the id remains.
   */
  method HandleDelete(engine: Engine.MemoryEngine, id: string, now: int) returns (r: Response)
    requires engine.Valid()
    modifies engine, engine.store, engine.wal
    ensures engine.Valid()
    ensures id == "" ==> r == Response(400, Failure(Engine.MissingId)) && engine.store.memories == old(engine.store.memories)
    ensures id != "" && id in old(engine.store.memories) ==> r == Response(204, NoContent)
    ensures id != "" && id !in old(engine.store.memories) ==> r == Response(404, NotFound)
    ensures id != "" ==> engine.store.memories == old(engine.store.memories) - {id}
  {
    var outcome := engine.Delete(id, now);
    r := DeleteResponse(outcome);
  }
}
