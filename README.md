# mizan-memory-engine in Dafny

This project models the persistence-and-ranking engine of the mizan agent
memory store.

Memories are records with eight fields: id, content, category, tags,
timestamp, importance, embedding and lastAccessed. They live in a SQLite
table. Every add and delete is first written to a line-per-entry
write-ahead log. The log is cleared after 20 pending writes and replayed at
start-up.

Records gain importance when `get` or `search` return them. A decay pass
lowers importance exponentially with the time since the last access, down to
a floor, and then prunes records that are both unimportant and old. A
summarize pass groups the non-preserved records by category. It replaces the
oldest members of each group of two or more with one summary record. Search
ranks the filtered records by `0.8 · cosine + 0.2 · keyword overlap`, sorts
them stably and keeps the first `limit`.

The modules follow the source files:

| module | source file | form |
|---|---|---|
| `Types` | `src/types.ts` | datatypes: the closed category set, records, inputs and options |
| `Store` | `src/store.ts` | class `MemoryStore` over a `map` from id to record; the listing and pruning are specified by functions |
| `Wal` | `src/wal.ts` | class `WriteAheadLog` whose file text is a `string` field; `readAll` is a function of that text |
| `Decay` | `src/decay.ts` | pure function with a floor; `Math.exp` is a parameter with laws |
| `Embeddings` | `src/embeddings.ts` | the cosine loop as a method proved against `Cosine`; the embedding client as an oracle that may fail |
| `Search` | `src/search.ts` | the keyword-score loop and `semanticSearch`, specified by `Ranked` |
| `Summarizer` | `src/summarizer.ts` | the grouping loop and the planning loop, specified by `Plans` |
| `Engine` | `src/index.ts` | class `MemoryEngine` over (store, log, pending counter) |
| `Cli`, `Server` | `src/cli.ts`, `src/server.ts` | the argument parsers and the status decisions of the id routes |
| `Seqs`, `Text`, `Wrappers` | — | the generic parts: filter, stable insertion sort, slicing, trim and split |

How some of the source's behaviour is modelled:

- SQL `ORDER BY timestamp DESC` and `Array.prototype.sort` both become one
  stable insertion sort, `Seqs.SortBy`, over a real-valued key. A descending
  order uses the negated key.
- The scan order of `SELECT * FROM memories` is unspecified. A method that
  scans returns the scan it saw as a ghost out-parameter, and its result is
  a function of that scan.
- `Date.now()` is read once per operation and becomes a `now` parameter,
  which also stamps that operation's log entries.
- `crypto.randomUUID()` is a nondeterministic choice. A chosen id may
  collide with a stored one. The insert then fails after the log entry is
  written, as in the source.
- `JSON.stringify`/`JSON.parse` of log entries become a `Codec`. Its law
  says that decoding an encoded entry gives the entry back, and that an
  encoded entry is one line with a visible character. A line that does not
  parse decodes to `None`, where `JSON.parse` throws.

Behaviour of the code that its documentation states differently; the model
follows the code:

- `delete` refuses only the empty id (`!id`). A whitespace-only id is
  logged and deleted like any other id.
- Log entries have the fields `op`, `memory`, `id` and `ts`.
- An input's importance is not range-checked. Only a boosted record is
  guaranteed an importance of at most 1 (`Engine.MemoryEngine.Get`).
- The tag filter of `listMemories` runs after LIMIT/OFFSET, not before.
  `Store.TagFilterAfterLimit` exhibits a record that matches and is still
  not listed.
- OFFSET without LIMIT is the one listing error (`Storage(OffsetWithoutLimit)`),
  because SQLite rejects that SQL.

## Model

| member | source | states |
|---|---|---|
| Types.CategoryOf | src/types.ts:1-8 | a name denotes a category iff it is one of the seven names, and that category's name is the input |
| Types.CategoryNamesExact | src/types.ts:1-8 | every category has one of the seven names, and only its own name denotes it |
| Store.MemoryStore.Open | src/store.ts:8-13 | opening a database gives a store holding exactly the existing table |
| Store.MemoryStore.AddMemory | src/store.ts:54-66 | a duplicate id fails and leaves the table untouched (no silent overwrite); a new id is inserted and nothing else changes |
| Store.MemoryStore.UpsertMemory | src/store.ts:68-88 | the record replaces every field under its id, no other id is affected, and the count grows by one iff the id was absent |
| Store.MemoryStore.GetMemory | src/store.ts:90-96 | returns the stored record iff the id is present, carrying that id |
| Store.MemoryStore.DeleteMemory | src/store.ts:98-103 | returns whether the id existed; afterwards it is gone, and the count drops by exactly one when it returned true |
| Store.MemoryStore.ListMemories | src/store.ts:105-151 | the answer is the listing of a scan of the current table |
| Store.ListingSound | src/store.ts:105-151 | listed records are rows of the table that satisfy category, truthy since/until and every requested tag; timestamps are non-increasing; a non-negative limit bounds the length; OFFSET without LIMIT is the only error |
| Store.ListingShape | src/store.ts:105-151 | listed rows come from the WHERE result, hold the tags, are sorted newest first and respect the limit |
| Store.ListingComplete | src/store.ts:109-148 | without limit or offset every row of the table that passes the WHERE clause and holds every requested tag is listed |
| Store.WindowOfSorted | src/store.ts:129-139 | LIMIT/OFFSET keep the contiguous run of rows starting at the offset (0 when missing or negative, at most the row count), of min(limit, rows left) rows, or all rows left when the limit is missing or negative; a window of sorted rows is sorted |
| Store.WithTagsSorted | src/store.ts:144-148 | the tag filter keeps, in their order, exactly the rows that hold every requested tag; an inactive filter keeps every row; sorted rows stay sorted |
| Store.TagFilterAfterLimit | src/store.ts:131-148 | with limit 1 and a tag held only by the older of two records, the listing is empty although a matching record exists |
| Store.MemoryStore.GetAllMemories | src/store.ts:153-158 | returns every record of the table exactly once, each under its own id |
| Store.MemoryStore.UpdateAccess | src/store.ts:160-164 | only lastAccessed of that one record changes; an absent id changes nothing |
| Store.MemoryStore.UpdateImportance | src/store.ts:166-170 | only importance of that one record changes; an absent id changes nothing |
| Store.MemoryStore.PruneBelowImportance | src/store.ts:172-179 | the table becomes the pruned table and the result counts the removed ids |
| Store.PruneCorrect | src/store.ts:172-179 | pruning removes exactly the records with importance below the threshold AND timestamp before the cutoff; every survivor fails one of the two conditions |
| Store.MemoryStore.Count | src/store.ts:181-186 | the count is the number of records in the table |
| Wal.WriteAheadLog.Create | src/wal.ts:17-20 | a log on a new path is an empty file and reads as no entries |
| Wal.WriteAheadLog.Reopen | src/wal.ts:54-62 | an existing log file holds the entries appended before |
| Wal.WriteAheadLog.Append | src/wal.ts:50-52 | the file grows by the encoded entry and a newline; the entry goes last |
| Wal.WriteAheadLog.AppendAdd | src/wal.ts:26-29 | exactly one add entry, carrying the record, is appended at the end |
| Wal.WriteAheadLog.AppendDelete | src/wal.ts:31-34 | exactly one delete entry, carrying the id, is appended at the end |
| Wal.WriteAheadLog.ReadAll | src/wal.ts:36-44 | reading the file gives back the appended entries in append order |
| Wal.WriteAheadLog.Clear | src/wal.ts:46-48 | after clearing, the file is empty and holds no entries |
| Wal.ReadLog | src/wal.ts:36-44 | a missing or blank file reads as no entries; a failure names a non-empty line of the file that does not parse |
| Wal.DecodeLines | src/wal.ts:43 | success parses every line on its own into the entry at the same position; failure names a line that does not parse |
| Wal.MalformedLineFails | src/wal.ts:43 | one malformed line makes the whole read fail; it is not skipped |
| Wal.SerializeAppend | src/wal.ts:50-52 | appending entries one by one writes the concatenation of their lines |
| Wal.SplitSerialized | src/wal.ts:40-41 | splitting the file on newlines gives one line per entry, then an empty piece |
| Wal.EncodedLinesKept | src/wal.ts:42 | dropping the empty pieces keeps exactly the encoded lines |
| Wal.DecodeEncoded | src/wal.ts:43 | parsing the encoded lines gives back the entries |
| Wal.SerializedNotBlank | src/wal.ts:39 | a file holding at least one entry is not blank |
| Wal.ReadSerialized | src/wal.ts:36-52 | round trip: reading a file written by appends gives back exactly the appended entries |
| Decay.AgeDays | src/decay.ts:13-14 | age is clamped at zero and measured in days since the last access |
| Decay.ApplyDecay | src/decay.ts:8-18 | the new importance is at least the floor, and every other field is copied |
| Decay.FactorOrder | src/decay.ts:15 | the decay factor lies in (0, 1] and does not grow with a later `now` |
| Decay.DecayWithoutAge | src/decay.ts:13-16 | when now is not after lastAccessed, the result is the larger of the floor and the old importance |
| Decay.DecayNeverRaises | src/decay.ts:15-16 | with rate and importance non-negative, the result is at most the larger of the floor and the old importance |
| Decay.DecayMonotoneInTime | src/decay.ts:13-16 | a later `now` never gives a larger importance |
| Embeddings.EmbeddingsClient.constructor | src/embeddings.ts:7-12 | the client is configured iff the key is non-empty |
| Embeddings.EmbeddingsClient.EmbedText | src/embeddings.ts:14-29 | an unconfigured client fails without a request; a configured one sends one request and returns a non-empty vector or fails |
| Embeddings.CosineSimilarity | src/embeddings.ts:32-46 | the loop's dot product and norms are the partial sums, and the answer is `Cosine` |
| Embeddings.SquaresNonNegative | src/embeddings.ts:40-41 | a squared norm is never negative |
| Embeddings.DotSymmetric | src/embeddings.ts:39 | the dot product is symmetric |
| Embeddings.CosineGuards | src/embeddings.ts:33-44 | the answer is 0 for different lengths, an empty vector, or a zero norm |
| Embeddings.CosineSymmetric | src/embeddings.ts:32-46 | the similarity of a and b equals that of b and a |
| Embeddings.CosineOrthogonal | src/embeddings.ts:45 | vectors with a zero dot product score 0 |
| Embeddings.CosineSelf | src/embeddings.ts:45 | a non-zero vector scores 1 against itself |
| Search.MatchCount | src/search.ts:10-13 | at most one match is counted per token |
| Search.KeywordScoreOf | src/search.ts:5-16 | the score lies in [0, 1], is 0 without tokens, and is 1 iff every token occurs in the lower-cased content and tags |
| Search.KeywordScore | src/search.ts:5-16 | the counting loop computes `KeywordScoreOf` |
| Search.CandidatesExact | src/search.ts:30-40 | candidates are exactly the scanned records that pass the category and tag filters |
| Search.RankedCorrect | src/search.ts:18-53 | results are a prefix of the sorted scored candidates, at most `limit` (default 10) of them; each carries an unchanged scanned record that passes the filters, with score 0.8·cosine + 0.2·keyword; scores are non-increasing |
| Search.RankedStable | src/search.ts:49 | results with equal scores keep their scan order |
| Search.SemanticSearch | src/search.ts:18-53 | an empty store gives no results without an embedding request; otherwise an unconfigured client fails, and a success returns the ranking of a scan of the store |
| Summarizer.Snippet | src/summarizer.ts:14-18 | a snippet is the trimmed content if it has at most 140 characters (scalar values), else its first 137 characters and "..."; never longer than 140 |
| Summarizer.SummarizeText | src/summarizer.ts:13-20 | the joined snippets take at most 141 characters (scalar values) per record; one record gives its snippet |
| Summarizer.Eligible | src/summarizer.ts:28 | only records below the preserve threshold are kept |
| Summarizer.GroupOf | src/summarizer.ts:26-31 | a group holds only records of its category |
| Summarizer.CategoriesOf | src/summarizer.ts:26-31 | the map's keys: no category twice, and every record's category present |
| Summarizer.CategoryPresent | src/summarizer.ts:29-31 | a key of the map has a non-empty group |
| Summarizer.GroupedStep | src/summarizer.ts:29-31 | pushing a record onto its category's list keeps the map describing the records seen, with a new key last |
| Summarizer.GroupingStep | src/summarizer.ts:27-32 | one turn of the grouping loop, including the skip of a preserved record, keeps that description |
| Summarizer.GroupEligible | src/summarizer.ts:26-32 | the grouping loop maps each category, in first-appearance order, to its eligible records in input order |
| Summarizer.PlanGroup | src/summarizer.ts:35-55 | a group of two or more adds one plan for its oldest records; a smaller group adds none |
| Summarizer.PlanGroups | src/summarizer.ts:34-56 | the planning loop returns `PlansFor` over the map's key order |
| Summarizer.BuildSummaries | src/summarizer.ts:22-59 | the two loops compute `Plans` |
| Summarizer.PlansForShape | src/summarizer.ts:33-56 | one plan per category with at least two records, in key order, each built from that group's oldest records |
| Summarizer.PlanSlice | src/summarizer.ts:36-39 | a plan's sources number min(group size, maxGroupSize); they are eligible records of the category, oldest first, a prefix of the stably sorted group |
| Summarizer.BuildSummariesShape | src/summarizer.ts:22-59 | no category is planned twice; every planned group has two or more records; sources are the ids of its oldest records, capped; the summary has the group's category, tags ["summary"], importance equal to the threshold, and timestamp now |
| Summarizer.PlanSources | src/summarizer.ts:54 | each plan's sourceIds are the ids of its category's oldest eligible records |
| Summarizer.PlansDisjoint | src/summarizer.ts:34-56 | with distinct ids, no id is a source of two plans |
| Summarizer.PlanSourcesDistinct | src/summarizer.ts:34-56 | with distinct ids, each plan's sources are distinct ids of input records |
| Summarizer.FirstOf | src/summarizer.ts:26-31 | the position of a category's first record, or past the end if it has none |
| Summarizer.CategoriesInFirstAppearanceOrder | src/summarizer.ts:26-31 | the map's keys come in order of first appearance |
| Summarizer.PlansInFirstAppearanceOrder | src/summarizer.ts:26-35 | plans come in the order of their categories' first eligible records |
| Engine.ValidateInput | src/index.ts:227-237 | input is accepted iff the content is not blank and the category is one of the seven; blank content and an empty category fail with their own errors |
| Engine.NewRecord | src/index.ts:63-79 | a new record has lastAccessed equal to its timestamp and trimmed content |
| Engine.NewRecordDefaults | src/index.ts:64-67 | defaults: importance 0.5, tags [], timestamp now; a given importance is kept unchecked |
| Engine.Replay | src/index.ts:215-222 | replay keeps a table keyed by its records' ids |
| Engine.ReplayAt | src/index.ts:211-225 | after replay, each id is decided by the last entry about it: an add leaves that entry's record, a delete leaves nothing, and an untouched id keeps its old row |
| Engine.ReplayIdempotent | src/index.ts:211-225 | replaying the same log twice gives the same table as once |
| Engine.ReplayMatchesStore | src/index.ts:216-221 | an add entry replays as an upsert and a delete entry as a delete |
| Engine.ApplyOne | src/index.ts:216-221 | applying one entry to the store performs that entry's replay step |
| Engine.ApplyLog | src/index.ts:215-222 | the replay loop leaves the store equal to `Replay` of the entries |
| Engine.MemoryEngine.RecoverWal | src/index.ts:211-225 | recovery replays the log onto the store and leaves the log empty; an empty log changes nothing |
| Engine.MemoryEngine.constructor | src/index.ts:41-59 | start-up replays the previous log onto the existing table and clears it; options default to 0.05, 200 and 0.7 |
| Engine.MemoryEngine.FlushWal | src/index.ts:186-189 | the log is cleared and the counter reset to 0 |
| Engine.MemoryEngine.MaybeFlushWal | src/index.ts:204-209 | the counter grows by one, and on reaching 20 the log is cleared and the counter reset, so between calls it stays below 20 |
| Engine.MemoryEngine.AddMemory | src/index.ts:61-86 | invalid input fails before any embedding, log or store effect; an embedding failure changes nothing; on success the entry is logged before the store gains the new record under a previously unused id; an id collision leaves the logged entry but not the record |
| Engine.BoostAllAt | src/index.ts:101-106 | after the boost loop, each returned record has lastAccessed now and importance min(1, old + amount); all other records are unchanged |
| Engine.BoostResults | src/index.ts:101-106 | the boost loop leaves the store equal to `BoostAll` |
| Engine.SearchBoosts | src/index.ts:88-109 | a search boosts every stored record it returned by 0.03, capped at 1, and changes nothing else |
| Engine.MemoryEngine.Search | src/index.ts:88-109 | a blank query fails with nothing changed; a success returns the ranking of the pre-search records and then boosts them |
| Engine.MemoryEngine.List | src/index.ts:111-113 | the engine lists what the store lists |
| Engine.MemoryEngine.Get | src/index.ts:115-125 | an absent id gives null and changes nothing; a hit is stored and returned with lastAccessed now and importance min(1, old + 0.02), never above 1 |
| Engine.MemoryEngine.Delete | src/index.ts:127-133 | the empty id is refused with nothing logged; otherwise the delete is logged first, the id is removed, and the answer says whether it existed |
| Engine.MemoryEngine.Summarize | src/index.ts:135-162 | below the threshold the answer is {0, 0} and nothing changes; otherwise the plans are built from a scan of the store, and a success counts one summary per plan and exactly one deletion per source id |
| Engine.PlansStored | src/index.ts:141-145 | the plans built from a scan of the store have distinct stored sources, none shared by two plans |
| Engine.MemoryEngine.CarryOutAll | src/index.ts:147-161 | carrying out the plans counts one summary per plan and at most the total number of source ids as deleted, exactly that number when the sources are distinct stored records shared by no two plans |
| Engine.MemoryEngine.CarryOut | src/index.ts:150-158 | after one plan, none of its source ids remain and at most one deletion per source id is counted; when the sources are distinct stored records not shared with the later plans, exactly one per source id is counted and the later plans' sources stay stored |
| Engine.MemoryEngine.DeleteSources | src/index.ts:154-158 | deleting the sources removes exactly those ids and counts the distinct ids that were stored; only an empty id fails |
| Engine.ElementsCount | src/index.ts:154-158 | the deletions counted never exceed the number of source ids |
| Engine.DecayStep | src/index.ts:169-178 | one turn of the decay loop changes a record's importance only when the decayed value differs, and counts it then |
| Engine.DecayedAll | src/index.ts:169-178 | after every record has had its turn, the loop's table and count are those of the whole decay pass |
| Engine.DecayAll | src/index.ts:164-178 | the decay loop stores the decayed importance of every record and counts exactly the records whose importance changed |
| Engine.DecayPassResult | src/index.ts:164-184 | a record that survives decay and prune was stored before, differs only in importance, stays at least 0.05 and at most max(0.05, old importance), and is not both below 0.1 and older than a year |
| Engine.MemoryEngine.Decay | src/index.ts:164-184 | the store becomes the decayed table pruned at 0.1 and one year before now; `updated` counts changed importances and `pruned` counts removed records |
| Engine.MemoryEngine.Health | src/index.ts:191-198 | health reports ok and the number of stored records |
| Text.TrimCorrect | src/index.ts:228 | trimming gives the empty string iff the text is blank, and otherwise starts and ends with a non-whitespace character |
| Text.CommaListClean | src/cli.ts:24-27 | every tag from splitting on commas, trimming and dropping empties is non-empty, trimmed and comma-free |
| Text.CommaListJoin | src/cli.ts:24-27 | parsing clean tags joined by commas gives the tags back |
| Seqs.SortByCorrect | src/search.ts:49 | the sort is sorted and a stable permutation: for every key, the elements with that key keep their order |
| Seqs.SortedSliceStable | src/search.ts:49-52 | a prefix of the stable sort keeps, for every key, the input order of the elements with that key |
| Seqs.SliceTo | src/search.ts:51-52 | `slice(0, end)` returns a prefix of the JavaScript length, counting a negative end from the back |
| Cli.ParseCategory | src/cli.ts:15-20 | returns the category iff the value is one of the seven, and otherwise fails with "Invalid category: " and the value |
| Cli.ParseTags | src/cli.ts:22-28 | an empty or absent value gives []; every tag is non-empty, trimmed and comma-free |
| Cli.ParseTagsJoin | src/cli.ts:22-28 | clean tags joined by commas parse back to themselves |
| Cli.UnitMs | src/cli.ts:37-42 | only s, m, h and d have a unit, each a positive number of whole seconds |
| Cli.ParseDurationMs | src/cli.ts:30-45 | a duration is recognised iff the value is digits followed by one of s, m, h, d; its value is digits times the unit |
| Cli.ParseFormattedDuration | src/cli.ts:30-45 | a number followed by a unit parses to the number times 1000, 60000, 3600000 or 86400000 |
| Cli.Since | src/cli.ts:109-110 | `since` is set iff the duration parses to a non-zero value, and then lies that many milliseconds before now |
| Cli.ZeroDurationHasNoSince | src/cli.ts:109-110 | a zero duration such as "0d" parses to 0 and yields no `since` filter |
| Cli.PositiveDurationSince | src/cli.ts:109-110 | a positive duration sets `since` to now minus the duration |
| Server.ParseCategory | src/server.ts:14-22 | a category is returned iff the value is present and one of the seven; it never fails |
| Server.ParseTags | src/server.ts:24-30 | an empty or absent value gives no filter, not []; every tag is non-empty, trimmed and comma-free |
| Server.ParseTagsJoin | src/server.ts:24-30 | clean tags joined by commas parse back to themselves |
| Server.OnlySeparatorsFilterNothing | src/server.ts:24-30 | every non-empty value made only of commas and whitespace gives [], which filters nothing |
| Server.GetResponse | src/server.ts:102-110 | 404 iff the engine found nothing, otherwise 200 with the record |
| Server.HandleGet | src/server.ts:102-110 | the GET route answers 404 iff the id is not stored |
| Server.DeleteResponse | src/server.ts:112-123 | 204 iff a record was removed, 404 iff none was, 400 iff the engine refused |
| Server.HandleDelete | src/server.ts:112-123 | the DELETE route answers 400 for the empty id, 204 for a stored id and 404 otherwise, and removes the id |

## Left out

- Closing the database and the path getters (src/store.ts:15-17, src/store.ts:188-190, src/wal.ts:22-24, src/index.ts:200-202) are not modelled, and neither are the `dbPath`/`walPath` fields of `health`: they concern the host only.
- SQL text generation, PRAGMA, indexes and the row (de)serialisation (src/store.ts:19-52, src/store.ts:192-211) are left out. The table is a map from id to record.
- Store errors other than the duplicate-id insert and OFFSET without LIMIT are not modelled.
- File-system I/O of the log (existsSync, mkdirSync, reading and writing) is left out. The file is a `string` field, and directory creation is not modelled.
- A log that is corrupted on disk appears only at function level (`Wal.ReadLog`, `Wal.DecodeLines`, `Wal.MalformedLineFails`). The class invariant says the file always holds what was appended. The engine's constructor receives the previous log's entries, so a start-up that throws on a malformed log is not modelled.
- `JSON.stringify`/`JSON.parse` are a `Codec` parameter with a round-trip law. `Math.exp`, `Math.sqrt` and `toISOString` are parameters with laws (`exp(0) = 1`, `0 < exp(x) <= 1` for `x <= 0`, and `exp` monotone; `sqrt(x) >= 0` and `sqrt(x) * sqrt(x) = x` for `x >= 0`).
- Floating point is modelled as `real`: rounding, NaN and the float tolerances of the tests are left out.
- `Date.now()` is the `now` parameter, `crypto.randomUUID()` a nondeterministic choice, and `Date.parse` together with the server's `parseDate` is not modelled.
- `Number(...)` conversions of limit and importance in the CLI and server are not modelled. `Cli.DigitsValue` computes the exact value of the digits, without the precision loss of large numbers.
- Lower-casing and `\s+` splitting cover ASCII only: Unicode case folding and Unicode whitespace are left out.
- The OpenAI request is an oracle. A configured client either fails or returns a non-empty vector, and the model name is not modelled.
- async/await interleaving is left out: every call runs to completion before the next starts.
- Commander and Express wiring, the other routes and commands, `process.env` defaults and console output are left out. Only the parsers and the status decisions of the id routes are modelled.
- The in-place `group.sort` of the planner and `scored.sort` of search are modelled on values, as a stable sort returning a new sequence.
- The decay lemmas assume a non-negative rate; the source does not check the rate.
- Engine.MemoryEngine.Summarize: states both counts exactly, but not which records remain. Summary ids come from `randomUUID` and are only known to be new relative to the store at the time of each add.
- Engine.MemoryEngine.CarryOutAll: the deletion count is exact only for plans whose sources are distinct stored records shared by no two plans, as those of `summarize` are; for other plans it is a bound.
- Engine.MemoryEngine.CarryOut: states that the plan's sources are gone and the count, but not what happens to the summary record.
- Summarizer.Snippet: strings are sequences of Unicode scalar values, while `.length` and `slice` count UTF-16 code units. Content with characters outside the Basic Multilingual Plane is therefore cut at another place than in the source, which may even split a surrogate pair.
- Summarizer.SummarizeText: the 141-per-record bound counts Unicode scalar values, not UTF-16 code units, for the same reason as Summarizer.Snippet.
- Replay (src/index.ts:211-225) is modelled as written. A delete entry whose id is empty is skipped, because `entry.id` is falsy. It undoes boosts and decay changes that were never logged, and it brings back records pruned by decay whose add is still in the log. `Engine.ReplayAt` states this exactly.
