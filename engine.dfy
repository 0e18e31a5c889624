/**
 * The memory engine: validates input, fills in defaults, writes each add
 * and delete to the log before applying it to the store, clears the log
 * after every 20 writes, boosts records on access, runs the summarize and
 * decay passes, and replays the log when it starts.
 */
module Engine {
  import opened Wrappers
  import opened Types
  import Text
  import Store
  import Wal
  import DecayModule = Decay
  import Embeddings
  import SearchModule = Search
  import Summarizer

  /** The log is cleared once this many writes are pending. */
  const WalFlushThreshold := 20
  const DefaultImportance := 0.5
  const DefaultDecayRate := 0.05
  const DefaultSummaryThreshold := 200
  const DefaultPreserveImportance := 0.7
  /** Added to importance when `get` returns a record. */
  const GetBoost := 0.02
  /** Added to importance when `search` returns a record. */
  const SearchBoost := 0.03
  /** The decay floor. */
  const MinimumImportance := 0.05
  /** Decay prunes records below this importance... */
  const PruneImportance := 0.1
  /** ...that are older than a year. */
  const MsPerYear := 1000 * 60 * 60 * 24 * 365
  const SummaryGroupSize := 12

  /** The host functions the engine relies on: `Math.exp`, `Math.sqrt`, `Date.prototype.toISOString`. */
  datatype Platform = Platform(exp: real -> real, sqrt: real -> real, isoTime: int -> string)

  ghost predicate PlatformLaws(p: Platform) {
    DecayModule.ExpLaws(p.exp) && Embeddings.SqrtLaws(p.sqrt)
  }

  /** The optional settings of `MemoryEngineOptions` that affect behaviour. */
  datatype EngineOptions = EngineOptions(
    decayRate: Option<real>,
    summaryThreshold: Option<int>,
    preserveImportanceThreshold: Option<real>,
    apiKey: string)

  datatype EngineError =
    | ContentRequired
    | CategoryRequired
    | InvalidCategory(name: string)
    | EmptyQuery
    | MissingId
    | Embedding(cause: Embeddings.EmbedError)
    | Storage(failure: Store.StoreError)

  datatype HealthStatus = HealthStatus(ok: bool, memoryCount: nat)

  function Min(a: real, b: real): (r: real)
    ensures r <= a && r <= b && (r == a || r == b)
  {
    if a <= b then a else b
  }

  // Input checks and defaults

  /** `assertValidInput`: blank content, then a missing category, then an unknown category are refused. */
  function ValidateInput(input: MemoryInput): (r: Result<Category, EngineError>)
    ensures r.Ok? <==> !Text.IsBlank(input.content) && input.category in CategoryNames
    ensures r.Ok? ==> CategoryName(r.value) == input.category
    ensures Text.IsBlank(input.content) ==> r == Err(ContentRequired)
    ensures !Text.IsBlank(input.content) && input.category == "" ==> r == Err(CategoryRequired)
  {
    Text.TrimCorrect(input.content);
    var named := CategoryOf(input.category);
    if Text.Trim(input.content) == [] then Err(ContentRequired)
    else if input.category == "" then Err(CategoryRequired)
    else if named.None? then Err(InvalidCategory(input.category))
    else Ok(named.value)
  }

  /** The record `addMemory` stores for a valid input. */
  function NewRecord(input: MemoryInput, category: Category, id: string, now: int, embedding: seq<real>): (m: MemoryRecord)
    ensures m.lastAccessed == m.timestamp
    ensures !Text.IsBlank(input.content) ==>
              m.content != [] && !Text.IsWhitespace(m.content[0]) && !Text.IsWhitespace(m.content[|m.content| - 1])
  {
    var content := Text.Trim(input.content);
    Text.TrimCorrect(input.content);
    var timestamp := input.timestamp.GetOr(now);
    MemoryRecord(id, content, category, input.tags.GetOr([]), timestamp,
                 input.importance.GetOr(DefaultImportance), embedding, timestamp)
  }

  /** The defaults of a new record: importance 0.5, no tags, timestamp now; an importance given is kept as is. */
  lemma NewRecordDefaults(input: MemoryInput, category: Category, id: string, now: int, embedding: seq<real>)
    ensures var m := NewRecord(input, category, id, now, embedding);
            && (input.importance.None? ==> m.importance == DefaultImportance)
            && (input.importance.Some? ==> m.importance == input.importance.value)
            && (input.tags.None? ==> m.tags == [])
            && (input.timestamp.None? ==> m.timestamp == now && m.lastAccessed == now)
            && m.category == category && m.id == id && m.embedding == embedding
  {
  }

  // Log replay

  /** Whether a log entry is about `id`, as replay reads it. */
  predicate Touches(e: Wal.WalEntry, id: string) {
    || (e.op == Wal.Add && e.memory.Some? && e.memory.value.id == id)
    || (e.op == Wal.Delete && e.id.Some? && e.id.value != "" && e.id.value == id)
  }

  /** One step of `recoverWal`: an add with a record upserts it, a delete with a non-empty id deletes it. */
  function ApplyEntry(table: map<string, MemoryRecord>, e: Wal.WalEntry): map<string, MemoryRecord> {
    if e.op == Wal.Add && e.memory.Some? then table[e.memory.value.id := e.memory.value]
    else if e.op == Wal.Delete && e.id.Some? && e.id.value != "" then table - {e.id.value}
    else table
  }

  /** The table after replaying `entries` in order. */
  function Replay(table: map<string, MemoryRecord>, entries: seq<Wal.WalEntry>): (r: map<string, MemoryRecord>)
    ensures Store.WellKeyed(table) ==> Store.WellKeyed(r)
  {
    if entries == [] then table
    else ApplyEntry(Replay(table, entries[..|entries| - 1]), entries[|entries| - 1])
  }

  /** The last entry about `id`, if any. */
  function LastTouch(entries: seq<Wal.WalEntry>, id: string): (r: Option<Wal.WalEntry>)
    ensures r.Some? ==> r.value in entries && Touches(r.value, id)
  {
    if entries == [] then None
    else if Touches(entries[|entries| - 1], id) then Some(entries[|entries| - 1])
    else LastTouch(entries[..|entries| - 1], id)
  }

  /**
   * After replay, a record is decided by the last entry about its id: an
   * add leaves that entry's record, a delete leaves nothing, and an id no
   * entry mentions keeps its row from before.
   */
  lemma {:induction false} ReplayAt(table: map<string, MemoryRecord>, entries: seq<Wal.WalEntry>, id: string)
    ensures var r := Replay(table, entries);
            match LastTouch(entries, id)
            case None => (id in r <==> id in table) && (id in table ==> r[id] == table[id])
            case Some(e) =>
              if e.op == Wal.Add then id in r && r[id] == e.memory.value else id !in r
  {
    if entries != [] {
      ReplayAt(table, entries[..|entries| - 1], id);
    }
  }

  lemma ReplayStep(table: map<string, MemoryRecord>, entries: seq<Wal.WalEntry>, i: nat)
    requires i < |entries|
    ensures Replay(table, entries[..i + 1]) == ApplyEntry(Replay(table, entries[..i]), entries[i])
  {
    assert entries[..i + 1][..i] == entries[..i];
  }

  /** Replaying the same log a second time changes nothing: replay is idempotent. */
  lemma ReplayIdempotent(table: map<string, MemoryRecord>, entries: seq<Wal.WalEntry>)
    ensures Replay(Replay(table, entries), entries) == Replay(table, entries)
  {
    var once := Replay(table, entries);
    var twice := Replay(once, entries);
    forall id ensures (id in twice <==> id in once) && (id in once ==> twice[id] == once[id]) {
      ReplayAt(table, entries, id);
      ReplayAt(once, entries, id);
    }
  }

  /** Replaying an add of a new record and a delete acts like the store's insert and delete. */
  lemma ReplayMatchesStore(table: map<string, MemoryRecord>, m: MemoryRecord, id: string, ts: int)
    requires id != ""
    ensures Replay(table, [Wal.AddEntry(m, ts)]) == table[m.id := m]
    ensures Replay(table, [Wal.DeleteEntry(id, ts)]) == table - {id}
  {
    assert [Wal.AddEntry(m, ts)][..0] == [];
    assert [Wal.DeleteEntry(id, ts)][..0] == [];
  }

  // Access boosts

  /** `updateAccess(id, now)` then `updateImportance(id, min(1, importance + amount))` for a record read earlier. */
  function Boost(table: map<string, MemoryRecord>, m: MemoryRecord, now: int, amount: real): map<string, MemoryRecord> {
    if m.id in table then table[m.id := table[m.id].(lastAccessed := now, importance := Min(1.0, m.importance + amount))]
    else table
  }

  function BoostAll(table: map<string, MemoryRecord>, results: seq<SearchResult>, now: int, amount: real): map<string, MemoryRecord> {
    if results == [] then table
    else Boost(BoostAll(table, results[..|results| - 1], now, amount), results[|results| - 1].memory, now, amount)
  }

  lemma BoostAllStep(table: map<string, MemoryRecord>, results: seq<SearchResult>, i: nat, now: int, amount: real)
    requires i < |results|
    ensures BoostAll(table, results[..i + 1], now, amount) == Boost(BoostAll(table, results[..i], now, amount), results[i].memory, now, amount)
  {
    assert results[..i + 1][..i] == results[..i];
  }

  predicate Returned(results: seq<SearchResult>, id: string) {
    exists i :: 0 <= i < |results| && results[i].memory.id == id
  }

  /**
   * After a search, every returned record that is still stored has been
   * accessed now and boosted by `amount`, capped at 1; all else is as before.
   */
  lemma {:induction false} BoostAllAt(table: map<string, MemoryRecord>, results: seq<SearchResult>, now: int, amount: real, id: string)
    requires forall i :: 0 <= i < |results| ==> results[i].memory.id in table && table[results[i].memory.id] == results[i].memory
    ensures var r := BoostAll(table, results, now, amount);
            && r.Keys == table.Keys
            && (id in table && Returned(results, id) ==>
                  r[id] == table[id].(lastAccessed := now, importance := Min(1.0, table[id].importance + amount)))
            && (id in table && !Returned(results, id) ==> r[id] == table[id])
  {
    if results != [] {
      var init := results[..|results| - 1];
      BoostAllAt(table, init, now, amount, id);
      if !Returned(init, id) && Returned(results, id) {
        assert results[|results| - 1].memory.id == id;
      }
      if Returned(init, id) {
        var i :| 0 <= i < |init| && init[i].memory.id == id;
        assert results[i].memory.id == id;
      }
    }
  }

  /**
   * What a successful search leaves behind: every stored record it returned
   * has been accessed now and boosted by 0.03, capped at 1, and every other
   * record is unchanged; no record appears or disappears.
   */
  lemma SearchBoosts(table: map<string, MemoryRecord>, scan: seq<MemoryRecord>, queryVector: seq<real>, keyword: string,
                     o: SearchOptions, sqrt: real -> real, now: int, id: string)
    requires Embeddings.SqrtLaws(sqrt) && Store.IsScanOf(scan, table)
    ensures var results := SearchModule.Ranked(scan, queryVector, keyword, o, sqrt);
            var r := BoostAll(table, results, now, SearchBoost);
            && r.Keys == table.Keys
            && (id in table && Returned(results, id) ==>
                  r[id] == table[id].(lastAccessed := now, importance := Min(1.0, table[id].importance + SearchBoost)))
            && (id in table && !Returned(results, id) ==> r[id] == table[id])
  {
    var results := SearchModule.Ranked(scan, queryVector, keyword, o, sqrt);
    SearchModule.RankedCorrect(scan, queryVector, keyword, o, sqrt);
    forall i | 0 <= i < |results|
      ensures results[i].memory.id in table && table[results[i].memory.id] == results[i].memory
    {
      var k :| 0 <= k < |scan| && scan[k] == results[i].memory;
    }
    BoostAllAt(table, results, now, SearchBoost, id);
  }

  // Decay pass

  /** Every record decayed at `now`. */
  function DecayedTable(table: map<string, MemoryRecord>, now: int, rate: real, exp: real -> real): map<string, MemoryRecord> {
    map id | id in table :: DecayModule.ApplyDecay(table[id], now, rate, MinimumImportance, exp)
  }

  /** The ids whose importance decay actually changes. */
  function ChangedByDecay(table: map<string, MemoryRecord>, now: int, rate: real, exp: real -> real): set<string> {
    set id | id in table && DecayModule.ApplyDecay(table[id], now, rate, MinimumImportance, exp).importance != table[id].importance
  }

  /** The table with the records whose ids are in `done` decayed at `now` and the others untouched. */
  function PartlyDecayed(table: map<string, MemoryRecord>, done: set<string>, now: int, rate: real, exp: real -> real): map<string, MemoryRecord> {
    map id | id in table :: if id in done then DecayModule.ApplyDecay(table[id], now, rate, MinimumImportance, exp) else table[id]
  }

  /** The ids in `done` whose importance decay changes. */
  function ChangedAmong(table: map<string, MemoryRecord>, done: set<string>, now: int, rate: real, exp: real -> real): set<string> {
    set id | id in done && id in table && DecayModule.ApplyDecay(table[id], now, rate, MinimumImportance, exp).importance != table[id].importance
  }

  /** Decaying one more record `m`: its row gets the decayed importance when that differs, and is counted then. */
  lemma DecayStep(table: map<string, MemoryRecord>, done: set<string>, m: MemoryRecord, now: int, rate: real, exp: real -> real)
    requires m.id in table && table[m.id] == m && m.id !in done
    ensures var d := DecayModule.ApplyDecay(m, now, rate, MinimumImportance, exp);
            var before := PartlyDecayed(table, done, now, rate, exp);
            && m.id in before && before[m.id] == m
            && PartlyDecayed(table, done + {m.id}, now, rate, exp)
                 == (if d.importance != m.importance then before[m.id := m.(importance := d.importance)] else before)
            && |ChangedAmong(table, done + {m.id}, now, rate, exp)|
                 == |ChangedAmong(table, done, now, rate, exp)| + (if d.importance != m.importance then 1 else 0)
  {
    var d := DecayModule.ApplyDecay(m, now, rate, MinimumImportance, exp);
    var changed := ChangedAmong(table, done, now, rate, exp);
    assert m.id !in changed;
    if d.importance != m.importance {
      assert ChangedAmong(table, done + {m.id}, now, rate, exp) == changed + {m.id};
    } else {
      assert ChangedAmong(table, done + {m.id}, now, rate, exp) == changed;
    }
  }

  /** Decaying every id of the table is the decay pass. */
  lemma DecayedAll(table: map<string, MemoryRecord>, now: int, rate: real, exp: real -> real)
    ensures PartlyDecayed(table, table.Keys, now, rate, exp) == DecayedTable(table, now, rate, exp)
    ensures ChangedAmong(table, table.Keys, now, rate, exp) == ChangedByDecay(table, now, rate, exp)
  {
  }

  /**
   * After the decay pass and the prune, every surviving record was stored
   * before, differs from its old row at most in importance, has not gained
   * importance above the larger of the floor and its old importance, and is
   * not both below 0.1 and more than a year old.
   */
  lemma DecayPassResult(table: map<string, MemoryRecord>, now: int, rate: real, exp: real -> real, id: string)
    requires DecayModule.ExpLaws(exp) && rate >= 0.0
    ensures var r := Store.Pruned(DecayedTable(table, now, rate, exp), PruneImportance, now - MsPerYear);
            id in r ==>
              && id in table
              && r[id] == table[id].(importance := r[id].importance)
              && r[id].importance >= MinimumImportance
              && (table[id].importance >= 0.0 ==> r[id].importance <= DecayModule.Max(MinimumImportance, table[id].importance))
              && (r[id].importance >= PruneImportance || r[id].timestamp >= now - MsPerYear)
  {
    var decayed := DecayedTable(table, now, rate, exp);
    Store.PruneCorrect(decayed, PruneImportance, now - MsPerYear);
    if id in table && table[id].importance >= 0.0 {
      DecayModule.DecayNeverRaises(table[id], now, rate, MinimumImportance, exp);
    }
  }

  /** Positions before `i` of a scan hold other ids than position `i`. */
  lemma ScanPrefixIds(scan: seq<MemoryRecord>, i: nat)
    requires DistinctIds(scan) && i < |scan|
    ensures scan[i].id !in IdsOf(scan[..i])
    ensures IdsOf(scan[..i + 1]) == IdsOf(scan[..i]) + {scan[i].id}
  {
    assert scan[..i + 1] == scan[..i] + [scan[i]];
    IdsOfAppend(scan[..i], scan[i]);
    forall j | 0 <= j < i ensures scan[..i][j].id != scan[i].id {
      assert scan[..i][j] == scan[j];
    }
  }

  /** The distinct strings of `ids`. */
  function ElementsOf(ids: seq<string>): (r: set<string>)
    ensures forall x :: x in r <==> x in ids
  {
    set i | 0 <= i < |ids| :: ids[i]
  }

  lemma ElementsOfStep(ids: seq<string>, j: nat)
    requires j < |ids|
    ensures ElementsOf(ids[..j + 1]) == ElementsOf(ids[..j]) + {ids[j]}
  {
    assert ids[..j + 1] == ids[..j] + [ids[j]];
  }

  /** Adding `x` to `done` grows the part of `keys` already covered by one exactly when `x` is a new key. */
  lemma CountStep(keys: set<string>, done: set<string>, x: string)
    ensures |keys * (done + {x})| == |keys * done| + (if x in keys && x !in done then 1 else 0)
  {
    if x in keys && x !in done {
      assert keys * (done + {x}) == (keys * done) + {x};
    } else {
      assert keys * (done + {x}) == keys * done;
    }
  }

  /** At most one stored record per listed id. */
  lemma {:induction false} ElementsCount(keys: set<string>, ids: seq<string>)
    ensures |keys * ElementsOf(ids)| <= |ids|
  {
    if ids == [] {
      assert keys * ElementsOf(ids) == {};
    } else {
      var init := ids[..|ids| - 1];
      ElementsCount(keys, init);
      ElementsOfStep(ids, |ids| - 1);
      assert ids[..|ids|] == ids;
      CountStep(keys, ElementsOf(init), ids[|ids| - 1]);
    }
  }

  /** Deleting one more id from a store that has lost `done` keeps the running count of removed records exact. */
  lemma DeleteCountStep(original: map<string, MemoryRecord>, done: set<string>, id: string,
                        before: map<string, MemoryRecord>, after: map<string, MemoryRecord>, deleted: nat, removed: bool)
    requires before == original - done && deleted == |original.Keys * done|
    requires after == before - {id} && removed == (id in before)
    ensures after == original - (done + {id})
    ensures (if removed then deleted + 1 else deleted) == |original.Keys * (done + {id})|
  {
    CountStep(original.Keys, done, id);
  }

  /** The number of source ids over all plans. */
  function SourceCount(plans: seq<Summarizer.SummaryPlan>): nat {
    if plans == [] then 0 else SourceCount(plans[..|plans| - 1]) + |plans[|plans| - 1].sourceIds|
  }

  /**
   * Plans whose sources are distinct stored ids within each plan and shared
   * by no two plans.
   */
  ghost predicate SourcesStored(plans: seq<Summarizer.SummaryPlan>, keys: set<string>) {
    && (forall k :: 0 <= k < |plans| ==> Summarizer.DistinctIn(plans[k].sourceIds, keys))
    && (forall k, l, i, j :: 0 <= k < l < |plans| && 0 <= i < |plans[k].sourceIds| && 0 <= j < |plans[l].sourceIds| ==>
          plans[k].sourceIds[i] != plans[l].sourceIds[j])
  }

  /** Distinct stored ids name as many stored records as there are ids. */
  lemma {:induction false} DistinctElements(ids: seq<string>, keys: set<string>)
    requires Summarizer.DistinctIn(ids, keys)
    ensures |keys * ElementsOf(ids)| == |ids|
  {
    if ids == [] {
      assert keys * ElementsOf(ids) == {};
    } else {
      var init := ids[..|ids| - 1];
      assert Summarizer.DistinctIn(init, keys);
      DistinctElements(init, keys);
      ElementsOfStep(ids, |ids| - 1);
      assert ids[..|ids|] == ids;
      assert ids[|ids| - 1] !in init;
      CountStep(keys, ElementsOf(init), ids[|ids| - 1]);
    }
  }

  /** Adding keys keeps the sources stored. */
  lemma StoredGrow(plans: seq<Summarizer.SummaryPlan>, keys: set<string>, keys': set<string>)
    requires SourcesStored(plans, keys) && keys <= keys'
    ensures SourcesStored(plans, keys')
  {
  }

  /** Removing the first plan's sources leaves the other plans' sources stored. */
  lemma StoredAfter(plan: Summarizer.SummaryPlan, rest: seq<Summarizer.SummaryPlan>, keys: set<string>)
    requires SourcesStored([plan] + rest, keys)
    ensures Summarizer.DistinctIn(plan.sourceIds, keys)
    ensures SourcesStored(rest, keys - ElementsOf(plan.sourceIds))
  {
    var ps := [plan] + rest;
    assert ps[0] == plan;
    forall k | 0 <= k < |rest| ensures Summarizer.DistinctIn(rest[k].sourceIds, keys - ElementsOf(plan.sourceIds)) {
      assert ps[k + 1] == rest[k];
    }
    forall k, l, i, j | 0 <= k < l < |rest| && 0 <= i < |rest[k].sourceIds| && 0 <= j < |rest[l].sourceIds|
      ensures rest[k].sourceIds[i] != rest[l].sourceIds[j]
    {
      assert ps[k + 1] == rest[k] && ps[l + 1] == rest[l];
    }
  }

  /** The plans built from a scan of the store replace distinct stored records, none of them twice. */
  lemma PlansStored(scan: seq<MemoryRecord>, table: map<string, MemoryRecord>, maxGroupSize: int, threshold: real, now: int, isoTime: int -> string)
    requires Store.IsScanOf(scan, table) && maxGroupSize >= 1
    ensures SourcesStored(Summarizer.Plans(scan, maxGroupSize, threshold, now, isoTime), table.Keys)
  {
    Summarizer.PlanSourcesDistinct(scan, maxGroupSize, threshold, now, isoTime);
    Summarizer.PlansDisjoint(scan, maxGroupSize, threshold, now, isoTime);
  }

  /** Splitting off the first of the remaining plans adds its sources to the count. */
  lemma SourceCountStep(plans: seq<Summarizer.SummaryPlan>, k: nat)
    requires k < |plans|
    ensures SourceCount(plans[..k + 1]) == SourceCount(plans[..k]) + |plans[k].sourceIds|
    ensures plans[k..] == [plans[k]] + plans[k + 1..]
  {
    assert plans[..k + 1][..k] == plans[..k];
  }

  /** The log after one more write: the entry appended, or the log cleared when that write is the 20th pending one. */
  ghost predicate LoggedWrite(before: seq<Wal.WalEntry>, pending: nat, e: Wal.WalEntry, after: seq<Wal.WalEntry>, pending': nat) {
    if pending + 1 >= WalFlushThreshold then after == [] && pending' == 0
    else after == before + [e] && pending' == pending + 1
  }

  /** The loop of `decay`: every record whose importance decay changes is updated, and those are counted. */
  method DecayAll(store: Store.MemoryStore, scan: seq<MemoryRecord>, now: int, rate: real, exp: real -> real) returns (updated: nat)
    requires store.Valid() && Store.IsScanOf(scan, store.memories)
    modifies store
    ensures store.Valid()
    ensures store.memories == DecayedTable(old(store.memories), now, rate, exp)
    ensures updated == |ChangedByDecay(old(store.memories), now, rate, exp)|
  {
    ghost var table := store.memories;
    updated := 0;
    var i := 0;
    while i < |scan|
      invariant 0 <= i <= |scan|
      invariant store.Valid()
      invariant store.memories == PartlyDecayed(table, IdsOf(scan[..i]), now, rate, exp)
      invariant updated == |ChangedAmong(table, IdsOf(scan[..i]), now, rate, exp)|
    {
      var m := scan[i];
      ScanPrefixIds(scan, i);
      DecayStep(table, IdsOf(scan[..i]), m, now, rate, exp);
      var decayed := DecayModule.ApplyDecay(m, now, rate, MinimumImportance, exp);
      if decayed.importance != m.importance {
        store.UpdateImportance(m.id, decayed.importance);
        updated := updated + 1;
      }
      i := i + 1;
    }
    assert scan[..i] == scan;
    DecayedAll(table, now, rate, exp);
  }

  /** One iteration of the replay loop of `recoverWal`. */
  method ApplyOne(store: Store.MemoryStore, e: Wal.WalEntry)
    requires store.Valid()
    modifies store
    ensures store.Valid()
    ensures store.memories == ApplyEntry(old(store.memories), e)
  {
    if e.op == Wal.Add && e.memory.Some? {
      store.UpsertMemory(e.memory.value);
    } else if e.op == Wal.Delete && e.id.Some? && e.id.value != "" {
      var removed := store.DeleteMemory(e.id.value);
    }
  }

  /** The replay loop of `recoverWal`. */
  method ApplyLog(store: Store.MemoryStore, entries: seq<Wal.WalEntry>)
    requires store.Valid()
    modifies store
    ensures store.Valid()
    ensures store.memories == Replay(old(store.memories), entries)
  {
    var i := 0;
    while i < |entries|
      invariant 0 <= i <= |entries|
      invariant store.Valid()
      invariant store.memories == Replay(old(store.memories), entries[..i])
    {
      ReplayStep(old(store.memories), entries, i);
      ApplyOne(store, entries[i]);
      i := i + 1;
    }
    assert entries[..i] == entries;
  }

  /** The boosting loop of `search`: each returned record is accessed now and boosted, capped at 1. */
  method BoostResults(store: Store.MemoryStore, results: seq<SearchResult>, now: int, amount: real)
    requires store.Valid()
    modifies store
    ensures store.Valid()
    ensures store.memories == BoostAll(old(store.memories), results, now, amount)
  {
    var i := 0;
    while i < |results|
      invariant 0 <= i <= |results|
      invariant store.Valid()
      invariant store.memories == BoostAll(old(store.memories), results[..i], now, amount)
    {
      var m := results[i].memory;
      ghost var before := store.memories;
      var boosted := Min(1.0, m.importance + amount);
      store.UpdateAccess(m.id, now);
      store.UpdateImportance(m.id, boosted);
      assert store.memories == Boost(before, m, now, amount);
      BoostAllStep(old(store.memories), results, i, now, amount);
      i := i + 1;
    }
    assert results[..i] == results;
  }

  class MemoryEngine {
    const store: Store.MemoryStore
    const wal: Wal.WriteAheadLog
    const embeddings: Embeddings.EmbeddingsClient
    const decayRate: real
    const summaryThreshold: int
    const preserveImportanceThreshold: real
    const platform: Platform
    /** Adds and deletes since the log was last cleared. */
    var walPending: nat

    /** The parts are in order, whatever the pending count. */
    ghost predicate Parts()
      reads this, store, wal
    {
      store.Valid() && wal.Valid() && PlatformLaws(platform)
    }

    /** Between calls, fewer than 20 writes are pending, and each of them is in the log. */
    ghost predicate Valid()
      reads this, store, wal
    {
      Parts() && walPending < WalFlushThreshold && walPending <= |wal.Entries|
    }

    /**
     * Opens the store and the log left by an earlier run and replays the log
     * onto the store.
     */
    constructor(existing: map<string, MemoryRecord>, previousLog: seq<Wal.WalEntry>, codec: Wal.Codec,
                options: EngineOptions, platform: Platform)
      requires Store.WellKeyed(existing) && Wal.LawfulCodec(codec) && PlatformLaws(platform)
      ensures Valid() && fresh(store) && fresh(wal) && fresh(embeddings)
      ensures store.memories == Replay(existing, previousLog)
      ensures wal.Entries == [] && walPending == 0
      ensures embeddings.configured <==> options.apiKey != ""
      ensures decayRate == options.decayRate.GetOr(DefaultDecayRate)
      ensures summaryThreshold == options.summaryThreshold.GetOr(DefaultSummaryThreshold)
      ensures preserveImportanceThreshold == options.preserveImportanceThreshold.GetOr(DefaultPreserveImportance)
    {
      store := new Store.MemoryStore.Open(existing);
      wal := new Wal.WriteAheadLog.Reopen(codec, previousLog);
      embeddings := new Embeddings.EmbeddingsClient(options.apiKey);
      decayRate := options.decayRate.GetOr(DefaultDecayRate);
      summaryThreshold := options.summaryThreshold.GetOr(DefaultSummaryThreshold);
      preserveImportanceThreshold := options.preserveImportanceThreshold.GetOr(DefaultPreserveImportance);
      this.platform := platform;
      walPending := 0;
      new;
      RecoverWal();
    }

    /** `flushWal`: clears the log and the pending count. */
    method FlushWal()
      requires Parts()
      modifies this, wal
      ensures Valid()
      ensures wal.Entries == [] && walPending == 0
    {
      wal.Clear();
      walPending := 0;
    }

    /** `maybeFlushWal`: counts a write and clears the log at the 20th. */
    method MaybeFlushWal()
      requires Parts() && walPending < WalFlushThreshold && walPending + 1 <= |wal.Entries|
      modifies this, wal
      ensures Valid()
      ensures old(walPending) + 1 >= WalFlushThreshold ==> wal.Entries == [] && walPending == 0
      ensures old(walPending) + 1 < WalFlushThreshold ==> wal.Entries == old(wal.Entries) && walPending == old(walPending) + 1
    {
      walPending := walPending + 1;
      if walPending >= WalFlushThreshold {
        FlushWal();
      }
    }

    /** `recoverWal`: replays every logged add as an upsert and every delete as a delete, then clears the log. */
    method RecoverWal()
      requires Valid()
      modifies this, store, wal
      ensures Valid()
      ensures store.memories == Replay(old(store.memories), old(wal.Entries))
      ensures wal.Entries == []
      ensures old(wal.Entries) == [] ==> walPending == old(walPending)
      ensures old(wal.Entries) != [] ==> walPending == 0
    {
      var read := wal.ReadAll();
      var entries := read.value;
      if |entries| == 0 {
        return;
      }
      ApplyLog(store, entries);
      FlushWal();
    }

    /**
     * `addMemory`: validates, embeds the content, logs the new record, then
     * inserts it. A failed embedding changes nothing; a failed insert (an id
     * collision) leaves the entry in the log without counting it.
     */
    method AddMemory(input: MemoryInput, now: int) returns (r: Result<MemoryRecord, EngineError>)
      requires Valid()
      modifies this, store, wal, embeddings
      ensures Valid()
      ensures ValidateInput(input).Err? ==>
                && r == Err(ValidateInput(input).error)
                && store.memories == old(store.memories) && wal.Entries == old(wal.Entries)
                && walPending == old(walPending) && embeddings.requests == old(embeddings.requests)
      ensures r.Ok? ==>
                && ValidateInput(input).Ok?
                && r.value == NewRecord(input, ValidateInput(input).value, r.value.id, now, r.value.embedding)
                && |r.value.embedding| > 0
                && r.value.id !in old(store.memories)
                && store.memories == old(store.memories)[r.value.id := r.value]
                && LoggedWrite(old(wal.Entries), old(walPending), Wal.AddEntry(r.value, now), wal.Entries, walPending)
      ensures r.Err? && r.error.Embedding? ==>
                store.memories == old(store.memories) && wal.Entries == old(wal.Entries) && walPending == old(walPending)
      ensures r.Err? && r.error.Storage? ==>
                && store.memories == old(store.memories) && walPending == old(walPending)
                && |wal.Entries| == |old(wal.Entries)| + 1 && wal.Entries[..|old(wal.Entries)|] == old(wal.Entries)
                && var logged := wal.Entries[|old(wal.Entries)|];
                   logged.op == Wal.Add && logged.memory.Some? && logged.memory.value.id in old(store.memories)
    {
      var valid := ValidateInput(input);
      if valid.Err? {
        return Err(valid.error);
      }
      var embedded := embeddings.EmbedText(input.content);
      if embedded.Err? {
        return Err(Embedding(embedded.error));
      }
      var id: string :| true;
      var memory := NewRecord(input, valid.value, id, now, embedded.value);
      wal.AppendAdd(memory, now);
      var added := store.AddMemory(memory);
      if added.Fail? {
        return Err(Storage(added.error));
      }
      MaybeFlushWal();
      r := Ok(memory);
    }

    /**
     * `search`: refuses a blank query; otherwise ranks the stored records
     * and boosts every returned record (the results keep the record as it
     * was before the boost).
     */
    method Search(query: string, o: SearchOptions, now: int)
      returns (r: Result<seq<SearchResult>, EngineError>, ghost scan: seq<MemoryRecord>, ghost queryVector: seq<real>)
      requires Valid()
      modifies store, embeddings
      ensures Valid()
      ensures Text.IsBlank(query) ==>
                r == Err(EmptyQuery) && store.memories == old(store.memories) && embeddings.requests == old(embeddings.requests)
      ensures !Text.IsBlank(query) ==> Store.IsScanOf(scan, old(store.memories))
      ensures r.Ok? ==>
                && r.value == SearchModule.Ranked(scan, queryVector, o.keyword.GetOr(query), o.(keyword := Some(o.keyword.GetOr(query))), platform.sqrt)
                && store.memories == BoostAll(old(store.memories), r.value, now, SearchBoost)
      ensures r.Err? ==> store.memories == old(store.memories)
    {
      Text.TrimCorrect(query);
      if Text.Trim(query) == [] {
        return Err(EmptyQuery), [], [];
      }
      var found;
      found, scan, queryVector := SearchModule.SemanticSearch(store, embeddings, query, o.(keyword := Some(o.keyword.GetOr(query))), platform.sqrt);
      if found.Err? {
        return Err(Embedding(found.error)), scan, queryVector;
      }
      var results := found.value;
      BoostResults(store, results, now, SearchBoost);
      r := Ok(results);
    }

    /** `list`: the store's filtered listing. */
    method List(o: ListOptions) returns (r: Result<seq<MemoryRecord>, EngineError>, ghost scan: seq<MemoryRecord>)
      requires Valid()
      ensures Store.IsScanOf(scan, store.memories)
      ensures Store.Listing(scan, o).Ok? ==> r == Ok(Store.Listing(scan, o).value)
      ensures Store.Listing(scan, o).Err? ==> r == Err(Storage(Store.Listing(scan, o).error))
    {
      var listed;
      listed, scan := store.ListMemories(o);
      if listed.Err? {
        return Err(Storage(listed.error)), scan;
      }
      r := Ok(listed.value);
    }

    /** `get`: a hit is accessed now and boosted by 0.02, capped at 1, and returned as updated. */
    method Get(id: string, now: int) returns (r: Option<MemoryRecord>)
      requires Valid()
      modifies store
      ensures Valid()
      ensures id !in old(store.memories) ==> r.None? && store.memories == old(store.memories)
      ensures id in old(store.memories) ==>
                && r == Some(old(store.memories)[id].(lastAccessed := now, importance := Min(1.0, old(store.memories)[id].importance + GetBoost)))
                && store.memories == old(store.memories)[id := r.value]
      ensures r.Some? ==> r.value.importance <= 1.0 && r.value.lastAccessed == now
    {
      var found := store.GetMemory(id);
      if found.None? {
        return None;
      }
      var m := found.value;
      var boosted := Min(1.0, m.importance + GetBoost);
      store.UpdateAccess(m.id, now);
      store.UpdateImportance(m.id, boosted);
      r := Some(m.(lastAccessed := now, importance := boosted));
    }

    /** `delete`: refuses an empty id; otherwise logs the delete, then deletes. */
    method Delete(id: string, now: int) returns (r: Result<bool, EngineError>)
      requires Valid()
      modifies this, store, wal
      ensures Valid()
      ensures id == "" ==>
                r == Err(MissingId) && store.memories == old(store.memories) && wal.Entries == old(wal.Entries) && walPending == old(walPending)
      ensures id != "" ==>
                && r == Ok(id in old(store.memories))
                && store.memories == old(store.memories) - {id}
                && LoggedWrite(old(wal.Entries), old(walPending), Wal.DeleteEntry(id, now), wal.Entries, walPending)
    {
      if id == "" {
        return Err(MissingId);
      }
      wal.AppendDelete(id, now);
      var removed := store.DeleteMemory(id);
      MaybeFlushWal();
      r := Ok(removed);
    }

    /**
     * `summarize`: below the threshold nothing happens; otherwise the plans
     * built from a scan of the store are carried out one by one, adding the
     * summary and deleting its sources. The first failing add or delete ends
     * the run with its error.
     */
    method Summarize(now: int) returns (r: Result<(nat, nat), EngineError>, ghost scan: seq<MemoryRecord>, ghost plans: seq<Summarizer.SummaryPlan>)
      requires Valid()
      modifies this, store, wal, embeddings
      ensures Valid()
      ensures |old(store.memories)| < summaryThreshold ==>
                && r == Ok((0, 0))
                && store.memories == old(store.memories) && wal.Entries == old(wal.Entries) && walPending == old(walPending)
      ensures |old(store.memories)| >= summaryThreshold ==>
                && Store.IsScanOf(scan, old(store.memories))
                && plans == Summarizer.Plans(scan, SummaryGroupSize, preserveImportanceThreshold, now, platform.isoTime)
                && (r.Ok? ==> r.value == (|plans|, SourceCount(plans)))
    {
      var count := store.Count();
      if count < summaryThreshold {
        return Ok((0, 0)), [], [];
      }
      var memories := store.GetAllMemories();
      var planned := Summarizer.BuildSummaries(memories, SummaryGroupSize, preserveImportanceThreshold, now, platform.isoTime);
      scan, plans := memories, planned;
      PlansStored(scan, store.memories, SummaryGroupSize, preserveImportanceThreshold, now, platform.isoTime);
      r := CarryOutAll(planned, now);
    }

    /**
     * The loop of `summarize`: carries out the plans in order and counts the
     * summaries and the removed records. When the plans' sources are
     * distinct stored records, none shared by two plans, every source is
     * removed and counted.
     */
    method CarryOutAll(plans: seq<Summarizer.SummaryPlan>, now: int) returns (r: Result<(nat, nat), EngineError>)
      requires Valid()
      modifies this, store, wal, embeddings
      ensures Valid()
      ensures r.Ok? ==> r.value.0 == |plans| && r.value.1 <= SourceCount(plans)
      ensures r.Ok? && SourcesStored(plans, old(store.memories).Keys) ==> r.value.1 == SourceCount(plans)
    {
      ghost var stored := SourcesStored(plans, store.memories.Keys);
      var summaries: nat, deleted: nat := 0, 0;
      var k := 0;
      while k < |plans|
        invariant 0 <= k <= |plans|
        invariant Valid()
        invariant summaries == k && deleted <= SourceCount(plans[..k])
        invariant stored ==> SourcesStored(plans[k..], store.memories.Keys) && deleted == SourceCount(plans[..k])
      {
        SourceCountStep(plans, k);
        var removed := CarryOut(plans[k], now, plans[k + 1..]);
        if removed.Err? {
          return Err(removed.error);
        }
        summaries := summaries + 1;
        deleted := deleted + removed.value;
        k := k + 1;
      }
      assert plans[..k] == plans;
      r := Ok((summaries, deleted));
    }

    /**
     * One plan of `summarize`: adds the summary, then deletes the sources,
     * counting the ids that were stored. `rest` names the plans still to be
     * carried out, whose sources this plan leaves in place.
     */
    method CarryOut(plan: Summarizer.SummaryPlan, now: int, ghost rest: seq<Summarizer.SummaryPlan>) returns (r: Result<nat, EngineError>)
      requires Valid()
      modifies this, store, wal, embeddings
      ensures Valid()
      ensures r.Ok? ==> r.value <= |plan.sourceIds|
      ensures r.Ok? ==> forall i :: 0 <= i < |plan.sourceIds| ==> plan.sourceIds[i] !in store.memories
      ensures r.Ok? && SourcesStored([plan] + rest, old(store.memories).Keys) ==>
                r.value == |plan.sourceIds| && SourcesStored(rest, store.memories.Keys)
    {
      ghost var stored := SourcesStored([plan] + rest, store.memories.Keys);
      var added := AddMemory(plan.summary, now);
      if added.Err? {
        return Err(added.error);
      }
      ghost var before := store.memories;
      if stored {
        StoredGrow([plan] + rest, old(store.memories).Keys, before.Keys);
        StoredAfter(plan, rest, before.Keys);
      }
      r := DeleteSources(plan.sourceIds, now);
      if r.Ok? {
        ElementsCount(before.Keys, plan.sourceIds);
        if stored {
          DistinctElements(plan.sourceIds, before.Keys);
          assert store.memories.Keys == before.Keys - ElementsOf(plan.sourceIds);
        }
      }
    }

    /**
     * The inner loop of `summarize`: deletes each source id and counts the
     * ids that were stored. On success no source remains, and the count is
     * the number of distinct source ids that were stored.
     */
    method DeleteSources(ids: seq<string>, now: int) returns (r: Result<nat, EngineError>)
      requires Valid()
      modifies this, store, wal
      ensures Valid()
      ensures r.Ok? ==> && store.memories == old(store.memories) - ElementsOf(ids)
                        && r.value == |old(store.memories).Keys * ElementsOf(ids)|
      ensures r.Err? ==> r.error == MissingId && "" in ids
    {
      var deleted := 0;
      var j := 0;
      while j < |ids|
        invariant 0 <= j <= |ids|
        invariant Valid()
        invariant store.memories == old(store.memories) - ElementsOf(ids[..j])
        invariant deleted == |old(store.memories).Keys * ElementsOf(ids[..j])|
      {
        ElementsOfStep(ids, j);
        var next := DeleteCounted(ids[j], now, old(store.memories), ElementsOf(ids[..j]), deleted);
        if next.Err? {
          return Err(next.error);
        }
        deleted := next.value;
        j := j + 1;
      }
      assert ids[..j] == ids;
      r := Ok(deleted);
    }

    /** One delete of the inner loop of `summarize`, with the running count of removed records. */
    method DeleteCounted(id: string, now: int, ghost original: map<string, MemoryRecord>, ghost done: set<string>, deleted: nat)
      returns (r: Result<nat, EngineError>)
      requires Valid() && store.memories == original - done && deleted == |original.Keys * done|
      modifies this, store, wal
      ensures Valid()
      ensures r.Ok? ==> store.memories == original - (done + {id}) && r.value == |original.Keys * (done + {id})|
      ensures r.Err? ==> r.error == MissingId && id == ""
    {
      ghost var before := store.memories;
      var removed := Delete(id, now);
      if removed.Err? {
        return Err(removed.error);
      }
      DeleteCountStep(original, done, id, before, store.memories, deleted, removed.value);
      r := Ok(if removed.value then deleted + 1 else deleted);
    }

    /**
     * `decay`: decays every record at `now` (floor 0.05), writing back only
     * changed importances, then prunes the records below 0.1 created more
     * than a year before `now`.
     */
    method Decay(now: int) returns (updated: nat, pruned: nat)
      requires Valid()
      modifies store
      ensures Valid()
      ensures store.memories == Store.Pruned(DecayedTable(old(store.memories), now, decayRate, platform.exp), PruneImportance, now - MsPerYear)
      ensures updated == |ChangedByDecay(old(store.memories), now, decayRate, platform.exp)|
      ensures pruned == |Store.PrunableIds(DecayedTable(old(store.memories), now, decayRate, platform.exp), PruneImportance, now - MsPerYear)|
    {
      var all := store.GetAllMemories();
      updated := DecayAll(store, all, now, decayRate, platform.exp);
      pruned := store.PruneBelowImportance(PruneImportance, now - MsPerYear);
    }

    /** `health`: always ok, with the number of stored records. */
    method Health() returns (h: HealthStatus)
      requires Valid()
      ensures h.ok && h.memoryCount == |store.memories|
    {
      var n := store.Count();
      h := HealthStatus(true, n);
    }
  }
}
