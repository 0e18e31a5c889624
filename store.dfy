/**
 * The record store: one table of memory records keyed by id, with the
 * insert, upsert, lookup, delete, filtered listing, targeted updates,
 * pruning and counting that the engine uses. The relational engine
 * underneath is abstracted to a map; a full table scan returns its rows
 * in an order the model leaves open.
 */
module Store {
  import opened Wrappers
  import opened Types
  import Seqs

  datatype StoreError =
    | DuplicateId(id: string)   // the PRIMARY KEY rejects a plain INSERT
    | OffsetWithoutLimit        // SQLite accepts OFFSET only after LIMIT

  /** Every row is stored under its own id. */
  ghost predicate WellKeyed(table: map<string, MemoryRecord>) {
    forall id :: id in table ==> table[id].id == id
  }

  /** `scan` lists every row of `table` exactly once, in some order. */
  ghost predicate IsScanOf(scan: seq<MemoryRecord>, table: map<string, MemoryRecord>) {
    && DistinctIds(scan)
    && (forall i :: 0 <= i < |scan| ==> scan[i].id in table && table[scan[i].id] == scan[i])
    && IdsOf(scan) == table.Keys
  }

  // ---------------------------------------------------------------------------
  // The listing query: WHERE, ORDER BY timestamp DESC, LIMIT/OFFSET, then tags

  /** A JavaScript number used as a condition: present and not zero. */
  predicate Truthy(n: Option<int>) {
    n.Some? && n.value != 0
  }

  /** The SQL WHERE clause built from the category, since and until options. */
  predicate MatchesWhere(m: MemoryRecord, o: ListOptions) {
    && (o.category.Some? ==> m.category == o.category.value)
    && (Truthy(o.since) ==> o.since.value <= m.timestamp)
    && (Truthy(o.until) ==> m.timestamp <= o.until.value)
  }

  function Where(rows: seq<MemoryRecord>, o: ListOptions): seq<MemoryRecord> {
    Seqs.Filter(rows, m => MatchesWhere(m, o))
  }

  /** Sort key for `ORDER BY timestamp DESC`. */
  function NegTimestamp(m: MemoryRecord): real {
    -(m.timestamp as real)
  }

  function NewestFirst(rows: seq<MemoryRecord>): seq<MemoryRecord> {
    Seqs.SortBy(rows, NegTimestamp)
  }

  /** Where SQLite `OFFSET o` starts in `n` rows: a missing or negative offset means 0. */
  function WindowStart(n: nat, offset: Option<int>): (a: nat)
    ensures a <= n
  {
    if offset.None? || offset.value < 0 then 0
    else if offset.value < n then offset.value else n
  }

  /** Where SQLite `LIMIT l` stops: a missing or negative limit means no bound. */
  function WindowEnd(n: nat, start: nat, limit: Option<int>): (b: nat)
    requires start <= n
    ensures start <= b <= n
    ensures limit.Some? && limit.value >= 0 ==> b - start <= limit.value
  {
    if limit.None? || limit.value < 0 || n - start <= limit.value then n
    else start + limit.value
  }

  /** SQLite `LIMIT l OFFSET o` over already ordered rows. */
  function Window(rows: seq<MemoryRecord>, limit: Option<int>, offset: Option<int>): seq<MemoryRecord> {
    var a := WindowStart(|rows|, offset);
    rows[a..WindowEnd(|rows|, a, limit)]
  }

  /** The in-memory tag filter applied to the rows the query returned. */
  function WithTags(rows: seq<MemoryRecord>, tags: Option<seq<string>>): seq<MemoryRecord> {
    if TagFilterActive(tags) then Seqs.Filter(rows, m => HasAllTags(m, tags.value)) else rows
  }

  /** What `listMemories` returns when the table is scanned in the order `scan`. */
  function Listing(scan: seq<MemoryRecord>, o: ListOptions): Result<seq<MemoryRecord>, StoreError> {
    if o.offset.Some? && o.limit.None? then Err(OffsetWithoutLimit)
    else Ok(WithTags(Window(NewestFirst(Where(scan, o)), o.limit, o.offset), o.tags))
  }

  /**
   * A window is the contiguous run of the rows starting at the offset
   * (clamped to 0 and to the row count) and holding at most `limit` rows
   * (all the rest when the limit is missing or negative); a window of
   * newest-first rows is newest-first.
   */
  lemma WindowOfSorted(rows: seq<MemoryRecord>, limit: Option<int>, offset: Option<int>)
    ensures var w := Window(rows, limit, offset);
      var a := WindowStart(|rows|, offset);
      && a == (if offset.None? || offset.value < 0 then 0 else if offset.value < |rows| then offset.value else |rows|)
      && (limit.Some? && limit.value >= 0 ==> |w| == (if limit.value < |rows| - a then limit.value else |rows| - a))
      && (limit.None? || limit.value < 0 ==> |w| == |rows| - a)
      && (forall i :: 0 <= i < |w| ==> w[i] == rows[a + i])
    ensures Seqs.SortedBy(rows, NegTimestamp) ==> Seqs.SortedBy(Window(rows, limit, offset), NegTimestamp)
  {
    var a := WindowStart(|rows|, offset);
    var w := Window(rows, limit, offset);
    forall i | 0 <= i < |w| ensures w[i] == rows[a + i] {
    }
  }

  /**
   * The tag filter keeps, in their order, exactly the rows that carry every
   * requested tag; an inactive filter keeps every row. Newest-first rows
   * stay newest-first.
   */
  lemma WithTagsSorted(rows: seq<MemoryRecord>, tags: Option<seq<string>>)
    ensures var r := WithTags(rows, tags);
      && Seqs.Subsequence(r, rows)
      && (forall i :: 0 <= i < |r| ==> TagFilterActive(tags) ==> HasAllTags(r[i], tags.value))
      && (forall i :: 0 <= i < |rows| && (TagFilterActive(tags) ==> HasAllTags(rows[i], tags.value)) ==> rows[i] in r)
    ensures Seqs.SortedBy(rows, NegTimestamp) ==> Seqs.SortedBy(WithTags(rows, tags), NegTimestamp)
  {
    if TagFilterActive(tags) {
      Seqs.FilterSubsequence(rows, m => HasAllTags(m, tags.value));
      if Seqs.SortedBy(rows, NegTimestamp) {
        Seqs.FilterSorted(rows, m => HasAllTags(m, tags.value), NegTimestamp);
      }
    } else {
      Seqs.SubsequenceSelf(rows);
    }
  }

  lemma WhereRow(scan: seq<MemoryRecord>, o: ListOptions, x: MemoryRecord)
    requires x in Where(scan, o)
    ensures x in scan && MatchesWhere(x, o)
  {
    var w := Where(scan, o);
    var k :| 0 <= k < |w| && w[k] == x;
  }

  /** The listed rows are drawn from the WHERE result, carry the tags, come newest first and respect the limit. */
  lemma ListingShape(scan: seq<MemoryRecord>, o: ListOptions)
    requires !(o.offset.Some? && o.limit.None?)
    ensures var r := Listing(scan, o).value;
      && (forall i :: 0 <= i < |r| ==> r[i] in Where(scan, o) && (TagFilterActive(o.tags) ==> HasAllTags(r[i], o.tags.value)))
      && Seqs.SortedBy(r, NegTimestamp)
      && (o.limit.Some? && o.limit.value >= 0 ==> |r| <= o.limit.value)
  {
    var w := Where(scan, o);
    var sorted := NewestFirst(w);
    var win := Window(sorted, o.limit, o.offset);
    var r := WithTags(win, o.tags);
    Seqs.SortByCorrect(w, NegTimestamp);
    WindowOfSorted(sorted, o.limit, o.offset);
    WithTagsSorted(win, o.tags);
    forall i | 0 <= i < |r| ensures r[i] in w {
      assert r[i] in win;
      assert r[i] in multiset(sorted);
    }
  }

  /**
   * Every listed record is a row of the table that satisfies the category,
   * since and until filters (bounds equal to 0 are ignored) and holds every
   * requested tag; results come newest first; a non-negative limit bounds
   * their number; OFFSET without LIMIT is the one error.
   */
  lemma {:induction false} ListingSound(scan: seq<MemoryRecord>, table: map<string, MemoryRecord>, o: ListOptions)
    requires IsScanOf(scan, table)
    ensures Listing(scan, o).Err? <==> o.offset.Some? && o.limit.None?
    ensures Listing(scan, o).Ok? ==>
      var r := Listing(scan, o).value;
      && (forall i :: 0 <= i < |r| ==>
            && r[i].id in table && table[r[i].id] == r[i]
            && MatchesWhere(r[i], o)
            && (TagFilterActive(o.tags) ==> HasAllTags(r[i], o.tags.value)))
      && (forall i, j :: 0 <= i < j < |r| ==> r[i].timestamp >= r[j].timestamp)
      && (o.limit.Some? && o.limit.value >= 0 ==> |r| <= o.limit.value)
  {
    if !(o.offset.Some? && o.limit.None?) {
      var r := Listing(scan, o).value;
      var w := Where(scan, o);
      ListingShape(scan, o);
      forall i | 0 <= i < |r| ensures r[i].id in table && table[r[i].id] == r[i] && MatchesWhere(r[i], o) {
        WhereRow(scan, o, r[i]);
        var l :| 0 <= l < |scan| && scan[l] == r[i];
      }
      forall i, j | 0 <= i < j < |r| ensures r[i].timestamp >= r[j].timestamp {
        assert NegTimestamp(r[i]) <= NegTimestamp(r[j]);
      }
    }
  }

  /**
   * Without limit or offset the listing is complete: every row of the table
   * that passes the WHERE clause and holds every requested tag is listed.
   */
  lemma {:induction false} ListingComplete(scan: seq<MemoryRecord>, table: map<string, MemoryRecord>, o: ListOptions)
    requires IsScanOf(scan, table)
    requires o.limit.None? && o.offset.None?
    ensures Listing(scan, o).Ok?
    ensures forall id :: id in table && MatchesWhere(table[id], o) && (TagFilterActive(o.tags) ==> HasAllTags(table[id], o.tags.value)) ==>
      table[id] in Listing(scan, o).value
  {
    var sorted := NewestFirst(Where(scan, o));
    assert Window(sorted, o.limit, o.offset) == sorted;
    assert Listing(scan, o).value == WithTags(sorted, o.tags);
    forall id | id in table && MatchesWhere(table[id], o) && (TagFilterActive(o.tags) ==> HasAllTags(table[id], o.tags.value))
      ensures table[id] in Listing(scan, o).value
    {
      assert id in IdsOf(scan);
      var i :| 0 <= i < |scan| && scan[i].id == id;
      var k := WhereSortedIndex(scan, o, i);
    }
  }

  /** A row of the scan that passes the WHERE clause has a place in the sorted WHERE result. */
  lemma WhereSortedIndex(scan: seq<MemoryRecord>, o: ListOptions, i: nat) returns (k: nat)
    requires i < |scan| && MatchesWhere(scan[i], o)
    ensures k < |NewestFirst(Where(scan, o))| && NewestFirst(Where(scan, o))[k] == scan[i]
  {
    assert scan[i] in Where(scan, o);
    assert scan[i] in multiset(NewestFirst(Where(scan, o)));
    k :| 0 <= k < |NewestFirst(Where(scan, o))| && NewestFirst(Where(scan, o))[k] == scan[i];
  }

  lemma WherePair(newer: MemoryRecord, older: MemoryRecord, o: ListOptions)
    requires MatchesWhere(newer, o) && MatchesWhere(older, o)
    ensures Where([newer, older], o) == [newer, older]
  {
    assert [newer, older][..1] == [newer] && [newer][..0] == [];
    assert Where([newer], o) == [newer];
  }

  lemma NewestFirstPair(newer: MemoryRecord, older: MemoryRecord)
    requires newer.timestamp > older.timestamp
    ensures NewestFirst([newer, older]) == [newer, older]
  {
    assert [newer, older][..1] == [newer] && [newer][..0] == [];
    assert NewestFirst([newer]) == [newer];
    assert [newer][1..] == [];
  }

  lemma WithTagsDrops(m: MemoryRecord, tags: Option<seq<string>>)
    requires TagFilterActive(tags) && !HasAllTags(m, tags.value)
    ensures WithTags([m], tags) == []
  {
    assert [m][..0] == [];
  }

  /**
   * The tag filter runs after LIMIT: with the newest row lacking the tag and
   * a limit of 1, nothing is listed although an older row carries the tag.
   */
  lemma TagFilterAfterLimit(newer: MemoryRecord, older: MemoryRecord)
    requires newer.id != older.id && newer.timestamp > older.timestamp
    requires "t" !in newer.tags && "t" in older.tags
    ensures var o := ListOptions(None, Some(["t"]), None, None, Some(1), None);
      && Listing([newer, older], o) == Ok([])
      && MatchesWhere(older, o) && HasAllTags(older, ["t"])
  {
    var o := ListOptions(None, Some(["t"]), None, None, Some(1), None);
    var scan := [newer, older];
    assert ["t"][0] == "t";
    calc {
      Listing(scan, o);
      ==
      Ok(WithTags(Window(NewestFirst(Where(scan, o)), o.limit, o.offset), o.tags));
      == { WherePair(newer, older, o); NewestFirstPair(newer, older); }
      Ok(WithTags(Window(scan, o.limit, o.offset), o.tags));
      == { assert Window(scan, o.limit, o.offset) == [newer]; }
      Ok(WithTags([newer], o.tags));
      == { WithTagsDrops(newer, o.tags); }
      Ok([]);
    }
  }

  // ---------------------------------------------------------------------------
  // Pruning

  /** The rows `DELETE ... WHERE importance < threshold AND timestamp < olderThan` removes. */
  predicate Prunable(m: MemoryRecord, threshold: real, olderThan: int) {
    m.importance < threshold && m.timestamp < olderThan
  }

  function Pruned(table: map<string, MemoryRecord>, threshold: real, olderThan: int): map<string, MemoryRecord> {
    map id | id in table && !Prunable(table[id], threshold, olderThan) :: table[id]
  }

  function PrunableIds(table: map<string, MemoryRecord>, threshold: real, olderThan: int): set<string> {
    set id | id in table && Prunable(table[id], threshold, olderThan)
  }

  /**
   * Pruning removes exactly the rows meeting both conditions: survivors are
   * unchanged and fail at least one condition, and the number removed is the
   * number of rows meeting both.
   */
  lemma PruneCorrect(table: map<string, MemoryRecord>, threshold: real, olderThan: int)
    ensures var p := Pruned(table, threshold, olderThan);
      && p.Keys == table.Keys - PrunableIds(table, threshold, olderThan)
      && (forall id :: id in p ==>
            p[id] == table[id] && (table[id].importance >= threshold || table[id].timestamp >= olderThan))
      && |table| - |p| == |PrunableIds(table, threshold, olderThan)|
  {
    var p := Pruned(table, threshold, olderThan);
    var gone := PrunableIds(table, threshold, olderThan);
    assert p.Keys == table.Keys - gone;
    assert table.Keys == p.Keys + gone;
    assert p.Keys !! gone;
    assert |table.Keys| == |p.Keys| + |gone|;
  }

  // ---------------------------------------------------------------------------
  // The table

  class MemoryStore {
    /** The `memories` table, by primary key. */
    var memories: map<string, MemoryRecord>

    ghost predicate Valid()
      reads this
    {
      WellKeyed(memories)
    }

    /** Opens a database file whose table already holds `existing`. */
    constructor Open(existing: map<string, MemoryRecord>)
      requires WellKeyed(existing)
      ensures Valid() && memories == existing
    {
      memories := existing;
    }

    /** Plain INSERT: a duplicate id fails and leaves the existing row alone. */
    method AddMemory(m: MemoryRecord) returns (r: Outcome<StoreError>)
      requires Valid()
      modifies this
      ensures Valid()
      ensures m.id in old(memories) ==> r == Fail(DuplicateId(m.id)) && memories == old(memories)
      ensures m.id !in old(memories) ==> r == Pass && memories == old(memories)[m.id := m]
    {
      if m.id in memories {
        r := Fail(DuplicateId(m.id));
      } else {
        memories := memories[m.id := m];
        r := Pass;
      }
    }

    /** INSERT ... ON CONFLICT(id) DO UPDATE: every field of the row is replaced. */
    method UpsertMemory(m: MemoryRecord)
      requires Valid()
      modifies this
      ensures Valid()
      ensures memories == old(memories)[m.id := m]
      ensures |memories| == |old(memories)| + (if m.id in old(memories) then 0 else 1)
    {
      memories := memories[m.id := m];
    }

    method GetMemory(id: string) returns (r: Option<MemoryRecord>)
      requires Valid()
      ensures id in memories <==> r.Some?
      ensures r.Some? ==> r.value == memories[id] && r.value.id == id
    {
      r := if id in memories then Some(memories[id]) else None;
    }

    /** DELETE by id; reports whether a row went away. */
    method DeleteMemory(id: string) returns (removed: bool)
      requires Valid()
      modifies this
      ensures Valid()
      ensures removed == (id in old(memories))
      ensures memories == old(memories) - {id}
      ensures |memories| == |old(memories)| - (if removed then 1 else 0)
    {
      removed := id in memories;
      memories := memories - {id};
    }

    /** `SELECT *`: every row once, in an order the table does not promise. */
    method GetAllMemories() returns (all: seq<MemoryRecord>)
      requires Valid()
      ensures IsScanOf(all, memories)
    {
      all := [];
      var remaining := memories.Keys;
      while remaining != {}
        invariant remaining <= memories.Keys
        invariant IdsOf(all) == memories.Keys - remaining
        invariant DistinctIds(all)
        invariant forall i :: 0 <= i < |all| ==> all[i].id in memories && memories[all[i].id] == all[i]
        decreases remaining
      {
        var id :| id in remaining;
        assert id !in IdsOf(all);
        IdsOfAppend(all, memories[id]);
        all := all + [memories[id]];
        remaining := remaining - {id};
      }
    }

    /** The filtered listing; `scan` is the order in which the table yielded its rows. */
    method ListMemories(o: ListOptions) returns (r: Result<seq<MemoryRecord>, StoreError>, ghost scan: seq<MemoryRecord>)
      requires Valid()
      ensures IsScanOf(scan, memories)
      ensures r == Listing(scan, o)
    {
      var rows := GetAllMemories();
      scan := rows;
      if o.offset.Some? && o.limit.None? {
        return Err(OffsetWithoutLimit), scan;
      }
      var selected := NewestFirst(Where(rows, o));
      var limited := Window(selected, o.limit, o.offset);
      r := Ok(WithTags(limited, o.tags));
    }

    /** UPDATE lastAccessed of one row; no row, no change. */
    method UpdateAccess(id: string, timestamp: int)
      requires Valid()
      modifies this
      ensures Valid()
      ensures id in old(memories) ==> memories == old(memories)[id := old(memories)[id].(lastAccessed := timestamp)]
      ensures id !in old(memories) ==> memories == old(memories)
    {
      if id in memories {
        memories := memories[id := memories[id].(lastAccessed := timestamp)];
      }
    }

    /** UPDATE importance of one row; no row, no change. */
    method UpdateImportance(id: string, importance: real)
      requires Valid()
      modifies this
      ensures Valid()
      ensures id in old(memories) ==> memories == old(memories)[id := old(memories)[id].(importance := importance)]
      ensures id !in old(memories) ==> memories == old(memories)
    {
      if id in memories {
        memories := memories[id := memories[id].(importance := importance)];
      }
    }

    /** Deletes the rows below `threshold` importance AND older than `olderThan`; returns how many. */
    method PruneBelowImportance(threshold: real, olderThan: int) returns (removed: nat)
      requires Valid()
      modifies this
      ensures Valid()
      ensures memories == Pruned(old(memories), threshold, olderThan)
      ensures removed == |PrunableIds(old(memories), threshold, olderThan)|
    {
      PruneCorrect(memories, threshold, olderThan);
      var kept := Pruned(memories, threshold, olderThan);
      removed := |memories| - |kept|;
      memories := kept;
    }

    method Count() returns (n: nat)
      ensures n == |memories|
    {
      n := |memories|;
    }
  }
}
