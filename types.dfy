/** The records and option bags that the engine, the store and the parsers exchange. */
module Types {
  import opened Wrappers

  /** The closed set of memory categories. */
  datatype Category = Decision | Lesson | Preference | Episode | Fact | Person | Project

  /** The wire name of a category. */
  function CategoryName(c: Category): string {
    match c
    case Decision => "decision"
    case Lesson => "lesson"
    case Preference => "preference"
    case Episode => "episode"
    case Fact => "fact"
    case Person => "person"
    case Project => "project"
  }

  /** The seven wire names, in declaration order. */
  const CategoryNames: seq<string> :=
    ["decision", "lesson", "preference", "episode", "fact", "person", "project"]

  /** The category a wire name denotes, if it is one of the seven. */
  function CategoryOf(name: string): (r: Option<Category>)
    ensures r.Some? <==> name in CategoryNames
    ensures r.Some? ==> CategoryName(r.value) == name
  {
    if name == "decision" then Some(Decision)
    else if name == "lesson" then Some(Lesson)
    else if name == "preference" then Some(Preference)
    else if name == "episode" then Some(Episode)
    else if name == "fact" then Some(Fact)
    else if name == "person" then Some(Person)
    else if name == "project" then Some(Project)
    else None
  }

  /** Names and categories are in one-to-one correspondence. */
  lemma CategoryNamesExact(c: Category, name: string)
    ensures CategoryName(c) in CategoryNames
    ensures CategoryOf(CategoryName(c)) == Some(c)
    ensures CategoryOf(name) == Some(c) <==> name == CategoryName(c)
  {
  }

  /** A stored memory item: all eight fields are always present. */
  datatype MemoryRecord = MemoryRecord(
    id: string,
    content: string,
    category: Category,
    tags: seq<string>,
    timestamp: int,
    importance: real,
    embedding: seq<real>,
    lastAccessed: int)

  /**
   * What a caller asks to store. Content and category are required; the
   * category arrives as a raw string (the engine re-validates it) and the
   * empty string stands for a missing one.
   */
  datatype MemoryInput = MemoryInput(
    content: string,
    category: string,
    tags: Option<seq<string>>,
    timestamp: Option<int>,
    importance: Option<real>)

  datatype SearchOptions = SearchOptions(
    limit: Option<int>,
    category: Option<Category>,
    tags: Option<seq<string>>,
    keyword: Option<string>)

  datatype SearchResult = SearchResult(memory: MemoryRecord, score: real)

  datatype ListOptions = ListOptions(
    category: Option<Category>,
    tags: Option<seq<string>>,
    since: Option<int>,
    until: Option<int>,
    limit: Option<int>,
    offset: Option<int>)

  /** Every option absent: `{}`. */
  const NoSearchOptions := SearchOptions(None, None, None, None)
  const NoListOptions := ListOptions(None, None, None, None, None, None)

  /** `options.tags && options.tags.length > 0`: the tag filter is in force. */
  predicate TagFilterActive(tags: Option<seq<string>>) {
    tags.Some? && |tags.value| > 0
  }

  /** `tags.every(tag => memory.tags.includes(tag))`. */
  predicate HasAllTags(m: MemoryRecord, tags: seq<string>) {
    forall i :: 0 <= i < |tags| ==> tags[i] in m.tags
  }

  /** The ids of a sequence of records. */
  function IdsOf(rs: seq<MemoryRecord>): set<string> {
    set i | 0 <= i < |rs| :: rs[i].id
  }

  lemma IdsOfAppend(rs: seq<MemoryRecord>, m: MemoryRecord)
    ensures IdsOf(rs + [m]) == IdsOf(rs) + {m.id}
  {
    var l := rs + [m];
    forall id | id in IdsOf(rs) ensures id in IdsOf(l) {
      var i :| 0 <= i < |rs| && rs[i].id == id;
      assert l[i].id == id;
    }
    assert l[|rs|].id == m.id;
  }

  /** No two records of `rs` share an id. */
  predicate DistinctIds(rs: seq<MemoryRecord>) {
    forall i, j :: 0 <= i < j < |rs| ==> rs[i].id != rs[j].id
  }
}
