/**
 * The compaction planner: groups the records that are not preserved by
 * category, and for every group of at least two records plans one summary
 * record that replaces the group's oldest members.
 * `toISOString` is a parameter.
 */
module Summarizer {
  import opened Wrappers
  import opened Types
  import Seqs
  import Text

  /** A snippet longer than this is cut. */
  const SnippetLimit := 140
  /** How many characters a cut snippet keeps before the ellipsis. */
  const SnippetKeep := 137
  /** The tag every summary carries. */
  const SummaryTag := "summary"

  /** One record's contribution to a summary: its trimmed content, cut to 140 characters with "...". */
  function Snippet(content: string): (r: string)
    ensures |r| <= SnippetLimit
    ensures |Text.Trim(content)| <= SnippetLimit ==> r == Text.Trim(content)
    ensures |Text.Trim(content)| > SnippetLimit ==>
              |r| == SnippetLimit && r[..SnippetKeep] == Text.Trim(content)[..SnippetKeep] && r[SnippetKeep..] == "..."
  {
    var t := Text.Trim(content);
    if |t| <= SnippetLimit then t else t[..SnippetKeep] + "..."
  }

  function Snippets(rs: seq<MemoryRecord>): seq<string> {
    seq(|rs|, i requires 0 <= i < |rs| => Snippet(rs[i].content))
  }

  lemma {:induction false} JoinBound(parts: seq<string>)
    requires forall i :: 0 <= i < |parts| ==> |parts[i]| <= SnippetLimit
    ensures |Text.Join(parts, " ")| <= (SnippetLimit + 1) * |parts|
  {
    if |parts| > 1 {
      JoinBound(parts[1..]);
    }
  }

  /** `summarizeText`: the snippets joined by single spaces, in order. */
  function SummarizeText(rs: seq<MemoryRecord>): (r: string)
    ensures |r| <= (SnippetLimit + 1) * |rs|
    ensures |rs| == 1 ==> r == Snippet(rs[0].content)
  {
    JoinBound(Snippets(rs));
    Text.Join(Snippets(rs), " ")
  }

  /** A planned compaction: the summary to add and the ids of the records it replaces. */
  datatype SummaryPlan = SummaryPlan(summary: MemoryInput, sourceIds: seq<string>)

  /** The records below the preservation threshold, in input order. */
  function Eligible(ms: seq<MemoryRecord>, threshold: real): (r: seq<MemoryRecord>)
    ensures forall i :: 0 <= i < |r| ==> r[i] in ms && r[i].importance < threshold
  {
    if ms == [] then []
    else
      var init, x := ms[..|ms| - 1], ms[|ms| - 1];
      assert ms == init + [x];
      Eligible(init, threshold) + (if x.importance < threshold then [x] else [])
  }

  /** The records of one category, in input order. */
  function GroupOf(rs: seq<MemoryRecord>, c: Category): (r: seq<MemoryRecord>)
    ensures forall i :: 0 <= i < |r| ==> r[i] in rs && r[i].category == c
  {
    if rs == [] then []
    else
      var init, x := rs[..|rs| - 1], rs[|rs| - 1];
      assert rs == init + [x];
      GroupOf(init, c) + (if x.category == c then [x] else [])
  }

  /** The categories present in `rs`, each once, in order of first appearance (a Map's key order). */
  function CategoriesOf(rs: seq<MemoryRecord>): (r: seq<Category>)
    ensures forall i, j :: 0 <= i < j < |r| ==> r[i] != r[j]
    ensures forall i :: 0 <= i < |rs| ==> rs[i].category in r
  {
    if rs == [] then []
    else
      var init, x := rs[..|rs| - 1], rs[|rs| - 1];
      assert rs == init + [x];
      var cs := CategoriesOf(init);
      if x.category in cs then cs else cs + [x.category]
  }

  lemma GroupOfAppend(rs: seq<MemoryRecord>, x: MemoryRecord, c: Category)
    ensures GroupOf(rs + [x], c) == GroupOf(rs, c) + (if x.category == c then [x] else [])
  {
    assert (rs + [x])[..|rs|] == rs;
  }

  /** Every listed category has at least one record. */
  lemma {:induction false} CategoryPresent(rs: seq<MemoryRecord>, c: Category)
    requires c in CategoriesOf(rs)
    ensures |GroupOf(rs, c)| > 0
  {
    var init, x := rs[..|rs| - 1], rs[|rs| - 1];
    assert rs == init + [x];
    GroupOfAppend(init, x, c);
    if c != x.category {
      CategoryPresent(init, c);
    }
  }

  function TimestampKey(m: MemoryRecord): real {
    m.timestamp as real
  }

  /** The group sorted oldest first (stably), cut to `maxGroupSize` records. */
  function Oldest(group: seq<MemoryRecord>, maxGroupSize: int): seq<MemoryRecord> {
    Seqs.SliceTo(Seqs.SortBy(group, TimestampKey), maxGroupSize)
  }

  function IdList(rs: seq<MemoryRecord>): seq<string> {
    seq(|rs|, i requires 0 <= i < |rs| => rs[i].id)
  }

  /** The plan for one category: header with the slice's first and last timestamps, then the snippets. */
  function MakePlan(c: Category, slice: seq<MemoryRecord>, threshold: real, now: int, isoTime: int -> string): SummaryPlan
    requires |slice| > 0
  {
    var content := "Summary (" + CategoryName(c) + ") " + isoTime(slice[0].timestamp) + " - "
                   + isoTime(slice[|slice| - 1].timestamp) + ": " + SummarizeText(slice);
    SummaryPlan(MemoryInput(content, CategoryName(c), Some([SummaryTag]), Some(now), Some(threshold)), IdList(slice))
  }

  function PlanFor(rs: seq<MemoryRecord>, c: Category, maxGroupSize: int, threshold: real, now: int, isoTime: int -> string): Option<SummaryPlan>
    requires maxGroupSize >= 1
  {
    var group := GroupOf(rs, c);
    if |group| < 2 then None else Some(MakePlan(c, Oldest(group, maxGroupSize), threshold, now, isoTime))
  }

  function PlansFor(cats: seq<Category>, rs: seq<MemoryRecord>, maxGroupSize: int, threshold: real, now: int, isoTime: int -> string): seq<SummaryPlan>
    requires maxGroupSize >= 1
  {
    if cats == [] then []
    else
      PlansFor(cats[..|cats| - 1], rs, maxGroupSize, threshold, now, isoTime)
      + match PlanFor(rs, cats[|cats| - 1], maxGroupSize, threshold, now, isoTime)
        case Some(p) => [p]
        case None => []
  }

  /** `buildSummaries`, as a function of its input sequence. */
  function Plans(ms: seq<MemoryRecord>, maxGroupSize: int, threshold: real, now: int, isoTime: int -> string): seq<SummaryPlan>
    requires maxGroupSize >= 1
  {
    var e := Eligible(ms, threshold);
    PlansFor(CategoriesOf(e), e, maxGroupSize, threshold, now, isoTime)
  }

  /** The categories that get a plan: those with at least two eligible records. */
  function PlannedCategories(cats: seq<Category>, rs: seq<MemoryRecord>): seq<Category> {
    Seqs.Filter(cats, (c: Category) => |GroupOf(rs, c)| >= 2)
  }

  lemma PlannedCategoriesLast(cats: seq<Category>, rs: seq<MemoryRecord>)
    requires cats != []
    ensures var c := cats[|cats| - 1];
            PlannedCategories(cats, rs) == PlannedCategories(cats[..|cats| - 1], rs) + (if |GroupOf(rs, c)| >= 2 then [c] else [])
  {
  }

  lemma PlansForLast(cats: seq<Category>, rs: seq<MemoryRecord>, maxGroupSize: int, threshold: real, now: int, isoTime: int -> string)
    requires cats != [] && maxGroupSize >= 1
    ensures var c := cats[|cats| - 1];
            PlansFor(cats, rs, maxGroupSize, threshold, now, isoTime)
            == PlansFor(cats[..|cats| - 1], rs, maxGroupSize, threshold, now, isoTime)
               + (if |GroupOf(rs, c)| >= 2 then [MakePlan(c, Oldest(GroupOf(rs, c), maxGroupSize), threshold, now, isoTime)] else [])
  {
  }

  lemma {:induction false} PlansForShape(cats: seq<Category>, rs: seq<MemoryRecord>, maxGroupSize: int, threshold: real, now: int, isoTime: int -> string)
    requires maxGroupSize >= 1
    ensures var pc := PlannedCategories(cats, rs);
            var ps := PlansFor(cats, rs, maxGroupSize, threshold, now, isoTime);
            && |ps| == |pc|
            && forall k :: 0 <= k < |ps| ==>
                 |GroupOf(rs, pc[k])| >= 2 && ps[k] == MakePlan(pc[k], Oldest(GroupOf(rs, pc[k]), maxGroupSize), threshold, now, isoTime)
  {
    if cats != [] {
      var init, c := cats[..|cats| - 1], cats[|cats| - 1];
      PlansForShape(init, rs, maxGroupSize, threshold, now, isoTime);
      var pc0 := PlannedCategories(init, rs);
      var ps0 := PlansFor(init, rs, maxGroupSize, threshold, now, isoTime);
      var planned := |GroupOf(rs, c)| >= 2;
      var pc := PlannedCategories(cats, rs);
      var ps := PlansFor(cats, rs, maxGroupSize, threshold, now, isoTime);
      PlannedCategoriesLast(cats, rs);
      PlansForLast(cats, rs, maxGroupSize, threshold, now, isoTime);
      forall k | 0 <= k < |ps|
        ensures |GroupOf(rs, pc[k])| >= 2 && ps[k] == MakePlan(pc[k], Oldest(GroupOf(rs, pc[k]), maxGroupSize), threshold, now, isoTime)
      {
        if k < |ps0| {
          assert ps[k] == ps0[k] && pc[k] == pc0[k];
        } else {
          assert ps[k] == MakePlan(c, Oldest(GroupOf(rs, c), maxGroupSize), threshold, now, isoTime) && pc[k] == c;
        }
      }
    }
  }

  /** The records a plan replaces: eligible records of its category, oldest first, stably sorted. */
  lemma PlanSlice(ms: seq<MemoryRecord>, threshold: real, c: Category, maxGroupSize: int)
    requires maxGroupSize >= 1
    ensures var group := GroupOf(Eligible(ms, threshold), c);
            var slice := Oldest(group, maxGroupSize);
            && |slice| == (if |group| < maxGroupSize then |group| else maxGroupSize)
            && (forall i :: 0 <= i < |slice| ==> slice[i] in ms && slice[i].importance < threshold && slice[i].category == c)
            && Seqs.SortedBy(slice, TimestampKey)
            && slice <= Seqs.SortBy(group, TimestampKey)
            && Seqs.StablePermutationOf(Seqs.SortBy(group, TimestampKey), group, TimestampKey)
  {
    var e := Eligible(ms, threshold);
    var group := GroupOf(e, c);
    var sorted := Seqs.SortBy(group, TimestampKey);
    var slice := Oldest(group, maxGroupSize);
    Seqs.SortByCorrect(group, TimestampKey);
    forall i | 0 <= i < |slice| ensures slice[i] in ms && slice[i].importance < threshold && slice[i].category == c {
      assert slice[i] == sorted[i];
      assert sorted[i] in multiset(group);
      assert slice[i] in group;
      assert slice[i] in e;
    }
  }

  /**
   * The shape of `buildSummaries`' answer: one plan per category that has
   * at least two eligible records, no category twice, each plan built from
   * its category's oldest eligible records, capped at `maxGroupSize`.
   */
  lemma BuildSummariesShape(ms: seq<MemoryRecord>, maxGroupSize: int, threshold: real, now: int, isoTime: int -> string)
    requires maxGroupSize >= 1
    ensures var e := Eligible(ms, threshold);
            var cats := PlannedCategories(CategoriesOf(e), e);
            var ps := Plans(ms, maxGroupSize, threshold, now, isoTime);
            && |ps| == |cats|
            && (forall k, l :: 0 <= k < l < |cats| ==> cats[k] != cats[l])
            && forall k :: 0 <= k < |ps| ==>
                 var group := GroupOf(e, cats[k]);
                 && |group| >= 2
                 && ps[k] == MakePlan(cats[k], Oldest(group, maxGroupSize), threshold, now, isoTime)
                 && ps[k].sourceIds == IdList(Oldest(group, maxGroupSize))
                 && |ps[k].sourceIds| == (if |group| < maxGroupSize then |group| else maxGroupSize)
                 && ps[k].summary.category == CategoryName(cats[k])
                 && ps[k].summary.tags == Some([SummaryTag])
                 && ps[k].summary.importance == Some(threshold)
                 && ps[k].summary.timestamp == Some(now)
  {
    var e := Eligible(ms, threshold);
    PlansForShape(CategoriesOf(e), e, maxGroupSize, threshold, now, isoTime);
    Seqs.FilterDistinct(CategoriesOf(e), (c: Category) => |GroupOf(e, c)| >= 2);
    var cats := PlannedCategories(CategoriesOf(e), e);
    forall k | 0 <= k < |cats| ensures |Oldest(GroupOf(e, cats[k]), maxGroupSize)| == (if |GroupOf(e, cats[k])| < maxGroupSize then |GroupOf(e, cats[k])| else maxGroupSize) {
      PlanSlice(ms, threshold, cats[k], maxGroupSize);
    }
  }

  lemma DistinctRecordsDistinctIds(ms: seq<MemoryRecord>, x: MemoryRecord, y: MemoryRecord)
    requires DistinctIds(ms) && x in ms && y in ms && x.category != y.category
    ensures x.id != y.id
  {
    var a :| 0 <= a < |ms| && ms[a] == x;
    var b :| 0 <= b < |ms| && ms[b] == y;
    assert a != b;
  }

  /** The sources of the `k`-th plan are the ids of its category's oldest eligible records. */
  lemma PlanSources(ms: seq<MemoryRecord>, maxGroupSize: int, threshold: real, now: int, isoTime: int -> string)
    requires maxGroupSize >= 1
    ensures var e := Eligible(ms, threshold);
            var cats := PlannedCategories(CategoriesOf(e), e);
            var ps := Plans(ms, maxGroupSize, threshold, now, isoTime);
            && |ps| == |cats|
            && (forall k, l :: 0 <= k < l < |cats| ==> cats[k] != cats[l])
            && forall k :: 0 <= k < |ps| ==> ps[k].sourceIds == IdList(Oldest(GroupOf(e, cats[k]), maxGroupSize))
  {
    BuildSummariesShape(ms, maxGroupSize, threshold, now, isoTime);
  }

  /** Filtering by importance keeps part of the records. */
  lemma {:induction false} EligiblePart(ms: seq<MemoryRecord>, threshold: real)
    ensures multiset(Eligible(ms, threshold)) <= multiset(ms)
  {
    if ms != [] {
      var init, x := ms[..|ms| - 1], ms[|ms| - 1];
      assert ms == init + [x];
      EligiblePart(init, threshold);
    }
  }

  /** Filtering by category keeps part of the records. */
  lemma {:induction false} GroupOfPart(rs: seq<MemoryRecord>, c: Category)
    ensures multiset(GroupOf(rs, c)) <= multiset(rs)
  {
    if rs != [] {
      var init, x := rs[..|rs| - 1], rs[|rs| - 1];
      assert rs == init + [x];
      GroupOfPart(init, c);
    }
  }

  /** Records drawn (as a multiset) from records with distinct ids have distinct ids. */
  lemma PartIds(rs: seq<MemoryRecord>, ms: seq<MemoryRecord>)
    requires multiset(rs) <= multiset(ms) && DistinctIds(ms)
    ensures DistinctIds(rs)
    ensures forall i :: 0 <= i < |rs| ==> rs[i].id in IdsOf(ms)
  {
    Seqs.SubDistinct(rs, ms);
    forall i | 0 <= i < |rs| ensures rs[i] in ms {
      assert rs[i] in multiset(rs);
    }
    forall i, j | 0 <= i < j < |rs| ensures rs[i].id != rs[j].id {
      var a :| 0 <= a < |ms| && ms[a] == rs[i];
      var b :| 0 <= b < |ms| && ms[b] == rs[j];
    }
  }

  /** The records a plan replaces are part of the input. */
  lemma SlicePart(ms: seq<MemoryRecord>, threshold: real, c: Category, maxGroupSize: int)
    ensures multiset(Oldest(GroupOf(Eligible(ms, threshold), c), maxGroupSize)) <= multiset(ms)
  {
    var e := Eligible(ms, threshold);
    var group := GroupOf(e, c);
    Seqs.PrefixPart(Oldest(group, maxGroupSize), Seqs.SortBy(group, TimestampKey));
    GroupOfPart(e, c);
    EligiblePart(ms, threshold);
  }

  /** Ids that are distinct and all drawn from `keys`. */
  predicate DistinctIn(ids: seq<string>, keys: set<string>) {
    && (forall i :: 0 <= i < |ids| ==> ids[i] in keys)
    && (forall i, j :: 0 <= i < j < |ids| ==> ids[i] != ids[j])
  }

  /** The ids of the oldest records of one category are distinct input ids. */
  lemma SliceIds(ms: seq<MemoryRecord>, threshold: real, c: Category, maxGroupSize: int)
    requires DistinctIds(ms)
    ensures DistinctIn(IdList(Oldest(GroupOf(Eligible(ms, threshold), c), maxGroupSize)), IdsOf(ms))
  {
    var slice := Oldest(GroupOf(Eligible(ms, threshold), c), maxGroupSize);
    SlicePart(ms, threshold, c, maxGroupSize);
    PartIds(slice, ms);
  }

  /**
   * With distinct input ids, the sources of each plan are distinct ids of
   * input records.
   */
  lemma PlanSourcesDistinct(ms: seq<MemoryRecord>, maxGroupSize: int, threshold: real, now: int, isoTime: int -> string)
    requires maxGroupSize >= 1 && DistinctIds(ms)
    ensures var ps := Plans(ms, maxGroupSize, threshold, now, isoTime);
            forall k :: 0 <= k < |ps| ==> DistinctIn(ps[k].sourceIds, IdsOf(ms))
  {
    var e := Eligible(ms, threshold);
    var cats := PlannedCategories(CategoriesOf(e), e);
    var ps := Plans(ms, maxGroupSize, threshold, now, isoTime);
    PlanSources(ms, maxGroupSize, threshold, now, isoTime);
    forall k | 0 <= k < |ps| ensures DistinctIn(ps[k].sourceIds, IdsOf(ms)) {
      SliceIds(ms, threshold, cats[k], maxGroupSize);
    }
  }

  /**
   * No record is replaced by two plans, and no preserved record is replaced
   * at all: every source is an eligible record of the plan's category.
   */
  lemma PlansDisjoint(ms: seq<MemoryRecord>, maxGroupSize: int, threshold: real, now: int, isoTime: int -> string)
    requires maxGroupSize >= 1 && DistinctIds(ms)
    ensures var ps := Plans(ms, maxGroupSize, threshold, now, isoTime);
            forall k, l, i, j :: 0 <= k < l < |ps| && 0 <= i < |ps[k].sourceIds| && 0 <= j < |ps[l].sourceIds| ==>
              ps[k].sourceIds[i] != ps[l].sourceIds[j]
  {
    var e := Eligible(ms, threshold);
    var cats := PlannedCategories(CategoriesOf(e), e);
    var ps := Plans(ms, maxGroupSize, threshold, now, isoTime);
    PlanSources(ms, maxGroupSize, threshold, now, isoTime);
    forall k, l, i, j | 0 <= k < l < |ps| && 0 <= i < |ps[k].sourceIds| && 0 <= j < |ps[l].sourceIds|
      ensures ps[k].sourceIds[i] != ps[l].sourceIds[j]
    {
      var sk := Oldest(GroupOf(e, cats[k]), maxGroupSize);
      var sl := Oldest(GroupOf(e, cats[l]), maxGroupSize);
      PlanSlice(ms, threshold, cats[k], maxGroupSize);
      PlanSlice(ms, threshold, cats[l], maxGroupSize);
      DistinctRecordsDistinctIds(ms, sk[i], sl[j]);
    }
  }

  /** The position of the first record of category `c` in `rs`, or |rs| when there is none. */
  function FirstOf(rs: seq<MemoryRecord>, c: Category): (n: nat)
    ensures n <= |rs|
    ensures n < |rs| ==> rs[n].category == c
    ensures forall k :: 0 <= k < n ==> rs[k].category != c
  {
    if rs == [] then 0
    else if rs[0].category == c then 0
    else 1 + FirstOf(rs[1..], c)
  }

  lemma {:induction false} FirstOfAppend(rs: seq<MemoryRecord>, x: MemoryRecord, c: Category)
    ensures FirstOf(rs + [x], c) == if FirstOf(rs, c) < |rs| then FirstOf(rs, c) else if x.category == c then |rs| else |rs| + 1
  {
    if rs != [] {
      assert (rs + [x])[1..] == rs[1..] + [x];
      FirstOfAppend(rs[1..], x, c);
    }
  }

  /** `cats` lists categories present in `rs`, in the order of their first records. */
  ghost predicate InFirstAppearanceOrder(rs: seq<MemoryRecord>, cats: seq<Category>) {
    && (forall i :: 0 <= i < |cats| ==> FirstOf(rs, cats[i]) < |rs|)
    && (forall i, j :: 0 <= i < j < |cats| ==> FirstOf(rs, cats[i]) < FirstOf(rs, cats[j]))
  }

  lemma FirstAppearanceStep(init: seq<MemoryRecord>, x: MemoryRecord, cs: seq<Category>)
    requires InFirstAppearanceOrder(init, cs)
    requires forall k :: 0 <= k < |init| ==> init[k].category in cs
    ensures InFirstAppearanceOrder(init + [x], if x.category in cs then cs else cs + [x.category])
  {
    forall i | 0 <= i < |cs| ensures FirstOf(init + [x], cs[i]) == FirstOf(init, cs[i]) {
      FirstOfAppend(init, x, cs[i]);
    }
    if x.category !in cs {
      FirstOfAppend(init, x, x.category);
    }
  }

  /** The categories come in the order of their first records. */
  lemma {:induction false} CategoriesInFirstAppearanceOrder(rs: seq<MemoryRecord>)
    ensures InFirstAppearanceOrder(rs, CategoriesOf(rs))
  {
    if rs != [] {
      var init, x := rs[..|rs| - 1], rs[|rs| - 1];
      assert rs == init + [x];
      CategoriesInFirstAppearanceOrder(init);
      FirstAppearanceStep(init, x, CategoriesOf(init));
    }
  }

  /** Plans come in the order of their categories' first eligible records. */
  lemma PlansInFirstAppearanceOrder(ms: seq<MemoryRecord>, threshold: real)
    ensures var e := Eligible(ms, threshold);
            var cats := PlannedCategories(CategoriesOf(e), e);
            forall k, l :: 0 <= k < l < |cats| ==> FirstOf(e, cats[k]) < FirstOf(e, cats[l])
  {
    var e := Eligible(ms, threshold);
    var cs := CategoriesOf(e);
    CategoriesInFirstAppearanceOrder(e);
    var first := (c: Category) => FirstOf(e, c);
    assert forall i, j :: 0 <= i < j < |cs| ==> first(cs[i]) < first(cs[j]);
    Seqs.FilterIncreasing(cs, (c: Category) => |GroupOf(e, c)| >= 2, first);
  }

  /** The grouping map and its key order describe the records `e`. */
  ghost predicate GroupedBy(grouped: map<Category, seq<MemoryRecord>>, order: seq<Category>, e: seq<MemoryRecord>) {
    && order == CategoriesOf(e)
    && (forall c :: c in grouped <==> c in order)
    && (forall c :: c in grouped ==> grouped[c] == GroupOf(e, c))
    && (forall c :: c !in grouped ==> GroupOf(e, c) == [])
  }

  /** `list.push(memory)` into the category's list, a new key going last in the map's order. */
  lemma GroupedStep(grouped: map<Category, seq<MemoryRecord>>, order: seq<Category>, e: seq<MemoryRecord>, m: MemoryRecord)
    requires GroupedBy(grouped, order, e)
    ensures var list := if m.category in grouped then grouped[m.category] else [];
            GroupedBy(grouped[m.category := list + [m]], if m.category in grouped then order else order + [m.category], e + [m])
  {
    var list := if m.category in grouped then grouped[m.category] else [];
    var grouped' := grouped[m.category := list + [m]];
    var order' := if m.category in grouped then order else order + [m.category];
    assert (e + [m])[..|e|] == e;
    assert order' == CategoriesOf(e + [m]);
    forall c | c in grouped' ensures grouped'[c] == GroupOf(e + [m], c) {
      GroupOfAppend(e, m, c);
    }
    forall c | c !in grouped' ensures GroupOf(e + [m], c) == [] {
      GroupOfAppend(e, m, c);
    }
  }

  /** One turn of the grouping loop keeps the map describing the eligible records seen so far. */
  lemma GroupingStep(grouped: map<Category, seq<MemoryRecord>>, order: seq<Category>, memories: seq<MemoryRecord>, i: nat, threshold: real)
    requires i < |memories|
    requires GroupedBy(grouped, order, Eligible(memories[..i], threshold))
    ensures var m := memories[i];
            var list := if m.category in grouped then grouped[m.category] else [];
            if m.importance >= threshold then GroupedBy(grouped, order, Eligible(memories[..i + 1], threshold))
            else GroupedBy(grouped[m.category := list + [m]], if m.category in grouped then order else order + [m.category],
                           Eligible(memories[..i + 1], threshold))
  {
    var m := memories[i];
    var e := Eligible(memories[..i], threshold);
    EligibleStep(memories, i, threshold);
    if m.importance < threshold {
      assert Eligible(memories[..i + 1], threshold) == e + [m];
      GroupedStep(grouped, order, e, m);
    } else {
      assert Eligible(memories[..i + 1], threshold) == e;
    }
  }

  lemma EligibleStep(memories: seq<MemoryRecord>, i: nat, threshold: real)
    requires i < |memories|
    ensures Eligible(memories[..i + 1], threshold)
            == Eligible(memories[..i], threshold) + (if memories[i].importance < threshold then [memories[i]] else [])
  {
    assert memories[..i + 1][..i] == memories[..i];
  }

  lemma PlansForStep(order: seq<Category>, j: nat, e: seq<MemoryRecord>, maxGroupSize: int, threshold: real, now: int, isoTime: int -> string)
    requires j < |order| && maxGroupSize >= 1
    ensures PlansFor(order[..j + 1], e, maxGroupSize, threshold, now, isoTime)
            == PlansFor(order[..j], e, maxGroupSize, threshold, now, isoTime)
               + (if |GroupOf(e, order[j])| >= 2 then [MakePlan(order[j], Oldest(GroupOf(e, order[j]), maxGroupSize), threshold, now, isoTime)] else [])
  {
    assert order[..j + 1][..j] == order[..j];
  }

  /** The first loop of `buildSummaries`: each eligible record is pushed onto its category's list. */
  method GroupEligible(memories: seq<MemoryRecord>, threshold: real)
    returns (grouped: map<Category, seq<MemoryRecord>>, order: seq<Category>)
    ensures GroupedBy(grouped, order, Eligible(memories, threshold))
  {
    grouped, order := map[], [];
    var i := 0;
    while i < |memories|
      invariant 0 <= i <= |memories|
      invariant GroupedBy(grouped, order, Eligible(memories[..i], threshold))
    {
      var m := memories[i];
      GroupingStep(grouped, order, memories, i, threshold);
      if m.importance >= threshold {
        i := i + 1;
        continue;
      }
      var list := if m.category in grouped then grouped[m.category] else [];
      if m.category !in grouped {
        order := order + [m.category];
      }
      grouped := grouped[m.category := list + [m]];
      i := i + 1;
    }
    assert memories[..i] == memories;
  }

  /** One iteration of the second loop: a group of two or more gets a plan for its oldest records. */
  method PlanGroup(plans: seq<SummaryPlan>, category: Category, group: seq<MemoryRecord>,
                   maxGroupSize: int, threshold: real, now: int, isoTime: int -> string)
    returns (plans': seq<SummaryPlan>)
    requires maxGroupSize >= 1
    ensures plans' == plans + (if |group| >= 2 then [MakePlan(category, Oldest(group, maxGroupSize), threshold, now, isoTime)] else [])
  {
    plans' := plans;
    if |group| >= 2 {
      var slice := Oldest(group, maxGroupSize);
      plans' := plans' + [MakePlan(category, slice, threshold, now, isoTime)];
    }
  }

  /** The second loop of `buildSummaries`: a plan for every group of two or more, in the map's key order. */
  method PlanGroups(grouped: map<Category, seq<MemoryRecord>>, order: seq<Category>, ghost e: seq<MemoryRecord>,
                    maxGroupSize: int, threshold: real, now: int, isoTime: int -> string)
    returns (plans: seq<SummaryPlan>)
    requires maxGroupSize >= 1
    requires forall c :: c in order ==> c in grouped && grouped[c] == GroupOf(e, c)
    ensures plans == PlansFor(order, e, maxGroupSize, threshold, now, isoTime)
  {
    plans := [];
    var j := 0;
    while j < |order|
      invariant 0 <= j <= |order|
      invariant plans == PlansFor(order[..j], e, maxGroupSize, threshold, now, isoTime)
    {
      var category := order[j];
      PlansForStep(order, j, e, maxGroupSize, threshold, now, isoTime);
      plans := PlanGroup(plans, category, grouped[category], maxGroupSize, threshold, now, isoTime);
      j := j + 1;
    }
    assert order[..j] == order;
  }

  /** `buildSummaries`: group the eligible records, then plan each group of two or more. */
  method BuildSummaries(memories: seq<MemoryRecord>, maxGroupSize: int, threshold: real, now: int, isoTime: int -> string)
    returns (plans: seq<SummaryPlan>)
    requires maxGroupSize >= 1
    ensures plans == Plans(memories, maxGroupSize, threshold, now, isoTime)
  {
    var grouped, order := GroupEligible(memories, threshold);
    plans := PlanGroups(grouped, order, Eligible(memories, threshold), maxGroupSize, threshold, now, isoTime);
  }
}
