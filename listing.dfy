/**
 * The task index query: exact-match filters on three id columns, ascending
 * id order and one fixed-size page.
 */
module Listing {
  import opened Wrappers
  import opened Tasks

  /** The page size of paginate() when the model does not override it. */
  const PerPage: nat := 15

  /** The three allowed exact filters; None means the filter was not sent. */
  datatype Filters = Filters(
    statusId: Option<StatusId>,
    createdById: Option<UserId>,
    assignedToId: Option<UserId>)

  /** One page of the listing and the paginator's counters. */
  datatype Page = Page(items: seq<(TaskId, Task)>, total: nat, currentPage: nat)

  /**
   * Every sent filter equals its column (`where col = value`); a task with no
   * assignee never matches an assignee filter.
   */
  predicate Matches(t: Task, f: Filters) {
    && (f.statusId.Some? ==> t.statusId == f.statusId.value)
    && (f.createdById.Some? ==> t.createdById == f.createdById.value)
    && (f.assignedToId.Some? ==> t.assignedToId == Some(f.assignedToId.value))
  }

  predicate Ascending(ids: seq<TaskId>) {
    forall i, j | 0 <= i < j < |ids| :: ids[i] < ids[j]
  }

  /** The ids in [lo, hi) of the tasks that pass the filters, in ascending order. */
  function MatchingIds(tasks: Table, f: Filters, lo: nat, hi: nat): (r: seq<TaskId>)
    ensures Ascending(r)
    ensures forall id :: id in r <==> lo <= id < hi && id in tasks && Matches(tasks[id], f)
    ensures forall k | 0 <= k < |r| :: lo <= r[k]
    decreases hi - lo
  {
    if lo >= hi then []
    else
      var rest := MatchingIds(tasks, f, lo + 1, hi);
      if lo in tasks && Matches(tasks[lo], f) then [lo] + rest else rest
  }

  /** The elements of a nonempty sequence are its head and those of its tail. */
  lemma ElementsOfCons(ids: seq<TaskId>)
    requires ids != []
    ensures AsSet(ids) == AsSet(ids[1..]) + {ids[0]}
  {
  }

  /** An ascending sequence has as many distinct elements as positions. */
  lemma {:induction false} AscendingCardinality(ids: seq<TaskId>)
    requires Ascending(ids)
    ensures |AsSet(ids)| == |ids|
  {
    if ids != [] {
      var tail := ids[1..];
      assert Ascending(tail);
      AscendingCardinality(tail);
      ElementsOfCons(ids);
      assert ids[0] !in AsSet(tail) by {
        assert forall k | 0 <= k < |tail| :: ids[0] < tail[k];
      }
    }
  }

  /**
   * With every id below the bound, the scan counts exactly the matching
   * tasks of the table.
   */
  lemma MatchingCount(tasks: Table, f: Filters, bound: nat)
    requires forall id | id in tasks :: id < bound
    ensures |MatchingIds(tasks, f, 0, bound)| == |set id | id in tasks && Matches(tasks[id], f)|
  {
    var ids := MatchingIds(tasks, f, 0, bound);
    AscendingCardinality(ids);
    assert AsSet(ids) == set id | id in tasks && Matches(tasks[id], f);
  }

  /** The rows of the given ids, each paired with its task. */
  function Rows(tasks: Table, ids: seq<TaskId>): (r: seq<(TaskId, Task)>)
    requires forall k | 0 <= k < |ids| :: ids[k] in tasks
    ensures |r| == |ids|
    ensures forall k | 0 <= k < |r| :: r[k].0 == ids[k] && r[k].1 == tasks[ids[k]]
  {
    seq(|ids|, k requires 0 <= k < |ids| => (ids[k], tasks[ids[k]]))
  }

  /** The number of matching tasks whose id is below v: v's rank in the listing. */
  ghost function Rank(tasks: Table, f: Filters, v: TaskId): nat {
    |MatchingBelow(tasks, f, v)|
  }

  ghost function MatchingBelow(tasks: Table, f: Filters, v: TaskId): set<TaskId> {
    set id | id in tasks && Matches(tasks[id], f) && id < v
  }

  /** In an ascending list, exactly k elements are smaller than the one at position k. */
  lemma {:induction false} AscendingRank(ids: seq<TaskId>, k: nat)
    requires Ascending(ids) && k < |ids|
    ensures |set id | id in ids && id < ids[k]| == k
  {
    var prefix := ids[..k];
    assert Ascending(prefix);
    AscendingCardinality(prefix);
    forall x ensures x in AsSet(prefix) <==> x in ids && x < ids[k] {
      if x in ids && x < ids[k] {
        var i :| 0 <= i < |ids| && ids[i] == x;
        assert prefix[i] == x;
      }
    }
    assert AsSet(prefix) == set id | id in ids && id < ids[k];
  }

  /** The page the paginator uses: a requested page below 1 reads as page 1. */
  function CurrentPage(requested: int): (p: nat)
    ensures p >= 1
    ensures requested >= 1 ==> p == requested
    ensures requested < 1 ==> p == 1
  {
    if requested >= 1 then requested else 1
  }

  /** Page `page` (1-based) of s: positions (page-1)*PerPage up to PerPage of them. */
  function PageSlice<T>(s: seq<T>, page: nat): (r: seq<T>)
    requires page >= 1
    ensures |r| <= PerPage
    ensures (page - 1) * PerPage >= |s| ==> r == []
    ensures (page - 1) * PerPage < |s| ==> |r| == if |s| - (page - 1) * PerPage < PerPage then |s| - (page - 1) * PerPage else PerPage
    ensures forall k | 0 <= k < |r| :: (page - 1) * PerPage + k < |s| && r[k] == s[(page - 1) * PerPage + k]
  {
    var start := (page - 1) * PerPage;
    if start >= |s| then []
    else s[start .. if start + PerPage <= |s| then start + PerPage else |s|]
  }

  /**
   * The ids of one page, for a scan that is ascending and holds exactly the
   * matching tasks: each is a matching task whose rank is its position in
   * the whole listing, and they ascend.
   */
  lemma ListedPage(tasks: Table, f: Filters, ids: seq<TaskId>, page: nat)
    requires page >= 1 && Ascending(ids)
    requires forall id :: id in ids <==> id in tasks && Matches(tasks[id], f)
    ensures forall k | 0 <= k < |PageSlice(ids, page)| ::
              && PageSlice(ids, page)[k] in tasks
              && Matches(tasks[PageSlice(ids, page)[k]], f)
              && Rank(tasks, f, PageSlice(ids, page)[k]) == (page - 1) * PerPage + k
    ensures Ascending(PageSlice(ids, page))
  {
    var onPage := PageSlice(ids, page);
    forall k | 0 <= k < |onPage|
      ensures onPage[k] in tasks && Matches(tasks[onPage[k]], f)
      ensures Rank(tasks, f, onPage[k]) == (page - 1) * PerPage + k
    {
      var pos := (page - 1) * PerPage + k;
      assert onPage[k] == ids[pos];
      AscendingRank(ids, pos);
      assert MatchingBelow(tasks, f, onPage[k]) == set id | id in ids && id < ids[pos];
    }
  }

  /**
   * index: the tasks passing every sent filter, by ascending id, cut to the
   * requested page of PerPage items. `bound` is any value above every id;
   * the controller passes its auto-increment counter.
   */
  function Index(tasks: Table, filters: Filters, bound: nat, page: int): (r: Page)
    requires forall id | id in tasks :: id < bound
    ensures page >= 1 ==> r.currentPage == page
    ensures page < 1 ==> r.currentPage == 1
    ensures r.total == |set id | id in tasks && Matches(tasks[id], filters)|
    ensures |r.items| <= PerPage
    ensures forall k | 0 <= k < |r.items| ::
              r.items[k].0 in tasks && r.items[k].1 == tasks[r.items[k].0] && Matches(r.items[k].1, filters)
    ensures forall i, j | 0 <= i < j < |r.items| :: r.items[i].0 < r.items[j].0
    ensures (r.currentPage - 1) * PerPage >= r.total ==> r.items == []
    ensures (r.currentPage - 1) * PerPage < r.total ==>
              |r.items| == if r.total - (r.currentPage - 1) * PerPage < PerPage
                           then r.total - (r.currentPage - 1) * PerPage else PerPage
    ensures forall k | 0 <= k < |r.items| ::
              Rank(tasks, filters, r.items[k].0) == (r.currentPage - 1) * PerPage + k
  {
    var ids := MatchingIds(tasks, filters, 0, bound);
    MatchingCount(tasks, filters, bound);
    var current := CurrentPage(page);
    ListedPage(tasks, filters, ids, current);
    Page(Rows(tasks, PageSlice(ids, current)), |ids|, current)
  }

  /** Every id on an earlier page of the index is smaller than every id on a later one. */
  lemma IndexPagesInOrder(tasks: Table, filters: Filters, bound: nat, p: int, q: int, i: nat, j: nat)
    requires forall id | id in tasks :: id < bound
    requires 1 <= p < q
    requires i < |Index(tasks, filters, bound, p).items| && j < |Index(tasks, filters, bound, q).items|
    ensures Index(tasks, filters, bound, p).items[i].0 < Index(tasks, filters, bound, q).items[j].0
  {
  }

  /** A task listed on pages p and q of the index is listed on one page only: p == q. */
  lemma IndexPageUnique(tasks: Table, filters: Filters, bound: nat, p: int, q: int, i: nat, j: nat)
    requires forall id | id in tasks :: id < bound
    requires 1 <= p && 1 <= q
    requires i < |Index(tasks, filters, bound, p).items| && j < |Index(tasks, filters, bound, q).items|
    requires Index(tasks, filters, bound, p).items[i].0 == Index(tasks, filters, bound, q).items[j].0
    ensures p == q
  {
  }

  /** Every matching task is listed on some page of the index. */
  lemma IndexListsEveryMatch(tasks: Table, filters: Filters, bound: nat, id: TaskId)
    requires forall id | id in tasks :: id < bound
    requires id in tasks && Matches(tasks[id], filters)
    ensures exists page: int | page >= 1 :: (id, tasks[id]) in Index(tasks, filters, bound, page).items
  {
    var ids := MatchingIds(tasks, filters, 0, bound);
    var k :| 0 <= k < |ids| && ids[k] == id;
    var page: int := k / PerPage + 1;
    RowOnPage(tasks, ids, k);
    IndexItems(tasks, filters, bound, page);
  }

  /** For a page of at least 1, the index shows the rows of that slice of the scan. */
  lemma IndexItems(tasks: Table, filters: Filters, bound: nat, page: int)
    requires forall id | id in tasks :: id < bound
    requires page >= 1
    ensures Index(tasks, filters, bound, page).items
              == Rows(tasks, PageSlice(MatchingIds(tasks, filters, 0, bound), page))
  {
  }

  /** The row of position k of a listing is on page k / PerPage + 1. */
  lemma RowOnPage(tasks: Table, ids: seq<TaskId>, k: nat)
    requires k < |ids| && forall i | 0 <= i < |ids| :: ids[i] in tasks
    ensures (ids[k], tasks[ids[k]]) in Rows(tasks, PageSlice(ids, k / PerPage + 1))
  {
  }

  /** Position k of the listing is item k % PerPage of page k / PerPage + 1. */
  lemma PositionOnPage<T>(s: seq<T>, k: nat)
    requires k < |s|
    ensures var page := k / PerPage + 1;
            k % PerPage < |PageSlice(s, page)| && PageSlice(s, page)[k % PerPage] == s[k]
  {
  }
}
