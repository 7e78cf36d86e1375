/**
  * The workflow list of src/pages/WorkflowsPage.tsx: the loaded workflows,
  * the list shown under the current tab, search text and sort key, the
  * approve/reject handlers that rewrite workflows by id, and the per-status
  * counts shown on the tabs.
  */
module Workflows {
  import Text
  import Collections

  datatype Assignee = Assignee(id: string, name: string)

  /** WorkflowItem; createdAt as milliseconds since the epoch. */
  datatype Workflow = Workflow(
    id: string, title: string, description: string, status: string,
    assignee: Assignee, progress: int, steps: int, currentStep: int,
    createdAt: int, updatedAt: int)

  /** `currentTab !== "all"` keeps only workflows whose status is the tab. */
  predicate TabMatches(w: Workflow, tab: string) {
    tab == "all" || w.status == tab
  }

  /** `searchQuery.trim() !== ""` */
  predicate QueryActive(query: string) {
    Text.Trim(query) != ""
  }

  /** The lower-cased query occurs in the title, the description or the assignee's name. */
  predicate MatchesQuery(w: Workflow, lowered: string) {
    || Text.Contains(Text.Lower(w.title), lowered)
    || Text.Contains(Text.Lower(w.description), lowered)
    || Text.Contains(Text.Lower(w.assignee.name), lowered)
  }

  /** A workflow passes the tab and the search. */
  predicate Visible(w: Workflow, tab: string, query: string) {
    TabMatches(w, tab) && (QueryActive(query) ==> MatchesQuery(w, Text.Lower(query)))
  }

  /** The sort callback for a sort key. */
  function WorkflowCompare(a: Workflow, b: Workflow, sortKey: string): int {
    if sortKey == "newest" then b.createdAt - a.createdAt
    else if sortKey == "oldest" then a.createdAt - b.createdAt
    else if sortKey == "progress-high" then b.progress - a.progress
    else if sortKey == "progress-low" then a.progress - b.progress
    else 0
  }

  function WorkflowComparator(sortKey: string): (Workflow, Workflow) -> int {
    (a: Workflow, b: Workflow) => WorkflowCompare(a, b, sortKey)
  }

  /** Every sort key gives a comparator the sort can rely on. */
  lemma WorkflowComparatorConsistent(sortKey: string)
    ensures Collections.ConsistentComparator(WorkflowComparator(sortKey))
  {
  }

  /** "newest" is "oldest" reversed, and "progress-high" is "progress-low" reversed. */
  lemma OppositeKeysReverse(a: Workflow, b: Workflow)
    ensures WorkflowCompare(a, b, "newest") == WorkflowCompare(b, a, "oldest")
    ensures WorkflowCompare(a, b, "progress-high") == WorkflowCompare(b, a, "progress-low")
    ensures WorkflowCompare(a, b, "newest") < 0 <==> a.createdAt > b.createdAt
    ensures WorkflowCompare(a, b, "progress-high") < 0 <==> a.progress > b.progress
  {
  }

  /** The tab filter, then the search filter: the list before sorting. */
  function FilterWorkflows(workflows: seq<Workflow>, tab: string, query: string): seq<Workflow> {
    var byTab := if tab != "all" then Collections.Filter(workflows, (w: Workflow) => w.status == tab) else workflows;
    if QueryActive(query) then
      var lowered := Text.Lower(query);
      Collections.Filter(byTab, (w: Workflow) => MatchesQuery(w, lowered))
    else byTab
  }

  /** What the filter effect shows: the filtered list, sorted by the sort key. */
  function ShownWorkflows(workflows: seq<Workflow>, tab: string, query: string, sortKey: string): (r: seq<Workflow>)
    ensures multiset(r) <= multiset(workflows)
    ensures forall k :: 0 <= k < |r| ==> r[k] in workflows && Visible(r[k], tab, query)
  {
    var filtered := FilterWorkflows(workflows, tab, query);
    var shown := Collections.Sort(filtered, WorkflowComparator(sortKey));
    FilterWorkflowsKeeps(workflows, tab, query);
    forall k | 0 <= k < |shown|
      ensures shown[k] in workflows && Visible(shown[k], tab, query)
    {
      assert shown[k] in multiset(filtered);
      FilterWorkflowsExact(workflows, tab, query, shown[k]);
    }
    shown
  }

  /** The filtered list is a sub-multiset of the workflows. */
  lemma FilterWorkflowsKeeps(workflows: seq<Workflow>, tab: string, query: string)
    ensures multiset(FilterWorkflows(workflows, tab, query)) <= multiset(workflows)
  {
  }

  /** A workflow is listed exactly when it is loaded and passes the tab and the search. */
  lemma FilterWorkflowsExact(workflows: seq<Workflow>, tab: string, query: string, w: Workflow)
    ensures w in FilterWorkflows(workflows, tab, query) <==> w in workflows && Visible(w, tab, query)
  {
    var byTab := if tab != "all" then Collections.Filter(workflows, (w: Workflow) => w.status == tab) else workflows;
    if tab != "all" {
      Collections.FilterMembership(workflows, (w: Workflow) => w.status == tab, w);
    }
    if QueryActive(query) {
      var lowered := Text.Lower(query);
      Collections.FilterMembership(byTab, (w: Workflow) => MatchesQuery(w, lowered), w);
    }
  }

  /** The shown list holds every visible workflow and is in sort-key order. */
  lemma ShownWorkflowsSortedAndComplete(workflows: seq<Workflow>, tab: string, query: string, sortKey: string, w: Workflow)
    ensures w in ShownWorkflows(workflows, tab, query, sortKey) <==> w in workflows && Visible(w, tab, query)
    ensures Collections.SortedBy(ShownWorkflows(workflows, tab, query, sortKey), WorkflowComparator(sortKey))
  {
    var filtered := FilterWorkflows(workflows, tab, query);
    FilterWorkflowsExact(workflows, tab, query, w);
    assert w in multiset(filtered) <==> w in multiset(ShownWorkflows(workflows, tab, query, sortKey));
    WorkflowComparatorConsistent(sortKey);
    Collections.SortSorted(filtered, WorkflowComparator(sortKey));
  }

  /** An unknown sort key compares everything as equal, so the filtered order is kept. */
  lemma UnknownSortKeyKeepsOrder(workflows: seq<Workflow>, tab: string, query: string, sortKey: string)
    requires sortKey !in {"newest", "oldest", "progress-high", "progress-low"}
    ensures ShownWorkflows(workflows, tab, query, sortKey) == FilterWorkflows(workflows, tab, query)
  {
    Collections.SortAllEqualKeepsOrder(FilterWorkflows(workflows, tab, query), WorkflowComparator(sortKey));
  }

  /** The "all" tab with a blank search shows every loaded workflow. */
  lemma AllTabBlankQueryShowsAll(workflows: seq<Workflow>, query: string, sortKey: string)
    requires Text.IsBlank(query)
    ensures multiset(ShownWorkflows(workflows, "all", query, sortKey)) == multiset(workflows)
  {
    Text.TrimEmptyIffBlank(query);
  }

  /** `prev.map(w => w.id === id ? { ...w, status } : w)` */
  function SetStatusById(workflows: seq<Workflow>, id: string, status: string): (r: seq<Workflow>)
    ensures |r| == |workflows|
    ensures forall k :: 0 <= k < |r| && workflows[k].id == id ==> r[k] == workflows[k].(status := status)
    ensures forall k :: 0 <= k < |r| && workflows[k].id != id ==> r[k] == workflows[k]
  {
    seq(|workflows|, k requires 0 <= k < |workflows| =>
      if workflows[k].id == id then workflows[k].(status := status) else workflows[k])
  }

  /** Setting a status twice by the same id keeps only the second; ids never change. */
  lemma SetStatusByIdLastWins(workflows: seq<Workflow>, id: string, first: string, second: string)
    ensures SetStatusById(SetStatusById(workflows, id, first), id, second) == SetStatusById(workflows, id, second)
    ensures forall k :: 0 <= k < |workflows| ==> SetStatusById(workflows, id, first)[k].id == workflows[k].id
  {
  }

  /** `workflows.filter(w => w.status === status).length`, counted one workflow at a time. */
  function CountStatus(workflows: seq<Workflow>, status: string): (n: nat)
    ensures n <= |workflows|
  {
    if workflows == [] then 0
    else (if workflows[0].status == status then 1 else 0) + CountStatus(workflows[1..], status)
  }

  /** The count is the length of the filtered list. */
  lemma {:induction false} CountStatusIsFilterLength(workflows: seq<Workflow>, status: string)
    ensures CountStatus(workflows, status) == |Collections.Filter(workflows, (w: Workflow) => w.status == status)|
  {
    if workflows != [] {
      CountStatusIsFilterLength(workflows[1..], status);
      Collections.FilterCons(workflows, (w: Workflow) => w.status == status);
    }
  }

  datatype StatusCounts = StatusCounts(all: nat, pending: nat, review: nat, approved: nat, rejected: nat)

  /** statusCounts */
  function Counts(workflows: seq<Workflow>): (c: StatusCounts)
    ensures c.all == |workflows|
    ensures c.pending + c.review + c.approved + c.rejected <= c.all
  {
    FourCountsBounded(workflows);
    StatusCounts(|workflows|, CountStatus(workflows, "pending"), CountStatus(workflows, "review"),
                 CountStatus(workflows, "approved"), CountStatus(workflows, "rejected"))
  }

  /** Counting one workflow more adds one to its own status's count and nothing to the others. */
  lemma {:induction false} CountStatusCons(w: Workflow, rest: seq<Workflow>, status: string)
    ensures CountStatus([w] + rest, status) == (if w.status == status then 1 else 0) + CountStatus(rest, status)
  {
    assert ([w] + rest)[1..] == rest;
  }

  /** Each workflow has one status, so the four counts together never exceed the total. */
  lemma {:induction false} FourCountsBounded(workflows: seq<Workflow>)
    ensures CountStatus(workflows, "pending") + CountStatus(workflows, "review") +
      CountStatus(workflows, "approved") + CountStatus(workflows, "rejected") <= |workflows|
  {
    if workflows != [] {
      var w, rest := workflows[0], workflows[1..];
      assert workflows == [w] + rest;
      FourCountsBounded(rest);
      CountStatusCons(w, rest, "pending");
      CountStatusCons(w, rest, "review");
      CountStatusCons(w, rest, "approved");
      CountStatusCons(w, rest, "rejected");
    }
  }

  /** Approving a pending workflow that is the only one with its id moves one count from pending to approved. */
  lemma ApproveMovesOneCount(workflows: seq<Workflow>, i: nat)
    requires i < |workflows| && workflows[i].status == "pending"
    requires forall k :: 0 <= k < |workflows| && k != i ==> workflows[k].id != workflows[i].id
    ensures var after := SetStatusById(workflows, workflows[i].id, "approved");
      && CountStatus(after, "approved") == CountStatus(workflows, "approved") + 1
      && CountStatus(after, "pending") + 1 == CountStatus(workflows, "pending")
  {
    StatusChangeMovesOneCount(workflows, i, "approved", "approved");
    StatusChangeMovesOneCount(workflows, i, "approved", "pending");
  }

  /**
    * Giving the only workflow with a given id a new status takes one from
    * the count of its old status and adds one to the count of the new one.
    */
  lemma {:induction false} StatusChangeMovesOneCount(workflows: seq<Workflow>, i: nat, status: string, counted: string)
    requires i < |workflows|
    requires forall k :: 0 <= k < |workflows| && k != i ==> workflows[k].id != workflows[i].id
    ensures CountStatus(SetStatusById(workflows, workflows[i].id, status), counted) + (if workflows[i].status == counted then 1 else 0)
      == CountStatus(workflows, counted) + (if status == counted then 1 else 0)
  {
    var id := workflows[i].id;
    var w, rest := workflows[0], workflows[1..];
    var after := SetStatusById(workflows, id, status);
    assert workflows == [w] + rest;
    SetStatusByIdCons(workflows, id, status);
    CountStatusCons(w, rest, counted);
    CountStatusCons(after[0], after[1..], counted);
    if i == 0 {
      NoIdUnchanged(rest, id, status);
    } else {
      assert rest[i - 1] == workflows[i];
      StatusChangeMovesOneCount(rest, i - 1, status, counted);
    }
  }

  /** The status change by id, one workflow at a time. */
  lemma SetStatusByIdCons(workflows: seq<Workflow>, id: string, status: string)
    requires workflows != []
    ensures var after := SetStatusById(workflows, id, status);
      && after == [after[0]] + after[1..]
      && after[1..] == SetStatusById(workflows[1..], id, status)
  {
  }

  /** With no workflow of that id, a status change by id changes nothing. */
  lemma NoIdUnchanged(workflows: seq<Workflow>, id: string, status: string)
    requires forall k :: 0 <= k < |workflows| ==> workflows[k].id != id
    ensures SetStatusById(workflows, id, status) == workflows
  {
  }

  /** The page's state: the loaded workflows and the list shown. */
  class WorkflowsPage {
    var workflows: seq<Workflow>
    var filteredWorkflows: seq<Workflow>

    /** Both lists start empty. */
    constructor ()
      ensures workflows == [] && filteredWorkflows == []
    {
      workflows := [];
      filteredWorkflows := [];
    }

    /** The load effect: setWorkflows(mockWorkflows.data). */
    method Load(data: seq<Workflow>)
      modifies this
      ensures workflows == data && filteredWorkflows == old(filteredWorkflows)
    {
      workflows := data;
    }

    /**
      * The filter effect: a copy of the workflows, narrowed by tab and by
      * search, sorted, and stored as the shown list; the workflows stay as
      * they are.
      */
    method ApplyFilters(tab: string, query: string, sortKey: string)
      modifies this
      ensures workflows == old(workflows)
      ensures filteredWorkflows == ShownWorkflows(workflows, tab, query, sortKey)
    {
      var filtered := workflows;
      if tab != "all" {
        filtered := Collections.Filter(filtered, (w: Workflow) => w.status == tab);
      }
      var active := QueryActive(query);
      if active {
        var lowered := Text.Lower(query);
        filtered := Collections.Filter(filtered, (w: Workflow) => MatchesQuery(w, lowered));
      }
      assert filtered == FilterWorkflows(workflows, tab, query);
      filtered := Collections.Sort(filtered, WorkflowComparator(sortKey));
      filteredWorkflows := filtered;
    }

    /**
      * handleWorkflowApprove. The page's filter effect depends on
      * `workflows` and so runs again after every approval; here the shown
      * list is refreshed only when a caller next runs ApplyFilters.
      */
    method Approve(id: string)
      modifies this
      ensures workflows == SetStatusById(old(workflows), id, "approved")
      ensures filteredWorkflows == old(filteredWorkflows)
    {
      workflows := SetStatusById(workflows, id, "approved");
    }

    /**
      * handleWorkflowReject. As with Approve, the shown list is refreshed
      * only when a caller next runs ApplyFilters.
      */
    method Reject(id: string)
      modifies this
      ensures workflows == SetStatusById(old(workflows), id, "rejected")
      ensures filteredWorkflows == old(filteredWorkflows)
    {
      workflows := SetStatusById(workflows, id, "rejected");
    }
  }
}
