/** The render-state choice of `src/components/TaskList.jsx`: which of the loading, empty,
    no-results and grouped states the list shows, and the split of the shown tasks into the
    pending and the completed section. */
module TaskList {
  import opened Tasks
  import opened Seqs
  import opened ViewProjector

  /** The text under "No tasks found": the search term when there is one, else the filter. */
  datatype EmptyNotice = NoMatch(term: string) | NoneWithStatus(filter: StatusFilter)

  /** The four states the list renders. */
  datatype ListView =
    | Loading
    | NoTasksYet
    | NoTasksFound(notice: EmptyNotice)
    | Grouped(pending: seq<Task>, completed: seq<Task>)

  /** The chain of early returns, then the two sections. */
  function ChooseView(tasks: seq<Task>, isLoading: bool, term: string, filter: StatusFilter): ListView
  {
    if isLoading then Loading
    else if |tasks| == 0 && term == [] && filter == All then NoTasksYet
    else if |tasks| == 0 then NoTasksFound(if term != [] then NoMatch(term) else NoneWithStatus(filter))
    else Grouped(Filter(tasks, IsPending), Filter(tasks, IsCompleted))
  }

  /** Loading wins over everything; "no tasks yet" is shown exactly for an empty list with no
      search and the `all` filter; any other empty list is "no tasks found", naming the term
      when there is one and the filter otherwise; a non-empty list is always grouped. */
  lemma ViewStates(tasks: seq<Task>, isLoading: bool, term: string, filter: StatusFilter)
    ensures isLoading ==> ChooseView(tasks, isLoading, term, filter) == Loading
    ensures ChooseView(tasks, isLoading, term, filter) == NoTasksYet <==>
      !isLoading && tasks == [] && term == [] && filter == All
    ensures ChooseView(tasks, isLoading, term, filter).NoTasksFound? <==>
      !isLoading && tasks == [] && (term != [] || filter != All)
    ensures ChooseView(tasks, isLoading, term, filter).NoTasksFound? ==>
      ChooseView(tasks, isLoading, term, filter).notice ==
        (if term != [] then NoMatch(term) else NoneWithStatus(filter))
    ensures ChooseView(tasks, isLoading, term, filter).Grouped? <==> !isLoading && tasks != []
  {
  }

  /** The two sections partition the list: every task is in exactly the section of its status,
      as often as in the list, and each section keeps the list's order. */
  lemma GroupsPartition(tasks: seq<Task>, t: Task)
    requires tasks != []
    ensures var v := ChooseView(tasks, false, [], All);
      && v.Grouped?
      && |v.pending| + |v.completed| == |tasks|
      && multiset(v.pending) + multiset(v.completed) == multiset(tasks)
      && (t in v.pending <==> t in tasks && !t.completed)
      && (t in v.completed <==> t in tasks && t.completed)
      && IsSubsequence(v.pending, tasks) && IsSubsequence(v.completed, tasks)
  {
    FilterSplit(tasks, IsPending, IsCompleted);
    FilterMembership(tasks, IsPending, t);
    FilterMembership(tasks, IsCompleted, t);
    FilterIsSubsequence(tasks, IsPending);
    FilterIsSubsequence(tasks, IsCompleted);
  }

  /** The sections do not depend on the term or filter that produced the list. */
  lemma GroupsIgnoreQuery(tasks: seq<Task>, term: string, filter: StatusFilter)
    requires tasks != []
    ensures ChooseView(tasks, false, term, filter) == ChooseView(tasks, false, [], All)
  {
  }

  /** On the projected list, which is in order, the pending section followed by the completed
      section is the list itself: grouping does not reorder what the view sorted. */
  lemma {:induction false} GroupsOfSorted(tasks: seq<Task>)
    requires Sorted(tasks)
    ensures Filter(tasks, IsPending) + Filter(tasks, IsCompleted) == tasks
    decreases |tasks|
  {
    if tasks != [] {
      var x, rest := tasks[0], tasks[1..];
      if !x.completed {
        SortedTail(tasks);
        GroupsOfSorted(rest);
        assert tasks == [x] + rest;
        FilterConcat([x], rest, IsPending);
        FilterConcat([x], rest, IsCompleted);
      } else {
        CompletedAfterCompleted(tasks);
        FilterNone(tasks, IsPending);
        FilterAll(tasks, IsCompleted);
      }
    }
  }

  /** In a list in order, everything after a completed head is completed. */
  lemma CompletedAfterCompleted(tasks: seq<Task>)
    requires Sorted(tasks) && tasks != [] && tasks[0].completed
    ensures forall i :: 0 <= i < |tasks| ==> tasks[i].completed
  {
    forall i | 0 < i < |tasks| ensures tasks[i].completed {
      assert Compare(tasks[0], tasks[i]) <= 0;
    }
  }

  /** What the App renders once loading is over: "no tasks yet" exactly when the store is empty
      and neither a filter nor a search is active; otherwise a grouped list whose sections, in
      turn, are the projected list. */
  lemma ListOfProjection(tasks: seq<Task>, term: string, filter: StatusFilter)
    ensures var view := Project(tasks, filter, term);
      ChooseView(view, false, term, filter) == NoTasksYet <==> tasks == [] && term == [] && filter == All
    ensures var view := Project(tasks, filter, term);
      var v := ChooseView(view, false, term, filter);
      v.Grouped? ==> v.pending + v.completed == view
  {
    var view := Project(tasks, filter, term);
    var sel := Selected(tasks, filter, term);
    SortTasksPermutes(sel);
    SortTasksSorted(sel);
    GroupsOfSorted(view);
    if term == [] && filter == All {
      assert sel == tasks;
    }
  }
}
