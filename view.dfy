/** The view projector of `src/App.jsx`: the status filter, the case-insensitive search, the
    three-key ordering that `filteredTasks` sorts by, and the status counts of `taskCounts`. */
module ViewProjector {
  import opened Tasks
  import opened Text
  import opened Seqs

  /** The filter buttons' keys. */
  datatype StatusFilter = All | Completed | Pending

  predicate IsCompleted(t: Task) { t.completed }

  predicate IsPending(t: Task) { !t.completed }

  /** Whether the status filter lets a task through. */
  predicate ShowsStatus(filter: StatusFilter, t: Task)
  {
    match filter
    case All => true
    case Completed => t.completed
    case Pending => !t.completed
  }

  /** Step one of `filteredTasks`: `completed` and `pending` filter, any other key (`all`) leaves
      the list as it is (the very same array). */
  function FilterByStatus(tasks: seq<Task>, filter: StatusFilter): seq<Task>
  {
    match filter
    case Completed => Filter(tasks, IsCompleted)
    case Pending => Filter(tasks, IsPending)
    case All => tasks
  }

  /** The search test: the lower-cased title or the lower-cased description includes the
      lower-cased term. */
  predicate MatchesSearch(t: Task, term: string)
  {
    var needle := Lower(term);
    Includes(Lower(t.title), needle) || Includes(Lower(t.description), needle)
  }

  function SearchHit(term: string): Task -> bool
  {
    t => MatchesSearch(t, term)
  }

  /** Step two of `filteredTasks`: an empty term is falsy and skips the search. */
  function FilterBySearch(tasks: seq<Task>, term: string): seq<Task>
  {
    if term == [] then tasks else Filter(tasks, SearchHit(term))
  }

  /** The tasks the view shows, before sorting. */
  function Selected(tasks: seq<Task>, filter: StatusFilter, term: string): seq<Task>
  {
    FilterBySearch(FilterByStatus(tasks, filter), term)
  }

  /** A task is shown when its status passes the filter and, for a non-empty term, the term
      occurs in its lower-cased title or lower-cased description. */
  ghost predicate Shown(filter: StatusFilter, term: string, t: Task)
  {
    ShowsStatus(filter, t) && SearchShows(term, t)
  }

  /** The search part of `Shown`. */
  ghost predicate SearchShows(term: string, t: Task)
  {
    term == [] || Occurs(Lower(t.title), Lower(term)) || Occurs(Lower(t.description), Lower(term))
  }

  /** Selection keeps exactly the shown tasks, every copy of each, in the input's order. */
  lemma SelectedContents(tasks: seq<Task>, filter: StatusFilter, term: string, t: Task)
    ensures multiset(Selected(tasks, filter, term))[t] == if Shown(filter, term, t) then multiset(tasks)[t] else 0
    ensures t in Selected(tasks, filter, term) <==> t in tasks && Shown(filter, term, t)
    ensures IsSubsequence(Selected(tasks, filter, term), tasks)
  {
    var byStatus := FilterByStatus(tasks, filter);
    StatusStep(tasks, filter, t);
    SearchStep(byStatus, term, t);
    SubsequenceTransitive(Selected(tasks, filter, term), byStatus, tasks);
    if t in Selected(tasks, filter, term) {
      SubsequenceMembers(Selected(tasks, filter, term), tasks, t);
    }
  }

  /** The status step keeps exactly the tasks whose status passes, every copy of each. */
  lemma StatusStep(tasks: seq<Task>, filter: StatusFilter, t: Task)
    ensures multiset(FilterByStatus(tasks, filter))[t] == if ShowsStatus(filter, t) then multiset(tasks)[t] else 0
    ensures t in FilterByStatus(tasks, filter) <==> t in tasks && ShowsStatus(filter, t)
    ensures IsSubsequence(FilterByStatus(tasks, filter), tasks)
  {
    match filter {
      case Completed =>
        FilterCount(tasks, IsCompleted, t);
        FilterMembership(tasks, IsCompleted, t);
        FilterIsSubsequence(tasks, IsCompleted);
      case Pending =>
        FilterCount(tasks, IsPending, t);
        FilterMembership(tasks, IsPending, t);
        FilterIsSubsequence(tasks, IsPending);
      case All =>
        SubsequenceReflexive(tasks);
    }
  }

  /** The search step keeps exactly the tasks in whose title or description the term occurs,
      every copy of each; an empty term keeps everything. */
  lemma SearchStep(tasks: seq<Task>, term: string, t: Task)
    ensures multiset(FilterBySearch(tasks, term))[t] == if SearchShows(term, t) then multiset(tasks)[t] else 0
    ensures t in FilterBySearch(tasks, term) <==> t in tasks && SearchShows(term, t)
    ensures IsSubsequence(FilterBySearch(tasks, term), tasks)
  {
    if term == [] {
      SubsequenceReflexive(tasks);
    } else {
      IncludesIff(Lower(t.title), Lower(term));
      IncludesIff(Lower(t.description), Lower(term));
      var p := SearchHit(term);
      FilterCount(tasks, p, t);
      FilterMembership(tasks, p, t);
      FilterIsSubsequence(tasks, p);
    }
  }

  /** The ordinal of `priorityOrder`: high 3, medium 2, low 1. */
  function PriorityRank(p: Priority): int
  {
    match p
    case High => 3
    case Medium => 2
    case Low => 1
  }

  /** The comparator handed to `sort`: a negative result puts `a` first. Pending before
      completed, then higher priority first, then the newer creation time first. */
  function Compare(a: Task, b: Task): int
  {
    if a.completed != b.completed then
      (if a.completed then 1 else -1)
    else if PriorityRank(b.priority) - PriorityRank(a.priority) != 0 then
      PriorityRank(b.priority) - PriorityRank(a.priority)
    else
      b.createdAt - a.createdAt
  }

  /** The three sort keys agree. */
  predicate SameKey(a: Task, b: Task)
  {
    a.completed == b.completed && a.priority == b.priority && a.createdAt == b.createdAt
  }

  /** The intended display order, key by key: `a` may stand before `b`. */
  predicate InOrder(a: Task, b: Task)
  {
    || (!a.completed && b.completed)
    || (a.completed == b.completed && PriorityRank(a.priority) > PriorityRank(b.priority))
    || (a.completed == b.completed && a.priority == b.priority && a.createdAt >= b.createdAt)
  }

  /** The comparator decides the three-level order and ties exactly on equal keys; it is
      antisymmetric and transitive, as `sort` requires of a consistent comparator. */
  lemma CompareIsKeyOrder(a: Task, b: Task, c: Task)
    ensures Compare(a, b) <= 0 <==> InOrder(a, b)
    ensures Compare(a, b) == 0 <==> SameKey(a, b)
    ensures Compare(a, b) < 0 <==> Compare(b, a) > 0
    ensures Compare(a, b) <= 0 && Compare(b, c) <= 0 ==> Compare(a, c) <= 0
  {
  }

  /** The view is in order: no task stands after one that should follow it. */
  predicate Sorted(s: seq<Task>)
  {
    forall i, j :: 0 <= i < j < |s| ==> Compare(s[i], s[j]) <= 0
  }

  /** The tasks whose three keys equal those of `k`, in their order in `s`. */
  function Ties(s: seq<Task>, k: Task): seq<Task>
  {
    Filter(s, TiedWith(k))
  }

  function TiedWith(k: Task): Task -> bool
  {
    t => SameKey(t, k)
  }

  /** Places `x` after the last element of `s` that does not have to follow it: the step of a
      stable insertion sort for an element that came after all of `s`. */
  function InsertLast(s: seq<Task>, x: Task): (r: seq<Task>)
    decreases |s|
  {
    if s == [] then [x]
    else if Compare(s[|s| - 1], x) <= 0 then s + [x]
    else InsertLast(s[..|s| - 1], x) + [s[|s| - 1]]
  }

  /** The order `sort` leaves with the comparator: a stable sort, here as an insertion sort that
      takes the elements from the left. */
  function SortTasks(s: seq<Task>): (r: seq<Task>)
    decreases |s|
  {
    if s == [] then [] else InsertLast(SortTasks(s[..|s| - 1]), s[|s| - 1])
  }

  lemma {:induction false} InsertLastCount(s: seq<Task>, x: Task)
    ensures multiset(InsertLast(s, x)) == multiset(s) + multiset{x}
    decreases |s|
  {
    if s != [] && Compare(s[|s| - 1], x) > 0 {
      InsertLastCount(s[..|s| - 1], x);
      assert s == s[..|s| - 1] + [s[|s| - 1]];
    }
  }

  /** Sorting rearranges: the output holds the input's tasks, each as often. */
  lemma {:induction false} SortTasksPermutes(s: seq<Task>)
    ensures multiset(SortTasks(s)) == multiset(s)
    ensures |SortTasks(s)| == |s|
    decreases |s|
  {
    if s != [] {
      var init, last := s[..|s| - 1], s[|s| - 1];
      SortTasksPermutes(init);
      InsertLastCount(SortTasks(init), last);
      assert s == init + [last];
      assert multiset(s) == multiset(init) + multiset{last};
    }
    assert |multiset(SortTasks(s))| == |SortTasks(s)|;
  }

  lemma {:induction false} InsertLastSorted(s: seq<Task>, x: Task)
    requires Sorted(s)
    ensures Sorted(InsertLast(s, x))
    decreases |s|
  {
    if s == [] {
    } else if Compare(s[|s| - 1], x) <= 0 {
      AppendSorted(s, x);
    } else {
      var init, last := s[..|s| - 1], s[|s| - 1];
      assert Sorted(init) by {
        forall i, j | 0 <= i < j < |init| ensures Compare(init[i], init[j]) <= 0 {
          assert init[i] == s[i] && init[j] == s[j];
        }
      }
      InsertLastSorted(init, x);
      BeforeLast(s, x);
      AppendSorted(InsertLast(init, x), last);
    }
  }

  /** A task that need not precede the last of a sequence in order extends it in order. */
  lemma AppendSorted(s: seq<Task>, x: Task)
    requires Sorted(s) && (s == [] || Compare(s[|s| - 1], x) <= 0)
    ensures Sorted(s + [x])
  {
    var r := s + [x];
    forall i, j | 0 <= i < j < |r| ensures Compare(r[i], r[j]) <= 0 {
      if j == |s| && i < |s| - 1 {
        CompareIsKeyOrder(s[i], s[|s| - 1], x);
      }
    }
  }

  /** When `x` must follow after the last task of `s`, everything the insertion puts before
      that last task may precede it. */
  lemma BeforeLast(s: seq<Task>, x: Task)
    requires Sorted(s) && s != [] && Compare(s[|s| - 1], x) > 0
    ensures var front := InsertLast(s[..|s| - 1], x);
      front == [] || Compare(front[|front| - 1], s[|s| - 1]) <= 0
  {
    var init, last := s[..|s| - 1], s[|s| - 1];
    var front := InsertLast(init, x);
    InsertLastCount(init, x);
    if front != [] {
      var y := front[|front| - 1];
      assert y in multiset(front);
      if y != x {
        assert y in multiset(init);
        var k :| 0 <= k < |init| && init[k] == y;
        assert Compare(s[k], last) <= 0;
      } else {
        CompareIsKeyOrder(last, x, x);
      }
    }
  }

  /** What follows the head of a sequence in order is in order. */
  lemma SortedTail(s: seq<Task>)
    requires Sorted(s) && s != []
    ensures Sorted(s[1..])
  {
    var rest := s[1..];
    forall i, j | 0 <= i < j < |rest| ensures Compare(rest[i], rest[j]) <= 0 {
      assert rest[i] == s[i + 1] && rest[j] == s[j + 1];
    }
  }

  /** Sorting puts the view in order. */
  lemma {:induction false} SortTasksSorted(s: seq<Task>)
    ensures Sorted(SortTasks(s))
    decreases |s|
  {
    if s != [] {
      SortTasksSorted(s[..|s| - 1]);
      InsertLastSorted(SortTasks(s[..|s| - 1]), s[|s| - 1]);
    }
  }

  lemma {:induction false} InsertLastTies(s: seq<Task>, x: Task, k: Task)
    ensures Ties(InsertLast(s, x), k) == Ties(s, k) + Ties([x], k)
    decreases |s|
  {
    if s == [] {
      assert InsertLast(s, x) == [] + [x];
    } else if Compare(s[|s| - 1], x) <= 0 {
      FilterConcat(s, [x], TiedWith(k));
    } else {
      var init, last := s[..|s| - 1], s[|s| - 1];
      InsertLastTies(init, x, k);
      FilterConcat(InsertLast(init, x), [last], TiedWith(k));
      FilterConcat(init, [last], TiedWith(k));
      assert s == init + [last];
      CompareIsKeyOrder(last, x, x);
      // x and last do not tie, so at most one of them ties with k
      assert !(SameKey(x, k) && SameKey(last, k));
      assert Ties([x], k) + Ties([last], k) == Ties([last], k) + Ties([x], k);
    }
  }

  /** Sorting is stable: tasks that tie on all three keys keep their relative order. */
  lemma {:induction false} SortTasksStable(s: seq<Task>, k: Task)
    ensures Ties(SortTasks(s), k) == Ties(s, k)
    decreases |s|
  {
    if s != [] {
      var init, last := s[..|s| - 1], s[|s| - 1];
      SortTasksStable(init, k);
      InsertLastTies(SortTasks(init), last, k);
      assert s == init + [last];
      FilterConcat(init, [last], TiedWith(k));
    }
  }

  /** `filtered.sort(...)` on the array that holds the filtered tasks: an insertion sort that
      leaves the array in the order of `SortTasks`. */
  method SortInPlace(a: array<Task>)
    modifies a
    ensures a[..] == SortTasks(old(a[..]))
  {
    var i := 0;
    while i < a.Length
      invariant 0 <= i <= a.Length
      invariant a[..i] == SortTasks(old(a[..])[..i])
      invariant forall k :: i <= k < a.Length ==> a[k] == old(a[k])
    {
      InsertInPlace(a, i);
      assert old(a[..])[..i + 1][..i] == old(a[..])[..i];
      i := i + 1;
    }
    assert a[..] == a[..a.Length];
    assert old(a[..])[..a.Length] == old(a[..]);
  }

  /** One pass of the insertion sort: moves `a[i]` left past the elements that must follow it. */
  method InsertInPlace(a: array<Task>, i: int)
    requires 0 <= i < a.Length
    modifies a
    ensures a[..i + 1] == InsertLast(old(a[..i]), old(a[i]))
    ensures forall k :: i < k < a.Length ==> a[k] == old(a[k])
  {
    ghost var sorted := a[..i];
    var x := a[i];
    var j := i;
    while j > 0 && Compare(a[j - 1], x) > 0
      invariant 0 <= j <= i
      invariant forall k :: 0 <= k < j ==> a[k] == sorted[k]
      invariant forall k :: j < k <= i ==> a[k] == sorted[k - 1]
      invariant forall k :: j <= k < i ==> Compare(sorted[k], x) > 0
      invariant forall k :: i < k < a.Length ==> a[k] == old(a[k])
    {
      a[j] := a[j - 1];
      j := j - 1;
    }
    a[j] := x;
    InsertLastAt(sorted, x, j);
    Shifted(a[..i + 1], sorted, x, j);
  }

  /** The array after the shifting loop: the part before `j`, then `x`, then the rest moved
      one place to the right. */
  lemma Shifted(r: seq<Task>, s: seq<Task>, x: Task, j: int)
    requires 0 <= j <= |s| && |r| == |s| + 1
    requires forall k :: 0 <= k < j ==> r[k] == s[k]
    requires r[j] == x
    requires forall k :: j < k < |r| ==> r[k] == s[k - 1]
    ensures r == s[..j] + [x] + s[j..]
  {
    forall k | 0 <= k < |r|
      ensures r[k] == (s[..j] + [x] + s[j..])[k]
    {
    }
  }

  /** Where the insertion step puts `x`: after position `j - 1`, which may precede it, and in
      front of every later element, all of which must follow it. */
  lemma {:induction false} InsertLastAt(s: seq<Task>, x: Task, j: int)
    requires 0 <= j <= |s|
    requires j == 0 || Compare(s[j - 1], x) <= 0
    requires forall k :: j <= k < |s| ==> Compare(s[k], x) > 0
    ensures InsertLast(s, x) == s[..j] + [x] + s[j..]
    decreases |s|
  {
    if j < |s| {
      var init := s[..|s| - 1];
      InsertLastAt(init, x, j);
      assert init[..j] == s[..j];
      assert init[j..] + [s[|s| - 1]] == s[j..];
    } else {
      assert s[..j] == s;
    }
  }

  /** Two sequences in order that agree on every tie class are the same sequence: the order
      and the tie classes leave no freedom. */
  lemma {:induction false} SortedUnique(x: seq<Task>, y: seq<Task>)
    requires Sorted(x) && Sorted(y)
    requires forall k :: Ties(x, k) == Ties(y, k)
    ensures x == y
    decreases |x|
  {
    if x != [] && y != [] {
      SortedSameHead(x, y);
      SameTiesOfTails(x, y);
      SortedUnique(x[1..], y[1..]);
      assert x == [x[0]] + x[1..] && y == [y[0]] + y[1..];
    } else if x != [] {
      HeadTies(x);
    } else if y != [] {
      HeadTies(y);
    }
  }

  /** The head of a sequence is in its own tie class, so only the empty sequence has no tie
      classes. */
  lemma HeadTies(z: seq<Task>)
    requires z != []
    ensures Ties(z, z[0]) != []
  {
    assert Ties(z, z[0]) == [z[0]] + Ties(z[1..], z[0]);
  }

  /** Sequences in order with the same tie classes start with the same task: each head is in
      the other sequence, so the two heads tie, and the first of their common class is both. */
  lemma SortedSameHead(x: seq<Task>, y: seq<Task>)
    requires x != [] && y != [] && Sorted(x) && Sorted(y)
    requires forall k :: Ties(x, k) == Ties(y, k)
    ensures x[0] == y[0]
  {
    var a, b := x[0], y[0];
    assert Ties(y, b) == [b] + Ties(y[1..], b);
    FilterMembership(x, TiedWith(b), b);
    assert Ties(x, a) == [a] + Ties(x[1..], a);
    FilterMembership(y, TiedWith(a), a);
    var i :| 0 <= i < |x| && x[i] == b;
    var j :| 0 <= j < |y| && y[j] == a;
    assert Compare(a, b) <= 0 && Compare(b, a) <= 0;
    CompareIsKeyOrder(a, b, a);
    assert SameKey(b, a);
    assert Ties(y, a) == [b] + Ties(y[1..], a);
    assert Ties(x, a) == Ties(y, a);
    assert a == Ties(x, a)[0] == Ties(y, a)[0] == b;
  }

  /** With equal heads, equal tie classes stay equal after dropping the heads. */
  lemma SameTiesOfTails(x: seq<Task>, y: seq<Task>)
    requires x != [] && y != [] && x[0] == y[0]
    requires forall k :: Ties(x, k) == Ties(y, k)
    ensures forall k :: Ties(x[1..], k) == Ties(y[1..], k)
  {
    forall k
      ensures Ties(x[1..], k) == Ties(y[1..], k)
    {
      var h := if TiedWith(k)(x[0]) then [x[0]] else [];
      assert Ties(x, k) == h + Ties(x[1..], k);
      assert Ties(y, k) == h + Ties(y[1..], k);
      assert Ties(x, k) == Ties(y, k);
      assert Ties(x[1..], k) == (h + Ties(x[1..], k))[|h|..];
      assert Ties(y[1..], k) == (h + Ties(y[1..], k))[|h|..];
    }
  }

  /** The sorted order depends on the input only through its tie classes. */
  lemma SortTasksDeterminedByTies(s: seq<Task>, t: seq<Task>)
    requires forall k :: Ties(s, k) == Ties(t, k)
    ensures SortTasks(s) == SortTasks(t)
  {
    SortTasksSorted(s);
    SortTasksSorted(t);
    forall k
      ensures Ties(SortTasks(s), k) == Ties(SortTasks(t), k)
    {
      SortTasksStable(s, k);
      SortTasksStable(t, k);
    }
    SortedUnique(SortTasks(s), SortTasks(t));
  }

  /** Sorting an already sorted output changes nothing. */
  lemma SortTasksIdempotent(s: seq<Task>)
    ensures SortTasks(SortTasks(s)) == SortTasks(s)
  {
    forall k
      ensures Ties(SortTasks(s), k) == Ties(s, k)
    {
      SortTasksStable(s, k);
    }
    SortTasksDeterminedByTies(SortTasks(s), s);
  }

  /** Selecting and then taking a tie class is taking the tie class and then selecting. */
  lemma SelectedTies(tasks: seq<Task>, filter: StatusFilter, term: string, k: Task)
    ensures Ties(Selected(tasks, filter, term), k) == Selected(Ties(tasks, k), filter, term)
  {
    var byStatus := FilterByStatus(tasks, filter);
    match filter {
      case Completed => FilterCommute(tasks, IsCompleted, TiedWith(k));
      case Pending => FilterCommute(tasks, IsPending, TiedWith(k));
      case All =>
    }
    assert Ties(byStatus, k) == FilterByStatus(Ties(tasks, k), filter);
    if term != [] {
      FilterCommute(byStatus, SearchHit(term), TiedWith(k));
    }
  }

  /** `filteredTasks`: select, then sort. */
  function Project(tasks: seq<Task>, filter: StatusFilter, term: string): seq<Task>
  {
    SortTasks(Selected(tasks, filter, term))
  }

  /** The projection holds exactly the shown tasks of the store, each as often as the store
      does, in the three-level order, with tied tasks in their store order. */
  lemma ProjectCorrect(tasks: seq<Task>, filter: StatusFilter, term: string, t: Task, k: Task)
    ensures multiset(Project(tasks, filter, term)) == multiset(Selected(tasks, filter, term))
    ensures multiset(Project(tasks, filter, term))[t] == if Shown(filter, term, t) then multiset(tasks)[t] else 0
    ensures t in Project(tasks, filter, term) <==> t in tasks && Shown(filter, term, t)
    ensures Sorted(Project(tasks, filter, term))
    ensures Ties(Project(tasks, filter, term), k) == Ties(Selected(tasks, filter, term), k)
  {
    var sel := Selected(tasks, filter, term);
    SortTasksPermutes(sel);
    SortTasksSorted(sel);
    SortTasksStable(sel, k);
    SelectedContents(tasks, filter, term, t);
  }

  /** The projection depends on the store only through its tie classes. */
  lemma ProjectDeterminedByTies(s: seq<Task>, t: seq<Task>, filter: StatusFilter, term: string)
    requires forall k :: Ties(s, k) == Ties(t, k)
    ensures Project(s, filter, term) == Project(t, filter, term)
  {
    forall k
      ensures Ties(Selected(s, filter, term), k) == Ties(Selected(t, filter, term), k)
    {
      SelectedTies(s, filter, term, k);
      SelectedTies(t, filter, term, k);
    }
    SortTasksDeterminedByTies(Selected(s, filter, term), Selected(t, filter, term));
  }

  /** When the unfiltered, unsearched view sorts the store's own array, every view of that same
      collection, under any filter and search term, is the one the store had before. (Once a
      later handler changes the collection the reorder can show: see
      `Scenarios.ReorderChangesLaterView`.) */
  lemma ProjectIgnoresStoreReorder(tasks: seq<Task>, filter: StatusFilter, term: string)
    ensures Project(SortTasks(tasks), filter, term) == Project(tasks, filter, term)
  {
    forall k
      ensures Ties(SortTasks(tasks), k) == Ties(tasks, k)
    {
      SortTasksStable(tasks, k);
    }
    ProjectDeterminedByTies(SortTasks(tasks), tasks, filter, term);
  }

  /** The status breakdown shown on the filter buttons. */
  datatype TaskCounts = TaskCounts(all: nat, completed: nat, pending: nat)

  /** `taskCounts`: counts by status only; the search term is not an input. */
  function CountTasks(tasks: seq<Task>): (c: TaskCounts)
    ensures c.all == |tasks|
    ensures c.completed + c.pending == c.all
  {
    FilterSplit(tasks, IsCompleted, IsPending);
    TaskCounts(|tasks|, |Filter(tasks, IsCompleted)|, |Filter(tasks, IsPending)|)
  }

  /** Each count is the size of the view under that filter with no search term. */
  lemma CountsMatchViews(tasks: seq<Task>)
    ensures CountTasks(tasks).all == |Project(tasks, All, [])|
    ensures CountTasks(tasks).completed == |Project(tasks, Completed, [])|
    ensures CountTasks(tasks).pending == |Project(tasks, Pending, [])|
  {
    var c := CountTasks(tasks);
    assert Selected(tasks, All, []) == tasks;
    assert Selected(tasks, Completed, []) == Filter(tasks, IsCompleted);
    assert Selected(tasks, Pending, []) == Filter(tasks, IsPending);
    SortTasksPermutes(tasks);
    SortTasksPermutes(Filter(tasks, IsCompleted));
    SortTasksPermutes(Filter(tasks, IsPending));
  }

  /** The counts depend only on which tasks there are, not on their order, so the reordering
      the view may do to the store leaves them as they were. */
  lemma CountsIgnoreOrder(s: seq<Task>, t: seq<Task>)
    requires multiset(s) == multiset(t)
    ensures CountTasks(s) == CountTasks(t)
  {
    SameFilterSize(s, t, IsCompleted);
    SameFilterSize(s, t, IsPending);
    assert |s| == |multiset(s)| == |multiset(t)| == |t|;
  }

  lemma SameFilterSize(s: seq<Task>, t: seq<Task>, p: Task -> bool)
    requires multiset(s) == multiset(t)
    ensures |Filter(s, p)| == |Filter(t, p)|
  {
    forall x
      ensures multiset(Filter(s, p))[x] == multiset(Filter(t, p))[x]
    {
      FilterCount(s, p, x);
      FilterCount(t, p, x);
    }
    assert multiset(Filter(s, p)) == multiset(Filter(t, p));
    assert |Filter(s, p)| == |multiset(Filter(s, p))|;
    assert |Filter(t, p)| == |multiset(Filter(t, p))|;
  }
}
