/** Concrete runs of the view projector on small collections: the three-level order and the
    case-insensitive search. */
module Scenarios {
  import opened Tasks
  import opened Seqs
  import opened ViewProjector
  import opened Text
  import opened TaskStore

  const DayMs: int := 86_400_000

  /** A pending high-priority task created on day 1, a completed high-priority task created on
      day 2 and a pending low-priority task created on day 3 are shown as the first, the third,
      then the second: pending before completed, and high before low among the pending. */
  lemma OrderExample()
    ensures var a := Task("a", "Alpha", "first task", High, false, 1 * DayMs, 1 * DayMs);
      var b := Task("b", "Bravo", "second task", High, true, 2 * DayMs, 2 * DayMs);
      var c := Task("c", "Charlie", "third task", Low, false, 3 * DayMs, 3 * DayMs);
      Project([a, b, c], All, []) == [a, c, b]
  {
    var a := Task("a", "Alpha", "first task", High, false, 1 * DayMs, 1 * DayMs);
    var b := Task("b", "Bravo", "second task", High, true, 2 * DayMs, 2 * DayMs);
    var c := Task("c", "Charlie", "third task", Low, false, 3 * DayMs, 3 * DayMs);
    assert Selected([a, b, c], All, []) == [a, b, c];
    assert [a, b, c][..2] == [a, b] && [a, b][..1] == [a];
    assert SortTasks([a]) == [a];
    assert SortTasks([a, b]) == InsertLast([a], b) == [a, b];
    assert [a, b][..1] == [a];
    assert InsertLast([a], c) == [a, c];
    assert SortTasks([a, b, c]) == InsertLast([a, b], c) == [a, c, b];
  }

  /** Newer first among tasks of equal status and priority. */
  lemma NewerFirstExample()
    ensures var old1 := Task("o", "Older", "made first", Medium, false, 10, 10);
      var new1 := Task("n", "Newer", "made later", Medium, false, 20, 20);
      Project([old1, new1], Pending, []) == [new1, old1]
  {
    var old1 := Task("o", "Older", "made first", Medium, false, 10, 10);
    var new1 := Task("n", "Newer", "made later", Medium, false, 20, 20);
    assert Filter([old1, new1], IsPending) == [old1, new1] by {
      assert [old1, new1][1..] == [new1];
    }
    assert [old1, new1][..1] == [old1];
    assert SortTasks([old1]) == [old1];
    assert SortTasks([old1, new1]) == InsertLast([old1], new1);
    assert [old1][..0] == [];
    assert InsertLast([old1], new1) == InsertLast([], new1) + [old1];
  }
  /** Two tasks sort as they stand unless the comparator puts the second first. */
  lemma SortPair(x: Task, y: Task)
    ensures SortTasks([x, y]) == if Compare(x, y) <= 0 then [x, y] else [y, x]
  {
    assert [x, y][..1] == [x];
    assert [x][..0] == [];
    assert SortTasks([x]) == InsertLast([], x) == [x];
    assert SortTasks([x, y]) == InsertLast([x], y);
    if Compare(x, y) > 0 {
      assert InsertLast([x], y) == InsertLast([], y) + [x];
    }
  }

  /** The reorder the unfiltered view leaves in the store is visible later. A completed task `b`
      stored before a pending task `a` with the same priority and creation time: the unfiltered
      view sorts the store to `[a, b]`. Toggling `b` back to pending then ties the two, and the
      view keeps the reordered store's `[a, b']`, where the store as it was before the view
      gives `[b', a]`. */
  lemma ReorderChangesLaterView()
    ensures var b := Task("b", "Bravo", "second task", High, true, 1, 1);
      var a := Task("a", "Alpha", "first task", High, false, 1, 1);
      var b' := Toggled(b, 2);
      && Project([b, a], All, []) == [a, b]
      && Project(ToggleTasks([a, b], "b", 2), All, []) == [a, b']
      && Project(ToggleTasks([b, a], "b", 2), All, []) == [b', a]
  {
    var b := Task("b", "Bravo", "second task", High, true, 1, 1);
    var a := Task("a", "Alpha", "first task", High, false, 1, 1);
    var b' := Toggled(b, 2);
    SortPair(b, a);
    assert ToggleTasks([a, b], "b", 2) == [a, b'] by {
      MapPair([a, b], ToggleWhere("b", 2));
    }
    assert ToggleTasks([b, a], "b", 2) == [b', a] by {
      MapPair([b, a], ToggleWhere("b", 2));
    }
    SortPair(a, b');
    SortPair(b', a);
  }

  lemma MapPair(s: seq<Task>, f: Task -> Task)
    requires |s| == 2
    ensures Map(s, f) == [f(s[0]), f(s[1])]
  {
    assert s[1..][1..] == [];
  }

  /** Searching "milk" finds only the task titled "Buy milk", and searching "BOB" in capitals
      finds only the task titled "Call Bob": the term may stand anywhere in the text, and the
      search ignores case on both sides. */
  lemma SearchExample()
    ensures var t1 := Task("1", "Buy milk", "shop", Medium, false, 0, 0);
      var t2 := Task("2", "Call Bob", "phone", Medium, false, 0, 0);
      Project([t1, t2], All, "milk") == [t1] && Project([t1, t2], All, "BOB") == [t2]
  {
    var t1 := Task("1", "Buy milk", "shop", Medium, false, 0, 0);
    var t2 := Task("2", "Call Bob", "phone", Medium, false, 0, 0);
    MilkFacts(t1, t2);
    BobFacts(t1, t2);
    OnlyFirstHit(t1, t2, "milk");
    OnlySecondHit(t1, t2, "BOB");
  }

  lemma OnlyFirstHit(t1: Task, t2: Task, term: string)
    requires term != [] && MatchesSearch(t1, term) && !MatchesSearch(t2, term)
    ensures Project([t1, t2], All, term) == [t1]
  {
    assert [t1, t2][1..] == [t2];
    assert Filter([t1, t2], SearchHit(term)) == [t1];
    assert [t1][..0] == [];
    assert SortTasks([t1]) == InsertLast([], t1) == [t1];
  }

  lemma OnlySecondHit(t1: Task, t2: Task, term: string)
    requires term != [] && !MatchesSearch(t1, term) && MatchesSearch(t2, term)
    ensures Project([t1, t2], All, term) == [t2]
  {
    assert [t1, t2][1..] == [t2];
    assert Filter([t1, t2], SearchHit(term)) == [t2];
    assert [t2][..0] == [];
    assert SortTasks([t2]) == InsertLast([], t2) == [t2];
  }

  lemma MilkFacts(t1: Task, t2: Task)
    requires t1.title == "Buy milk" && t1.description == "shop"
    requires t2.title == "Call Bob" && t2.description == "phone"
    ensures MatchesSearch(t1, "milk") && !MatchesSearch(t2, "milk")
  {
    BuyMilkHasMilk();
    CallBobLacksMilk();
    PhoneLacksMilk();
  }

  lemma BobFacts(t1: Task, t2: Task)
    requires t1.title == "Buy milk" && t1.description == "shop"
    requires t2.title == "Call Bob" && t2.description == "phone"
    ensures !MatchesSearch(t1, "BOB") && MatchesSearch(t2, "BOB")
  {
    BuyMilkLacksBob();
    ShopLacksBob();
    CallBobHasBob();
  }

  lemma BuyMilkHasMilk()
    ensures Includes(Lower("Buy milk"), Lower("milk"))
  {
    LowerBuyMilk();
    LowerMilk();
    assert "buy milk"[4..8] == "milk";
    Found("buy milk", "milk", 4);
  }

  lemma CallBobLacksMilk()
    ensures !Includes(Lower("Call Bob"), Lower("milk"))
  {
    LowerCallBob();
    LowerMilk();
    NotFound("call bob", "milk");
  }

  lemma PhoneLacksMilk()
    ensures !Includes(Lower("phone"), Lower("milk"))
  {
    assert Lower("phone") == "phone";
    LowerMilk();
    NotFound("phone", "milk");
  }

  lemma BuyMilkLacksBob()
    ensures !Includes(Lower("Buy milk"), Lower("BOB"))
  {
    LowerBuyMilk();
    LowerBob();
    NotFound("buy milk", "bob");
  }

  lemma ShopLacksBob()
    ensures !Includes(Lower("shop"), Lower("BOB"))
  {
    assert Lower("shop") == "shop";
    LowerBob();
    NotFound("shop", "bob");
  }

  lemma CallBobHasBob()
    ensures Includes(Lower("Call Bob"), Lower("BOB"))
  {
    LowerCallBob();
    LowerBob();
    assert "call bob"[5..8] == "bob";
    Found("call bob", "bob", 5);
  }

  lemma LowerBuyMilk()
    ensures Lower("Buy milk") == "buy milk"
  {
  }

  lemma LowerCallBob()
    ensures Lower("Call Bob") == "call bob"
  {
  }

  lemma LowerMilk()
    ensures Lower("milk") == "milk"
  {
  }

  lemma LowerBob()
    ensures Lower("BOB") == "bob"
  {
  }

  /** A term found at position `i` of a text is included in it. */
  lemma Found(s: string, term: string, i: int)
    requires OccursAt(s, term, i)
    ensures Includes(s, term)
  {
    IncludesIff(s, term);
  }

  /** A term whose first two characters never stand side by side in a text is not included
      in it. */
  lemma NotFound(s: string, term: string)
    requires |term| >= 2
    requires forall i :: 0 <= i < |s| - 1 ==> !(s[i] == term[0] && s[i + 1] == term[1])
    ensures !Includes(s, term)
  {
    IncludesIff(s, term);
    forall i | 0 <= i <= |s| - |term| ensures !OccursAt(s, term, i) {
      assert !(s[i] == term[0] && s[i + 1] == term[1]);
      assert s[i..i + |term|][0] == s[i] && s[i..i + |term|][1] == s[i + 1];
    }
  }
}
