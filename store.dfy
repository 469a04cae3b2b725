/** The task store of `src/App.jsx`: the `tasks` state, the task being edited, the loading flag,
    and the handlers that replace the collection. Each handler is a collection-to-collection
    function here, stated once and proved to keep everything else unchanged; the `Store` class
    applies them to its state the way `setTasks` does. The clock (`new Date()`) and the id
    generator are parameters. */
module TaskStore {
  import opened Tasks
  import opened Seqs
  import opened ViewProjector
  import opened Document
  import opened LocalStorage

  /** `handleAddTask`'s new task: the form's fields, the fresh id, both timestamps `now`. */
  function NewTask(data: TaskData, id: string, now: int): Task
  {
    Task(id, data.title, data.description, data.priority, data.completed, now, now)
  }

  /** `[newTask, ...prev]`. */
  function AddTasks(tasks: seq<Task>, data: TaskData, id: string, now: int): seq<Task>
  {
    [NewTask(data, id, now)] + tasks
  }

  /** Adding puts a task with the given fields first and both timestamps equal in front of the
      unchanged collection; a fresh id keeps the ids unique, and the timestamps stay ordered. */
  lemma AddPrepends(tasks: seq<Task>, data: TaskData, id: string, now: int)
    ensures var r := AddTasks(tasks, data, id, now);
      && |r| == |tasks| + 1 && r[1..] == tasks
      && r[0].id == id && r[0].createdAt == now && r[0].updatedAt == r[0].createdAt
      && TaskData(r[0].title, r[0].description, r[0].priority, r[0].completed) == data
      && Ids(r) == Ids(tasks) + {id}
    ensures UniqueIds(tasks) && id !in Ids(tasks) ==> UniqueIds(AddTasks(tasks, data, id, now))
    ensures WellStamped(tasks) ==> WellStamped(AddTasks(tasks, data, id, now))
  {
    var r := AddTasks(tasks, data, id, now);
    assert r[1..] == tasks;
    assert forall t :: t in r <==> t == r[0] || t in tasks;
    if UniqueIds(tasks) && id !in Ids(tasks) {
      forall i, j | 0 <= i < j < |r| ensures r[i].id != r[j].id {
        if i == 0 {
          assert r[j] in tasks;
        } else {
          assert r[i] == tasks[i - 1] && r[j] == tasks[j - 1];
        }
      }
    }
  }

  /** `{...editingTask, ...taskData, updatedAt: new Date()}`. */
  function Merged(e: Task, data: TaskData, now: int): Task
  {
    Task(e.id, data.title, data.description, data.priority, data.completed, e.createdAt, now)
  }

  function ReplaceWhere(id: string, u: Task): Task -> Task
  {
    (t: Task) => if t.id == id then u else t
  }

  /** `prev.map(task => task.id === editingTask.id ? updatedTask : task)`. */
  function UpdateTasks(tasks: seq<Task>, e: Task, data: TaskData, now: int): seq<Task>
  {
    Map(tasks, ReplaceWhere(e.id, Merged(e, data, now)))
  }

  /** Updating rewrites exactly the tasks whose id is the edited task's: each becomes the edited
      copy merged with the form's fields and stamped `now`, so it keeps its id and takes the
      edited copy's creation time; every other task is unchanged and so is the set of ids. An id
      that is no longer present changes nothing. */
  lemma UpdateFrame(tasks: seq<Task>, e: Task, data: TaskData, now: int)
    ensures var r := UpdateTasks(tasks, e, data, now);
      && |r| == |tasks|
      && (forall i :: 0 <= i < |tasks| ==> r[i].id == tasks[i].id)
      && (forall i :: 0 <= i < |tasks| && tasks[i].id != e.id ==> r[i] == tasks[i])
      && (forall i :: 0 <= i < |tasks| && tasks[i].id == e.id ==>
            && r[i] == Merged(e, data, now)
            && r[i].title == data.title && r[i].description == data.description
            && r[i].priority == data.priority && r[i].completed == data.completed
            && r[i].createdAt == e.createdAt && r[i].updatedAt == now)
      && Ids(r) == Ids(tasks)
    ensures UniqueIds(tasks) ==> UniqueIds(UpdateTasks(tasks, e, data, now))
    ensures e.id !in Ids(tasks) ==> UpdateTasks(tasks, e, data, now) == tasks
  {
    var r := UpdateTasks(tasks, e, data, now);
    SameIdsPointwise(tasks, r);
    if e.id !in Ids(tasks) {
      forall i | 0 <= i < |tasks| ensures r[i] == tasks[i] {
        assert tasks[i] in tasks;
      }
    }
  }

  /** Update keeps every creation time when each stored task with the edited id has the edited
      copy's creation time (a stale copy whose task was toggled since still qualifies), and
      with `now` no earlier than that time the timestamps stay ordered. */
  lemma UpdateStamps(tasks: seq<Task>, e: Task, data: TaskData, now: int)
    ensures (forall i :: 0 <= i < |tasks| && tasks[i].id == e.id ==> tasks[i].createdAt == e.createdAt) ==>
      forall i :: 0 <= i < |tasks| ==> UpdateTasks(tasks, e, data, now)[i].createdAt == tasks[i].createdAt
    ensures WellStamped(tasks) && e.createdAt <= now ==> WellStamped(UpdateTasks(tasks, e, data, now))
  {
  }

  /** A copy taken from a unique-id store has, among the stored tasks, only itself with its id,
      so it meets the hypothesis of `UpdateStamps`. */
  lemma EditedCopyCreation(tasks: seq<Task>, e: Task)
    requires e in tasks && UniqueIds(tasks)
    ensures forall i :: 0 <= i < |tasks| && tasks[i].id == e.id ==> tasks[i].createdAt == e.createdAt
  {
    var j :| 0 <= j < |tasks| && tasks[j] == e;
    forall i | 0 <= i < |tasks| && tasks[i].id == e.id ensures tasks[i].createdAt == e.createdAt {
      assert i == j;
    }
  }

  /** `{...task, completed: !task.completed, updatedAt: new Date()}`. */
  function Toggled(t: Task, now: int): Task
  {
    t.(completed := !t.completed, updatedAt := now)
  }

  function ToggleWhere(id: string, now: int): Task -> Task
  {
    (t: Task) => if t.id == id then Toggled(t, now) else t
  }

  /** `handleToggleComplete`'s transform of the collection. */
  function ToggleTasks(tasks: seq<Task>, id: string, now: int): seq<Task>
  {
    Map(tasks, ToggleWhere(id, now))
  }

  /** Toggling flips `completed` and stamps `now` on exactly the tasks with the id, keeping
      their id, text, priority and creation time; every other task is unchanged, and so are the
      ids. With `now` no earlier than the matched tasks' creation the timestamps stay ordered. */
  lemma ToggleFrame(tasks: seq<Task>, id: string, now: int)
    ensures var r := ToggleTasks(tasks, id, now);
      && |r| == |tasks|
      && (forall i :: 0 <= i < |tasks| && tasks[i].id != id ==> r[i] == tasks[i])
      && (forall i :: 0 <= i < |tasks| && tasks[i].id == id ==>
            && r[i].completed == !tasks[i].completed && r[i].updatedAt == now
            && r[i].id == tasks[i].id && r[i].title == tasks[i].title
            && r[i].description == tasks[i].description && r[i].priority == tasks[i].priority
            && r[i].createdAt == tasks[i].createdAt)
      && Ids(r) == Ids(tasks)
    ensures UniqueIds(tasks) ==> UniqueIds(ToggleTasks(tasks, id, now))
    ensures WellStamped(tasks) && (forall i :: 0 <= i < |tasks| && tasks[i].id == id ==> tasks[i].createdAt <= now)
      ==> WellStamped(ToggleTasks(tasks, id, now))
    ensures id !in Ids(tasks) ==> ToggleTasks(tasks, id, now) == tasks
  {
    var r := ToggleTasks(tasks, id, now);
    SameIdsPointwise(tasks, r);
    if id !in Ids(tasks) {
      forall i | 0 <= i < |tasks| ensures r[i] == tasks[i] {
        assert tasks[i] in tasks;
      }
    }
  }

  /** Toggling twice gives back every task's completion state; the toggled tasks carry the
      second time stamp and nothing else about the collection changes. */
  lemma ToggleTwice(tasks: seq<Task>, id: string, first: int, second: int)
    ensures var r := ToggleTasks(ToggleTasks(tasks, id, first), id, second);
      && |r| == |tasks|
      && (forall i :: 0 <= i < |tasks| ==> r[i].completed == tasks[i].completed)
      && (forall i :: 0 <= i < |tasks| ==>
            r[i] == if tasks[i].id == id then tasks[i].(updatedAt := second) else tasks[i])
  {
  }

  /** Two collections whose ids agree position by position have the same id set, and one has
      unique ids when the other has. */
  lemma SameIdsPointwise(s: seq<Task>, t: seq<Task>)
    requires |s| == |t| && forall i :: 0 <= i < |s| ==> s[i].id == t[i].id
    ensures Ids(s) == Ids(t)
    ensures UniqueIds(s) <==> UniqueIds(t)
  {
    forall x | x in Ids(s) ensures x in Ids(t) {
      var u :| u in s && u.id == x;
      var i :| 0 <= i < |s| && s[i] == u;
      assert t[i] in t;
    }
    forall x | x in Ids(t) ensures x in Ids(s) {
      var u :| u in t && u.id == x;
      var i :| 0 <= i < |t| && t[i] == u;
      assert s[i] in s;
    }
  }

  function Keeps(id: string): Task -> bool
  {
    (t: Task) => t.id != id
  }

  /** `prev.filter(task => task.id !== id)`. */
  function DeleteTasks(tasks: seq<Task>, id: string): seq<Task>
  {
    Filter(tasks, Keeps(id))
  }

  /** Deleting removes every task with the id and keeps every other task, each as often and in
      the same relative order; the ids lose exactly the deleted one, unique ids stay unique and
      ordered timestamps stay ordered. Deleting an absent id changes nothing. */
  lemma DeleteFrame(tasks: seq<Task>, id: string, t: Task)
    ensures var r := DeleteTasks(tasks, id);
      && (t in r <==> t in tasks && t.id != id)
      && multiset(r)[t] == (if t.id == id then 0 else multiset(tasks)[t])
      && IsSubsequence(r, tasks)
      && Ids(r) == Ids(tasks) - {id}
    ensures UniqueIds(tasks) ==> UniqueIds(DeleteTasks(tasks, id))
    ensures WellStamped(tasks) ==> WellStamped(DeleteTasks(tasks, id))
    ensures id !in Ids(tasks) ==> DeleteTasks(tasks, id) == tasks
  {
    FilterMembership(tasks, Keeps(id), t);
    FilterCount(tasks, Keeps(id), t);
    FilterIsSubsequence(tasks, Keeps(id));
    DeleteIds(tasks, id);
    if UniqueIds(tasks) {
      FilterKeepsUniqueIds(tasks, Keeps(id));
    }
    if WellStamped(tasks) {
      DeleteStamps(tasks, id);
    }
    if id !in Ids(tasks) {
      forall i | 0 <= i < |tasks| ensures Keeps(id)(tasks[i]) {
        assert tasks[i] in tasks;
      }
      FilterAll(tasks, Keeps(id));
    }
  }

  lemma DeleteIds(tasks: seq<Task>, id: string)
    ensures Ids(DeleteTasks(tasks, id)) == Ids(tasks) - {id}
  {
    var r := DeleteTasks(tasks, id);
    forall x | x in Ids(r) ensures x in Ids(tasks) - {id} {
      var u :| u in r && u.id == x;
      FilterMembership(tasks, Keeps(id), u);
    }
    forall x | x in Ids(tasks) - {id} ensures x in Ids(r) {
      var u :| u in tasks && u.id == x;
      FilterMembership(tasks, Keeps(id), u);
    }
  }

  lemma DeleteStamps(tasks: seq<Task>, id: string)
    requires WellStamped(tasks)
    ensures WellStamped(DeleteTasks(tasks, id))
  {
    var r := DeleteTasks(tasks, id);
    forall i | 0 <= i < |r| ensures r[i].createdAt <= r[i].updatedAt {
      FilterMembership(tasks, Keeps(id), r[i]);
      var j :| 0 <= j < |tasks| && tasks[j] == r[i];
    }
  }

  /** Filtering a collection with unique ids leaves its ids unique. */
  lemma {:induction false} FilterKeepsUniqueIds(tasks: seq<Task>, p: Task -> bool)
    requires UniqueIds(tasks)
    ensures UniqueIds(Filter(tasks, p))
    decreases |tasks|
  {
    if tasks != [] {
      var rest := Filter(tasks[1..], p);
      FilterKeepsUniqueIds(tasks[1..], p);
      forall u | u in rest ensures u.id != tasks[0].id {
        FilterMembership(tasks[1..], p, u);
        var j :| 0 <= j < |tasks[1..]| && tasks[1..][j] == u;
        assert tasks[j + 1] == u;
      }
      var r := Filter(tasks, p);
      if p(tasks[0]) {
        assert r == [tasks[0]] + rest;
        forall i, j | 0 <= i < j < |r| ensures r[i].id != r[j].id {
          if i == 0 {
            assert r[j] == rest[j - 1] && rest[j - 1] in rest;
          } else {
            assert r[i] == rest[i - 1] && r[j] == rest[j - 1];
          }
        }
      } else {
        assert r == rest;
      }
    }
  }

  /** `task.id && task.title && task.description`: an absent or empty text field is falsy. */
  predicate HasRequiredFields(rec: Record)
  {
    rec.id != [] && rec.title != [] && rec.description != []
  }

  /** A task whose id, title and description are all non-empty. */
  predicate IsComplete(t: Task)
  {
    t.id != [] && t.title != [] && t.description != []
  }

  /** The outcome of reading an imported file: the validated tasks; a parsed value that is not
      an array, which the handler ignores; or text it cannot use (`JSON.parse` throws, or an
      entry is `null`), for which it shows an alert. */
  datatype ImportResult = Imported(tasks: seq<Task>) | NotAnArray | Unreadable

  /** The body of `reader.onload`, up to the call to `setTasks`. */
  function ImportDocument(text: StoredText): ImportResult
  {
    match Parse(text)
    case None => Unreadable
    case Some(Array(entries)) =>
      (match Records(entries)
       // `task.id` of a `null` entry throws inside the filter
       case None => Unreadable
       case Some(records) => Imported(Map(Filter(records, HasRequiredFields), FromRecord)))
    case Some(_) => NotAnArray
  }

  /** `JSON.stringify(tasks, null, 2)`: the indentation changes the text, not the value. */
  function ExportDocument(tasks: seq<Task>): StoredText
  {
    Stringify(EncodeTasks(tasks))
  }

  /** Which of the three outcomes an import has, by the shape of the text. */
  lemma ImportOutcomes(text: StoredText)
    ensures ImportDocument(text).Unreadable? <==>
      text.Malformed? || (text.value.Array? && Null in text.value.entries)
    ensures ImportDocument(text).NotAnArray? <==> text.Json? && !text.value.Array?
    ensures ImportDocument(text).Imported? <==> text.Json? && text.value.Array? && Null !in text.value.entries
  {
  }

  /** An imported array yields exactly the tasks of its entries that carry an id, a title and
      a description: every such entry, as often as it occurs, in the file's order, and no other;
      each comes back with its dates rebuilt. */
  lemma ImportExact(entries: seq<Entry>, rec: Record)
    requires Null !in entries
    ensures ImportDocument(Json(Array(entries))).Imported?
    ensures var written := Map(ImportDocument(Json(Array(entries))).tasks, ToRecord);
      var records := Records(entries).value;
      && (rec in written <==> Item(rec) in entries && HasRequiredFields(rec))
      && multiset(written)[rec] == (if HasRequiredFields(rec) then multiset(records)[rec] else 0)
      && IsSubsequence(written, records)
    ensures forall t :: t in ImportDocument(Json(Array(entries))).tasks ==> IsComplete(t)
  {
    var records := Records(entries).value;
    ImportedRecords(entries);
    FilterMembership(records, HasRequiredFields, rec);
    FilterCount(records, HasRequiredFields, rec);
    FilterIsSubsequence(records, HasRequiredFields);
    RecordsMembership(entries, rec);
  }

  /** Writing the imported tasks back gives the records that have the required fields, and
      every imported task is complete. */
  lemma ImportedRecords(entries: seq<Entry>)
    requires Null !in entries
    ensures ImportDocument(Json(Array(entries))) ==
      Imported(Map(Filter(Records(entries).value, HasRequiredFields), FromRecord))
    ensures Map(ImportDocument(Json(Array(entries))).tasks, ToRecord) ==
      Filter(Records(entries).value, HasRequiredFields)
    ensures forall t :: t in ImportDocument(Json(Array(entries))).tasks ==> IsComplete(t)
  {
    var kept := Filter(Records(entries).value, HasRequiredFields);
    var ts := Map(kept, FromRecord);
    RecordsOfTasks(kept);
    forall t | t in ts ensures IsComplete(t) {
      var i :| 0 <= i < |ts| && ts[i] == t;
      assert HasRequiredFields(kept[i]);
    }
  }

  /** A record is among an array's records exactly when it is one of its entries. */
  lemma RecordsMembership(entries: seq<Entry>, rec: Record)
    requires Null !in entries
    ensures rec in Records(entries).value <==> Item(rec) in entries
  {
    var records := Records(entries).value;
    if rec in records {
      var i :| 0 <= i < |records| && records[i] == rec;
      assert entries[i] == Item(rec);
    }
    if Item(rec) in entries {
      var i :| 0 <= i < |entries| && entries[i] == Item(rec);
      assert records[i] == rec;
    }
  }

  /** The records of an array of task objects are those objects. */
  lemma RecordsOfItems(rs: seq<Record>)
    ensures Records(Map(rs, AsEntry)) == Some(rs)
  {
    var entries := Map(rs, AsEntry);
    assert forall e :: e in entries ==> e.Item?;
    var r := Records(entries).value;
    assert |r| == |rs|;
    forall i | 0 <= i < |rs| ensures r[i] == rs[i] {
      assert entries[i] == Item(r[i]);
    }
    assert r == rs;
  }

  function AsEntry(rec: Record): Entry
  {
    Item(rec)
  }

  /** Writing rebuilt records gives the records back. */
  lemma RecordsOfTasks(records: seq<Record>)
    ensures Map(Map(records, FromRecord), ToRecord) == records
  {
    var r := Map(Map(records, FromRecord), ToRecord);
    forall i | 0 <= i < |records| ensures r[i] == records[i] {
      var rec := records[i];
      assert ToRecord(FromRecord(rec)) == Record(rec.id, rec.title, rec.description, rec.priority,
        rec.completed, IsoDate(rec.createdAt.ms), IsoDate(rec.updatedAt.ms));
    }
  }

  /** Importing an exported collection gives back its complete tasks, in order: exactly the
      whole collection when no task lacks an id, a title or a description. */
  lemma ExportImportRoundTrip(tasks: seq<Task>)
    ensures ImportDocument(ExportDocument(tasks)) == Imported(Filter(tasks, IsComplete))
    ensures (forall i :: 0 <= i < |tasks| ==> IsComplete(tasks[i])) ==>
      ImportDocument(ExportDocument(tasks)) == Imported(tasks)
  {
    RecordsOfEncoding(tasks);
    RebuildComplete(tasks);
    if forall i :: 0 <= i < |tasks| ==> IsComplete(tasks[i]) {
      FilterAll(tasks, IsComplete);
    }
  }

  /** Keeping the records with the required fields and rebuilding them is keeping the
      complete tasks. */
  lemma {:induction false} RebuildComplete(tasks: seq<Task>)
    ensures Map(Filter(Map(tasks, ToRecord), HasRequiredFields), FromRecord) == Filter(tasks, IsComplete)
    decreases |tasks|
  {
    if tasks != [] {
      var w := Map(tasks, ToRecord);
      RebuildComplete(tasks[1..]);
      assert w[1..] == Map(tasks[1..], ToRecord);
      assert FromRecord(ToRecord(tasks[0])) == tasks[0];
      var head := if HasRequiredFields(w[0]) then [w[0]] else [];
      MapConcat(head, Filter(w[1..], HasRequiredFields), FromRecord);
    }
  }

  /** Mapping distributes over concatenation. */
  lemma MapConcat<A, B>(a: seq<A>, b: seq<A>, f: A -> B)
    ensures Map(a + b, f) == Map(a, f) + Map(b, f)
  {
  }

  /** Import is the only way a collection enters without passing the form, and it does not
      re-check the form's rules: a title of two characters is accepted. */
  lemma ImportAdmitsShortTitle()
    ensures var rec := Record("1", "ab", "some text", Medium, false, IsoDate(0), IsoDate(0));
      ImportDocument(Json(Array([Item(rec)]))) == Imported([FromRecord(rec)])
  {
    var rec := Record("1", "ab", "some text", Medium, false, IsoDate(0), IsoDate(0));
    RecordsOfItems([rec]);
    assert Map([rec], AsEntry) == [Item(rec)];
    assert Filter([rec], HasRequiredFields) == [rec];
  }

  /** Import does not check ids or timestamps either: two entries with the same id, or a task
      updated before it was created, are taken as they are. */
  lemma ImportAdmitsDuplicatesAndDisorder()
    ensures var rec := Record("1", "Title", "some text", Low, false, IsoDate(5), IsoDate(1));
      var r := ImportDocument(Json(Array([Item(rec), Item(rec)])));
      r.Imported? && !UniqueIds(r.tasks) && !WellStamped(r.tasks)
  {
    var rec := Record("1", "Title", "some text", Low, false, IsoDate(5), IsoDate(1));
    RecordsOfItems([rec, rec]);
    assert Map([rec, rec], AsEntry) == [Item(rec), Item(rec)];
    assert Filter([rec, rec], HasRequiredFields) == [rec, rec];
    var ts := Map([rec, rec], FromRecord);
    assert ts[0].id == ts[1].id;
  }

  /** Two rejections of the import handler: a parsed value that is not an array (a JSON object,
      say) is ignored, and an entry without a description is dropped, leaving an empty import. */
  lemma ImportRejections(other: Value)
    requires !other.Array?
    ensures ImportDocument(Json(other)) == NotAnArray
    ensures var rec := Record("1", "x", "", Medium, false, IsoDate(0), IsoDate(0));
      ImportDocument(Json(Array([Item(rec)]))) == Imported([])
  {
    var rec := Record("1", "x", "", Medium, false, IsoDate(0), IsoDate(0));
    RecordsOfItems([rec]);
    assert Map([rec], AsEntry) == [Item(rec)];
    assert Filter([rec], HasRequiredFields) == [];
  }

  /** How `handleImportTasks` ends: no file was chosen, the collection was replaced, a parsed
      value that is not an array was ignored, or the alert was shown. */
  datatype ImportOutcome = NoFile | Replaced | Ignored | Alerted

  /** The App component's task state. */
  class Store {
    var tasks: seq<Task>
    var editingTask: Option<Task>
    var isLoading: bool

    /** The collection-wide invariants the store's own handlers keep: unique ids, ordered
        timestamps. */
    predicate Valid()
      reads this
    {
      UniqueIds(tasks) && WellStamped(tasks)
    }

    /** The initial state: no tasks, nothing being edited, loading. */
    constructor ()
      ensures tasks == [] && editingTask == None && isLoading
    {
      tasks := [];
      editingTask := None;
      isLoading := true;
    }

    /** The mount effect once its delay is over: the loaded collection replaces the state and
        loading ends. */
    method FinishLoading(storage: Storage)
      modifies this
      ensures tasks == DecodeTasks(Lookup(storage.items, TasksKey))
      ensures !isLoading && editingTask == old(editingTask)
    {
      tasks := storage.LoadTasks();
      isLoading := false;
    }

    /** The effect that runs whenever `tasks` changes: once loading is over it writes the
        collection back. */
    method PersistTasks(storage: Storage, writeFails: bool)
      modifies storage
      ensures storage.items == if isLoading then old(storage.items)
        else if writeFails then old(storage.items)
        else old(storage.items)[TasksKey := Stringify(EncodeTasks(tasks))]
    {
      if !isLoading {
        storage.SaveTasks(tasks, writeFails);
      }
    }

    /** `handleAddTask`. */
    method AddTask(data: TaskData, id: string, now: int)
      modifies this
      ensures tasks == AddTasks(old(tasks), data, id, now)
      ensures editingTask == old(editingTask) && isLoading == old(isLoading)
      ensures old(Valid()) && id !in old(Ids(tasks)) ==> Valid()
    {
      AddPrepends(tasks, data, id, now);
      tasks := [NewTask(data, id, now)] + tasks;
    }

    /** `handleEditTask`. */
    method EditTask(t: Task)
      modifies this
      ensures editingTask == Some(t)
      ensures tasks == old(tasks) && isLoading == old(isLoading)
    {
      editingTask := Some(t);
    }

    /** `handleCancelEdit`. */
    method CancelEdit()
      modifies this
      ensures editingTask == None
      ensures tasks == old(tasks) && isLoading == old(isLoading)
    {
      editingTask := None;
    }

    /** `handleUpdateTask`: nothing when no task is being edited; otherwise the edited task's
        id is rewritten with the form's fields and editing ends. */
    method UpdateTask(data: TaskData, now: int)
      modifies this
      ensures old(editingTask).None? ==> tasks == old(tasks) && editingTask == None
      ensures old(editingTask).Some? ==>
        tasks == UpdateTasks(old(tasks), old(editingTask).value, data, now) && editingTask == None
      ensures isLoading == old(isLoading)
      ensures old(Valid()) && (old(editingTask).Some? ==> old(editingTask).value.createdAt <= now) ==> Valid()
    {
      if editingTask.None? {
        return;
      }
      var e := editingTask.value;
      UpdateFrame(tasks, e, data, now);
      UpdateStamps(tasks, e, data, now);
      tasks := UpdateTasks(tasks, e, data, now);
      editingTask := None;
    }

    /** `handleToggleComplete`. */
    method ToggleComplete(id: string, now: int)
      modifies this
      ensures tasks == ToggleTasks(old(tasks), id, now)
      ensures editingTask == old(editingTask) && isLoading == old(isLoading)
      ensures old(Valid()) && (forall t :: t in old(tasks) && t.id == id ==> t.createdAt <= now) ==> Valid()
    {
      ToggleFrame(tasks, id, now);
      tasks := ToggleTasks(tasks, id, now);
    }

    /** `handleDeleteTask`. */
    method DeleteTask(id: string)
      modifies this
      ensures tasks == DeleteTasks(old(tasks), id)
      ensures editingTask == old(editingTask) && isLoading == old(isLoading)
      ensures old(Valid()) ==> Valid()
    {
      DeleteFrame(tasks, id, NewTask(TaskData([], [], Low, false), id, 0));
      tasks := DeleteTasks(tasks, id);
    }

    /** `handleImportTasks` with the chosen file's text already read (`None` when no file was
        chosen): an imported array replaces the collection, anything else leaves it as it was,
        and unreadable text raises the alert. */
    method ImportTasks(file: Option<StoredText>) returns (outcome: ImportOutcome)
      modifies this
      ensures file.None? ==> outcome == NoFile && tasks == old(tasks)
      ensures file.Some? ==> match ImportDocument(file.value)
        case Imported(ts) => outcome == Replaced && tasks == ts
        case NotAnArray => outcome == Ignored && tasks == old(tasks)
        case Unreadable => outcome == Alerted && tasks == old(tasks)
      ensures editingTask == old(editingTask) && isLoading == old(isLoading)
    {
      if file.None? {
        return NoFile;
      }
      var result := ImportDocument(file.value);
      match result {
        case Imported(ts) =>
          tasks := ts;
          outcome := Replaced;
        case NotAnArray =>
          outcome := Ignored;
        case Unreadable =>
          outcome := Alerted;
      }
    }

    /** `handleClearAllTasks`: when the user confirms, the collection is emptied and the tasks
        key removed (a failing removal is caught). */
    method ClearAllTasks(confirmed: bool, storage: Storage, removeFails: bool)
      modifies this, storage
      ensures tasks == if confirmed then [] else old(tasks)
      ensures storage.items == if confirmed && !removeFails then old(storage.items) - {TasksKey}
        else old(storage.items)
      ensures editingTask == old(editingTask) && isLoading == old(isLoading)
    {
      if confirmed {
        tasks := [];
        storage.ClearTasks(removeFails);
      }
    }

    /** `filteredTasks`: status filter, then search, then the in-place sort. With filter `all`
        and no search term the array sorted is the state's own, so the store itself takes the
        display order. */
    method FilteredTasks(filter: StatusFilter, term: string) returns (view: seq<Task>)
      modifies this
      ensures view == Project(old(tasks), filter, term)
      ensures tasks == if filter == All && term == [] then view else old(tasks)
      ensures editingTask == old(editingTask) && isLoading == old(isLoading)
    {
      var filtered := tasks;
      var aliased := true;
      if filter == Completed {
        filtered := Filter(filtered, IsCompleted);
        aliased := false;
      } else if filter == Pending {
        filtered := Filter(filtered, IsPending);
        aliased := false;
      }
      assert filtered == FilterByStatus(tasks, filter);
      if term != [] {
        filtered := Filter(filtered, SearchHit(term));
        aliased := false;
      }
      assert filtered == Selected(tasks, filter, term);
      var a := new Task[|filtered|](i requires 0 <= i < |filtered| => filtered[i]);
      assert a[..] == filtered;
      SortInPlace(a);
      view := a[..];
      if aliased {
        tasks := view;
      }
    }
  }

  /** A session's persistence: adding a task outside the loading phase and letting the save
      effect run makes the next load (a page reload) return the new collection. */
  method AddThenReload(store: Store, storage: Storage, data: TaskData, id: string, now: int)
    returns (reloaded: seq<Task>)
    requires !store.isLoading
    modifies store, storage
    ensures reloaded == store.tasks == AddTasks(old(store.tasks), data, id, now)
  {
    store.AddTask(data, id, now);
    store.PersistTasks(storage, false);
    TasksRoundTrip(store.tasks);
    reloaded := storage.LoadTasks();
  }

  /** Clearing all tasks removes the key, but the emptied collection is a change of `tasks`, so
      the save effect writes the empty array back under it; the next load is empty either way. */
  method ClearThenPersist(store: Store, storage: Storage) returns (reloaded: seq<Task>)
    requires !store.isLoading
    modifies store, storage
    ensures store.tasks == []
    ensures storage.items == old(storage.items)[TasksKey := Stringify(EncodeTasks([]))]
    ensures TasksKey in storage.items && reloaded == []
  {
    store.ClearAllTasks(true, storage, false);
    store.PersistTasks(storage, false);
    TasksRoundTrip([]);
    reloaded := storage.LoadTasks();
  }
}
