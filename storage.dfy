/** The persistence adapter of `src/utils/localStorage.js` over the browser's key-value store,
    modelled as a map from keys to stored texts. Every operation catches what the backend throws:
    a failing write leaves the store as it was and returns normally, a failing read degrades to
    the default. */
module LocalStorage {
  import opened Tasks
  import opened Seqs
  import opened Document

  const TasksKey: string := "taskTracker_tasks"
  const DarkModeKey: string := "taskTracker_darkMode"

  /** `getItem`: the text under `key`, or `None` (`null`) when there is none. */
  function Lookup(items: map<string, StoredText>, key: string): Option<StoredText>
  {
    if key in items then Some(items[key]) else None
  }

  /** What `loadTasks` returns for the text found under the tasks key. */
  function DecodeTasks(stored: Option<StoredText>): seq<Task>
  {
    match stored
    // `null` is falsy: nothing was saved
    case None => []
    case Some(text) =>
      match Parse(text)
      // the empty string is falsy and skips the parse; any other malformed text makes
      // `JSON.parse` throw, and the handler returns []
      case None => []
      case Some(Array(entries)) =>
        (match Records(entries)
         // reading `createdAt` of a `null` entry throws
         case None => []
         case Some(records) => Map(records, FromRecord))
      // a parsed value that is not an array has no `map` method: the call throws
      case Some(_) => []
  }

  /** What `loadDarkMode` returns for the text found under the theme key: `false` when there is
      none or it does not parse, otherwise whatever value it parses to. */
  function DecodeDarkMode(stored: Option<StoredText>): Value
  {
    match stored
    case None => Bool(false)
    case Some(text) =>
      match Parse(text)
      case None => Bool(false)
      case Some(v) => v
  }

  /** Loading never fails: when the key is absent, or its text is not JSON, or it parses to
      something other than an array of task objects, the result is the empty collection. */
  lemma LoadTasksFallback(stored: Option<StoredText>)
    ensures stored.None? ==> DecodeTasks(stored) == []
    ensures stored.Some? && stored.value.Malformed? ==> DecodeTasks(stored) == []
    ensures stored.Some? && stored.value.Json? && !stored.value.value.Array? ==> DecodeTasks(stored) == []
    ensures (stored.Some? && stored.value.Json? && stored.value.value.Array?
             && Null in stored.value.value.entries) ==> DecodeTasks(stored) == []
  {
  }

  /** An array without `null` entries loads entry by entry, with each task's dates rebuilt. */
  lemma LoadTasksOfArray(entries: seq<Entry>)
    requires Null !in entries
    ensures var tasks := DecodeTasks(Some(Json(Array(entries))));
      && |tasks| == |entries|
      && forall i :: 0 <= i < |entries| ==> tasks[i] == FromRecord(entries[i].record)
  {
  }

  /** Saving a collection and loading it again gives the same collection, field by field. */
  lemma TasksRoundTrip(tasks: seq<Task>)
    ensures DecodeTasks(Some(Stringify(EncodeTasks(tasks)))) == tasks
  {
    RecordsOfEncoding(tasks);
    RebuildEncoding(tasks);
  }

  /** Saving a theme flag and loading it again gives the flag; with nothing saved, or text that
      does not parse, the theme is light. */
  lemma DarkModeRoundTrip(b: bool, raw: string)
    ensures DecodeDarkMode(Some(Stringify(Bool(b)))) == Bool(b)
    ensures DecodeDarkMode(None) == Bool(false)
    ensures DecodeDarkMode(Some(Malformed(raw))) == Bool(false)
  {
  }

  /** The two keys differ, so writing one never changes what the other loads. */
  lemma KeysIndependent(items: map<string, StoredText>, text: StoredText)
    ensures DecodeDarkMode(Lookup(items[TasksKey := text], DarkModeKey)) == DecodeDarkMode(Lookup(items, DarkModeKey))
    ensures DecodeDarkMode(Lookup(items - {TasksKey}, DarkModeKey)) == DecodeDarkMode(Lookup(items, DarkModeKey))
    ensures DecodeTasks(Lookup(items[DarkModeKey := text], TasksKey)) == DecodeTasks(Lookup(items, TasksKey))
  {
    assert TasksKey != DarkModeKey;
  }

  /** The browser's storage, as far as the adapter uses it. */
  class Storage {
    var items: map<string, StoredText>

    constructor (initial: map<string, StoredText>)
      ensures items == initial
    {
      items := initial;
    }

    /** `loadTasks`: `DecodeTasks` read through the store, applied to whatever text the tasks
        key holds. */
    method LoadTasks() returns (tasks: seq<Task>)
      ensures tasks == DecodeTasks(Lookup(items, TasksKey))
    {
      var stored := Lookup(items, TasksKey);
      tasks := DecodeTasks(stored);
    }

    /** `saveTasks`: writes the serialised collection under the tasks key; a failing `setItem`
        (`writeFails`, say a full quota) is caught and changes nothing. */
    method SaveTasks(tasks: seq<Task>, writeFails: bool)
      modifies this
      ensures items == if writeFails then old(items) else old(items)[TasksKey := Stringify(EncodeTasks(tasks))]
    {
      if !writeFails {
        items := items[TasksKey := Stringify(EncodeTasks(tasks))];
      }
    }

    /** `clearTasks`: removes the tasks key; a failing `removeItem` is caught. */
    method ClearTasks(removeFails: bool)
      modifies this
      ensures items == if removeFails then old(items) else old(items) - {TasksKey}
    {
      if !removeFails {
        items := items - {TasksKey};
      }
    }

    /** `loadDarkMode`: `DecodeDarkMode` read through the store, applied to whatever text the
        theme key holds. */
    method LoadDarkMode() returns (darkMode: Value)
      ensures darkMode == DecodeDarkMode(Lookup(items, DarkModeKey))
    {
      var stored := Lookup(items, DarkModeKey);
      darkMode := DecodeDarkMode(stored);
    }

    /** `saveDarkMode`: writes the serialised theme value under its own key; a failing `setItem`
        is caught and changes nothing. */
    method SaveDarkMode(darkMode: Value, writeFails: bool)
      modifies this
      ensures items == if writeFails then old(items) else old(items)[DarkModeKey := Stringify(darkMode)]
    {
      if !writeFails {
        items := items[DarkModeKey := Stringify(darkMode)];
      }
    }
  }

  /** A client of the adapter: what a successful save writes, the next load returns, and after a
      successful clear the next load is empty. */
  method SaveLoadClear(storage: Storage, tasks: seq<Task>) returns (loaded: seq<Task>, cleared: seq<Task>)
    modifies storage
    ensures loaded == tasks && cleared == []
  {
    storage.SaveTasks(tasks, false);
    TasksRoundTrip(tasks);
    loaded := storage.LoadTasks();
    storage.ClearTasks(false);
    cleared := storage.LoadTasks();
  }
}
