/** The persisted and exported form of the task collection: the JSON value a stored text stands
    for, kept abstract. A text is either the serialisation of a value or something `JSON.parse`
    rejects; the character-level grammar of JSON is not modelled. */
module Document {
  import opened Tasks
  import opened Seqs

  /** The text `Date.prototype.toJSON` writes for a timestamp (an ISO-8601 string), standing for
      the millisecond count it encodes. */
  datatype DateText = IsoDate(ms: int)

  /** `JSON.stringify` of a `Date` field. */
  function DateToText(ms: int): DateText
  {
    IsoDate(ms)
  }

  /** `new Date(text)` on a stored timestamp. */
  function DateFromText(d: DateText): int
  {
    d.ms
  }

  /** One task object as it appears in a stored or imported array. A text field that is absent
      from the object is represented by the empty string: both are falsy. */
  datatype Record = Record(
    id: string,
    title: string,
    description: string,
    priority: Priority,
    completed: bool,
    createdAt: DateText,
    updatedAt: DateText)

  /** An element of a parsed array: a task object or `null`. */
  datatype Entry = Item(record: Record) | Null

  /** A parsed JSON value: an array of entries, a boolean, or any other value (an object, a
      number, a string or `null`). */
  datatype Value = Array(entries: seq<Entry>) | Bool(b: bool) | Other

  /** A text held in storage or read from a file: the serialisation of a value, or text that is
      not JSON at all (the empty string among them). */
  datatype StoredText = Json(value: Value) | Malformed(raw: string)

  /** `JSON.stringify`. */
  function Stringify(v: Value): StoredText
  {
    Json(v)
  }

  /** `JSON.parse`: `None` where the call throws. */
  function Parse(t: StoredText): Option<Value>
  {
    match t
    case Json(v) => Some(v)
    case Malformed(_) => None
  }

  /** Parsing what `JSON.stringify` wrote gives back the value, and a text parses to a value
      exactly when it is that value's serialisation: `JSON.parse` throws on every text that no
      value serialises to. */
  lemma ParseStringify(t: StoredText, v: Value)
    ensures Parse(Stringify(v)) == Some(v)
    ensures Parse(t) == Some(v) <==> t == Stringify(v)
    ensures Parse(t).None? <==> forall w :: t != Stringify(w)
  {
    if t.Json? {
      assert t == Stringify(t.value);
    }
  }

  /** The object `JSON.stringify` writes for a task: the `Date` fields become their text. */
  function ToRecord(t: Task): Record
  {
    Record(t.id, t.title, t.description, t.priority, t.completed,
           DateToText(t.createdAt), DateToText(t.updatedAt))
  }

  /** `{...task, createdAt: new Date(task.createdAt), updatedAt: new Date(task.updatedAt)}`. */
  function FromRecord(r: Record): Task
  {
    Task(r.id, r.title, r.description, r.priority, r.completed,
         DateFromText(r.createdAt), DateFromText(r.updatedAt))
  }

  /** Rebuilding the dates of a written task gives the task back, field by field. */
  lemma FromToRecord(t: Task)
    ensures FromRecord(ToRecord(t)) == t
  {
  }

  function AsItem(t: Task): Entry
  {
    Item(ToRecord(t))
  }

  /** The array `JSON.stringify(tasks)` writes. */
  function EncodeTasks(tasks: seq<Task>): Value
  {
    Array(Map(tasks, AsItem))
  }

  /** The records of an array without `null` entries; `None` when some entry is `null`, where
      reading a property of it throws. */
  function Records(entries: seq<Entry>): (r: Option<seq<Record>>)
    ensures r.Some? <==> Null !in entries
    ensures r.Some? ==> (|r.value| == |entries|
      && forall i :: 0 <= i < |entries| ==> entries[i] == Item(r.value[i]))
    decreases |entries|
  {
    if entries == [] then Some([])
    else match entries[0]
      case Null => None
      case Item(rec) =>
        match Records(entries[1..])
        case None => None
        case Some(rest) => Some([rec] + rest)
  }

  /** The records of an encoded collection are the tasks' records, in order. */
  lemma RecordsOfEncoding(tasks: seq<Task>)
    ensures Records(Map(tasks, AsItem)) == Some(Map(tasks, ToRecord))
  {
    var entries := Map(tasks, AsItem);
    assert forall e :: e in entries ==> e.Item?;
    var r := Records(entries).value;
    assert |r| == |tasks|;
    forall i | 0 <= i < |tasks| ensures r[i] == Map(tasks, ToRecord)[i] {
      assert entries[i] == Item(r[i]) == Item(ToRecord(tasks[i]));
    }
    assert r == Map(tasks, ToRecord);
  }

  /** Rebuilding every record of an encoded collection gives the collection back. */
  lemma RebuildEncoding(tasks: seq<Task>)
    ensures Map(Map(tasks, ToRecord), FromRecord) == tasks
  {
    var r := Map(Map(tasks, ToRecord), FromRecord);
    forall i | 0 <= i < |tasks| ensures r[i] == tasks[i] {
      FromToRecord(tasks[i]);
    }
  }
}
