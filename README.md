# Task tracker: the collection engine, modelled in Dafny

A model of the part of the task tracker that owns and shows the task collection. It covers:

- **The task store** of `src/App.jsx`: the `tasks` state, the task being edited, the loading flag, and the handlers for add, update, toggle, delete, import and clear-all.
- **The view projector**: `filteredTasks` (status filter, case-insensitive search, then the three-key sort) and `taskCounts`.
- **The persistence adapter** of `src/utils/localStorage.js`, over a key-value map.
- **The task form's rules** in `src/components/TaskForm.jsx`: validation, trimming, the reset after submit, and error clearing on input.
- **The list's render-state choice** and its pending/completed grouping in `src/components/TaskList.jsx`.

Modules:

- `Seqs`: `Filter`, `Map` and a subsequence relation, with their lemmas.
- `Tasks`: the task record and the collection invariants (unique ids, `createdAt <= updatedAt`).
- `Text`: `trim`, the UTF-16 `length`, `toLowerCase` and `includes`.
- `ViewProjector`: the filters, the comparator, the stable sort `SortTasks` and the in-place array sort that realises it.
- `Document`: the JSON value a stored or imported text stands for.
- `LocalStorage`: the `Storage` class over a map of keys to texts.
- `TaskStore`: each handler as a collection-to-collection function with its frame lemma, import and export, and the `Store` class, whose methods update its fields the way `setTasks` does.
- `TaskForm`: the `Form` class.
- `TaskList`: the render states.
- `Scenarios`: concrete views.

The clock (`new Date()`), the id generator, the user's answer to `confirm`, and whether a storage call throws are all parameters of the operations that use them.

Behaviour of the code that a reader might not expect, and that the model keeps:

- **Import of a parsed value that is not an array.** The handler silently ignores it: no notice appears and the collection stays as it was. Only a parse failure or a `null` entry raises the alert (`ImportResult.NotAnArray` versus `Unreadable`).
- **Clear-all.** It removes the tasks key. But emptying `tasks` triggers the save effect, which writes `[]` back under the key, so the key is present again afterwards (`TaskStore.ClearThenPersist`).
- **`loadDarkMode`.** It returns whatever the stored text parses to, which need not be a boolean.
- **Import validation.** Import checks only that `id`, `title` and `description` are truthy; for the string fields of the modelled records that means non-empty. It admits titles shorter than the form allows, duplicate ids, and tasks updated before they were created. So unique ids and ordered timestamps are invariants of the store's own handlers, not of import (`TaskStore.ImportAdmitsDuplicatesAndDisorder`).
- **`filteredTasks` reorders the store.** With the `all` filter and no search term it sorts the state's own array in place, so the store takes the display order. `ViewProjector.ProjectIgnoresStoreReorder` shows this never changes any view of the same collection, and `ViewProjector.CountsIgnoreOrder` shows it never changes the counts. It can change a view after a later handler, though: a toggle or an update can make two tasks tie, and then the store order the sort left behind decides their order in the view (`Scenarios.ReorderChangesLaterView`).

## Model

| member | source | states |
|---|---|---|
| Text.TrimShape | src/components/TaskForm.jsx:42-52 | `trim` keeps a contiguous slice of the input: only white space lies before and after it, and it neither starts nor ends with white space |
| Text.TrimIdempotent | src/components/TaskForm.jsx:74-75 | trimming an already trimmed value changes nothing |
| Text.Utf16Length | src/components/TaskForm.jsx:44 | `length` counts UTF-16 code units: at least one and at most two per character |
| Text.Lower | src/App.jsx:85-88 | `toLowerCase` keeps the length and lowers every character in place |
| Text.LowerIdempotent | src/App.jsx:85-88 | lowering a lowered string changes nothing |
| Text.IncludesIff | src/App.jsx:87-88 | `includes` holds exactly when the term occurs at some position of the text |
| ViewProjector.StatusStep | src/App.jsx:76-81 | the status step keeps exactly the tasks whose status the filter admits, every copy of each, in order; `all` keeps the list |
| ViewProjector.SearchStep | src/App.jsx:83-90 | the search step keeps exactly the tasks whose lower-cased title or description contains the lower-cased term, every copy, in order; an empty term keeps everything |
| ViewProjector.SelectedContents | src/App.jsx:73-90 | the filtered list holds exactly the shown tasks, as often as the store does, as a subsequence of the store |
| ViewProjector.CompareIsKeyOrder | src/App.jsx:93-106 | the comparator is negative or zero exactly in the three-key order (pending before completed, higher priority first, newer first); it is zero exactly on equal keys; it is antisymmetric and transitive |
| ViewProjector.SortTasksPermutes | src/App.jsx:93 | sorting is a permutation: same tasks, same multiplicities, same length |
| ViewProjector.SortTasksSorted | src/App.jsx:93-106 | the sorted list is in the comparator's order at every pair of positions |
| ViewProjector.SortTasksStable | src/App.jsx:93 | tasks that tie on all three keys keep their relative order |
| ViewProjector.InsertLastSorted | src/App.jsx:93-106 | inserting one task into a list in order leaves it in order |
| ViewProjector.SortInPlace | src/App.jsx:93-106 | the in-place sort of the filtered array leaves it equal to `SortTasks` of its old contents |
| ViewProjector.InsertInPlace | src/App.jsx:93 | one insertion pass places the next element as `InsertLast` does and leaves the rest of the array alone |
| ViewProjector.SortedUnique | src/App.jsx:93-106 | two lists in order with the same tie classes are equal: order plus stability leave no freedom |
| ViewProjector.SortTasksDeterminedByTies | src/App.jsx:93-106 | the sorted output depends on its input only through the tie classes |
| ViewProjector.SortTasksIdempotent | src/App.jsx:93-106 | sorting a sorted output changes nothing |
| ViewProjector.SelectedTies | src/App.jsx:76-90 | filtering and taking a tie class commute |
| ViewProjector.ProjectCorrect | src/App.jsx:73-107 | the view holds exactly the shown tasks, as often as the store, in order, with ties in store order |
| ViewProjector.ProjectDeterminedByTies | src/App.jsx:73-107 | two stores with the same tie classes give the same view under every filter and term |
| ViewProjector.ProjectIgnoresStoreReorder | src/App.jsx:74-93 | after the unfiltered view has sorted the store's own array, every view of that same collection is the one the store gave before |
| ViewProjector.CountTasks | src/App.jsx:112-116 | `all` is the collection's size and `completed + pending == all` |
| ViewProjector.CountsMatchViews | src/App.jsx:112-116 | each count is the size of the unsearched view under that filter |
| ViewProjector.CountsIgnoreOrder | src/App.jsx:112-116 | the counts depend only on which tasks there are, not on their order |
| Document.ParseStringify | src/utils/localStorage.js:16-37 | parsing what `JSON.stringify` wrote gives the value back; a text parses to a value exactly when it is that value's serialisation, and parsing fails exactly on texts no value serialises to (immediate from the abstract text type, where `Parse` inverts `Stringify` by definition) |
| Document.FromToRecord | src/utils/localStorage.js:18-22 | rebuilding the dates of a written task gives the task back |
| Document.Records | src/utils/localStorage.js:18-22 | an array's entries can all be read exactly when none is `null`, and then the records are the entries in order |
| Document.RecordsOfEncoding | src/utils/localStorage.js:37 | the entries of a written collection are the tasks' records, in order |
| Document.RebuildEncoding | src/utils/localStorage.js:18-22 | rebuilding every written record gives the collection back |
| LocalStorage.LoadTasksFallback | src/utils/localStorage.js:12-29 | loading gives `[]` for an absent key, text that is not JSON, a value that is not an array, or an array with a `null` entry |
| LocalStorage.LoadTasksOfArray | src/utils/localStorage.js:18-22 | an array without `null` loads entry by entry, with dates rebuilt |
| LocalStorage.TasksRoundTrip | src/utils/localStorage.js:12-41 | loading what `saveTasks` wrote gives the same collection |
| LocalStorage.DarkModeRoundTrip | src/utils/localStorage.js:58-82 | the stored flag loads back; nothing stored, or text that is not JSON, loads as `false` |
| LocalStorage.KeysIndependent | src/utils/localStorage.js:1-2 | the two keys differ, so writing or removing one never changes what the other loads |
| LocalStorage.Storage.LoadTasks | src/utils/localStorage.js:12-29 | returns the decoding of the text under the tasks key |
| LocalStorage.Storage.SaveTasks | src/utils/localStorage.js:35-41 | writes the serialised collection under the tasks key; a failing write changes nothing |
| LocalStorage.Storage.ClearTasks | src/utils/localStorage.js:46-52 | removes the tasks key; a failing removal changes nothing |
| LocalStorage.Storage.LoadDarkMode | src/utils/localStorage.js:58-70 | returns the parsed theme value, `false` when absent or unparsable |
| LocalStorage.Storage.SaveDarkMode | src/utils/localStorage.js:76-82 | writes the serialised theme value under its own key; a failing write changes nothing |
| LocalStorage.SaveLoadClear | src/utils/localStorage.js:35-52 | after a save the next load returns the collection; after a clear it returns `[]` |
| TaskStore.AddPrepends | src/App.jsx:130-140 | the new task comes first, with the form's fields, the given id and equal timestamps, and the old collection follows unchanged; the ids gain exactly the new one; a fresh id keeps ids unique; timestamps stay ordered |
| TaskStore.UpdateFrame | src/App.jsx:146-161 | exactly the tasks with the edited id take the form's fields and `now`, keeping their id; all others are unchanged; the id set is unchanged; unique ids stay unique; each rewritten task is the edited copy merged with the form's data, so it carries the copy's creation time; an absent id changes nothing |
| TaskStore.UpdateStamps | src/App.jsx:146-161 | when every stored task with the edited id has the copy's creation time (a stale copy included), all creation times are kept; with `now` no earlier than it the timestamps stay ordered |
| TaskStore.EditedCopyCreation | src/App.jsx:146-161 | a copy taken from a unique-id store is the only stored task with its id, so it meets `UpdateStamps`'s hypothesis |
| TaskStore.ToggleFrame | src/App.jsx:167-175 | exactly the tasks with the id flip `completed` and take `now`, keeping every other field; all others are unchanged; ids keep their uniqueness; an absent id changes nothing |
| TaskStore.ToggleTwice | src/App.jsx:167-175 | toggling twice restores every completion state and changes only the toggled tasks' `updatedAt` |
| TaskStore.DeleteFrame | src/App.jsx:181-183 | deleting removes exactly the tasks with the id, keeps every other task as often and in order, removes exactly that id from the id set, keeps both invariants, and is a no-op for an absent id |
| TaskStore.ImportOutcomes | src/App.jsx:225-241 | import is unreadable exactly for text that is not JSON or an array with `null`; it is ignored exactly for a non-array; otherwise it yields tasks |
| TaskStore.ImportExact | src/App.jsx:228-235 | the imported tasks are exactly the entries with an id, a title and a description, each as often, in file order |
| TaskStore.ExportImportRoundTrip | src/App.jsx:204-236 | importing an export gives back the complete tasks in order, and the whole collection when every task is complete |
| TaskStore.ImportAdmitsShortTitle | src/App.jsx:229-230 | an entry with a two-character title is imported |
| TaskStore.ImportAdmitsDuplicatesAndDisorder | src/App.jsx:229-235 | an import may hold duplicate ids and a task updated before its creation |
| TaskStore.ImportRejections | src/App.jsx:228-230 | a non-array is ignored; an entry without a description is dropped |
| TaskStore.Store.constructor | src/App.jsx:16-20 | no tasks, nothing being edited, loading |
| TaskStore.Store.FinishLoading | src/App.jsx:27-40 | the loaded collection replaces the state and loading ends |
| TaskStore.Store.PersistTasks | src/App.jsx:52-56 | the save effect writes the collection only once loading is over |
| TaskStore.Store.AddTask | src/App.jsx:130-140 | `tasks` becomes `AddTasks` of the old collection; a fresh id preserves the invariants |
| TaskStore.Store.EditTask | src/App.jsx:189-192 | the given task becomes the one being edited; tasks unchanged |
| TaskStore.Store.CancelEdit | src/App.jsx:197-199 | editing ends; tasks unchanged |
| TaskStore.Store.UpdateTask | src/App.jsx:146-161 | nothing happens without an edited task; otherwise `tasks` becomes `UpdateTasks` and editing ends; the invariants are kept when `now` is not before the edited task's creation |
| TaskStore.Store.ToggleComplete | src/App.jsx:167-175 | `tasks` becomes `ToggleTasks`; the invariants are kept when `now` is not before the matched tasks' creation |
| TaskStore.Store.DeleteTask | src/App.jsx:181-183 | `tasks` becomes `DeleteTasks`; the invariants are kept |
| TaskStore.Store.ImportTasks | src/App.jsx:220-244 | no file changes nothing; an imported array replaces the collection; a non-array is ignored; unreadable text raises the alert and changes nothing |
| TaskStore.Store.ClearAllTasks | src/App.jsx:249-254 | on confirmation the collection empties and the key is removed (unless removal fails); otherwise nothing changes |
| TaskStore.Store.FilteredTasks | src/App.jsx:73-107 | the returned view is the projection of the old store; with `all` and no term the store itself becomes that view, otherwise it is unchanged |
| TaskStore.AddThenReload | src/App.jsx:52-56 | after an add and the save effect, a reload returns the new collection |
| TaskStore.ClearThenPersist | src/App.jsx:249-254 | after clear-all and the save effect, the key holds the empty array and a reload returns `[]` |
| TaskForm.TitleRule | src/components/TaskForm.jsx:42-46 | "required" exactly for a blank title; the length message exactly for a trimmed title of one or two code units; no message exactly from three |
| TaskForm.DescriptionRule | src/components/TaskForm.jsx:48-52 | the same rule for the description, with five code units |
| TaskForm.ValidIff | src/components/TaskForm.jsx:39-56 | only the two text fields can carry errors, each with its rule's message; valid exactly when the trimmed title has at least 3 and the trimmed description at least 5 code units |
| TaskForm.SubmittedIsValid | src/components/TaskForm.jsx:73-78 | submitted data meets the length rules outright, has nothing left to trim, and validates again |
| TaskForm.CheckLength | src/components/TaskForm.jsx:42-52 | one field's two checks record the message of the length rule, if any, under that field |
| TaskForm.Form.constructor | src/components/TaskForm.jsx:13-21 | empty fields, medium priority, pending, no errors, not submitting |
| TaskForm.Form.SyncWithTask | src/components/TaskForm.jsx:24-33 | a given task's four fields replace the form's; no task changes nothing |
| TaskForm.Form.ValidateForm | src/components/TaskForm.jsx:39-56 | the errors become those of the form's values, and the result is true exactly when the form is valid |
| TaskForm.Form.HandleSubmit | src/components/TaskForm.jsx:62-94 | submits exactly when valid, and then submits the trimmed data; errors are those of the submitted values; a new-task form resets after submitting; submission has ended |
| TaskForm.Form.Submit | src/components/TaskForm.jsx:67-93 | hands over the trimmed data, resets a new-task form, and ends with `isSubmitting` false |
| TaskForm.Form.HandleInputChange | src/components/TaskForm.jsx:100-112 | the changed field takes its new value and loses its error; every other field and error stays |
| TaskForm.InputChangesOneField | src/components/TaskForm.jsx:100-112 | an input touches no other field's value or error |
| TaskList.ViewStates | src/components/TaskList.jsx:30-99 | loading wins; "no tasks yet" exactly for an empty list with no term and the `all` filter; otherwise an empty list is "no tasks found", naming the term or the filter; any non-empty list is grouped |
| TaskList.GroupsPartition | src/components/TaskList.jsx:104-105 | the two sections partition the list by status, every copy of each task, each keeping the list's order |
| TaskList.GroupsIgnoreQuery | src/components/TaskList.jsx:104-105 | the sections do not depend on the term or filter |
| TaskList.GroupsOfSorted | src/components/TaskList.jsx:104-105 | on a list in order, the pending section followed by the completed section is the list itself |
| TaskList.ListOfProjection | src/components/TaskList.jsx:51-105 | for the App's view, "no tasks yet" appears exactly for an empty store with no query, and grouping does not reorder the view |
| Scenarios.OrderExample | src/App.jsx:93-106 | pending high, then pending low, then completed high |
| Scenarios.NewerFirstExample | src/App.jsx:104-105 | among equal status and priority, the newer task comes first |
| Scenarios.SearchExample | src/App.jsx:84-90 | "milk" finds only the task titled "Buy milk"; "BOB" finds only the one titled "Call Bob": the term matches inside the text, ignoring case |
| Scenarios.ReorderChangesLaterView | src/App.jsx:74-93 | after the unfiltered view has sorted a completed task behind a pending one, toggling it tie-breaks by the reordered store: the view is `[a, b']` where the original store gives `[b', a]` |

## Left out

- **Id generation** (`generateId`, `Date.now`, `Math.random`): the id is a parameter of `AddTask`. Uniqueness of the new id is assumed in the invariant clause, not established.
- **The two `new Date()` calls of `handleAddTask`** are modelled as a single `now`.
- **The 500 ms and 300 ms timers, `FileReader`, `window.confirm` and `alert`**: the delays are not modelled. The file text, the confirmation and whether a storage call throws are parameters. The alert is an outcome value.
- **The dark-mode toggle**, its effect on `document.body`'s class list, and the mount-time load of the preference: only the adapter's two preference functions are modelled.
- **The export download** (data URI, file name with the date, link click): export is modelled up to the serialised value.
- **`showForm`, animation, and every presentational component** (`TaskItem`, `FilterButtons`, `SearchBar`, the JSX markup).
- **The JSON grammar and `Date` text parsing**: a stored text is the value it serialises or an unparsable text, and a date text stands for its millisecond count. Indentation and primitive elements inside arrays are not represented.
- **Unparsable dates** (`Invalid Date`, whose `getTime` is `NaN`) and priorities outside high/medium/low (whose rank is `undefined`): the comparator is modelled only for well-formed tasks, where it is a consistent order.
- **Ill-typed entries in a stored or imported array**: every entry is modelled as a well-typed task object. `id`, `title` and `description` are strings, with an absent field as `""`; `completed` is a boolean and `priority` one of the three levels. A numeric or otherwise non-string `id`, `title` or `description` (such as `"id": 1`, or `"id": 0`, which the truthiness filter drops) is not represented, and neither is a missing `completed`. So the model also does not capture the `toLowerCase` call on a non-string title throwing once a search term is typed.
- **Exceptions thrown by `getItem` itself**: the modelled fallbacks are for absent keys and bad contents.
- **Text.Lower**: lowers only the ASCII letters A–Z. The full Unicode case mapping of `toLowerCase` is not modelled.
- **TaskForm.Form.HandleInputChange**: the source sets the field's error to `undefined` instead of deleting the key. The model removes the key, which the form reads the same way (only truthiness is read).
- **TaskStore.Store.AddTask, TaskStore.Store.UpdateTask, TaskStore.Store.ToggleComplete**: they keep unique ids and ordered timestamps only under the stated conditions on the id and the clock. The source does not guarantee those conditions, so the model states them as hypotheses, not preconditions.
