# To-do list widget: task-list model

A model of the browser to-do list in `index.js`, with the page's document and
`localStorage` replaced by plain state. The widget shows a list of short text
tasks. Users can add, duplicate, edit in place and delete tasks, and the list
is kept in one storage key so that it survives a reload.

The project has three modules:

- `Text` (`text.dfy`): `String.prototype.trim` as a function over the
  ECMAScript whitespace characters, with lemmas that pin down what it keeps
  and what it drops.
- `TaskStorage` (`storage.dfy`): the storage cell as an abstract value
  (`Absent | EmptyText | Unparseable | Parsed(Json)`). `normalizeTasks` is a
  method with a loop and `loadTasks` a method of straight-line branches;
  they are proved against the functions `Normalized` and `Load`.
  `saveTasks` is `Save`. The lemmas cover the
  fallback to the six seed tasks, the save/load round trip and what
  normalisation keeps.
- `TodoWidget` (`widget.dfy`): the class `TodoList`. It holds the text of the
  rendered entries in document order, the storage cell, the form's input and
  the "No tasks yet" placeholder flag. The event handlers are its methods.
  Each structural change is followed by `SyncStorageFromDom`, whose effect on
  storage is the function `Synced`. Lemmas about `Synced` and `Load` give the
  consequences: storage agrees with the list after every handler, an empty
  list resets to the seed tasks on reload, and edited text goes to storage
  exactly as typed.

Two behaviours of `index.js` are worth knowing:

- Nothing in the file calls `toggleEmptyState` (index.js:76-87). The
  placeholder therefore never appears, even after the last entry is deleted.
  The model keeps `ToggleEmptyState` as a standalone operation, and no
  handler changes the placeholder.
- Normalisation trims and drops empty strings, but the blur handler
  (index.js:116-120) syncs an edited entry's text as typed, untrimmed and
  possibly empty. `SyncedNonTask` shows that such text is written to storage
  as it is and that a reload then gives a different list.

## Model

| member | source | states |
|---|---|---|
| `Text.IsSpace` | index.js:33 | the characters trim strips: ECMAScript WhiteSpace and LineTerminator, with the Unicode space separators written out |
| `Text.Trim` | index.js:33 | trim's result starts and ends with a non-whitespace character, or is empty |
| `Text.SkipSpace` | index.js:33 | the index where leading whitespace ends: no earlier than the start, within the string, and not on a whitespace character |
| `Text.SkipSpaceBack` | index.js:33 | the index where trailing whitespace begins: within the range, and the character before it is not whitespace |
| `Text.SkipSpaceSkipsSpace` | index.js:33 | every character passed over by the forward skip is whitespace |
| `Text.SkipSpaceBackSkipsSpace` | index.js:33 | every character dropped by the backward skip is whitespace |
| `Text.TrimSlice` | index.js:33 | the trim is one contiguous slice of the input, and every character outside that slice is whitespace |
| `Text.TrimEmptyIffBlank` | index.js:144-146 | the trim is empty exactly when every character is whitespace, which is when a submitted input is rejected |
| `Text.TrimOfTrimmed` | index.js:33 | trimming a string that has no whitespace at either end returns it unchanged |
| `Text.TrimIdempotent` | index.js:33 | trimming twice gives the same result as trimming once |
| `TaskStorage.InitialTasks` | index.js:3-10 | the six seed tasks, in the source's order |
| `TaskStorage.InitialTasksAreTasks` | index.js:3-10 | there are six seed tasks, and each one is non-empty and trimmed |
| `TaskStorage.Keep` | index.js:32-35 | what one array element contributes: its trim if it is a string with a non-empty trim, nothing otherwise |
| `TaskStorage.NormalizedItems` | index.js:29-37 | the tasks kept from an array, element by element from the front, as the loop pushes them |
| `TaskStorage.Normalized` | index.js:27-37 | the tasks kept from any parsed value: none unless it is an array |
| `TaskStorage.NormalizeTasks` | index.js:27-38 | the loop returns exactly `Normalized(value)`: nothing for a non-array, never more tasks than elements, and every task non-empty and trimmed |
| `TaskStorage.NormalizedAppend` | index.js:29-37 | normalising the concatenation of two arrays gives the two normalised lists one after the other, so elements are treated one by one and their order is kept |
| `TaskStorage.NormalizedCons` | index.js:29-37 | normalising an array gives its first element's contribution followed by the rest's |
| `TaskStorage.NormalizedAreTasks` | index.js:29-37 | the normalised list is never longer than the array, and each of its elements is non-empty and trimmed |
| `TaskStorage.KeepYields` | index.js:32-35 | one element contributes `t` if and only if it is a string whose trim is `t` and `t` is not empty |
| `TaskStorage.NormalizedComplete` | index.js:31-35 | every string element with a non-empty trim has that trim in the normalised list |
| `TaskStorage.NormalizedSound` | index.js:31-35 | every normalised task is the non-empty trim of some string element of the array, whose index is returned |
| `TaskStorage.Encode` | index.js:55 | the array of JSON strings that `JSON.stringify` of a string list parses back to |
| `TaskStorage.Save` | index.js:54-56 | what the storage key holds after `saveTasks`: a parsed array of exactly the given strings |
| `TaskStorage.Load` | index.js:40-52 | `loadTasks` as a value: the seed tasks when storage is absent, the empty string, unparseable, or normalises to nothing; the normalised tasks otherwise |
| `TaskStorage.NormalizeEncode` | index.js:29-37 | normalising a saved list of tasks returns that list |
| `TaskStorage.LoadTasks` | index.js:40-52 | the method returns exactly `Load(raw)`, which is never empty |
| `TaskStorage.LoadAreTasks` | index.js:40-52 | loading never returns an empty list, and every loaded task is non-empty and trimmed |
| `TaskStorage.LoadFallback` | index.js:43-50 | loading gives the seed tasks when storage is absent, the empty string, unparseable, or normalises to nothing; otherwise it gives the normalised tasks |
| `TaskStorage.LoadSavedEmpty` | index.js:48 | after `[]` is saved, loading gives the seed tasks |
| `TaskStorage.SaveLoadRoundTrip` | index.js:40-56 | after saving a non-empty list of trimmed, non-empty tasks, loading returns that list |
| `TaskStorage.SaveLoadNonTask` | index.js:40-56 | if a saved list has an element that is empty or untrimmed, loading does not give that list back |
| `TodoWidget.Synced` | index.js:67-74 | the storage value after a sync: unchanged when loading it gives the rendered list, the rendered list saved otherwise |
| `TodoWidget.SyncedIdempotent` | index.js:67-74 | a second sync leaves the same value in storage as the first |
| `TodoWidget.SyncedUnchangedIff` | index.js:67-74 | a sync leaves storage as it was if and only if loading it already gives the rendered list, or it already holds that list saved |
| `TodoWidget.SyncedReloads` | index.js:67-74 | when every rendered entry is a trimmed, non-empty task, loading after a sync renders the same list |
| `TodoWidget.SyncedEmpty` | index.js:67-74 | syncing an empty list always writes `[]`, and loading after that gives the seed tasks |
| `TodoWidget.SyncedNonTask` | index.js:116-120 | an entry edited to untrimmed or empty text makes sync write the list as it is, and loading does not give it back, so every later sync compares unequal and saves again |
| `TodoWidget.RemoveAt` | index.js:101 | removing entry `i` keeps the entries before it in place and moves the ones after it up by one |
| `TodoWidget.DeleteOnlyEntryResets` | index.js:100-103 | deleting the only entry leaves `[]` in storage, and loading then gives the seed tasks |
| `TodoWidget.TodoList.constructor` | index.js:14-16 | the page before the first render has no entries, an empty input, no placeholder, and whatever storage already holds |
| `TodoWidget.TodoList.GetRenderedTasks` | index.js:58-65 | returns the text of every entry, in order |
| `TodoWidget.TodoList.SaveTasks` | index.js:54-56 | the storage cell afterwards holds the list as saved |
| `TodoWidget.TodoList.SyncStorageFromDom` | index.js:67-74 | storage becomes `Synced(rendered, old storage)`: it is unchanged when the rendered list equals what loading gives, and becomes the rendered list otherwise; the entries are not touched |
| `TodoWidget.TodoList.ToggleEmptyState` | index.js:76-87 | afterwards the placeholder is shown if and only if there are no entries; nothing else changes |
| `TodoWidget.ToggleTwice` | index.js:76-87 | calling toggleEmptyState twice leaves the same state as calling it once |
| `TodoWidget.TodoList.RenderInitialTasks` | index.js:132-139 | the loaded tasks are appended, in order, after the existing entries |
| `TodoWidget.PageLoad` | index.js:155-157 | a freshly loaded page renders exactly what loading storage gives |
| `TodoWidget.TodoList.Delete` | index.js:100-103 | exactly entry `i` is removed, the rest keep their order, and storage is synced |
| `TodoWidget.TodoList.Duplicate` | index.js:105-109 | a copy of entry `i`'s current text becomes the first entry, the old list follows unchanged, and storage is synced |
| `TodoWidget.TodoList.Blur` | index.js:116-120 | storage is synced with the entries as they are |
| `TodoWidget.TodoList.CommitEdit` | index.js:116-120 | entry `i` takes the typed text, untrimmed, and storage is synced |
| `TodoWidget.TodoList.KeyDown` | index.js:122-127 | Enter commits the edit the same way blur does; any other key changes nothing |
| `TodoWidget.TodoList.HandleFormSubmit` | index.js:141-153 | a blank input changes neither the list, nor storage, nor the input; otherwise the trimmed input becomes entry 0, the old entries follow in order, storage is synced and the input is cleared |

## Left out

- Document querying, template cloning and event-listener wiring (index.js:14-17, index.js:90-96, index.js:155) are left out. The handlers are methods of `TodoList`. An entry's handlers are addressed by the entry's index, which is why those methods require an index in range: a handler only fires for an entry that is on the page.
- The placeholder's styling (index.js:20-24) is left out. The placeholder is a flag.
- The edit button, which sets `contenteditable` and moves focus (index.js:111-114, index.js:117), is left out: it does not change the list. Typing into an entry is not an event the source handles. `CommitEdit` and `KeyDown` take the typed text as a parameter, and keys other than Enter keep their browser default, which the model does not include.
- Typing into the form's input is not modelled as an operation. A caller assigns the `input` field.
- Real JSON text and the `localStorage` API are abstracted. `Stored` says only whether the key's text is absent, empty, unparseable, or parses to a `Json` value; which texts parse to what is not modelled. `JSON.stringify` equality of two string arrays is sequence equality. An exception from `getItem` behaves like `Unparseable`, since the same `catch` handles both. A failing `setItem` (quota exceeded) is not modelled.
- Text.Trim: strings are sequences of Unicode scalar values, whereas JavaScript strings are UTF-16 code units. The whitespace set is the ECMAScript list with the current Unicode space separators written out. Later changes to Unicode's Zs category are not followed.
- TodoWidget.SyncedIdempotent: storage is a value, so the model cannot tell rewriting an equal value apart from not writing. While an entry is not a task, the source calls `saveTasks` on every sync (index.js:71-72), each time with the same text; the model records only that the stored value stays the same.
