/** The persisted snapshot of the to-do list: normalising a parsed JSON value
    into tasks, loading with a fallback to the seed tasks, and saving. */
module TaskStorage {
  import opened Text

  /** A parsed JSON value, as far as normalisation looks at it: a string, an
      array, or anything else (number, boolean, null, object). */
  datatype Json = JString(text: string) | JArray(items: seq<Json>) | JOther

  /** What the storage key holds, as the loader sees it: nothing, the empty
      string, a non-empty text that is not JSON, or a text that parses to a
      JSON value. */
  datatype Stored = Absent | EmptyText | Unparseable | Parsed(value: Json)

  /** The six seed tasks shown when storage has nothing usable. */
  const InitialTasks: seq<string> := [
    "Review pending items",
    "Respond to messages",
    "Work on priority tasks",
    "Take a short break",
    "Do something active",
    "Watch something for fun"
  ]

  lemma InitialTasksAreTasks()
    ensures |InitialTasks| == 6
    ensures forall t :: t in InitialTasks ==> IsTask(t)
  {
  }

  /** What one array element contributes: its trim, if it is a string whose
      trim is non-empty, and nothing otherwise. */
  function Keep(item: Json): seq<string> {
    if item.JString? && Trim(item.text) != [] then [Trim(item.text)] else []
  }

  /** The tasks normalisation keeps from an array, built element by element
      from the front, as the loop pushes them. */
  function NormalizedItems(items: seq<Json>): seq<string> {
    if items == [] then [] else NormalizedItems(items[..|items| - 1]) + Keep(items[|items| - 1])
  }

  /** The tasks normalisation keeps from any parsed value: none unless it is an array. */
  function Normalized(value: Json): seq<string> {
    match value
    case JArray(items) => NormalizedItems(items)
    case _ => []
  }

  /** Normalisation distributes over concatenation: it treats each element on
      its own and keeps the order of the input. */
  lemma {:induction false} NormalizedAppend(a: seq<Json>, b: seq<Json>)
    ensures NormalizedItems(a + b) == NormalizedItems(a) + NormalizedItems(b)
    decreases |b|
  {
    if b == [] {
      assert a + b == a;
    } else {
      var b' := b[..|b| - 1];
      assert (a + b)[..|a + b| - 1] == a + b';
      assert (a + b)[|a + b| - 1] == b[|b| - 1];
      NormalizedAppend(a, b');
    }
  }

  /** Normalisation of the array read from the front: the first element's
      contribution, then the rest. */
  lemma {:induction false} NormalizedCons(x: Json, rest: seq<Json>)
    ensures NormalizedItems([x] + rest) == Keep(x) + NormalizedItems(rest)
  {
    NormalizedAppend([x], rest);
    assert [x][..0] == [];
  }

  /** Every normalised task is non-empty and trimmed, and there are never
      more of them than array elements. */
  lemma {:induction false} NormalizedAreTasks(items: seq<Json>)
    ensures |NormalizedItems(items)| <= |items|
    ensures forall t :: t in NormalizedItems(items) ==> IsTask(t)
    decreases |items|
  {
    if items != [] {
      NormalizedAreTasks(items[..|items| - 1]);
    }
  }

  /** An array element yields task `t`: it is a string whose trim is `t`,
      and `t` is not empty. */
  predicate Yields(item: Json, t: string) {
    item.JString? && t != [] && Trim(item.text) == t
  }

  /** A single element contributes exactly the task it yields. */
  lemma KeepYields(item: Json, t: string)
    ensures t in Keep(item) <==> Yields(item, t)
  {
  }

  /** Every element's task is kept: if element `j` yields `t`, then `t` is
      among the normalised tasks. */
  lemma {:induction false} NormalizedComplete(items: seq<Json>, j: nat, t: string)
    requires j < |items| && Yields(items[j], t)
    ensures t in NormalizedItems(items)
    decreases |items|
  {
    var last := |items| - 1;
    var init := items[..last];
    assert NormalizedItems(items) == NormalizedItems(init) + Keep(items[last]);
    if j == last {
      KeepYields(items[last], t);
    } else {
      assert init[j] == items[j];
      NormalizedComplete(init, j, t);
    }
  }

  /** Nothing else is kept: every normalised task is yielded by some element,
      whose index is returned. */
  lemma {:induction false} NormalizedSound(items: seq<Json>, t: string) returns (j: nat)
    requires t in NormalizedItems(items)
    ensures j < |items| && Yields(items[j], t)
    decreases |items|
  {
    var last := |items| - 1;
    var init := items[..last];
    assert NormalizedItems(items) == NormalizedItems(init) + Keep(items[last]);
    KeepYields(items[last], t);
    if t in Keep(items[last]) {
      j := last;
    } else {
      j := NormalizedSound(init, t);
      assert init[j] == items[j];
    }
  }

  /** JSON.parse(JSON.stringify(tasks)) for an array of strings. */
  function Encode(tasks: seq<string>): seq<Json> {
    seq(|tasks|, i requires 0 <= i < |tasks| => JString(tasks[i]))
  }

  /** saveTasks: what JSON.stringify(tasks) reads back as. */
  function Save(tasks: seq<string>): Stored {
    Parsed(JArray(Encode(tasks)))
  }

  /** Normalising what was saved from a list of tasks gives that list back. */
  lemma {:induction false} NormalizeEncode(tasks: seq<string>)
    requires forall t :: t in tasks ==> IsTask(t)
    ensures NormalizedItems(Encode(tasks)) == tasks
    decreases |tasks|
  {
    if tasks != [] {
      var init := tasks[..|tasks| - 1];
      var last := tasks[|tasks| - 1];
      assert Encode(tasks)[..|tasks| - 1] == Encode(init);
      assert last in tasks;
      TrimOfTrimmed(last);
      NormalizeEncode(init);
      assert init + [last] == tasks;
    }
  }

  /** loadTasks, as a value: the seed tasks when storage is absent or empty,
      when it does not parse, or when nothing survives normalisation;
      otherwise the normalised tasks. */
  function Load(raw: Stored): seq<string> {
    match raw
    case Absent => InitialTasks
    case EmptyText => InitialTasks
    case Unparseable => InitialTasks
    case Parsed(value) =>
      var tasks := Normalized(value);
      if |tasks| > 0 then tasks else InitialTasks
  }

  /** Loading never yields an empty list, and every loaded task is a task. */
  lemma LoadAreTasks(raw: Stored)
    ensures Load(raw) != []
    ensures forall t :: t in Load(raw) ==> IsTask(t)
  {
    InitialTasksAreTasks();
    if raw.Parsed? && raw.value.JArray? {
      NormalizedAreTasks(raw.value.items);
    }
  }

  /** The seed tasks come back exactly in the fallback cases, and the
      normalised tasks otherwise. */
  lemma LoadFallback(raw: Stored)
    ensures (|| raw.Absent? || raw.EmptyText? || raw.Unparseable?
             || (raw.Parsed? && Normalized(raw.value) == [])) ==> Load(raw) == InitialTasks
    ensures raw.Parsed? && Normalized(raw.value) != [] ==> Load(raw) == Normalized(raw.value)
  {
  }

  /** Saving the empty list, as deleting the last entry does, makes the next
      load fall back to the seed tasks. */
  lemma LoadSavedEmpty()
    ensures Load(Save([])) == InitialTasks
  {
    assert Encode([]) == [];
  }

  /** Round trip: a non-empty list of tasks that was saved loads back unchanged. */
  lemma SaveLoadRoundTrip(tasks: seq<string>)
    requires tasks != []
    requires forall t :: t in tasks ==> IsTask(t)
    ensures Load(Save(tasks)) == tasks
  {
    NormalizeEncode(tasks);
  }

  /** Only a list of tasks can load back unchanged: anything else stored, such
      as an edited entry with untrimmed or empty text, reloads differently. */
  lemma SaveLoadNonTask(tasks: seq<string>, k: nat)
    requires k < |tasks| && !IsTask(tasks[k])
    ensures Load(Save(tasks)) != tasks
  {
    LoadAreTasks(Save(tasks));
    assert tasks[k] in tasks;
  }

  /** normalizeTasks: keeps, in order, the trims of the string elements of an
      array whose trim is non-empty, and nothing from any other value. */
  method NormalizeTasks(value: Json) returns (tasks: seq<string>)
    ensures tasks == Normalized(value)
    ensures !value.JArray? ==> tasks == []
    ensures value.JArray? ==> |tasks| <= |value.items|
    ensures forall t :: t in tasks ==> IsTask(t)
  {
    if !value.JArray? {
      return [];
    }
    var items := value.items;
    tasks := [];
    for i := 0 to |items|
      invariant tasks == NormalizedItems(items[..i])
    {
      assert items[..i + 1][..i] == items[..i];
      var item := items[i];
      if !item.JString? {
        continue;
      }
      var trimmed := Trim(item.text);
      if trimmed == [] {
        continue;
      }
      tasks := tasks + [trimmed];
    }
    assert items[..|items|] == items;
    NormalizedAreTasks(items);
  }

  /** loadTasks: the fallback to the seed tasks for absent or empty storage
      and for a parse failure, then normalisation with the same fallback when
      it keeps nothing. */
  method LoadTasks(raw: Stored) returns (tasks: seq<string>)
    ensures tasks == Load(raw)
    ensures tasks != []
  {
    if raw.Absent? || raw.EmptyText? {
      return InitialTasks;
    }
    if raw.Unparseable? {
      // JSON.parse threw; the catch returns the seed tasks
      return InitialTasks;
    }
    var parsed := raw.value;
    var normalized := NormalizeTasks(parsed);
    tasks := if |normalized| > 0 then normalized else InitialTasks;
  }
}
