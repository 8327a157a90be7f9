/** The to-do list widget: the rendered entries, the storage cell, the form's
    input field and the empty-list placeholder, and the handlers that change
    them. The rendered entries are the list's only model; storage is brought
    in line with them after every structural change. */
module TodoWidget {
  import opened Text
  import opened TaskStorage

  /** What syncStorageFromDom leaves in the storage cell: the cell as it was
      when loading it already gives the rendered list, otherwise the rendered
      list saved as it is. */
  function Synced(rendered: seq<string>, raw: Stored): Stored {
    if rendered == Load(raw) then raw else Save(rendered)
  }

  /** A second sync leaves the same value in storage as the first. */
  lemma SyncedIdempotent(rendered: seq<string>, raw: Stored)
    ensures Synced(rendered, Synced(rendered, raw)) == Synced(rendered, raw)
  {
  }

  /** A sync leaves the storage cell with the value it had exactly when
      loading it already gives the rendered list, or it already holds the
      rendered list as saved. */
  lemma SyncedUnchangedIff(rendered: seq<string>, raw: Stored)
    ensures Synced(rendered, raw) == raw <==> rendered == Load(raw) || raw == Save(rendered)
  {
  }

  /** When the rendered entries are all tasks, the next page load after a
      sync renders the same list. */
  lemma SyncedReloads(rendered: seq<string>, raw: Stored)
    requires rendered != []
    requires forall t :: t in rendered ==> IsTask(t)
    ensures Load(Synced(rendered, raw)) == rendered
  {
    SaveLoadRoundTrip(rendered);
  }

  /** Syncing an empty list always writes `[]`, which the next load turns
      back into the seed tasks. */
  lemma SyncedEmpty(raw: Stored)
    ensures Synced([], raw) == Save([])
    ensures Load(Synced([], raw)) == InitialTasks
  {
    LoadAreTasks(raw);
    LoadSavedEmpty();
  }

  /** An entry whose text is not a task (edited to untrimmed or empty text)
      is written to storage as it is, and loading does not give the rendered
      list back, so every later sync finds the two lists different again and
      saves once more. */
  lemma SyncedNonTask(rendered: seq<string>, raw: Stored, k: nat)
    requires k < |rendered| && !IsTask(rendered[k])
    ensures Synced(rendered, raw) == Save(rendered)
    ensures Load(Synced(rendered, raw)) != rendered
  {
    LoadAreTasks(raw);
    assert rendered[k] in rendered;
    SaveLoadNonTask(rendered, k);
  }

  /** The list with the entry at `i` removed: the entries before it stay
      where they are and the ones after it move up by one. */
  function RemoveAt(s: seq<string>, i: nat): (r: seq<string>)
    requires i < |s|
    ensures |r| == |s| - 1
    ensures forall k :: 0 <= k < i ==> r[k] == s[k]
    ensures forall k :: i <= k < |r| ==> r[k] == s[k + 1]
  {
    s[..i] + s[i + 1..]
  }

  /** Deleting the only entry leaves storage holding `[]`, and the next page
      load shows the seed tasks again. */
  lemma DeleteOnlyEntryResets(t: string, raw: Stored)
    ensures RemoveAt([t], 0) == []
    ensures Synced(RemoveAt([t], 0), raw) == Save([])
    ensures Load(Synced(RemoveAt([t], 0), raw)) == InitialTasks
  {
    SyncedEmpty(raw);
  }

  class TodoList {
    /** The text of every rendered entry, in document order. */
    var rendered: seq<string>
    /** The storage key's value. */
    var storage: Stored
    /** The form's text input. */
    var input: string
    /** Whether the "No tasks yet" placeholder is in the document. */
    var emptyShown: bool

    /** Storage is settled: a sync would leave the same value in it. */
    ghost predicate InSync()
      reads this
    {
      Synced(rendered, storage) == storage
    }

    /** The page before the initial render: no entries, an empty input,
        no placeholder, and whatever storage already holds. */
    constructor (raw: Stored)
      ensures rendered == [] && storage == raw && input == [] && !emptyShown
    {
      rendered := [];
      storage := raw;
      input := [];
      emptyShown := false;
    }

    /** getRenderedTasks: the text of every entry, in order. */
    method GetRenderedTasks() returns (tasks: seq<string>)
      ensures tasks == rendered
    {
      tasks := [];
      for i := 0 to |rendered|
        invariant tasks == rendered[..i]
      {
        tasks := tasks + [rendered[i]];
      }
    }

    /** saveTasks: the storage key now holds `tasks`. */
    method SaveTasks(tasks: seq<string>)
      modifies this`storage
      ensures storage == Save(tasks)
    {
      storage := Save(tasks);
    }

    /** syncStorageFromDom: writes the rendered list only when it differs
        from what loading storage gives; the entries themselves stay. */
    method SyncStorageFromDom()
      modifies this`storage
      ensures storage == Synced(rendered, old(storage))
      ensures InSync()
    {
      var domTasks := GetRenderedTasks();
      var savedTasks := LoadTasks(storage);
      if domTasks != savedTasks {
        SaveTasks(domTasks);
      }
      SyncedIdempotent(rendered, old(storage));
    }

    /** toggleEmptyState: the placeholder is shown exactly when there are no
        entries; it is inserted only if it is not already there. */
    method ToggleEmptyState()
      modifies this`emptyShown
      ensures emptyShown <==> rendered == []
    {
      var hasItems := rendered != [];
      if !hasItems {
        if !emptyShown {
          emptyShown := true;
        }
        return;
      }
      emptyShown := false;
    }

    /** renderInitialTasks: appends one entry per loaded task, in order. */
    method RenderInitialTasks()
      modifies this`rendered
      ensures rendered == old(rendered) + Load(storage)
    {
      var tasks := LoadTasks(storage);
      for i := 0 to |tasks|
        invariant rendered == old(rendered) + tasks[..i]
      {
        rendered := rendered + [tasks[i]];
      }
    }

    /** The delete control of entry `i`: removes the entry, then syncs. */
    method Delete(i: nat)
      requires i < |rendered|
      modifies this`rendered, this`storage
      ensures rendered == RemoveAt(old(rendered), i)
      ensures storage == Synced(rendered, old(storage)) && InSync()
    {
      rendered := RemoveAt(rendered, i);
      SyncStorageFromDom();
    }

    /** The duplicate control of entry `i`: a new entry with its current text
        goes to the front, then syncs. */
    method Duplicate(i: nat)
      requires i < |rendered|
      modifies this`rendered, this`storage
      ensures rendered == [old(rendered)[i]] + old(rendered)
      ensures storage == Synced(rendered, old(storage)) && InSync()
    {
      var copyText := rendered[i];
      rendered := [copyText] + rendered;
      SyncStorageFromDom();
    }

    /** The blur handler of an entry's text: syncs storage. */
    method Blur()
      modifies this`storage
      ensures storage == Synced(rendered, old(storage)) && InSync()
    {
      SyncStorageFromDom();
    }

    /** An in-place edit of entry `i` to `text`, committed by the blur
        handler: the text is kept as typed, untrimmed and possibly empty. */
    method CommitEdit(i: nat, text: string)
      requires i < |rendered|
      modifies this`rendered, this`storage
      ensures rendered == old(rendered)[i := text]
      ensures storage == Synced(rendered, old(storage)) && InSync()
    {
      rendered := rendered[i := text];
      Blur();
    }

    /** The keydown handler while entry `i` holds the edited `text`: Enter
        commits through the blur handler; other keys leave the state alone. */
    method KeyDown(i: nat, text: string, key: string)
      requires i < |rendered|
      modifies this`rendered, this`storage
      ensures key == "Enter" ==> rendered == old(rendered)[i := text] && storage == Synced(rendered, old(storage))
      ensures key != "Enter" ==> rendered == old(rendered) && storage == old(storage)
    {
      if key == "Enter" {
        CommitEdit(i, text);
      }
    }

    /** handleFormSubmit: a blank input changes nothing; otherwise its trim
        becomes the first entry, storage is synced and the input cleared. */
    method HandleFormSubmit()
      modifies this`rendered, this`storage, this`input
      ensures Trim(old(input)) == [] ==>
        rendered == old(rendered) && storage == old(storage) && input == old(input)
      ensures Trim(old(input)) != [] ==>
        && rendered == [Trim(old(input))] + old(rendered)
        && storage == Synced(rendered, old(storage)) && InSync()
        && input == []
    {
      var value := Trim(input);
      if value == [] {
        return;
      }
      rendered := [value] + rendered;
      SyncStorageFromDom();
      input := [];
    }
  }

  /** The page load: a fresh widget renders exactly what loading storage gives. */
  method PageLoad(raw: Stored) returns (w: TodoList)
    ensures fresh(w)
    ensures w.rendered == Load(raw) && w.storage == raw && w.input == [] && !w.emptyShown
  {
    w := new TodoList(raw);
    w.RenderInitialTasks();
  }

  /** toggleEmptyState twice leaves the same state as once. */
  method ToggleTwice(w: TodoList)
    modifies w
    ensures w.emptyShown <==> w.rendered == []
    ensures w.rendered == old(w.rendered) && w.storage == old(w.storage) && w.input == old(w.input)
  {
    w.ToggleEmptyState();
    ghost var once := w.emptyShown;
    w.ToggleEmptyState();
    assert w.emptyShown == once;
  }
}
