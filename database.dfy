/**
 * The repository: the one object that owns the task list and changes it.
 * Each method is proved against the operation function of the same name in
 * module Operations (or Models, Search), stated on the value of every task.
 */
module Repository {
  import opened Wrappers
  import opened Sequences
  import opened Models
  import opened Codec
  import opened NoteLists
  import opened Search
  import opened Operations

  class Database {
    /** The tasks in list order. */
    var tasks: seq<Task>

    /** No task object is listed twice. */
    ghost predicate Valid()
      reads this
    {
      forall i, j :: 0 <= i < j < |tasks| ==> tasks[i] != tasks[j]
    }

    /** The value of every task, in list order. */
    function Values(): (vs: seq<TaskData>)
      reads this, tasks
      ensures |vs| == |tasks| && forall i :: 0 <= i < |tasks| ==> vs[i] == tasks[i].Value()
    {
      seq(|tasks|, i reads this, tasks requires 0 <= i < |tasks| => tasks[i].Value())
    }

    /** When only the task at `k` changed, the values change at `k` alone. */
    twostate lemma OnlyTaskChanged(k: nat)
      requires old(Valid()) && tasks == old(tasks) && k < |tasks|
      requires forall j :: 0 <= j < |tasks| && j != k ==> tasks[j].Value() == old(tasks[j].Value())
      ensures Valid() && Values() == old(Values())[k := tasks[k].Value()]
    {
    }

    /**
     * Opens the repository on what is stored (`_load`). No document, for a
     * missing or unreadable file, gives no tasks; otherwise the stored tasks
     * are parsed, a task without `order` numbered by its position. A document
     * that does not parse makes the source raise, so it is excluded here.
     */
    constructor (doc: Option<Document>)
      requires doc.Some? ==> DecodeDocument(doc.value).Some?
      ensures Valid()
      ensures doc.None? ==> Values() == []
      ensures doc.Some? ==> Values() == DecodeDocument(doc.value).value
    {
      tasks := [];
      new;
      if doc.Some? {
        Load(DecodeDocument(doc.value).value);
      }
    }

    /** The loading loop: one task object per stored task, in stored order. */
    method Load(loaded: seq<TaskData>)
      requires tasks == []
      modifies this
      ensures Valid() && Values() == loaded
    {
      var i := 0;
      while i < |loaded|
        invariant i <= |loaded| && |tasks| == i && Valid()
        invariant forall j :: 0 <= j < i ==> tasks[j].Value() == loaded[j]
      {
        label Before:
        var t := new Task.FromData(loaded[i]);
        assert forall j :: 0 <= j < i ==> tasks[j].Value() == old@Before(tasks[j].Value());
        assert t !in tasks;
        tasks := tasks + [t];
        i := i + 1;
      }
    }

    /** The document `_save` writes at instant `now`; parsing it gives back the same tasks. */
    method Save(now: int) returns (doc: Document)
      ensures doc == EncodeDocument(Values(), now)
      ensures DecodeDocument(doc) == Some(Values())
    {
      doc := EncodeDocument(Values(), now);
      DocumentRoundTrip(Values(), now);
    }

    /** `get_task`: the first task with `id`, or null when there is none. */
    method GetTask(id: string) returns (t: Task?)
      ensures Values() == old(Values())
      ensures t == null <==> id !in TaskIds(Values())
      ensures t != null ==> t == tasks[TaskIndex(Values(), id)] && t.id == id
    {
      var i := 0;
      while i < |tasks|
        invariant i <= |tasks|
        invariant forall j :: 0 <= j < i ==> tasks[j].id != id
      {
        if tasks[i].id == id {
          assert TaskIds(Values())[i] == id;
          assert i == TaskIndex(Values(), id);
          return tasks[i];
        }
        i := i + 1;
      }
      assert forall j :: 0 <= j < |tasks| ==> TaskIds(Values())[j] != id;
      return null;
    }

    /** The place of the first subtask of `t` with `subtaskId`, or the number of subtasks, found by a scan. */
    method FindSubtask(t: Task, subtaskId: string) returns (j: nat)
      ensures Values() == old(Values())
      ensures j == SubtaskIndex(t.subtasks, subtaskId)
    {
      j := FindFirst(SubtaskIds(t.subtasks), subtaskId);
    }

    /** The place of the first note of `t` with `noteId`, or the number of notes, found by a scan. */
    method FindNote(t: Task, noteId: string) returns (j: nat)
      ensures Values() == old(Values())
      ensures j == NoteIndex(t.explorationNotes, noteId)
    {
      j := FindFirst(NoteIds(t.explorationNotes), noteId);
    }

    /** `create_task`: appends a new task numbered after the others and returns it. */
    method CreateTask(title: string, description: string, mode: TaskMode, knowledge: TaskKnowledge, priority: int,
                      newId: string, now: int) returns (t: Task)
      requires Valid() && newId !in TaskIds(Values())
      modifies this
      ensures Valid() && fresh(t) && tasks == old(tasks) + [t]
      ensures Values() == old(Values()) + [NewTask(old(Values()), newId, title, description, mode, knowledge, priority, now)]
    {
      var status := if mode == TaskMode.Exploring then TaskStatus.Exploring else Pending;
      t := new Task(newId, title, description, |tasks|, status, mode, knowledge, priority, now);
      tasks := tasks + [t];
    }

    /** `update_task`: patches the first task with `taskId` and stamps it; null when there is none. */
    method UpdateTask(taskId: string, p: TaskPatch, now: int) returns (t: Task?)
      requires Valid()
      modifies tasks
      ensures Valid()
      ensures t == null <==> taskId !in TaskIds(old(Values()))
      ensures var vs, k := old(Values()), TaskIndex(old(Values()), taskId);
              Values() == if k == |vs| then vs else vs[k := TaskUpdated(vs[k], p, now)]
    {
      t := GetTask(taskId);
      if t != null {
        ApplyTaskPatch(t, p, now);
      }
    }

    /** `delete_task`: removes the first task with `taskId`; the others keep their `order`. */
    method DeleteTask(taskId: string) returns (deleted: bool)
      requires Valid()
      modifies this
      ensures Valid()
      ensures deleted <==> taskId in TaskIds(old(Values()))
      ensures var vs, k := old(Values()), TaskIndex(old(Values()), taskId);
              Values() == if k == |vs| then vs else RemoveAt(vs, k)
    {
      var i := FindTask(taskId);
      if i == |tasks| {
        return false;
      }
      RemoveTaskAt(i);
      return true;
    }

    /** `self.tasks.pop(i)`: the task at `i` leaves the list; the others keep their values and order. */
    method RemoveTaskAt(i: nat)
      requires Valid() && i < |tasks|
      modifies this
      ensures Valid() && Values() == RemoveAt(old(Values()), i)
    {
      tasks := RemoveAt(tasks, i);
    }

    // -------------------------------------------------------------------------
    // Subtasks
    // -------------------------------------------------------------------------

    /**
     * `add_subtask`: appends a PENDING subtask to the first task with `taskId`;
     * a COMPLETED task goes back to IN_PROGRESS. None when there is no such task.
     */
    method AddSubtask(taskId: string, title: string, description: string, newId: string, now: int)
      returns (st: Option<SubTask>)
      requires Valid() && FreshId(Values(), newId)
      modifies tasks
      ensures Valid()
      ensures st.None? <==> taskId !in TaskIds(old(Values()))
      ensures var vs, k := old(Values()), TaskIndex(old(Values()), taskId);
              && (st.Some? ==> st.value == NewSubTask(newId, title, description, |vs[k].subtasks|, now))
              && Values() == if k == |vs| then vs else vs[k := SubtaskAdded(vs[k], st.value, now)]
    {
      ghost var before := Values();
      label Before:
      var t := GetTask(taskId);
      if t == null {
        return None;
      }
      ghost var k := TaskIndex(before, taskId);
      assert t.Value() == before[k];
      var s := AddSubtaskTo(t, title, description, newId, now);
      OnlyTaskChanged@Before(k);
      return Some(s);
    }

    /**
     * `update_subtask`: patches the first subtask with `subtaskId` of the first
     * task with `taskId`, stamps the task and heals its status. None, with
     * nothing changed, when either is missing.
     */
    method UpdateSubtask(taskId: string, subtaskId: string, p: SubTaskPatch, now: int) returns (st: Option<SubTask>)
      requires Valid()
      modifies tasks
      ensures Valid()
      ensures var vs, k := old(Values()), TaskIndex(old(Values()), taskId);
              && (st.None? <==> k == |vs| || subtaskId !in SubtaskIds(vs[k].subtasks))
              && (st.None? ==> Values() == vs)
              && (st.Some? ==>
                    var j := SubtaskIndex(vs[k].subtasks, subtaskId);
                    st.value == PatchSubTask(vs[k].subtasks[j], p) && Values() == vs[k := SubtaskUpdated(vs[k], j, p, now)])
    {
      ghost var before := Values();
      label Before:
      var t := GetTask(taskId);
      if t == null {
        return None;
      }
      var j := FindSubtask(t, subtaskId);
      if j == |t.subtasks| {
        return None;
      }
      ghost var k := TaskIndex(before, taskId);
      assert t.Value() == before[k];
      st := UpdateSubtaskOf(t, j, p, now);
      OnlyTaskChanged@Before(k);
    }

    /**
     * `delete_subtask`: removes the first subtask with `subtaskId` and
     * renumbers the remaining ones by position. False, with nothing changed,
     * when the task or the subtask is missing.
     */
    method DeleteSubtask(taskId: string, subtaskId: string, now: int) returns (deleted: bool)
      requires Valid()
      modifies tasks
      ensures Valid()
      ensures var vs, k := old(Values()), TaskIndex(old(Values()), taskId);
              && (deleted <==> k < |vs| && subtaskId in SubtaskIds(vs[k].subtasks))
              && (!deleted ==> Values() == vs)
              && (deleted ==> Values() == vs[k := SubtaskDeleted(vs[k], SubtaskIndex(vs[k].subtasks, subtaskId), now)])
    {
      ghost var before := Values();
      label Before:
      var t := GetTask(taskId);
      if t == null {
        return false;
      }
      var j := FindSubtask(t, subtaskId);
      if j == |t.subtasks| {
        return false;
      }
      ghost var k := TaskIndex(before, taskId);
      assert t.Value() == before[k];
      DeleteSubtaskOf(t, j, now);
      OnlyTaskChanged@Before(k);
      return true;
    }

    /**
     * `move_subtask`: in display order (stable sort by `order`), swaps the
     * subtask with its neighbour `direction` away and renumbers all subtasks by
     * their display position; the subtask list itself keeps its sequence.
     * False, with nothing changed, when the task or subtask is missing or the
     * neighbour does not exist.
     */
    method MoveSubtask(taskId: string, subtaskId: string, direction: int, now: int) returns (moved: bool)
      requires Valid()
      modifies tasks
      ensures Valid()
      ensures var vs, k := old(Values()), TaskIndex(old(Values()), taskId);
              && (moved <==> k < |vs| && SubtaskMove(vs[k].subtasks, subtaskId, direction).Some?)
              && (!moved ==> Values() == vs)
              && (moved ==>
                    var q := SubtaskMove(vs[k].subtasks, subtaskId, direction).value;
                    Values() == vs[k := vs[k].(subtasks := Reordered(vs[k].subtasks, q), updatedAt := now)])
    {
      ghost var before := Values();
      label Before:
      var t := GetTask(taskId);
      if t == null {
        return false;
      }
      ghost var k := TaskIndex(before, taskId);
      assert t.Value() == before[k];
      moved := MoveSubtaskOf(t, subtaskId, direction, now);
      OnlyTaskChanged@Before(k);
    }

    /**
     * `move_task`: swaps the first task with `taskId` with its neighbour
     * `direction` away and renumbers every task by position. False, with
     * nothing changed, when the task is missing or the neighbour does not exist.
     */
    method MoveTask(taskId: string, direction: int) returns (moved: bool)
      requires Valid()
      modifies this, tasks
      ensures Valid()
      ensures var vs, c := old(Values()), TaskIndex(old(Values()), taskId);
              && (moved <==> c < |vs| && Neighbour(c, direction, |vs|).Some?)
              && (!moved ==> Values() == vs)
              && (moved ==> Values() == TasksRenumbered(Swap(vs, c, c + direction)))
    {
      ghost var before := Values();
      var c := FindTask(taskId);
      if c == |tasks| {
        return false;
      }
      var n := c + direction;
      if !(0 <= n < |tasks|) {
        return false;
      }
      SwapTasks(c, n);
      ghost var swapped := Values();
      assert swapped == Swap(before, c, n);
      RenumberTasks();
      assert Values() == TasksRenumbered(swapped);
      return true;
    }

    /** The scan of `move_task` for the position of the first task with `taskId`. */
    method FindTask(taskId: string) returns (c: nat)
      ensures c == TaskIndex(Values(), taskId)
    {
      c := 0;
      while c < |tasks| && tasks[c].id != taskId
        invariant c <= |tasks|
        invariant forall j :: 0 <= j < c ==> tasks[j].id != taskId
      {
        c := c + 1;
      }
      if c == |tasks| {
        assert forall j :: 0 <= j < |tasks| ==> TaskIds(Values())[j] != taskId;
      } else {
        assert TaskIds(Values())[c] == taskId;
      }
    }

    /** Trades the places of the tasks at `c` and `n` in the list. */
    method SwapTasks(c: nat, n: nat)
      requires Valid() && c < |tasks| && n < |tasks|
      modifies this
      ensures Valid() && tasks == Swap(old(tasks), c, n)
      ensures Values() == Swap(old(Values()), c, n)
    {
      tasks := Swap(tasks, c, n);
    }

    /** The renumbering loop of `move_task`: every task's `order` becomes its position. */
    method RenumberTasks()
      requires Valid()
      modifies tasks
      ensures Valid() && tasks == old(tasks)
      ensures Values() == TasksRenumbered(old(Values()))
    {
      var i := 0;
      while i < |tasks|
        invariant i <= |tasks| && Valid()
        invariant forall m :: 0 <= m < i ==> tasks[m].Value() == old(tasks[m].Value()).(order := m)
        invariant forall m :: i <= m < |tasks| ==> tasks[m].Value() == old(tasks[m].Value())
      {
        tasks[i].order := i;
        i := i + 1;
      }
    }

    /** `complete_subtask`: completes the subtask in the first task with `taskId`; false when either is missing. */
    method CompleteSubtask(taskId: string, subtaskId: string, now: int) returns (done: bool)
      requires Valid()
      modifies tasks
      ensures Valid()
      ensures var vs, k := old(Values()), TaskIndex(old(Values()), taskId);
              && (done <==> k < |vs| && subtaskId in SubtaskIds(vs[k].subtasks))
              && Values() == if k == |vs| then vs else vs[k := SubtaskCompleted(vs[k], subtaskId, now)]
    {
      var t := GetTask(taskId);
      if t == null {
        return false;
      }
      done := t.CompleteSubtask(subtaskId, now);
    }

    // -------------------------------------------------------------------------
    // Notes of one task
    // -------------------------------------------------------------------------

    /** `add_exploration_note`: appends a note to the first task with `taskId`; None when there is none. */
    method AddExplorationNote(taskId: string, content: string, insight: string, isBreakthrough: bool,
                              newId: string, now: int) returns (note: Option<ExplorationNote>)
      requires Valid() && FreshId(Values(), newId)
      modifies tasks
      ensures Valid()
      ensures note.None? <==> taskId !in TaskIds(old(Values()))
      ensures var vs, k := old(Values()), TaskIndex(old(Values()), taskId);
              && (note.Some? ==> note.value == NewNote(newId, content, insight, isBreakthrough, now))
              && Values() == if k == |vs| then vs
                             else vs[k := vs[k].(explorationNotes := vs[k].explorationNotes + [note.value], updatedAt := now)]
    {
      ghost var before := Values();
      label Before:
      var t := GetTask(taskId);
      if t == null {
        return None;
      }
      ghost var k := TaskIndex(before, taskId);
      assert t.Value() == before[k];
      var n := t.AddExplorationNote(content, insight, isBreakthrough, newId, now);
      OnlyTaskChanged@Before(k);
      return Some(n);
    }

    /** `delete_exploration_note`: removes the first note with `noteId`; false when the task or note is missing. */
    method DeleteExplorationNote(taskId: string, noteId: string, now: int) returns (deleted: bool)
      requires Valid()
      modifies tasks
      ensures Valid()
      ensures var vs, k := old(Values()), TaskIndex(old(Values()), taskId);
              && (deleted <==> k < |vs| && noteId in NoteIds(vs[k].explorationNotes))
              && (!deleted ==> Values() == vs)
              && (deleted ==> Values() == vs[k := NoteDeleted(vs[k], NoteIndex(vs[k].explorationNotes, noteId), now)])
    {
      ghost var before := Values();
      label Before:
      var t := GetTask(taskId);
      if t == null {
        return false;
      }
      var j := FindNote(t, noteId);
      if j == |t.explorationNotes| {
        return false;
      }
      ghost var k := TaskIndex(before, taskId);
      assert t.Value() == before[k];
      t.explorationNotes := RemoveAt(t.explorationNotes, j);
      t.updatedAt := now;
      OnlyTaskChanged@Before(k);
      return true;
    }

    /**
     * `update_exploration_note`: patches the first note with `noteId` and
     * stamps the note and the task; None, with nothing changed, when the task
     * or note is missing.
     */
    method UpdateExplorationNote(taskId: string, noteId: string, p: NotePatch, now: int)
      returns (note: Option<ExplorationNote>)
      requires Valid()
      modifies tasks
      ensures Valid()
      ensures var vs, k := old(Values()), TaskIndex(old(Values()), taskId);
              && (note.None? <==> k == |vs| || noteId !in NoteIds(vs[k].explorationNotes))
              && (note.None? ==> Values() == vs)
              && (note.Some? ==>
                    var j := NoteIndex(vs[k].explorationNotes, noteId);
                    note.value == PatchNote(vs[k].explorationNotes[j], p, now)
                    && Values() == vs[k := NoteUpdated(vs[k], j, p, now)])
    {
      ghost var before := Values();
      label Before:
      var t := GetTask(taskId);
      if t == null {
        return None;
      }
      var j := FindNote(t, noteId);
      if j == |t.explorationNotes| {
        return None;
      }
      ghost var k := TaskIndex(before, taskId);
      assert t.Value() == before[k];
      var patched := PatchNote(t.explorationNotes[j], p, now);
      t.explorationNotes := t.explorationNotes[j := patched];
      t.updatedAt := now;
      OnlyTaskChanged@Before(k);
      return Some(patched);
    }

    /**
     * `move_exploration_note_order`: swaps the first note with `noteId` with
     * its neighbour `direction` away in the task's list. False, with nothing
     * changed, when the task or note is missing or the neighbour does not exist.
     */
    method MoveExplorationNoteOrder(taskId: string, noteId: string, direction: int, now: int) returns (moved: bool)
      requires Valid()
      modifies tasks
      ensures Valid()
      ensures var vs, k := old(Values()), TaskIndex(old(Values()), taskId);
              && (moved <==> k < |vs| && noteId in NoteIds(vs[k].explorationNotes)
                             && Neighbour(NoteIndex(vs[k].explorationNotes, noteId), direction, |vs[k].explorationNotes|).Some?)
              && (!moved ==> Values() == vs)
              && (moved ==> var c := NoteIndex(vs[k].explorationNotes, noteId);
                            Values() == vs[k := NotesSwapped(vs[k], c, c + direction, now)])
    {
      label Before:
      ghost var before := Values();
      var t := GetTask(taskId);
      if t == null {
        return false;
      }
      var c := FindNote(t, noteId);
      if c == |t.explorationNotes| {
        return false;
      }
      var n := c + direction;
      if !(0 <= n < |t.explorationNotes|) {
        return false;
      }
      ghost var k := TaskIndex(before, taskId);
      assert t == tasks[k] && before[k] == t.Value();
      assert c == NoteIndex(before[k].explorationNotes, noteId);
      t.explorationNotes := Swap(t.explorationNotes, c, n);
      t.updatedAt := now;
      OnlyTaskChanged@Before(k);
      return true;
    }

    // -------------------------------------------------------------------------
    // Mode and conclusion
    // -------------------------------------------------------------------------

    /** `switch_task_mode`: switches the first task with `taskId` to exploring or to planning; null when there is none. */
    method SwitchTaskMode(taskId: string, toExploring: bool, now: int) returns (t: Task?)
      requires Valid()
      modifies tasks
      ensures Valid()
      ensures t == null <==> taskId !in TaskIds(old(Values()))
      ensures var vs, k := old(Values()), TaskIndex(old(Values()), taskId);
              Values() == if k == |vs| then vs
                          else if toExploring then
                            vs[k := vs[k].(mode := TaskMode.Exploring, status := TaskStatus.Exploring,
                                           knowledge := KnownWhatUnknownHow, updatedAt := now)]
                          else
                            vs[k := vs[k].(mode := Planning, status := InProgress,
                                           knowledge := KnownWhatKnownHow, updatedAt := now)]
    {
      ghost var before := Values();
      label Before:
      t := GetTask(taskId);
      if t != null {
        ghost var k := TaskIndex(before, taskId);
        assert t.Value() == before[k];
        if toExploring {
          t.SwitchToExploring(now);
        } else {
          t.SwitchToPlanning(now);
        }
        OnlyTaskChanged@Before(k);
      }
    }

    /** `set_task_conclusion`: records the conclusion of the first task with `taskId`; null when there is none. */
    method SetTaskConclusion(taskId: string, conclusion: string, now: int) returns (t: Task?)
      requires Valid()
      modifies tasks
      ensures Valid()
      ensures t == null <==> taskId !in TaskIds(old(Values()))
      ensures var vs, k := old(Values()), TaskIndex(old(Values()), taskId);
              Values() == if k == |vs| then vs else vs[k := vs[k].(conclusion := conclusion, updatedAt := now)]
    {
      ghost var before := Values();
      label Before:
      t := GetTask(taskId);
      if t != null {
        ghost var k := TaskIndex(before, taskId);
        assert t.Value() == before[k];
        t.conclusion := conclusion;
        t.updatedAt := now;
        OnlyTaskChanged@Before(k);
      }
    }

    /** `clear_task_conclusion`: empties the conclusion of the first task with `taskId`; null when there is none. */
    method ClearTaskConclusion(taskId: string, now: int) returns (t: Task?)
      requires Valid()
      modifies tasks
      ensures Valid()
      ensures t == null <==> taskId !in TaskIds(old(Values()))
      ensures var vs, k := old(Values()), TaskIndex(old(Values()), taskId);
              Values() == if k == |vs| then vs else vs[k := vs[k].(conclusion := "", updatedAt := now)]
    {
      ghost var before := Values();
      label Before:
      t := GetTask(taskId);
      if t != null {
        ghost var k := TaskIndex(before, taskId);
        assert t.Value() == before[k];
        t.conclusion := "";
        t.updatedAt := now;
        OnlyTaskChanged@Before(k);
      }
    }

    // -------------------------------------------------------------------------
    // Search
    // -------------------------------------------------------------------------

    /** `search_tasks`: the tasks whose title, description or a tag contains the keyword, ignoring case, in list order. */
    method SearchTasks(keyword: string) returns (r: seq<Task>)
      ensures var ps := MatchingPositions(Values(), keyword);
              |r| == |ps| && forall m :: 0 <= m < |ps| ==> r[m] == tasks[ps[m]]
    {
      ghost var ps: seq<nat> := [];
      r := [];
      var i := 0;
      while i < |tasks|
        invariant i <= |tasks| && ps == MatchingPositions(Values()[..i], keyword)
        invariant |r| == |ps| && forall m :: 0 <= m < |ps| ==> r[m] == tasks[ps[m]]
      {
        MatchingPositionsStep(Values(), i, keyword);
        if TaskMatches(tasks[i].Value(), keyword) {
          r, ps := r + [tasks[i]], ps + [i];
        }
        i := i + 1;
      }
      assert Values()[..i] == Values();
    }

    /** `search_exploration_notes_global`: every matching note of every task, task by task. */
    method SearchExplorationNotesGlobal(keyword: string) returns (r: seq<ExplorationNoteSearchResult>)
      ensures r == GlobalNoteSearch(Values(), keyword)
    {
      var needle := NormalizedKeyword(keyword);
      if needle == [] {
        return [];
      }
      r := AllHits(needle);
    }

    /** The scan over every task of `search_exploration_notes_global`. */
    method AllHits(needle: string) returns (r: seq<ExplorationNoteSearchResult>)
      ensures r == HitsAcross(Values(), |tasks|, needle)
    {
      r := [];
      var i := 0;
      while i < |tasks|
        invariant i <= |tasks|
        invariant r == HitsAcross(Values(), i, needle)
      {
        var hits := HitsOf(tasks[i], needle);
        r := r + hits;
        i := i + 1;
      }
    }

    /** The matching notes of one task, found by the scan of `NoteHitsOf`; nothing changes. */
    method HitsOf(t: Task, needle: string) returns (r: seq<ExplorationNoteSearchResult>)
      ensures Values() == old(Values())
      ensures r == HitsIn(t.Value(), needle)
    {
      r := NoteHitsOf(t, needle);
    }

    /** `search_exploration_notes_in_task`: the matching notes of the first task with `taskId`. */
    method SearchExplorationNotesInTask(taskId: string, keyword: string) returns (r: seq<ExplorationNoteSearchResult>)
      ensures r == TaskNoteSearch(Values(), taskId, keyword)
    {
      var t := GetTask(taskId);
      if t == null {
        return [];
      }
      var needle := NormalizedKeyword(keyword);
      if needle == [] {
        return [];
      }
      r := HitsOf(t, needle);
    }

    // -------------------------------------------------------------------------
    // Notes across tasks
    // -------------------------------------------------------------------------

    /** The in-place note transfer from the task at `src` to the task at `dst` (the same task when `src == dst`). */
    method Transfer(source: Task, target: Task, moved: seq<ExplorationNote>, remaining: seq<ExplorationNote>,
                    ghost src: nat, ghost dst: nat, now: int)
      requires Valid() && src < |tasks| && dst < |tasks| && source == tasks[src] && target == tasks[dst]
      modifies tasks
      ensures Valid()
      ensures Values() == NotesTransferred(old(Values()), src, dst, moved, remaining, now)
    {
      label Before:
      KeepNotes(source, remaining, now);
      OnlyTaskChanged@Before(src);
      label Kept:
      AppendNotes(target, moved, now);
      OnlyTaskChanged@Kept(dst);
      TransferredInPlace(old(Values()), src, dst, moved, remaining, now);
    }

    /**
     * `move_exploration_note`: takes the first note with `noteId` out of the
     * source task and appends it to the target task, stamping both. False,
     * with nothing changed, when either task or the note is missing.
     */
    method MoveExplorationNote(sourceId: string, targetId: string, noteId: string, now: int) returns (moved: bool)
      requires Valid()
      modifies tasks
      ensures Valid()
      ensures var vs, si, ti := old(Values()), TaskIndex(old(Values()), sourceId), TaskIndex(old(Values()), targetId);
              && (moved <==> si < |vs| && ti < |vs| && noteId in NoteIds(vs[si].explorationNotes))
              && (!moved ==> Values() == vs)
              && (moved ==> Values() == NoteMoved(vs, si, ti, NoteIndex(vs[si].explorationNotes, noteId), now))
    {
      ghost var before := Values();
      var source := GetTask(sourceId);
      var target := GetTask(targetId);
      if source == null || target == null {
        return false;
      }
      var j := FindNote(source, noteId);
      if j == |source.explorationNotes| {
        return false;
      }
      ghost var src, dst := TaskIndex(before, sourceId), TaskIndex(before, targetId);
      assert source == tasks[src] && before[src] == source.Value();
      assert j == NoteIndex(before[src].explorationNotes, noteId);
      var note, remaining := source.explorationNotes[j], RemoveAt(source.explorationNotes, j);
      assert NoteMoved(before, src, dst, j, now) == NotesTransferred(before, src, dst, [note], remaining, now);
      Transfer(source, target, [note], remaining, src, dst, now);
      return true;
    }

    /**
     * `batch_delete_exploration_notes`: drops the notes of the first task with
     * `taskId` whose id is listed. False when the task is missing, the list is
     * empty or nothing was dropped; the task is then unchanged.
     */
    method BatchDeleteExplorationNotes(taskId: string, noteIds: seq<string>, now: int) returns (deleted: bool)
      requires Valid()
      modifies tasks
      ensures Valid()
      ensures var vs, k := old(Values()), TaskIndex(old(Values()), taskId);
              && (deleted <==> k < |vs| && noteIds != [] && Selected(vs[k].explorationNotes, noteIds) != [])
              && (!deleted ==> Values() == vs)
              && (deleted ==> Values() == vs[k := NotesBatchDeleted(vs[k], noteIds, now)])
    {
      ghost var before := Values();
      label Before:
      var t := GetTask(taskId);
      if t == null || noteIds == [] {
        return false;
      }
      ghost var k := TaskIndex(before, taskId);
      assert t.Value() == before[k];
      ghost var notes := t.explorationNotes;
      SelectionPartitions(notes, noteIds);
      var count := |t.explorationNotes|;
      t.explorationNotes := Unselected(t.explorationNotes, noteIds);
      if |t.explorationNotes| == count {
        NothingSelectedKeepsAll(notes, noteIds);
        OnlyTaskChanged@Before(k);
        return false;
      }
      t.updatedAt := now;
      OnlyTaskChanged@Before(k);
      return true;
    }

    /**
     * `batch_move_exploration_notes`: moves the listed notes of the source
     * task, in their order, to the end of the target task. False, with nothing
     * changed, when either task is missing, the list is empty or no note is listed.
     */
    method BatchMoveExplorationNotes(sourceId: string, targetId: string, noteIds: seq<string>, now: int)
      returns (moved: bool)
      requires Valid()
      modifies tasks
      ensures Valid()
      ensures var vs, si, ti := old(Values()), TaskIndex(old(Values()), sourceId), TaskIndex(old(Values()), targetId);
              && (moved <==> si < |vs| && ti < |vs| && noteIds != [] && Selected(vs[si].explorationNotes, noteIds) != [])
              && (!moved ==> Values() == vs)
              && (moved ==> Values() == NotesBatchMoved(vs, si, ti, noteIds, now))
    {
      ghost var before := Values();
      var source := GetTask(sourceId);
      var target := GetTask(targetId);
      if source == null || target == null || noteIds == [] {
        return false;
      }
      var moving := Selected(source.explorationNotes, noteIds);
      if moving == [] {
        return false;
      }
      ghost var src, dst := TaskIndex(before, sourceId), TaskIndex(before, targetId);
      assert source == tasks[src] && before[src] == source.Value();
      Transfer(source, target, moving, Unselected(source.explorationNotes, noteIds), src, dst, now);
      return true;
    }

    /**
     * `copy_exploration_note`: appends to the target task a new note with the
     * content, insight and flag of the source's first note with `noteId`, and
     * returns it. None, with nothing changed, when either task or the note is missing.
     */
    method CopyExplorationNote(sourceId: string, targetId: string, noteId: string, newId: string, now: int)
      returns (copy: Option<ExplorationNote>)
      requires Valid() && FreshId(Values(), newId)
      modifies tasks
      ensures Valid()
      ensures var vs, si, ti := old(Values()), TaskIndex(old(Values()), sourceId), TaskIndex(old(Values()), targetId);
              && (copy.Some? <==> si < |vs| && ti < |vs| && noteId in NoteIds(vs[si].explorationNotes))
              && (copy.None? ==> Values() == vs)
              && (copy.Some? ==>
                    var n := vs[si].explorationNotes[NoteIndex(vs[si].explorationNotes, noteId)];
                    copy.value == NewNote(newId, n.content, n.insight, n.isBreakthrough, now)
                    && Values() == NoteCopied(vs, ti, n, newId, now))
    {
      var source := GetTask(sourceId);
      var target := GetTask(targetId);
      if source == null || target == null {
        return None;
      }
      var j := FindNote(source, noteId);
      if j == |source.explorationNotes| {
        return None;
      }
      ghost var before := Values();
      ghost var si, ti := TaskIndex(before, sourceId), TaskIndex(before, targetId);
      assert before[si].explorationNotes[j] == source.explorationNotes[j];
      var n := source.explorationNotes[j];
      var note := NewNote(newId, n.content, n.insight, n.isBreakthrough, now);
      label Appending:
      AppendNotes(target, [note], now);
      OnlyTaskChanged@Appending(ti);
      assert Values() == NoteCopied(before, ti, n, newId, now);
      return Some(note);
    }

    /**
     * `merge_tasks_exploration_notes`: gathers the notes of the source tasks,
     * sorts them by creation time and appends to the target those whose id it
     * does not hold yet. With a title the target is a new exploring task whose
     * id is reported; otherwise it is the existing task `targetId`. Fails,
     * changing nothing, for no sources, an unknown source or an unknown target.
     * The append uses the corrected de-duplication of MergedNotes: a note
     * whose id was appended earlier in the same merge is skipped as well,
     * whereas the skip set at database.py:590 is taken once, before the loop.
     */
    method MergeTasksExplorationNotes(sourceIds: seq<string>, targetId: string, newTitle: string, newId: string,
                                      now: int) returns (outcome: MergeOutcome)
      requires Valid() && (newTitle != "" ==> newId !in TaskIds(Values()))
      modifies this, tasks
      ensures Valid()
      ensures (outcome, Values()) == Merge(old(Values()), sourceIds, targetId, newTitle, newId, now)
    {
      ghost var before := Values();
      if sourceIds == [] {
        return MergeFailed;
      }
      var found, sourceTasks := GetSources(sourceIds);
      if !found {
        return MergeFailed;
      }
      ghost var sources := SourceIndices(before, sourceIds);
      if newTitle != "" {
        var id := MergeIntoNewTask(sourceTasks, sources, newTitle, newId, now);
        outcome := MergedIntoNew(id);
      } else {
        var target := GetTask(targetId);
        if target == null {
          return MergeFailed;
        }
        MergeIntoTask(target, sourceTasks, sources, TaskIndex(before, targetId), now);
        outcome := MergedIntoExisting;
      }
    }

    /** A merge with a title: creates the exploring target task, merges into it and reports its id. */
    method MergeIntoNewTask(sourceTasks: seq<Task?>, ghost sources: seq<nat>, newTitle: string, newId: string,
                            now: int) returns (id: string)
      requires Valid() && newId !in TaskIds(Values()) && |sourceTasks| == |sources|
      requires forall j :: 0 <= j < |sources| ==> sources[j] < |tasks| && sourceTasks[j] == tasks[sources[j]]
      modifies this
      ensures Valid() && id == newId
      ensures var vs := old(Values());
              Values() == MergeInto(vs + [NewTask(vs, newId, newTitle, "", TaskMode.Exploring, KnownWhatUnknownHow, 0, now)],
                                    sources, |vs|, now)
    {
      var target := CreateTask(newTitle, "", TaskMode.Exploring, KnownWhatUnknownHow, 0, newId, now);
      MergeIntoTask(target, sourceTasks, sources, |tasks| - 1, now);
      id := target.id;
    }

    /** The rest of a merge once the target `tasks[ti]` is known: gather, sort, append, stamp. */
    method MergeIntoTask(target: Task, sourceTasks: seq<Task?>, ghost sources: seq<nat>, ghost ti: nat, now: int)
      requires Valid() && ti < |tasks| && target == tasks[ti] && |sourceTasks| == |sources|
      requires forall j :: 0 <= j < |sources| ==> sources[j] < |tasks| && sourceTasks[j] == tasks[sources[j]]
      modifies target
      ensures Valid() && target.id == old(target.id)
      ensures Values() == MergeInto(old(Values()), sources, ti, now)
    {
      var all := GatherNotes(sourceTasks, sources);
      all := SortedByCreation(all);
      MergeNotesInto(target, all, now);
      OnlyTaskChanged(ti);
    }

    /** `[self.get_task(i) for i in ids]` and `all(...)`: the named tasks, and whether every one exists. */
    method GetSources(ids: seq<string>) returns (found: bool, ts: seq<Task?>)
      ensures |ts| == |ids|
      ensures found <==> AllKnown(Values(), ids)
      ensures found ==> forall j :: 0 <= j < |ids| ==> ts[j] == tasks[TaskIndex(Values(), ids[j])]
    {
      ts := LookUpAll(ids);
      found := AllPresent(ts);
    }

    /** `[self.get_task(i) for i in ids]`: for each id its first task, or null. */
    method LookUpAll(ids: seq<string>) returns (ts: seq<Task?>)
      ensures |ts| == |ids|
      ensures forall m :: 0 <= m < |ids| ==> LookedUp(Values(), tasks, ids[m], ts[m])
    {
      ghost var vs := Values();
      ts := [];
      var j := 0;
      while j < |ids|
        invariant j <= |ids| && |ts| == j
        invariant forall m :: 0 <= m < j ==> LookedUp(vs, tasks, ids[m], ts[m])
      {
        var t := GetTask(ids[j]);
        ts := ts + [t];
        j := j + 1;
      }
    }

    /** `all_notes.extend(task.exploration_notes)` for each source task in turn. */
    method GatherNotes(sourceTasks: seq<Task?>, ghost sources: seq<nat>) returns (all: seq<ExplorationNote>)
      requires |sourceTasks| == |sources|
      requires forall j :: 0 <= j < |sources| ==> sources[j] < |tasks| && sourceTasks[j] == tasks[sources[j]]
      ensures all == Gathered(Values(), sources)
    {
      all := [];
      var j := 0;
      while j < |sourceTasks|
        invariant j <= |sourceTasks|
        invariant all == Gathered(Values(), sources[..j])
      {
        GatheredStep(Values(), sources, j);
        all := all + sourceTasks[j].explorationNotes;
        j := j + 1;
      }
      assert sources[..j] == sources;
    }
  }

  /** Sets each field the patch names (the others keep their value), then the modification time. */
  method ApplyTaskPatch(t: Task, p: TaskPatch, now: int)
    modifies t
    ensures t.Value() == TaskUpdated(old(t.Value()), p, now)
  {
    t.title := p.title.GetOr(t.title);
    t.description := p.description.GetOr(t.description);
    t.order := p.order.GetOr(t.order);
    t.status := p.status.GetOr(t.status);
    t.mode := p.mode.GetOr(t.mode);
    t.knowledge := p.knowledge.GetOr(t.knowledge);
    t.completedAt := p.completedAt.GetOr(t.completedAt);
    t.priority := p.priority.GetOr(t.priority);
    t.tags := p.tags.GetOr(t.tags);
    t.conclusion := p.conclusion.GetOr(t.conclusion);
    t.updatedAt := now;
  }

  /** The in-place part of `update_subtask`: patch the subtask at `j`, stamp the task, heal its status. */
  method UpdateSubtaskOf(t: Task, j: nat, p: SubTaskPatch, now: int) returns (st: Option<SubTask>)
    requires j < |t.subtasks|
    modifies t
    ensures st == Some(PatchSubTask(old(t.subtasks[j]), p))
    ensures t.Value() == SubtaskUpdated(old(t.Value()), j, p, now)
  {
    var patched := PatchSubTask(t.subtasks[j], p);
    t.subtasks := t.subtasks[j := patched];
    t.updatedAt := now;
    if t.status == Completed && !AllCompleted(t.subtasks) {
      t.status := InProgress;
      t.completedAt := None;
    }
    return Some(patched);
  }

  /** The in-place part of `delete_subtask`: remove the subtask at `j`, renumber the rest, stamp the task. */
  method DeleteSubtaskOf(t: Task, j: nat, now: int)
    requires j < |t.subtasks|
    modifies t
    ensures t.Value() == SubtaskDeleted(old(t.Value()), j, now)
  {
    var rest := RemoveAt(t.subtasks, j);
    ghost var removed := rest;
    var i := 0;
    while i < |rest|
      invariant i <= |rest| == |removed|
      invariant forall m :: 0 <= m < i ==> rest[m] == removed[m].(order := m)
      invariant forall m :: i <= m < |rest| ==> rest[m] == removed[m]
    {
      rest := rest[i := rest[i].(order := i)];
      i := i + 1;
    }
    t.subtasks := rest;
    t.updatedAt := now;
  }

  /**
   * The in-place part of `move_subtask`: sort a copy by `order`, find the
   * subtask, swap it with its neighbour and give every subtask its new
   * display position as `order`.
   */
  method MoveSubtaskOf(t: Task, subtaskId: string, direction: int, now: int) returns (moved: bool)
    modifies t
    ensures moved <==> SubtaskMove(old(t.subtasks), subtaskId, direction).Some?
    ensures !moved ==> t.Value() == old(t.Value())
    ensures moved ==> t.Value() == old(t.Value()).(subtasks := Reordered(old(t.subtasks),
                                     SubtaskMove(old(t.subtasks), subtaskId, direction).value), updatedAt := now)
  {
    var q := ArrangementAfterMove(t.subtasks, subtaskId, direction);
    if q.None? {
      return false;
    }
    SubtaskMoveArrangement(t.subtasks, subtaskId, direction);
    var subtasks := Renumber(t.subtasks, q.value);
    t.subtasks := subtasks;
    t.updatedAt := now;
    return true;
  }

  /**
   * The first half of `move_subtask`: sort by `order`, scan for the id and
   * swap it with its neighbour, or None where the method returns False.
   */
  method ArrangementAfterMove(subtasks: seq<SubTask>, subtaskId: string, direction: int)
    returns (q: Option<seq<nat>>)
    ensures q == SubtaskMove(subtasks, subtaskId, direction)
  {
    var ordered := DisplayOrder(subtasks);
    var ids := IdsInOrder(subtasks, ordered);
    var c := FindFirst(ids, subtaskId);
    if c == |ordered| || !(0 <= c + direction < |ordered|) {
      q := None;
    } else {
      q := Some(Swap(ordered, c, c + direction));
    }
    assert q == SwapFound(ordered, ids, subtaskId, direction);
  }

  /** The task-side half of `add_subtask`: append, then reopen a COMPLETED task. */
  method AddSubtaskTo(t: Task, title: string, description: string, newId: string, now: int)
    returns (st: SubTask)
    requires newId !in SubtaskIds(t.subtasks)
    modifies t
    ensures st == NewSubTask(newId, title, description, |old(t.subtasks)|, now)
    ensures t.Value() == SubtaskAdded(old(t.Value()), st, now)
  {
    st := t.AddSubtask(title, description, newId, now);
    if t.status == Completed {
      t.status := InProgress;
      t.completedAt := None;
    }
  }

  /** The loop `for i, st in enumerate(ordered): st.order = i` over the arrangement `q`. */
  method Renumber(subtasks: seq<SubTask>, q: seq<nat>) returns (r: seq<SubTask>)
    requires IsArrangement(q, |subtasks|)
    ensures r == Reordered(subtasks, q)
  {
    r := subtasks;
    var k := 0;
    while k < |q|
      invariant k <= |q| && |r| == |q|
      invariant forall m :: 0 <= m < k ==> r[q[m]] == subtasks[q[m]].(order := m)
      invariant forall m :: k <= m < |q| ==> r[q[m]] == subtasks[q[m]]
    {
      r := r[q[k] := r[q[k]].(order := k)];
      k := k + 1;
    }
    ReorderedPositions(subtasks, q);
    forall i | 0 <= i < |r| ensures r[i] == Reordered(subtasks, q)[i] {
      var m := FirstIndex(q, i);
      assert q[m] == i;
    }
  }

  /** The inner loop of the note searches: the hits among the notes of `t`, in note order. */
  method NoteHitsOf(t: Task, needle: string) returns (r: seq<ExplorationNoteSearchResult>)
    ensures r == HitsIn(t.Value(), needle)
  {
    r := [];
    var j := 0;
    while j < |t.explorationNotes|
      invariant j <= |t.explorationNotes|
      invariant r == HitsAmong(t.Value(), j, needle)
    {
      var note := t.explorationNotes[j];
      if NoteMatches(note, needle) {
        r := r + [ExplorationNoteSearchResult(t.id, t.title, t.mode, note, false)];
      }
      j := j + 1;
    }
  }

  /** The source side of a note transfer: `t` keeps `remaining` and is stamped. */
  method KeepNotes(t: Task, remaining: seq<ExplorationNote>, now: int)
    modifies t
    ensures t.Value() == WithNotes(old(t.Value()), remaining, now)
  {
    t.explorationNotes := remaining;
    t.updatedAt := now;
  }

  /** The target side of a note transfer: `moved` is appended to the notes of `t`, which is stamped. */
  method AppendNotes(t: Task, moved: seq<ExplorationNote>, now: int)
    modifies t
    ensures t.Value() == WithNotes(old(t.Value()), old(t.explorationNotes) + moved, now)
  {
    t.explorationNotes := t.explorationNotes + moved;
    t.updatedAt := now;
  }

  /**
   * The append step of a merge: the incoming notes whose id `t` does not hold
   * yet are appended to its notes, then `t` is stamped.
   */
  method MergeNotesInto(t: Task, incoming: seq<ExplorationNote>, now: int)
    modifies t
    ensures t.Value() == old(t.Value()).(explorationNotes := MergedNotes(old(t.explorationNotes), incoming),
                                         updatedAt := now)
  {
    var merged := AppendUnseen(t.explorationNotes, incoming);
    t.explorationNotes := merged;
    t.updatedAt := now;
  }

  /**
   * The append loop, with the corrected de-duplication: each incoming note
   * whose id is not held yet is appended, and its id counts as held from then
   * on. The loop as written never adds to its skip set; it agrees with this
   * one when the incoming ids are distinct (MergedNotesAgreeOnDistinct).
   */
  method AppendUnseen(notes: seq<ExplorationNote>, incoming: seq<ExplorationNote>) returns (r: seq<ExplorationNote>)
    ensures r == MergedNotes(notes, incoming)
  {
    ghost var goal := notes + Unseen(incoming, IdSet(notes));
    r := notes;
    var seen := IdSet(notes);
    var i := 0;
    while i < |incoming|
      invariant i <= |incoming|
      invariant r + Unseen(incoming[i..], seen) == goal
    {
      UnseenStep(incoming, i, seen);
      if incoming[i].id !in seen {
        assert (r + [incoming[i]]) + Unseen(incoming[i + 1..], seen + {incoming[i].id}) ==
               r + ([incoming[i]] + Unseen(incoming[i + 1..], seen + {incoming[i].id}));
        r := r + [incoming[i]];
        seen := seen + {incoming[i].id};
      }
      i := i + 1;
    }
  }

  /** `all(...)` over looked-up tasks: true iff none is null. */
  method AllPresent(ts: seq<Task?>) returns (found: bool)
    ensures found <==> forall m :: 0 <= m < |ts| ==> ts[m] != null
  {
    var j := 0;
    while j < |ts| && ts[j] != null
      invariant j <= |ts|
      invariant forall m :: 0 <= m < j ==> ts[m] != null
    {
      j := j + 1;
    }
    found := j == |ts|;
  }

  /** `t` is what `get_task(id)` returns on a list whose objects are `objs` and whose values are `vs`. */
  predicate LookedUp(vs: seq<TaskData>, objs: seq<Task>, id: string, t: Task?)
    requires |vs| == |objs|
  {
    (t == null <==> id !in TaskIds(vs)) && (t != null ==> t == objs[TaskIndex(vs, id)])
  }
}
