/**
 * The entity model of the research-task tracker: tasks, their subtasks and
 * their exploration notes, with the behaviours a task carries itself
 * (adding children, progress, completing a subtask, switching mode).
 *
 * Clock readings and generated identifiers are parameters: `now` is the
 * instant `datetime.now()` would give, and a `newId` argument is the
 * identifier `uuid4()` would draw, required to differ from those in use.
 */
module Models {
  import opened Wrappers
  import opened Sequences

  datatype TaskStatus = Pending | InProgress | Exploring | Completed | Paused

  datatype TaskMode = Planning | Exploring

  datatype TaskKnowledge = KnownWhatKnownHow | KnownWhatUnknownHow | UnknownWhat

  /** A step of a planning-mode task. Instants are abstract integers. */
  datatype SubTask = SubTask(
    id: string,
    title: string,
    description: string,
    status: TaskStatus,
    order: int,
    createdAt: int,
    completedAt: Option<int>,
    notes: string)

  /** A timestamped observation recorded while exploring. */
  datatype ExplorationNote = ExplorationNote(
    id: string,
    content: string,
    insight: string,
    createdAt: int,
    updatedAt: int,
    isBreakthrough: bool)

  /** A note found by a search, with the task that holds it. */
  datatype ExplorationNoteSearchResult = ExplorationNoteSearchResult(
    taskId: string,
    taskTitle: string,
    taskMode: TaskMode,
    note: ExplorationNote,
    isHistory: bool)

  /** The value of every field of a task at one moment. */
  datatype TaskData = TaskData(
    id: string,
    title: string,
    description: string,
    order: int,
    status: TaskStatus,
    mode: TaskMode,
    knowledge: TaskKnowledge,
    subtasks: seq<SubTask>,
    explorationNotes: seq<ExplorationNote>,
    createdAt: int,
    updatedAt: int,
    completedAt: Option<int>,
    priority: int,
    tags: seq<string>,
    conclusion: string)

  /** A progress value `num / den`, kept exact instead of as a float. */
  datatype Ratio = Ratio(num: nat, den: nat)

  function SubtaskIds(subtasks: seq<SubTask>): (ids: seq<string>)
    ensures |ids| == |subtasks| && forall k :: 0 <= k < |subtasks| ==> ids[k] == subtasks[k].id
  {
    seq(|subtasks|, k requires 0 <= k < |subtasks| => subtasks[k].id)
  }

  function TaskIds(tasks: seq<TaskData>): (ids: seq<string>)
    ensures |ids| == |tasks| && forall k :: 0 <= k < |tasks| ==> ids[k] == tasks[k].id
  {
    seq(|tasks|, k requires 0 <= k < |tasks| => tasks[k].id)
  }

  function NoteIds(notes: seq<ExplorationNote>): (ids: seq<string>)
    ensures |ids| == |notes| && forall k :: 0 <= k < |notes| ==> ids[k] == notes[k].id
  {
    seq(|notes|, k requires 0 <= k < |notes| => notes[k].id)
  }

  predicate AllCompleted(subtasks: seq<SubTask>) {
    forall k :: 0 <= k < |subtasks| ==> subtasks[k].status == Completed
  }

  /** The number of completed subtasks. It reaches the total exactly when all are completed. */
  function CountCompleted(subtasks: seq<SubTask>): (n: nat)
    ensures n <= |subtasks|
    ensures n == |subtasks| <==> AllCompleted(subtasks)
    ensures n == 0 <==> forall k :: 0 <= k < |subtasks| ==> subtasks[k].status != Completed
  {
    if subtasks == [] then 0
    else
      var init := subtasks[..|subtasks| - 1];
      assert forall k :: 0 <= k < |init| ==> init[k] == subtasks[k];
      CountCompleted(init) + if subtasks[|subtasks| - 1].status == Completed then 1 else 0
  }

  /**
   * The self-healing rule: a task may be COMPLETED only while none of its
   * subtasks is incomplete.
   */
  predicate CompletionConsistent(t: TaskData) {
    t.status == Completed ==> AllCompleted(t.subtasks)
  }

  /** A COMPLETED task with an incomplete subtask goes back to IN_PROGRESS and loses its completion time. */
  function HealCompletion(t: TaskData): (r: TaskData)
    ensures CompletionConsistent(r)
    ensures CompletionConsistent(t) ==> r == t
    ensures !CompletionConsistent(t) ==> r == t.(status := InProgress, completedAt := None)
  {
    if t.status == Completed && !AllCompleted(t.subtasks) then
      t.(status := InProgress, completedAt := None)
    else t
  }

  function NewSubTask(id: string, title: string, description: string, order: int, now: int): SubTask {
    SubTask(id, title, description, Pending, order, now, None, "")
  }

  function NewNote(id: string, content: string, insight: string, isBreakthrough: bool, now: int): ExplorationNote {
    ExplorationNote(id, content, insight, now, now, isBreakthrough)
  }

  /** The subtask `order` fields rewritten to each one's position in the list. */
  function Renumbered(subtasks: seq<SubTask>): (r: seq<SubTask>)
    ensures |r| == |subtasks|
    ensures forall j :: 0 <= j < |r| ==> r[j] == subtasks[j].(order := j)
  {
    seq(|subtasks|, j requires 0 <= j < |subtasks| => subtasks[j].(order := j))
  }

  /** A task's state after `complete_subtask(subtaskId)` at instant `now`. */
  function SubtaskCompleted(t: TaskData, subtaskId: string, now: int): (r: TaskData)
    ensures subtaskId !in SubtaskIds(t.subtasks) ==> r == t
    ensures subtaskId in SubtaskIds(t.subtasks) ==>
      var k := FirstIndex(SubtaskIds(t.subtasks), subtaskId);
      && |r.subtasks| == |t.subtasks|
      && r.subtasks[k] == t.subtasks[k].(status := Completed, completedAt := Some(now))
      && (forall j :: 0 <= j < |t.subtasks| && j != k ==> r.subtasks[j] == t.subtasks[j])
      && r.updatedAt == now
      && (AllCompleted(r.subtasks) ==> r.status == Completed && r.completedAt == Some(now))
      && (!AllCompleted(r.subtasks) ==> r.status == t.status && r.completedAt == t.completedAt)
      && r.(subtasks := t.subtasks, updatedAt := t.updatedAt, status := t.status, completedAt := t.completedAt) == t
  {
    var k := FirstIndex(SubtaskIds(t.subtasks), subtaskId);
    if k == |t.subtasks| then t
    else
      var subtasks := t.subtasks[k := t.subtasks[k].(status := Completed, completedAt := Some(now))];
      var touched := t.(subtasks := subtasks, updatedAt := now);
      if AllCompleted(subtasks) then touched.(status := Completed, completedAt := Some(now))
      else touched
  }

  /** Completing the last incomplete subtask completes the task. */
  lemma CompletingLastSubtaskCompletesTask(t: TaskData, subtaskId: string, now: int)
    requires subtaskId in SubtaskIds(t.subtasks)
    requires forall j :: 0 <= j < |t.subtasks| && j != FirstIndex(SubtaskIds(t.subtasks), subtaskId) ==>
               t.subtasks[j].status == Completed
    ensures SubtaskCompleted(t, subtaskId, now).status == Completed
    ensures SubtaskCompleted(t, subtaskId, now).completedAt == Some(now)
  {
    var k := FirstIndex(SubtaskIds(t.subtasks), subtaskId);
    var r := SubtaskCompleted(t, subtaskId, now);
    forall j | 0 <= j < |r.subtasks| ensures r.subtasks[j].status == Completed {
      if j != k {
        assert r.subtasks[j] == t.subtasks[j];
      }
    }
  }

  /** Completing a subtask never breaks the self-healing rule. */
  lemma SubtaskCompletedConsistent(t: TaskData, subtaskId: string, now: int)
    requires CompletionConsistent(t)
    ensures CompletionConsistent(SubtaskCompleted(t, subtaskId, now))
  {
    var r := SubtaskCompleted(t, subtaskId, now);
    if subtaskId in SubtaskIds(t.subtasks) && t.status == Completed {
      var k := FirstIndex(SubtaskIds(t.subtasks), subtaskId);
      forall j | 0 <= j < |r.subtasks| ensures r.subtasks[j].status == Completed {
        if j != k {
          assert r.subtasks[j] == t.subtasks[j];
        }
      }
    }
  }

  /** A task: the aggregate whose fields the entity behaviours update in place. */
  class Task {
    var id: string
    var title: string
    var description: string
    var order: int
    var status: TaskStatus
    var mode: TaskMode
    var knowledge: TaskKnowledge
    var subtasks: seq<SubTask>
    var explorationNotes: seq<ExplorationNote>
    var createdAt: int
    var updatedAt: int
    var completedAt: Option<int>
    var priority: int
    var tags: seq<string>
    var conclusion: string

    /** The current value of every field. */
    function Value(): TaskData
      reads this
    {
      TaskData(id, title, description, order, status, mode, knowledge, subtasks, explorationNotes,
               createdAt, updatedAt, completedAt, priority, tags, conclusion)
    }

    /** A new task with no children, no tags, no conclusion and both timestamps at `now`. */
    constructor (id: string, title: string, description: string, order: int, status: TaskStatus,
                 mode: TaskMode, knowledge: TaskKnowledge, priority: int, now: int)
      ensures Value() == TaskData(id, title, description, order, status, mode, knowledge, [], [],
                                  now, now, None, priority, [], "")
    {
      this.id, this.title, this.description, this.order := id, title, description, order;
      this.status, this.mode, this.knowledge := status, mode, knowledge;
      this.subtasks, this.explorationNotes := [], [];
      this.createdAt, this.updatedAt, this.completedAt := now, now, None;
      this.priority, this.tags, this.conclusion := priority, [], "";
    }

    /** A task holding exactly the field values `d`. */
    constructor FromData(d: TaskData)
      ensures Value() == d
    {
      id, title, description, order := d.id, d.title, d.description, d.order;
      status, mode, knowledge := d.status, d.mode, d.knowledge;
      subtasks, explorationNotes := d.subtasks, d.explorationNotes;
      createdAt, updatedAt, completedAt := d.createdAt, d.updatedAt, d.completedAt;
      priority, tags, conclusion := d.priority, d.tags, d.conclusion;
    }

    /** Appends a PENDING subtask numbered after the existing ones and returns it. */
    method AddSubtask(title: string, description: string, newId: string, now: int) returns (st: SubTask)
      requires newId !in SubtaskIds(subtasks)
      modifies this
      ensures st == NewSubTask(newId, title, description, |old(subtasks)|, now)
      ensures st.status == Pending && st.order == |old(subtasks)|
      ensures Value() == old(Value()).(subtasks := old(subtasks) + [st], updatedAt := now)
    {
      st := NewSubTask(newId, title, description, |subtasks|, now);
      subtasks := subtasks + [st];
      updatedAt := now;
    }

    /** Appends a note with the given content, insight and breakthrough flag and returns it. */
    method AddExplorationNote(content: string, insight: string, isBreakthrough: bool, newId: string, now: int)
      returns (note: ExplorationNote)
      requires newId !in NoteIds(explorationNotes)
      modifies this
      ensures note == NewNote(newId, content, insight, isBreakthrough, now)
      ensures Value() == old(Value()).(explorationNotes := old(explorationNotes) + [note], updatedAt := now)
    {
      note := NewNote(newId, content, insight, isBreakthrough, now);
      explorationNotes := explorationNotes + [note];
      updatedAt := now;
    }

    /**
     * Progress as completed / total subtasks; without subtasks it is 1 for a
     * COMPLETED task and 0 otherwise. It always lies in [0, 1].
     */
    function Progress(): (p: Ratio)
      reads this
      ensures 0 < p.den && p.num <= p.den
      ensures subtasks == [] ==> p.den == 1
      ensures subtasks != [] ==> p.den == |subtasks|
      ensures p.num == p.den <==> if subtasks == [] then status == Completed else AllCompleted(subtasks)
      ensures p.num == 0 <==> if subtasks == [] then status != Completed
                              else forall k :: 0 <= k < |subtasks| ==> subtasks[k].status != Completed
    {
      if subtasks == [] then
        (if status == Completed then Ratio(1, 1) else Ratio(0, 1))
      else Ratio(CountCompleted(subtasks), |subtasks|)
    }

    /**
     * Marks the first subtask with `subtaskId` COMPLETED; when that leaves no
     * subtask incomplete, the task itself becomes COMPLETED. Reports whether
     * the id was found; when it was not, nothing changes.
     */
    method CompleteSubtask(subtaskId: string, now: int) returns (found: bool)
      modifies this
      ensures found <==> subtaskId in SubtaskIds(old(subtasks))
      ensures Value() == SubtaskCompleted(old(Value()), subtaskId, now)
    {
      ghost var before := Value();
      var k := FindFirst(SubtaskIds(subtasks), subtaskId);
      if k == |subtasks| {
        return false;
      }
      subtasks := subtasks[k := subtasks[k].(status := Completed, completedAt := Some(now))];
      updatedAt := now;
      ghost var touched := Value();
      assert touched == before.(subtasks := subtasks, updatedAt := now);
      if AllCompleted(subtasks) {
        status := Completed;
        completedAt := Some(now);
        assert Value() == touched.(status := Completed, completedAt := Some(now));
      }
      return true;
    }

    /** Enters exploring mode; children and conclusion are kept. */
    method SwitchToExploring(now: int)
      modifies this
      ensures Value() == old(Value()).(mode := TaskMode.Exploring, status := TaskStatus.Exploring,
                                       knowledge := KnownWhatUnknownHow, updatedAt := now)
    {
      mode := TaskMode.Exploring;
      status := TaskStatus.Exploring;
      knowledge := KnownWhatUnknownHow;
      updatedAt := now;
    }

    /** Returns to planning mode once a method is known; notes and conclusion are kept. */
    method SwitchToPlanning(now: int)
      modifies this
      ensures Value() == old(Value()).(mode := Planning, status := InProgress,
                                       knowledge := KnownWhatKnownHow, updatedAt := now)
    {
      mode := Planning;
      status := InProgress;
      knowledge := KnownWhatKnownHow;
      updatedAt := now;
    }
  }
}
