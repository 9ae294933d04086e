/**
 * The repository's operations as functions from the task list before a call
 * to the task list after it. The repository class is proved against these;
 * the lemmas here state what the operations promise.
 */
module Operations {
  import opened Wrappers
  import opened Sequences
  import opened Models
  import opened NoteLists

  // ---------------------------------------------------------------------------
  // Lookups by id: the first match wins, as in every `for ... if x.id == id` scan
  // ---------------------------------------------------------------------------

  /** Position of the first task with `id` (`get_task`), or `|vs|` when there is none. */
  function TaskIndex(vs: seq<TaskData>, id: string): (k: nat)
    ensures k <= |vs| && (k < |vs| <==> id in TaskIds(vs))
    ensures k < |vs| ==> vs[k].id == id
    ensures forall j :: 0 <= j < k ==> vs[j].id != id
  {
    FirstIndex(TaskIds(vs), id)
  }

  /** Position of the first subtask with `id`, or `|subtasks|`. */
  function SubtaskIndex(subtasks: seq<SubTask>, id: string): (k: nat)
    ensures k <= |subtasks| && (k < |subtasks| <==> id in SubtaskIds(subtasks))
    ensures k < |subtasks| ==> subtasks[k].id == id
    ensures forall j :: 0 <= j < k ==> subtasks[j].id != id
  {
    FirstIndex(SubtaskIds(subtasks), id)
  }

  /** Position of the first note with `id`, or `|notes|`. */
  function NoteIndex(notes: seq<ExplorationNote>, id: string): (k: nat)
    ensures k <= |notes| && (k < |notes| <==> id in NoteIds(notes))
    ensures k < |notes| ==> notes[k].id == id
    ensures forall j :: 0 <= j < k ==> notes[j].id != id
  {
    FirstIndex(NoteIds(notes), id)
  }

  /** Every id a new object could clash with: task ids and the ids of all subtasks and notes. */
  predicate FreshId(vs: seq<TaskData>, id: string) {
    && id !in TaskIds(vs)
    && forall i :: 0 <= i < |vs| ==> id !in SubtaskIds(vs[i].subtasks) && id !in NoteIds(vs[i].explorationNotes)
  }

  // ---------------------------------------------------------------------------
  // Tasks
  // ---------------------------------------------------------------------------

  /** Every task's `order` is its position in the list. */
  predicate NumberedByPosition(vs: seq<TaskData>) {
    forall i :: 0 <= i < |vs| ==> vs[i].order == i
  }

  /**
   * The task `create_task` appends: numbered after the existing tasks, with
   * no children, and EXPLORING when created in exploring mode, PENDING otherwise.
   */
  function NewTask(vs: seq<TaskData>, newId: string, title: string, description: string, mode: TaskMode,
                   knowledge: TaskKnowledge, priority: int, now: int): TaskData
  {
    var status := if mode == TaskMode.Exploring then TaskStatus.Exploring else Pending;
    TaskData(newId, title, description, |vs|, status, mode, knowledge, [], [], now, now, None, priority, [], "")
  }

  /**
   * Creating a task adds one task at the end and leaves the others alone; the
   * new task is EXPLORING exactly when its mode is exploring, can be found by
   * its id, and keeps the tasks numbered by position when they were.
   */
  lemma CreateTaskAppends(vs: seq<TaskData>, newId: string, title: string, description: string, mode: TaskMode,
                          knowledge: TaskKnowledge, priority: int, now: int)
    requires newId !in TaskIds(vs)
    ensures var t := NewTask(vs, newId, title, description, mode, knowledge, priority, now);
            var ws := vs + [t];
            && ws[..|vs|] == vs
            && (t.status == TaskStatus.Exploring <==> mode == TaskMode.Exploring)
            && (mode != TaskMode.Exploring ==> t.status == Pending)
            && t.subtasks == [] && t.explorationNotes == [] && t.completedAt == None
            && CompletionConsistent(t)
            && TaskIndex(ws, newId) == |vs|
            && (NumberedByPosition(vs) ==> NumberedByPosition(ws))
  {
    var t := NewTask(vs, newId, title, description, mode, knowledge, priority, now);
    var ws := vs + [t];
    assert TaskIds(ws) == TaskIds(vs) + [newId];
    assert forall j :: 0 <= j < |vs| ==> ws[j].id != newId by {
      forall j | 0 <= j < |vs| ensures ws[j].id != newId {
        assert TaskIds(vs)[j] == vs[j].id;
      }
    }
  }

  /** The fields `update_task` may set; `None` leaves a field as it is. */
  datatype TaskPatch = TaskPatch(
    title: Option<string>,
    description: Option<string>,
    order: Option<int>,
    status: Option<TaskStatus>,
    mode: Option<TaskMode>,
    knowledge: Option<TaskKnowledge>,
    completedAt: Option<Option<int>>,
    priority: Option<int>,
    tags: Option<seq<string>>,
    conclusion: Option<string>)

  function PatchTask(t: TaskData, p: TaskPatch): TaskData {
    t.(title := p.title.GetOr(t.title), description := p.description.GetOr(t.description),
       order := p.order.GetOr(t.order), status := p.status.GetOr(t.status), mode := p.mode.GetOr(t.mode),
       knowledge := p.knowledge.GetOr(t.knowledge), completedAt := p.completedAt.GetOr(t.completedAt),
       priority := p.priority.GetOr(t.priority), tags := p.tags.GetOr(t.tags),
       conclusion := p.conclusion.GetOr(t.conclusion))
  }

  /** `update_task` on one task: the patch, then the modification time. */
  function TaskUpdated(t: TaskData, p: TaskPatch, now: int): TaskData {
    PatchTask(t, p).(updatedAt := now)
  }

  /**
   * An update sets exactly the fields the patch names: a named field takes
   * the patch's value, any other keeps its value, and the id, children and
   * creation time are never touched.
   */
  lemma TaskUpdateSetsNamedFields(t: TaskData, p: TaskPatch, now: int)
    ensures var r := TaskUpdated(t, p, now);
            && r.updatedAt == now
            && r.id == t.id && r.subtasks == t.subtasks && r.explorationNotes == t.explorationNotes
            && r.createdAt == t.createdAt
            && (p.title.Some? ==> r.title == p.title.value) && (p.title.None? ==> r.title == t.title)
            && (p.status.Some? ==> r.status == p.status.value) && (p.status.None? ==> r.status == t.status)
            && (p.mode.Some? ==> r.mode == p.mode.value) && (p.mode.None? ==> r.mode == t.mode)
            && (p.conclusion.Some? ==> r.conclusion == p.conclusion.value)
            && (p.conclusion.None? ==> r.conclusion == t.conclusion)
  {
  }

  /** An empty patch only refreshes the modification time. */
  lemma EmptyTaskPatch(t: TaskData, now: int)
    ensures TaskUpdated(t, TaskPatch(None, None, None, None, None, None, None, None, None, None), now)
            == t.(updatedAt := now)
  {
  }

  /**
   * Deleting the task at `k` removes exactly that task; the others keep their
   * relative order and their values, `order` fields included (no renumbering).
   */
  lemma DeleteTaskRemovesOne(vs: seq<TaskData>, k: nat)
    requires k < |vs|
    ensures var ws := RemoveAt(vs, k);
            && |ws| == |vs| - 1
            && multiset(ws) + multiset{vs[k]} == multiset(vs)
            && TaskIds(ws) == RemoveAt(TaskIds(vs), k)
  {
    RemoveAtMultiset(vs, k);
  }

  /** The tasks with each `order` rewritten to the task's position. */
  function TasksRenumbered(vs: seq<TaskData>): (ws: seq<TaskData>)
    ensures |ws| == |vs| && NumberedByPosition(ws)
    ensures forall i :: 0 <= i < |vs| ==> ws[i] == vs[i].(order := i)
  {
    seq(|vs|, i requires 0 <= i < |vs| => vs[i].(order := i))
  }

  /**
   * `move_task` when the neighbour exists: the tasks at `c` and `n` trade
   * places, every other task stays where it is, and all tasks are renumbered
   * by position.
   */
  lemma MoveTaskSwapsNeighbours(vs: seq<TaskData>, c: nat, n: nat)
    requires c < |vs| && n < |vs|
    ensures var ws := TasksRenumbered(Swap(vs, c, n));
            && |ws| == |vs| && NumberedByPosition(ws)
            && ws[c] == vs[n].(order := c) && ws[n] == vs[c].(order := n)
            && (forall i :: 0 <= i < |vs| && i != c && i != n ==> ws[i] == vs[i].(order := i))
            && multiset(TaskIds(ws)) == multiset(TaskIds(vs))
  {
    var ws := TasksRenumbered(Swap(vs, c, n));
    assert TaskIds(ws) == TaskIds(Swap(vs, c, n));
    assert TaskIds(Swap(vs, c, n)) == Swap(TaskIds(vs), c, n);
  }

  /** The target position of a move by `direction` from `c`, when it lies inside `[0, count)`. */
  function Neighbour(c: nat, direction: int, count: nat): (r: Option<nat>)
    ensures r.Some? <==> 0 <= c + direction < count
    ensures r.Some? ==> r.value == c + direction
  {
    if 0 <= c + direction < count then Some(c + direction) else None
  }

  // ---------------------------------------------------------------------------
  // Subtasks
  // ---------------------------------------------------------------------------

  /**
   * `add_subtask` on one task as the repository does it: the subtask is
   * appended and a COMPLETED task goes back to IN_PROGRESS.
   */
  function SubtaskAdded(t: TaskData, st: SubTask, now: int): TaskData {
    var u := t.(subtasks := t.subtasks + [st], updatedAt := now);
    if u.status == Completed then u.(status := InProgress, completedAt := None) else u
  }

  /**
   * Adding a pending subtask is the self-healing rule applied to the
   * appended state, so the task is never left COMPLETED; the earlier
   * subtasks are kept and the new one comes last.
   */
  lemma SubtaskAddedHeals(t: TaskData, st: SubTask, now: int)
    requires st.status == Pending
    ensures SubtaskAdded(t, st, now) == HealCompletion(t.(subtasks := t.subtasks + [st], updatedAt := now))
    ensures SubtaskAdded(t, st, now).status != Completed
    ensures var r := SubtaskAdded(t, st, now).subtasks; r[..|t.subtasks|] == t.subtasks && r[|t.subtasks|] == st
  {
    var u := t.(subtasks := t.subtasks + [st], updatedAt := now);
    assert u.subtasks[|t.subtasks|] == st;
    assert !AllCompleted(u.subtasks);
  }

  /** The subtask fields `update_subtask` may set; `None` leaves a field as it is. */
  datatype SubTaskPatch = SubTaskPatch(
    title: Option<string>,
    description: Option<string>,
    status: Option<TaskStatus>,
    order: Option<int>,
    completedAt: Option<Option<int>>,
    notes: Option<string>)

  function PatchSubTask(s: SubTask, p: SubTaskPatch): SubTask {
    s.(title := p.title.GetOr(s.title), description := p.description.GetOr(s.description),
       status := p.status.GetOr(s.status), order := p.order.GetOr(s.order),
       completedAt := p.completedAt.GetOr(s.completedAt), notes := p.notes.GetOr(s.notes))
  }

  /** `update_subtask` on one task: patch the subtask at `j`, stamp the task, then heal its status. */
  function SubtaskUpdated(t: TaskData, j: nat, p: SubTaskPatch, now: int): TaskData
    requires j < |t.subtasks|
  {
    HealCompletion(t.(subtasks := t.subtasks[j := PatchSubTask(t.subtasks[j], p)], updatedAt := now))
  }

  /**
   * Updating a subtask changes that subtask alone and never leaves a
   * COMPLETED task with an incomplete subtask: reopening a subtask of a
   * COMPLETED task puts the task back IN_PROGRESS without a completion time,
   * and a task that was not COMPLETED keeps its status.
   */
  lemma SubtaskUpdateHeals(t: TaskData, j: nat, p: SubTaskPatch, now: int)
    requires j < |t.subtasks|
    ensures var r := SubtaskUpdated(t, j, p, now);
            && CompletionConsistent(r)
            && |r.subtasks| == |t.subtasks|
            && r.subtasks[j] == PatchSubTask(t.subtasks[j], p)
            && r.subtasks[j].id == t.subtasks[j].id
            && (forall i :: 0 <= i < |t.subtasks| && i != j ==> r.subtasks[i] == t.subtasks[i])
            && r.updatedAt == now
            && (t.status != Completed ==> r.status == t.status && r.completedAt == t.completedAt)
            && (t.status == Completed && p.status.Some? && p.status.value != Completed ==>
                  r.status == InProgress && r.completedAt == None)
  {
    var u := t.(subtasks := t.subtasks[j := PatchSubTask(t.subtasks[j], p)], updatedAt := now);
    if t.status == Completed && p.status.Some? && p.status.value != Completed {
      assert u.subtasks[j].status != Completed;
    }
  }

  /** `delete_subtask` on one task: remove the subtask at `j` and renumber the rest by position. */
  function SubtaskDeleted(t: TaskData, j: nat, now: int): TaskData
    requires j < |t.subtasks|
  {
    t.(subtasks := Renumbered(RemoveAt(t.subtasks, j)), updatedAt := now)
  }

  /**
   * Deleting a subtask removes exactly that one: the others keep their
   * sequence and values except `order`, which becomes each one's position.
   */
  lemma SubtaskDeleteRenumbers(t: TaskData, j: nat, now: int)
    requires j < |t.subtasks|
    ensures var r := SubtaskDeleted(t, j, now).subtasks;
            && |r| == |t.subtasks| - 1
            && SubtaskIds(r) == RemoveAt(SubtaskIds(t.subtasks), j)
            && (forall i :: 0 <= i < |r| ==> r[i].order == i)
            && (forall i :: 0 <= i < j ==> r[i] == t.subtasks[i].(order := i))
            && (forall i :: j <= i < |r| ==> r[i] == t.subtasks[i + 1].(order := i))
  {
  }

  // ---------------------------------------------------------------------------
  // Moving a subtask in display order (`move_subtask`)
  // ---------------------------------------------------------------------------

  function OrderKeys(subtasks: seq<SubTask>): (keys: seq<int>)
    ensures |keys| == |subtasks| && forall k :: 0 <= k < |subtasks| ==> keys[k] == subtasks[k].order
  {
    seq(|subtasks|, k requires 0 <= k < |subtasks| => subtasks[k].order)
  }

  /** No position occurs twice in `q`. */
  predicate Distinct(q: seq<nat>) {
    forall a, b :: 0 <= a < b < |q| ==> q[a] != q[b]
  }

  /** `q` lists each of the positions `0 .. n - 1` exactly once. */
  predicate IsArrangement(q: seq<nat>, n: nat) {
    && |q| == n && multiset(q) == multiset(Range(n)) && Distinct(q)
    && forall k :: 0 <= k < |q| ==> q[k] < n
  }

  /** The subtask positions in display order: `sorted(subtasks, key=order)`, which is stable. */
  function DisplayOrder(subtasks: seq<SubTask>): (p: seq<nat>)
    ensures |p| == |subtasks|
    ensures forall r :: 0 <= r < |p| ==> p[r] < |subtasks|
  {
    SortIndices(OrderKeys(subtasks))
  }

  /** The display order lists every subtask position once, sorted stably by `order`. */
  lemma DisplayOrderArranges(subtasks: seq<SubTask>)
    ensures IsArrangement(DisplayOrder(subtasks), |subtasks|)
    ensures SortedBy(OrderKeys(subtasks), DisplayOrder(subtasks))
  {
    var keys, p := OrderKeys(subtasks), DisplayOrder(subtasks);
    SortIndicesSorts(keys);
    assert forall a, b :: 0 <= a < b < |p| ==> Before(keys, p[a], p[b]);
  }

  /** The subtask ids read in the arrangement `p`. */
  function IdsInOrder(subtasks: seq<SubTask>, p: seq<nat>): (ids: seq<string>)
    requires forall r :: 0 <= r < |p| ==> p[r] < |subtasks|
    ensures |ids| == |p| && forall r :: 0 <= r < |p| ==> ids[r] == subtasks[p[r]].id
  {
    seq(|p|, r requires 0 <= r < |p| => subtasks[p[r]].id)
  }

  /**
   * The display arrangement after `move_subtask(id, direction)`: the subtask
   * first listed with `id` trades places with its neighbour in that
   * direction. None when the id is unknown or the neighbour does not exist.
   */
  function SubtaskMove(subtasks: seq<SubTask>, id: string, direction: int): Option<seq<nat>> {
    var p := DisplayOrder(subtasks);
    SwapFound(p, IdsInOrder(subtasks, p), id, direction)
  }

  /** A move yields an arrangement of the subtask positions. */
  lemma SubtaskMoveArrangement(subtasks: seq<SubTask>, id: string, direction: int)
    ensures SubtaskMove(subtasks, id, direction).Some? ==>
              IsArrangement(SubtaskMove(subtasks, id, direction).value, |subtasks|)
  {
    var p := DisplayOrder(subtasks);
    var c := FirstIndex(IdsInOrder(subtasks, p), id);
    if SubtaskMove(subtasks, id, direction).Some? {
      DisplayOrderArranges(subtasks);
      SwapKeepsArrangement(p, c, c + direction, |subtasks|);
    }
  }

  /**
   * The entry of `p` at the first place where `ids` holds `id` swapped with
   * the entry `direction` places away; None when `id` is absent or that
   * place is outside `p`.
   */
  function SwapFound(p: seq<nat>, ids: seq<string>, id: string, direction: int): Option<seq<nat>>
    requires |ids| == |p|
  {
    var c := FirstIndex(ids, id);
    if c == |p| || !(0 <= c + direction < |p|) then None
    else Some(Swap(p, c, c + direction))
  }

  /** `move_subtask` with an unknown id moves nothing. */
  lemma UnknownSubtaskNotMoved(subtasks: seq<SubTask>, id: string, direction: int)
    requires id !in SubtaskIds(subtasks)
    ensures SubtaskMove(subtasks, id, direction).None?
  {
    var ids := IdsInOrder(subtasks, DisplayOrder(subtasks));
    forall r | 0 <= r < |ids| ensures ids[r] != id {
      assert ids[r] in SubtaskIds(subtasks);
    }
  }

  /**
   * `move_subtask` with a known id: the subtask is found in display order
   * and trades places with its neighbour in that direction, when there is
   * one; otherwise nothing moves.
   */
  lemma SubtaskMoveSwapsNeighbours(subtasks: seq<SubTask>, id: string, direction: int)
    requires id in SubtaskIds(subtasks)
    ensures var p, q := DisplayOrder(subtasks), SubtaskMove(subtasks, id, direction);
            var c := FirstIndex(IdsInOrder(subtasks, p), id);
            && c < |p| && subtasks[p[c]].id == id
            && q == if 0 <= c + direction < |p| then Some(Swap(p, c, c + direction)) else None
  {
    FoundInDisplayOrder(subtasks, id);
    var p := DisplayOrder(subtasks);
    var c := FirstIndex(IdsInOrder(subtasks, p), id);
    if 0 <= c + direction < |p| {
      assert SubtaskMove(subtasks, id, direction) == Some(Swap(p, c, c + direction));
    } else {
      assert SubtaskMove(subtasks, id, direction) == None;
    }
  }

  /** Every subtask id can be found when the ids are read in display order. */
  lemma FoundInDisplayOrder(subtasks: seq<SubTask>, id: string)
    ensures id in SubtaskIds(subtasks) ==>
              FirstIndex(IdsInOrder(subtasks, DisplayOrder(subtasks)), id) < |subtasks|
  {
    if id in SubtaskIds(subtasks) {
      var p := DisplayOrder(subtasks);
      var i := FirstIndex(SubtaskIds(subtasks), id);
      DisplayOrderArranges(subtasks);
      PermutationCovers(OrderKeys(subtasks), p);
      var r := FirstIndex(p, i);
      assert IdsInOrder(subtasks, p)[r] == id;
    }
  }

  /** Trading two places of an arrangement gives an arrangement. */
  lemma SwapKeepsArrangement(p: seq<nat>, c: nat, n: nat, size: nat)
    requires IsArrangement(p, size) && c < size && n < size
    ensures IsArrangement(Swap(p, c, n), size)
  {
    var q := Swap(p, c, n);
    forall a, b | 0 <= a < b < |q| ensures q[a] != q[b] {
      var a', b' := if a == c then n else if a == n then c else a, if b == c then n else if b == n then c else b;
      assert q[a] == p[a'] && q[b] == p[b'] && a' != b';
    }
  }

  /** Every subtask's `order` set to its place in the arrangement `q`. */
  function Reordered(subtasks: seq<SubTask>, q: seq<nat>): (r: seq<SubTask>)
    ensures |r| == |subtasks|
    ensures IsArrangement(q, |subtasks|) ==>
              forall k :: 0 <= k < |q| ==> r[q[k]] == subtasks[q[k]].(order := k)
  {
    var r := seq(|subtasks|, i requires 0 <= i < |subtasks| => subtasks[i].(order := FirstIndex(q, i)));
    assert IsArrangement(q, |subtasks|) ==> forall k :: 0 <= k < |q| ==> FirstIndex(q, q[k]) == k;
    r
  }

  /** Reordering by an arrangement gives each subtask its place in it and changes nothing else. */
  lemma ReorderedPositions(subtasks: seq<SubTask>, q: seq<nat>)
    requires IsArrangement(q, |subtasks|)
    ensures forall i :: 0 <= i < |subtasks| ==>
              FirstIndex(q, i) < |q| && Reordered(subtasks, q)[i] == subtasks[i].(order := FirstIndex(q, i))
  {
    PermutationCovers(Range(|subtasks|), q);
  }

  /** Sorting the reordered subtasks by their new orders yields the arrangement itself. */
  lemma ReorderedResorts(subtasks: seq<SubTask>, q: seq<nat>)
    requires IsArrangement(q, |subtasks|)
    ensures DisplayOrder(Reordered(subtasks, q)) == q
  {
    var r := Reordered(subtasks, q);
    var keys := OrderKeys(r);
    assert SortedBy(keys, q) by {
      forall a, b | 0 <= a < b < |q| ensures Before(keys, q[a], q[b]) {
        assert keys[q[a]] == a && keys[q[b]] == b;
      }
    }
    DisplayOrderArranges(r);
    SortedUnique(keys, DisplayOrder(r), q);
  }

  /**
   * After a move, the subtask list keeps its sequence and every field but
   * `order`; the orders are exactly `0 .. N - 1`, one per subtask; and
   * sorting by the new orders yields the swapped arrangement.
   */
  lemma MoveSubtaskRenumbers(subtasks: seq<SubTask>, id: string, direction: int)
    requires SubtaskMove(subtasks, id, direction).Some?
    ensures var q := SubtaskMove(subtasks, id, direction).value;
            var r := Reordered(subtasks, q);
            && (forall i :: 0 <= i < |r| ==> r[i].(order := subtasks[i].order) == subtasks[i])
            && (forall i :: 0 <= i < |r| ==> 0 <= r[i].order < |r|)
            && (forall i, j :: 0 <= i < j < |r| ==> r[i].order != r[j].order)
            && DisplayOrder(r) == q
  {
    var q := SubtaskMove(subtasks, id, direction).value;
    SubtaskMoveArrangement(subtasks, id, direction);
    ReorderedPositions(subtasks, q);
    ReorderedResorts(subtasks, q);
  }

  // ---------------------------------------------------------------------------
  // Notes of one task
  // ---------------------------------------------------------------------------

  /** `delete_exploration_note` on one task: remove the note at `j`. */
  function NoteDeleted(t: TaskData, j: nat, now: int): TaskData
    requires j < |t.explorationNotes|
  {
    t.(explorationNotes := RemoveAt(t.explorationNotes, j), updatedAt := now)
  }

  /** The note fields `update_exploration_note` may set; `None` leaves a field as it is. */
  datatype NotePatch = NotePatch(content: Option<string>, insight: Option<string>, isBreakthrough: Option<bool>)

  /** The patched note, with its modification time refreshed. */
  function PatchNote(n: ExplorationNote, p: NotePatch, now: int): ExplorationNote {
    n.(content := p.content.GetOr(n.content), insight := p.insight.GetOr(n.insight),
       isBreakthrough := p.isBreakthrough.GetOr(n.isBreakthrough), updatedAt := now)
  }

  /** `update_exploration_note` on one task: patch the note at `j` and stamp both. */
  function NoteUpdated(t: TaskData, j: nat, p: NotePatch, now: int): TaskData
    requires j < |t.explorationNotes|
  {
    t.(explorationNotes := t.explorationNotes[j := PatchNote(t.explorationNotes[j], p, now)], updatedAt := now)
  }

  /**
   * Updating a note keeps it in place under the same id and creation time,
   * sets the named fields, and leaves the other notes alone.
   */
  lemma NoteUpdateKeepsIdentity(t: TaskData, j: nat, p: NotePatch, now: int)
    requires j < |t.explorationNotes|
    ensures var r := NoteUpdated(t, j, p, now);
            var n, m := t.explorationNotes[j], r.explorationNotes[j];
            && NoteIds(r.explorationNotes) == NoteIds(t.explorationNotes)
            && m.id == n.id && m.createdAt == n.createdAt && m.updatedAt == now && r.updatedAt == now
            && (p.content.Some? ==> m.content == p.content.value) && (p.content.None? ==> m.content == n.content)
            && (p.insight.Some? ==> m.insight == p.insight.value) && (p.insight.None? ==> m.insight == n.insight)
            && (forall i :: 0 <= i < |t.explorationNotes| && i != j ==> r.explorationNotes[i] == t.explorationNotes[i])
  {
    var r := NoteUpdated(t, j, p, now);
    assert forall i :: 0 <= i < |t.explorationNotes| ==> NoteIds(r.explorationNotes)[i] == NoteIds(t.explorationNotes)[i];
  }

  /** `move_exploration_note_order` on one task: the notes at `c` and `n` trade places. */
  function NotesSwapped(t: TaskData, c: nat, n: nat, now: int): TaskData
    requires c < |t.explorationNotes| && n < |t.explorationNotes|
  {
    t.(explorationNotes := Swap(t.explorationNotes, c, n), updatedAt := now)
  }

  /** Reordering notes keeps the same notes, and moving back restores the original order. */
  lemma NoteSwapReversible(t: TaskData, c: nat, n: nat, now: int, later: int)
    requires c < |t.explorationNotes| && n < |t.explorationNotes|
    ensures multiset(NotesSwapped(t, c, n, now).explorationNotes) == multiset(t.explorationNotes)
    ensures NotesSwapped(NotesSwapped(t, c, n, now), n, c, later).explorationNotes == t.explorationNotes
  {
  }

  /** `batch_delete_exploration_notes` on one task: keep the notes whose id is not listed. */
  function NotesBatchDeleted(t: TaskData, ids: seq<string>, now: int): TaskData {
    t.(explorationNotes := Unselected(t.explorationNotes, ids), updatedAt := now)
  }

  /**
   * A batch delete removes exactly the listed notes: it removes something
   * exactly when some note is listed, and the kept and removed notes
   * together are the original notes.
   */
  lemma BatchDeleteRemovesListed(t: TaskData, ids: seq<string>, now: int)
    ensures var kept := NotesBatchDeleted(t, ids, now).explorationNotes;
            && (forall n :: n in kept <==> n in t.explorationNotes && n.id !in ids)
            && (|kept| < |t.explorationNotes| <==> exists n :: n in t.explorationNotes && n.id in ids)
            && multiset(kept) + multiset(Selected(t.explorationNotes, ids)) == multiset(t.explorationNotes)
  {
    SelectionPartitions(t.explorationNotes, ids);
    var sel := Selected(t.explorationNotes, ids);
    if sel != [] {
      assert sel[0] in sel;
    }
  }

  // ---------------------------------------------------------------------------
  // Notes across tasks
  // ---------------------------------------------------------------------------

  /** `move_exploration_note`: the note at `j` of task `si` goes to the end of task `ti`. */
  function NoteMoved(vs: seq<TaskData>, si: nat, ti: nat, j: nat, now: int): seq<TaskData>
    requires si < |vs| && ti < |vs| && j < |vs[si].explorationNotes|
  {
    NotesTransferred(vs, si, ti, [vs[si].explorationNotes[j]], RemoveAt(vs[si].explorationNotes, j), now)
  }

  /**
   * Moving a note loses and invents nothing: the collection holds the same
   * notes, the note ends the target's list, and the source keeps its other
   * notes in order.
   */
  lemma MoveNoteConserves(vs: seq<TaskData>, si: nat, ti: nat, j: nat, now: int)
    requires si < |vs| && ti < |vs| && j < |vs[si].explorationNotes|
    ensures var ws := NoteMoved(vs, si, ti, j, now);
            var notes := ws[ti].explorationNotes;
            && AllNotes(ws) == AllNotes(vs)
            && |notes| > 0 && notes[|notes| - 1] == vs[si].explorationNotes[j]
            && (si != ti ==> ws[si].explorationNotes == RemoveAt(vs[si].explorationNotes, j))
            && (si != ti ==> |notes| == |vs[ti].explorationNotes| + 1)
  {
    var src := vs[si].explorationNotes;
    RemoveAtMultiset(src, j);
    TransferConservesNotes(vs, si, ti, [src[j]], RemoveAt(src, j), now);
  }

  /** `batch_move_exploration_notes`: the listed notes of task `si` go, in order, to the end of task `ti`. */
  function NotesBatchMoved(vs: seq<TaskData>, si: nat, ti: nat, ids: seq<string>, now: int): seq<TaskData>
    requires si < |vs| && ti < |vs|
  {
    var notes := vs[si].explorationNotes;
    NotesTransferred(vs, si, ti, Selected(notes, ids), Unselected(notes, ids), now)
  }

  /**
   * A batch move conserves the collection's notes; the target ends with
   * exactly the listed notes in their original relative order and the source
   * keeps exactly the others.
   */
  lemma BatchMoveConserves(vs: seq<TaskData>, si: nat, ti: nat, ids: seq<string>, now: int)
    requires si < |vs| && ti < |vs|
    ensures var ws := NotesBatchMoved(vs, si, ti, ids, now);
            var moved := Selected(vs[si].explorationNotes, ids);
            var notes := ws[ti].explorationNotes;
            && AllNotes(ws) == AllNotes(vs)
            && |notes| >= |moved| && notes[|notes| - |moved|..] == moved
            && (si != ti ==> ws[si].explorationNotes == Unselected(vs[si].explorationNotes, ids))
  {
    var notes := vs[si].explorationNotes;
    SelectionPartitions(notes, ids);
    TransferConservesNotes(vs, si, ti, Selected(notes, ids), Unselected(notes, ids), now);
    var ws := NotesBatchMoved(vs, si, ti, ids, now);
    var front := (if si == ti then Unselected(notes, ids) else vs[ti].explorationNotes);
    assert ws[ti].explorationNotes[|front|..] == Selected(notes, ids);
  }

  /** `copy_exploration_note`: a fresh note with the source note's content, insight and flag ends task `ti`. */
  function NoteCopied(vs: seq<TaskData>, ti: nat, n: ExplorationNote, newId: string, now: int): seq<TaskData>
    requires ti < |vs|
  {
    var copy := NewNote(newId, n.content, n.insight, n.isBreakthrough, now);
    vs[ti := WithNotes(vs[ti], vs[ti].explorationNotes + [copy], now)]
  }

  /**
   * Copying adds exactly one note, to the target only: it carries the source
   * note's content, insight and flag under the new id, and every other task,
   * the source included when it is not the target, is unchanged.
   */
  lemma CopyAddsOne(vs: seq<TaskData>, ti: nat, n: ExplorationNote, newId: string, now: int)
    requires ti < |vs|
    ensures var ws := NoteCopied(vs, ti, n, newId, now);
            var copy := NewNote(newId, n.content, n.insight, n.isBreakthrough, now);
            && AllNotes(ws) == AllNotes(vs) + multiset{copy}
            && copy.content == n.content && copy.insight == n.insight && copy.isBreakthrough == n.isBreakthrough
            && copy.id == newId
            && (forall i :: 0 <= i < |vs| && i != ti ==> ws[i] == vs[i])
  {
    var copy := NewNote(newId, n.content, n.insight, n.isBreakthrough, now);
    AllNotesAppend(vs, ti, WithNotes(vs[ti], vs[ti].explorationNotes + [copy], now), [copy]);
  }

  // ---------------------------------------------------------------------------
  // Merging the notes of several tasks (`merge_tasks_exploration_notes`)
  // ---------------------------------------------------------------------------

  /** What a merge reports: failure, success into an existing task, or the id of the task it created. */
  datatype MergeOutcome = MergeFailed | MergedIntoExisting | MergedIntoNew(id: string)

  predicate AllKnown(vs: seq<TaskData>, ids: seq<string>) {
    forall j :: 0 <= j < |ids| ==> ids[j] in TaskIds(vs)
  }

  /** The positions of the tasks named by `ids`, in the order they are named. */
  function SourceIndices(vs: seq<TaskData>, ids: seq<string>): (ps: seq<nat>)
    requires AllKnown(vs, ids)
    ensures |ps| == |ids| && forall j :: 0 <= j < |ids| ==> ps[j] == TaskIndex(vs, ids[j]) && ps[j] < |vs|
  {
    seq(|ids|, j requires 0 <= j < |ids| && AllKnown(vs, ids) => TaskIndex(vs, ids[j]))
  }

  /**
   * Task `ti` after receiving the merged notes of the tasks at `sources`,
   * with each note id appended at most once (the corrected de-duplication).
   */
  function MergeInto(ws: seq<TaskData>, sources: seq<nat>, ti: nat, now: int): (r: seq<TaskData>)
    requires ti < |ws| && forall j :: 0 <= j < |sources| ==> sources[j] < |ws|
    ensures |r| == |ws| && forall i :: 0 <= i < |ws| && i != ti ==> r[i] == ws[i]
  {
    ws[ti := ws[ti].(explorationNotes := MergedFrom(ws, sources, ti), updatedAt := now)]
  }

  /**
   * The outcome and the task list after a merge. It fails, changing nothing,
   * for an empty source list, an unknown source, or (without a new title) an
   * unknown target. With a title it first creates an exploring task with a
   * known goal and unknown method and merges into it.
   */
  function Merge(vs: seq<TaskData>, sourceIds: seq<string>, targetId: string, newTitle: string, newId: string,
                 now: int): (r: (MergeOutcome, seq<TaskData>))
    ensures r.0 == MergeFailed <==>
      sourceIds == [] || !AllKnown(vs, sourceIds) || (newTitle == "" && targetId !in TaskIds(vs))
    ensures r.0 == MergeFailed ==> r.1 == vs
    ensures r.0 == MergedIntoExisting <==> r.0 != MergeFailed && newTitle == ""
    ensures r.0.MergedIntoNew? ==> r.0.id == newId
  {
    if sourceIds == [] || !AllKnown(vs, sourceIds) then (MergeFailed, vs)
    else if newTitle != "" then
      var ws := vs + [NewTask(vs, newId, newTitle, "", TaskMode.Exploring, KnownWhatUnknownHow, 0, now)];
      (MergedIntoNew(newId), MergeInto(ws, SourceIndices(vs, sourceIds), |vs|, now))
    else if targetId !in TaskIds(vs) then (MergeFailed, vs)
    else (MergedIntoExisting, MergeInto(vs, SourceIndices(vs, sourceIds), TaskIndex(vs, targetId), now))
  }

  /**
   * A merge into an existing task changes only that task, keeps its notes as
   * a prefix, appends the sources' notes in ascending creation order, leaves
   * no source note missing by id, and keeps the ids distinct when they were.
   */
  lemma MergeIntoExistingFacts(vs: seq<TaskData>, sourceIds: seq<string>, targetId: string, newId: string, now: int)
    requires Merge(vs, sourceIds, targetId, "", newId, now).0 == MergedIntoExisting
    ensures var ws := Merge(vs, sourceIds, targetId, "", newId, now).1;
            var ti := TaskIndex(vs, targetId);
            var before, after := vs[ti].explorationNotes, ws[ti].explorationNotes;
            && |ws| == |vs| && ti < |vs|
            && (forall i :: 0 <= i < |vs| && i != ti ==> ws[i] == vs[i])
            && |after| >= |before| && after[..|before|] == before
            && AscendingByCreation(after[|before|..])
            && (forall j, n :: 0 <= j < |sourceIds| && n in vs[TaskIndex(vs, sourceIds[j])].explorationNotes
                  ==> n.id in NoteIds(after))
            && (DistinctIds(before) ==> DistinctIds(after))
            && ws[ti].updatedAt == now
  {
    var ti := TaskIndex(vs, targetId);
    var sources := SourceIndices(vs, sourceIds);
    var sorted := SortedByCreation(Gathered(vs, sources));
    var after := MergedNotes(vs[ti].explorationNotes, sorted);
    forall j, n | 0 <= j < |sourceIds| && n in vs[TaskIndex(vs, sourceIds[j])].explorationNotes
      ensures n.id in NoteIds(after)
    {
      assert n in Gathered(vs, sources);
      assert n in sorted;
    }
  }

  /**
   * Merging into a new task appends one exploring task, with a known goal and
   * unknown method, holding the sources' notes in ascending creation order
   * with distinct ids; the existing tasks, the sources included, are unchanged.
   */
  lemma MergeIntoNewFacts(vs: seq<TaskData>, sourceIds: seq<string>, targetId: string, newTitle: string,
                          newId: string, now: int)
    requires newTitle != "" && Merge(vs, sourceIds, targetId, newTitle, newId, now).0 != MergeFailed
    ensures var ws := Merge(vs, sourceIds, targetId, newTitle, newId, now).1;
            var t := ws[|ws| - 1];
            && |ws| == |vs| + 1 && ws[..|vs|] == vs
            && t.id == newId && t.title == newTitle && t.order == |vs|
            && t.mode == TaskMode.Exploring && t.status == TaskStatus.Exploring && t.knowledge == KnownWhatUnknownHow
            && AscendingByCreation(t.explorationNotes) && DistinctIds(t.explorationNotes)
            && (forall j, n :: 0 <= j < |sourceIds| && n in vs[TaskIndex(vs, sourceIds[j])].explorationNotes
                  ==> n.id in NoteIds(t.explorationNotes))
  {
    var ws0 := vs + [NewTask(vs, newId, newTitle, "", TaskMode.Exploring, KnownWhatUnknownHow, 0, now)];
    var sources := SourceIndices(vs, sourceIds);
    var sorted := SortedByCreation(Gathered(ws0, sources));
    var after := MergedNotes([], sorted);
    assert after[0..] == after;
    forall j, n | 0 <= j < |sourceIds| && n in vs[TaskIndex(vs, sourceIds[j])].explorationNotes
      ensures n.id in NoteIds(after)
    {
      assert ws0[sources[j]] == vs[sources[j]];
      assert n in Gathered(ws0, sources);
      assert n in sorted;
    }
    var ws := MergeInto(ws0, sources, |vs|, now);
    assert ws[..|vs|] == vs;
  }

  /**
   * Repeating a merge into an existing task adds no note: the second merge
   * changes nothing but the target's modification time.
   */
  lemma RepeatedMergeIsIdle(vs: seq<TaskData>, sourceIds: seq<string>, targetId: string, newId: string,
                            now: int, later: int)
    requires Merge(vs, sourceIds, targetId, "", newId, now).0 == MergedIntoExisting
    ensures var once := Merge(vs, sourceIds, targetId, "", newId, now).1;
            var ti := TaskIndex(vs, targetId);
            Merge(once, sourceIds, targetId, "", newId, later) == (MergedIntoExisting, once[ti := once[ti].(updatedAt := later)])
  {
    var once := Merge(vs, sourceIds, targetId, "", newId, now).1;
    var ti := TaskIndex(vs, targetId);
    var sources := SourceIndices(vs, sourceIds);
    assert TaskIds(once) == TaskIds(vs) by {
      assert forall i :: 0 <= i < |vs| ==> once[i].id == vs[i].id;
    }
    assert SourceIndices(once, sourceIds) == sources;
    RepeatedMergeAddsNothing(vs, sources, ti, now);
  }
}
