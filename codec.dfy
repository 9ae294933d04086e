/**
 * The persisted form of the task collection and the tolerant mapping between
 * it and the entity model (`_task_to_dict` / `_dict_to_task`).
 *
 * A JSON object is a record whose fields are `Option`s: `None` is a key that
 * is absent (or, for `completed_at`, holds null). Instants stand for the
 * ISO-8601 strings the document holds. Enumerations are stored by name.
 * A missing required key or an unknown enumeration name makes the Python
 * lookup raise `KeyError`; here parsing then yields `None`.
 */
module Codec {
  import opened Wrappers
  import opened Models

  datatype SubTaskDict = SubTaskDict(
    id: Option<string>,
    title: Option<string>,
    description: Option<string>,
    status: Option<string>,
    order: Option<int>,
    createdAt: Option<int>,
    completedAt: Option<int>,
    notes: Option<string>)

  datatype NoteDict = NoteDict(
    id: Option<string>,
    content: Option<string>,
    insight: Option<string>,
    createdAt: Option<int>,
    updatedAt: Option<int>,
    isBreakthrough: Option<bool>)

  /** One entry of the document's `tasks` list; `explorationHistory` is the legacy note list. */
  datatype TaskDict = TaskDict(
    id: Option<string>,
    title: Option<string>,
    description: Option<string>,
    order: Option<int>,
    status: Option<string>,
    mode: Option<string>,
    knowledge: Option<string>,
    subtasks: Option<seq<SubTaskDict>>,
    explorationNotes: Option<seq<NoteDict>>,
    explorationHistory: Option<seq<NoteDict>>,
    createdAt: Option<int>,
    updatedAt: Option<int>,
    completedAt: Option<int>,
    priority: Option<int>,
    tags: Option<seq<string>>,
    conclusion: Option<string>)

  /** The whole persisted document. */
  datatype Document = Document(tasks: Option<seq<TaskDict>>, lastUpdated: Option<int>)

  // ---------------------------------------------------------------------------
  // Enumerations by name (`.name` and `Enum[name]`)
  // ---------------------------------------------------------------------------

  function StatusName(s: TaskStatus): string {
    match s
    case Pending => "PENDING"
    case InProgress => "IN_PROGRESS"
    case Exploring => "EXPLORING"
    case Completed => "COMPLETED"
    case Paused => "PAUSED"
  }

  /** `TaskStatus[name]`: the status with that name, if there is one. */
  function ParseStatus(name: string): (r: Option<TaskStatus>)
    ensures r.Some? ==> StatusName(r.value) == name
    ensures forall s :: StatusName(s) == name ==> r == Some(s)
  {
    if name == "PENDING" then Some(Pending)
    else if name == "IN_PROGRESS" then Some(InProgress)
    else if name == "EXPLORING" then Some(TaskStatus.Exploring)
    else if name == "COMPLETED" then Some(Completed)
    else if name == "PAUSED" then Some(Paused)
    else None
  }

  function ModeName(m: TaskMode): string {
    match m
    case Planning => "PLANNING"
    case Exploring => "EXPLORING"
  }

  /** `TaskMode[name]`: the mode with that name, if there is one. */
  function ParseMode(name: string): (r: Option<TaskMode>)
    ensures r.Some? ==> ModeName(r.value) == name
    ensures forall m :: ModeName(m) == name ==> r == Some(m)
  {
    if name == "PLANNING" then Some(Planning)
    else if name == "EXPLORING" then Some(TaskMode.Exploring)
    else None
  }

  function KnowledgeName(k: TaskKnowledge): string {
    match k
    case KnownWhatKnownHow => "KNOWN_WHAT_KNOWN_HOW"
    case KnownWhatUnknownHow => "KNOWN_WHAT_UNKNOWN_HOW"
    case UnknownWhat => "UNKNOWN_WHAT"
  }

  /** `TaskKnowledge[name]`: the knowledge state with that name, if there is one. */
  function ParseKnowledge(name: string): (r: Option<TaskKnowledge>)
    ensures r.Some? ==> KnowledgeName(r.value) == name
    ensures forall k :: KnowledgeName(k) == name ==> r == Some(k)
  {
    if name == "KNOWN_WHAT_KNOWN_HOW" then Some(KnownWhatKnownHow)
    else if name == "KNOWN_WHAT_UNKNOWN_HOW" then Some(KnownWhatUnknownHow)
    else if name == "UNKNOWN_WHAT" then Some(UnknownWhat)
    else None
  }

  // ---------------------------------------------------------------------------
  // Serialisation (`_task_to_dict`)
  // ---------------------------------------------------------------------------

  function SubTaskToDict(s: SubTask): SubTaskDict {
    SubTaskDict(Some(s.id), Some(s.title), Some(s.description), Some(StatusName(s.status)),
                Some(s.order), Some(s.createdAt), s.completedAt, Some(s.notes))
  }

  function NoteToDict(n: ExplorationNote): NoteDict {
    NoteDict(Some(n.id), Some(n.content), Some(n.insight), Some(n.createdAt), Some(n.updatedAt),
             Some(n.isBreakthrough))
  }

  function SubTasksToDicts(ss: seq<SubTask>): (ds: seq<SubTaskDict>)
    ensures |ds| == |ss| && forall k :: 0 <= k < |ss| ==> ds[k] == SubTaskToDict(ss[k])
  {
    seq(|ss|, k requires 0 <= k < |ss| => SubTaskToDict(ss[k]))
  }

  function NotesToDicts(ns: seq<ExplorationNote>): (ds: seq<NoteDict>)
    ensures |ds| == |ns| && forall k :: 0 <= k < |ns| ==> ds[k] == NoteToDict(ns[k])
  {
    seq(|ns|, k requires 0 <= k < |ns| => NoteToDict(ns[k]))
  }

  /** Every field written under its key; the legacy history key is never written. */
  function TaskToDict(t: TaskData): TaskDict {
    TaskDict(Some(t.id), Some(t.title), Some(t.description), Some(t.order),
             Some(StatusName(t.status)), Some(ModeName(t.mode)), Some(KnowledgeName(t.knowledge)),
             Some(SubTasksToDicts(t.subtasks)), Some(NotesToDicts(t.explorationNotes)), None,
             Some(t.createdAt), Some(t.updatedAt), t.completedAt, Some(t.priority), Some(t.tags),
             Some(t.conclusion))
  }

  /** The document `_save` writes: every task in list order, stamped with `now`. */
  function EncodeDocument(ts: seq<TaskData>, now: int): (doc: Document)
    ensures doc.tasks.Some? && |doc.tasks.value| == |ts|
  {
    Document(Some(seq(|ts|, k requires 0 <= k < |ts| => TaskToDict(ts[k]))), Some(now))
  }

  // ---------------------------------------------------------------------------
  // Tolerant parsing (`_dict_to_task`)
  // ---------------------------------------------------------------------------

  /** A subtask from its dict: `order` defaults to 0, text fields to empty. */
  function ParseSubTask(d: SubTaskDict): (r: Option<SubTask>)
    ensures r.Some? <==> d.id.Some? && d.title.Some? && d.status.Some? && d.createdAt.Some?
                         && ParseStatus(d.status.value).Some?
    ensures r.Some? ==> && r.value.id == d.id.value && r.value.title == d.title.value
                        && StatusName(r.value.status) == d.status.value
                        && r.value.createdAt == d.createdAt.value
                        && r.value.order == d.order.GetOr(0)
                        && r.value.description == d.description.GetOr("")
                        && r.value.notes == d.notes.GetOr("")
                        && r.value.completedAt == d.completedAt
  {
    if d.id.None? || d.title.None? || d.status.None? || d.createdAt.None? then None
    else
      match ParseStatus(d.status.value)
      case None => None
      case Some(status) =>
        Some(SubTask(d.id.value, d.title.value, d.description.GetOr(""), status, d.order.GetOr(0),
                     d.createdAt.value, d.completedAt, d.notes.GetOr("")))
  }

  /** A note from its dict: `updated_at` defaults to `created_at`, `insight` to empty, the flag to false. */
  function ParseNote(d: NoteDict): (r: Option<ExplorationNote>)
    ensures r.Some? <==> d.id.Some? && d.content.Some? && d.createdAt.Some?
    ensures r.Some? ==> && r.value.id == d.id.value && r.value.content == d.content.value
                        && r.value.createdAt == d.createdAt.value
                        && r.value.updatedAt == d.updatedAt.GetOr(d.createdAt.value)
                        && r.value.insight == d.insight.GetOr("")
                        && r.value.isBreakthrough == d.isBreakthrough.GetOr(false)
  {
    if d.id.None? || d.content.None? || d.createdAt.None? then None
    else
      Some(ExplorationNote(d.id.value, d.content.value, d.insight.GetOr(""), d.createdAt.value,
                           d.updatedAt.GetOr(d.createdAt.value), d.isBreakthrough.GetOr(false)))
  }

  /** Parses every entry in order; one bad entry fails the whole list. */
  function ParseSubTasks(ds: seq<SubTaskDict>): (r: Option<seq<SubTask>>)
    ensures r.Some? <==> forall k :: 0 <= k < |ds| ==> ParseSubTask(ds[k]).Some?
    ensures r.Some? ==> |r.value| == |ds| && forall k :: 0 <= k < |ds| ==> ParseSubTask(ds[k]) == Some(r.value[k])
  {
    if ds == [] then Some([])
    else
      var init := ds[..|ds| - 1];
      assert forall k :: 0 <= k < |init| ==> init[k] == ds[k];
      match ParseSubTasks(init)
      case None => None
      case Some(front) =>
        match ParseSubTask(ds[|ds| - 1])
        case None => None
        case Some(last) =>
          var r := front + [last];
          assert forall k :: 0 <= k < |init| ==> ParseSubTask(ds[k]) == Some(r[k]);
          Some(r)
  }

  /** Parses every entry in order; one bad entry fails the whole list. */
  function ParseNotes(ds: seq<NoteDict>): (r: Option<seq<ExplorationNote>>)
    ensures r.Some? <==> forall k :: 0 <= k < |ds| ==> ParseNote(ds[k]).Some?
    ensures r.Some? ==> |r.value| == |ds| && forall k :: 0 <= k < |ds| ==> ParseNote(ds[k]) == Some(r.value[k])
  {
    if ds == [] then Some([])
    else
      var init := ds[..|ds| - 1];
      assert forall k :: 0 <= k < |init| ==> init[k] == ds[k];
      match ParseNotes(init)
      case None => None
      case Some(front) =>
        match ParseNote(ds[|ds| - 1])
        case None => None
        case Some(last) =>
          var r := front + [last];
          assert forall k :: 0 <= k < |init| ==> ParseNote(ds[k]) == Some(r[k]);
          Some(r)
  }

  /**
   * A task from its dict, given its position `defaultOrder` in the document.
   * Optional keys take their defaults; legacy history entries are appended
   * after the directly stored notes.
   */
  function ParseTask(d: TaskDict, defaultOrder: int): (r: Option<TaskData>)
    ensures r.Some? ==> && d.id == Some(r.value.id) && d.title == Some(r.value.title)
                        && d.createdAt == Some(r.value.createdAt) && d.updatedAt == Some(r.value.updatedAt)
                        && d.status == Some(StatusName(r.value.status))
                        && d.mode == Some(ModeName(r.value.mode))
                        && d.knowledge == Some(KnowledgeName(r.value.knowledge))
                        && r.value.order == d.order.GetOr(defaultOrder)
                        && r.value.description == d.description.GetOr("")
                        && r.value.priority == d.priority.GetOr(0)
                        && r.value.tags == d.tags.GetOr([])
                        && r.value.conclusion == d.conclusion.GetOr("")
                        && r.value.completedAt == d.completedAt
  {
    if || d.id.None? || d.title.None? || d.createdAt.None? || d.updatedAt.None?
       || d.status.None? || d.mode.None? || d.knowledge.None? then None
    else
      match (ParseStatus(d.status.value), ParseMode(d.mode.value), ParseKnowledge(d.knowledge.value))
      case (Some(status), Some(mode), Some(knowledge)) =>
        (match (ParseSubTasks(d.subtasks.GetOr([])), ParseNotes(d.explorationNotes.GetOr([])),
                ParseNotes(d.explorationHistory.GetOr([])))
         case (Some(subtasks), Some(notes), Some(history)) =>
           Some(TaskData(d.id.value, d.title.value, d.description.GetOr(""), d.order.GetOr(defaultOrder),
                         status, mode, knowledge, subtasks, notes + history, d.createdAt.value,
                         d.updatedAt.value, d.completedAt, d.priority.GetOr(0), d.tags.GetOr([]),
                         d.conclusion.GetOr("")))
         case _ => None)
      case _ => None
  }

  /**
   * What `_dict_to_task` does with the child lists: it fails when a required
   * key is missing or a name is unknown, and otherwise parses the subtasks and
   * appends the legacy history entries after the stored notes, in order.
   */
  lemma ParseTaskChildren(d: TaskDict, defaultOrder: int)
    ensures ParseTask(d, defaultOrder).None? <==>
              || d.id.None? || d.title.None? || d.createdAt.None? || d.updatedAt.None?
              || d.status.None? || ParseStatus(d.status.value).None?
              || d.mode.None? || ParseMode(d.mode.value).None?
              || d.knowledge.None? || ParseKnowledge(d.knowledge.value).None?
              || ParseSubTasks(d.subtasks.GetOr([])).None?
              || ParseNotes(d.explorationNotes.GetOr([])).None?
              || ParseNotes(d.explorationHistory.GetOr([])).None?
    ensures ParseTask(d, defaultOrder).Some? ==>
              && Some(ParseTask(d, defaultOrder).value.subtasks) == ParseSubTasks(d.subtasks.GetOr([]))
              && ParseTask(d, defaultOrder).value.explorationNotes
                 == ParseNotes(d.explorationNotes.GetOr([])).value + ParseNotes(d.explorationHistory.GetOr([])).value
  {
  }

  /**
   * Parses every task of the list, the task at position `k` defaulting its
   * order to `k`; one task that does not parse fails the whole list.
   */
  function ParseTasks(ds: seq<TaskDict>): (r: Option<seq<TaskData>>)
    ensures r.Some? <==> forall k :: 0 <= k < |ds| ==> ParseTask(ds[k], k).Some?
    ensures r.Some? ==> |r.value| == |ds| && forall k :: 0 <= k < |ds| ==> ParseTask(ds[k], k) == Some(r.value[k])
  {
    if forall k :: 0 <= k < |ds| ==> ParseTask(ds[k], k).Some? then
      Some(seq(|ds|, k requires 0 <= k < |ds| => ParseTask(ds[k], k).value))
    else None
  }

  /** The task list `_load` builds from a document; a document without `tasks` holds none. */
  function DecodeDocument(doc: Document): (r: Option<seq<TaskData>>)
    ensures doc.tasks.None? ==> r == Some([])
    ensures doc.tasks.Some? ==> r == ParseTasks(doc.tasks.value)
  {
    ParseTasks(doc.tasks.GetOr([]))
  }

  // ---------------------------------------------------------------------------
  // Round trip
  // ---------------------------------------------------------------------------

  lemma EnumNamesRoundTrip(s: TaskStatus, m: TaskMode, k: TaskKnowledge)
    ensures ParseStatus(StatusName(s)) == Some(s)
    ensures ParseMode(ModeName(m)) == Some(m)
    ensures ParseKnowledge(KnowledgeName(k)) == Some(k)
  {
  }

  lemma SubTaskRoundTrip(s: SubTask)
    ensures ParseSubTask(SubTaskToDict(s)) == Some(s)
  {
    EnumNamesRoundTrip(s.status, Planning, UnknownWhat);
  }

  /** Writing a subtask list and reading it back gives the same subtasks. */
  lemma SubTasksRoundTrip(ss: seq<SubTask>)
    ensures ParseSubTasks(SubTasksToDicts(ss)) == Some(ss)
  {
    var ds := SubTasksToDicts(ss);
    forall k | 0 <= k < |ss| ensures ParseSubTask(ds[k]) == Some(ss[k]) {
      SubTaskRoundTrip(ss[k]);
    }
    var r := ParseSubTasks(ds);
    assert r.Some?;
    assert r.value == ss;
  }

  /** Writing a note list and reading it back gives the same notes. */
  lemma NotesRoundTrip(ns: seq<ExplorationNote>)
    ensures ParseNotes(NotesToDicts(ns)) == Some(ns)
  {
    var ds := NotesToDicts(ns);
    assert forall k :: 0 <= k < |ns| ==> ParseNote(ds[k]) == Some(ns[k]);
    var r := ParseNotes(ds);
    assert r.Some?;
    assert r.value == ns;
  }

  /** `_dict_to_task(_task_to_dict(t), i)` reproduces every field of `t`, whatever `i` is. */
  lemma TaskRoundTrip(t: TaskData, defaultOrder: int)
    ensures ParseTask(TaskToDict(t), defaultOrder) == Some(t)
  {
    SubTasksRoundTrip(t.subtasks);
    NotesRoundTrip(t.explorationNotes);
    EnumNamesRoundTrip(t.status, t.mode, t.knowledge);
    var d := TaskToDict(t);
    assert ParseSubTasks(d.subtasks.GetOr([])) == Some(t.subtasks);
    assert ParseNotes(d.explorationNotes.GetOr([])) == Some(t.explorationNotes);
    assert ParseNotes(d.explorationHistory.GetOr([])) == Some([]);
    assert t.explorationNotes + [] == t.explorationNotes;
  }

  /** Saving a task collection and loading it back reproduces it. */
  lemma {:induction false} DocumentRoundTrip(ts: seq<TaskData>, now: int)
    ensures DecodeDocument(EncodeDocument(ts, now)) == Some(ts)
  {
    var ds := EncodeDocument(ts, now).tasks.value;
    forall k | 0 <= k < |ts| ensures ParseTask(ds[k], k) == Some(ts[k]) {
      TaskRoundTrip(ts[k], k);
    }
    ParsedTasksUnique(ds, ts);
  }

  lemma ParsedTasksUnique(ds: seq<TaskDict>, ts: seq<TaskData>)
    requires |ds| == |ts| && forall k :: 0 <= k < |ds| ==> ParseTask(ds[k], k) == Some(ts[k])
    ensures ParseTasks(ds) == Some(ts)
  {
    var r := ParseTasks(ds);
    assert r.Some?;
    assert r.value == ts;
  }
}
