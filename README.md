# Research task tracker — data layer in Dafny

This project models the data layer of a desktop tracker for research work.
A *task* is either planned (a list of ordered *subtasks*) or explored (a
timeline of *exploration notes*). Each task has a status, a mode and a
knowledge level. Tasks change through one repository object, which keeps
them in a list and writes them to a JSON document.

The model has these modules:

- `Models` (models.dfy): the entities and the enumerations. `Task` is a class, because `models.py`
  updates its fields in place. Its value at one moment is the datatype `TaskData`.
  `SubTask` and `ExplorationNote` are datatypes held in sequence fields. The
  module covers the task's own behaviours: add a subtask, add a note, progress,
  complete a subtask (which may complete the task), and switch mode.
- `Codec` (codec.dfy): the dictionary form of a task (`_task_to_dict`) and its tolerant
  parser (`_dict_to_task`). The parser fills defaults for missing keys and folds
  the legacy `exploration_history` into the notes. Round trips are proved.
- `Sequences` and `Text` (sequences.dfy, text.dfy): list lookup, `pop`, swap, and a
  stable sort by an integer key. Also ASCII lower-casing, `strip` and substring tests.
- `NoteLists`, `Search` and `Operations` (notelists.dfy, search.dfy, operations.dfy):
  each repository operation as a function on the list of task values, with its properties as lemmas.
- `Repository` (database.dfy): the class `Database`, whose `tasks: seq<Task>` is changed
  in place. Each method's `ensures` ties the new list of task values to the
  operation function of the same name. `Valid()` says no task object is
  listed twice.

Instants are integers supplied by the caller (`now`). Fresh ids are
parameters with a freshness precondition.

## Model

| member | source | states |
|---|---|---|
| Sequences.FirstIndex | database.py:181-186 | the first position holding the key, or the length when it is absent; no earlier position holds it |
| Sequences.FindFirst | database.py:181-186 | the linear scan by id stops exactly at FirstIndex |
| Sequences.RemoveAt | database.py:211-220 | `pop(i)`: one element shorter, elements before `i` kept, later ones shifted down by one |
| Sequences.RemoveAtMultiset | database.py:211-220 | popping takes out exactly the element at `i` and nothing else |
| Sequences.Swap | database.py:289-305 | the two positions exchange elements, every other position is kept, the multiset is unchanged |
| Sequences.InsertAddsOne | database.py:271 | one insertion step adds exactly the inserted position |
| Sequences.InsertSorted | database.py:271 | inserting a new position into a stably sorted list keeps it stably sorted |
| Sequences.SortPrefixSorts | database.py:271 | insertion sort of the first n positions lists each once, in (key, position) order |
| Sequences.SortIndices | database.py:271 | the stable sort returns one valid position per element |
| Sequences.SortIndicesSorts | database.py:271 | the stable sort is a permutation of all positions, increasing by key and by position among equal keys |
| Sequences.PermutationCovers | database.py:271 | a permutation of the positions names every position and only positions |
| Sequences.SortedUnique | database.py:271 | there is exactly one stable order: two stably sorted permutations are equal |
| Text.LowerChar | database.py:414 | ASCII lower-casing: upper-case letters move by 32, other characters are kept, no upper-case letter remains |
| Text.Lower | database.py:414 | `lower()` keeps the length and lower-cases each character |
| Text.LowerIdempotent | database.py:424 | lower-casing twice equals lower-casing once |
| Text.TrimStart | database.py:429 | drops exactly the leading whitespace |
| Text.TrimEnd | database.py:429 | drops exactly the trailing whitespace |
| Text.Strip | database.py:429 | `strip()` is empty exactly when the text is all whitespace; otherwise it starts and ends with non-space |
| Text.ContainsAt | database.py:423-425 | `needle in hay` holds exactly when the needle occurs at some position of the hay |
| Text.ContainsEmpty | database.py:412-421 | the empty keyword occurs in every text |
| Models.CountCompleted | models.py:135-140 | the completed count is at most the total; it equals the total exactly when all are completed, and is 0 exactly when none is |
| Models.HealCompletion | database.py:244-248 | the self-healing rule: the result is consistent; a consistent task is unchanged; an inconsistent one becomes IN_PROGRESS with `completed_at` cleared |
| Models.Renumbered | database.py:260-261 | each subtask's `order` becomes its list position and nothing else changes |
| Models.SubtaskCompleted | models.py:142-154 | unknown id: unchanged. Known id: the first subtask with it becomes COMPLETED at `now`, the others are kept, the task is stamped, and it becomes COMPLETED exactly when all subtasks are; no other field changes |
| Models.CompletingLastSubtaskCompletesTask | models.py:150-153 | completing the last incomplete subtask makes the task COMPLETED with `completed_at` set |
| Models.SubtaskCompletedConsistent | models.py:142-154 | completing a subtask preserves the rule "a COMPLETED task has no incomplete subtask" |
| Models.Task.constructor | models.py:87-111 | a new task has the given fields, no children, both instants `now`, no completion time, no tags, no conclusion |
| Models.Task.FromData | database.py:101-161 | a task object built from a parsed value has exactly that value |
| Models.Task.AddSubtask | models.py:113-122 | appends one PENDING subtask whose `order` is the old subtask count, returns it, keeps the earlier subtasks, stamps the task |
| Models.Task.AddExplorationNote | models.py:124-133 | appends one note with the given content, insight and flag, returns it, keeps the earlier notes, stamps the task |
| Models.Task.Progress | models.py:135-140 | progress as a ratio in [0,1]: no subtasks gives 1 iff COMPLETED, else 0; otherwise completed/total, full iff all are completed and zero iff none is |
| Models.Task.CompleteSubtask | models.py:142-154 | returns true iff the id is known, and the new state is SubtaskCompleted of the old one |
| Models.Task.SwitchToExploring | models.py:156-161 | mode EXPLORING, status EXPLORING, knowledge KNOWN_WHAT_UNKNOWN_HOW, stamped; subtasks, notes and conclusion unchanged |
| Models.Task.SwitchToPlanning | models.py:163-169 | mode PLANNING, status IN_PROGRESS, knowledge KNOWN_WHAT_KNOWN_HOW, stamped; notes and conclusion kept |
| Codec.ParseStatus | database.py:108 | `TaskStatus[name]` succeeds exactly on a status name and returns the status with that name |
| Codec.ParseMode | database.py:109 | `TaskMode[name]` succeeds exactly on a mode name and returns that mode |
| Codec.ParseKnowledge | database.py:110 | `TaskKnowledge[name]` succeeds exactly on a knowledge name and returns that level |
| Codec.SubTasksToDicts | database.py:69-81 | one dictionary per subtask, in order |
| Codec.NotesToDicts | database.py:82-92 | one dictionary per note, in order |
| Codec.EncodeDocument | database.py:50-57 | the saved document lists one dictionary per task |
| Codec.ParseSubTask | database.py:120-131 | parses iff id, title, status and created_at are present and the status is a name; missing order is 0, missing description and notes are empty |
| Codec.ParseNote | database.py:134-143 | parses iff id, content and created_at are present; missing updated_at is created_at, missing insight is empty, missing flag is false |
| Codec.ParseSubTasks | database.py:120-132 | the subtask list parses iff every entry does, entry by entry, in order |
| Codec.ParseNotes | database.py:134-144 | the note list parses iff every entry does, entry by entry, in order |
| Codec.ParseTask | database.py:101-161 | required fields are taken as stored (id, title, timestamps, and status, mode and knowledge by member name); missing order is the position, missing description, tags and conclusion are empty, missing priority is 0 |
| Codec.ParseTaskChildren | database.py:116-159 | a task fails to parse exactly when a required key, an enum name or a child entry is missing or bad; legacy `exploration_history` notes follow the stored notes in their own order |
| Codec.ParseTasks | database.py:44 | the stored list parses iff every task does with its own position as default order |
| Codec.DecodeDocument | database.py:38-48 | a document without `tasks` loads as no tasks; otherwise its task list is parsed |
| Codec.EnumNamesRoundTrip | database.py:66-68 | each enum value's name parses back to that value |
| Codec.SubTaskRoundTrip | database.py:70-79 | a subtask's dictionary parses back to the same subtask |
| Codec.SubTasksRoundTrip | database.py:69-81 | a subtask list's dictionaries parse back to the same list |
| Codec.NotesRoundTrip | database.py:82-92 | a note list's dictionaries parse back to the same list |
| Codec.TaskRoundTrip | database.py:59-161 | `_dict_to_task(_task_to_dict(t), i)` reproduces every field of `t`, whatever the default order |
| Codec.DocumentRoundTrip | database.py:38-57 | loading a saved document gives back the same tasks |
| Codec.ParsedTasksUnique | database.py:44 | a task list whose entries parse one by one parses as a whole to exactly those tasks |
| NoteLists.Selected | database.py:509 | exactly the notes whose id is listed, no more of them than the list holds (their order is stated by SelectedAppend) |
| NoteLists.SelectedOne | database.py:491 | one note is selected iff its id is listed, and kept iff it is not |
| NoteLists.SelectedAppend | database.py:509 | the selected notes of a concatenation are those of each part in turn, so the moved notes keep their relative order |
| NoteLists.Unselected | database.py:491 | exactly the notes whose id is not listed, no more of them than the list holds (their order is stated by UnselectedAppend) |
| NoteLists.UnselectedAppend | database.py:491 | the kept notes of a concatenation are those of each part in turn, so the remaining notes keep their relative order |
| NoteLists.SelectionPartitions | database.py:509-515 | selected and unselected notes together are the notes, once each; nothing is dropped iff nothing is selected |
| NoteLists.SelectionSplitsNotes | database.py:509-515 | the multiset of the notes splits into the selected and the unselected ones |
| NoteLists.NothingSelectedKeepsAll | database.py:492-493 | when filtering removes nothing, the filtered list is the original list |
| NoteLists.AllNotesUpdate | database.py:455-522 | replacing one task changes the multiset of all notes by exactly that task's notes |
| NoteLists.AllNotesUpdateBefore | database.py:455-522 | the same accounting when the replaced task is not the last one |
| NoteLists.AllNotesSameNotes | database.py:455-522 | replacing a task by one with the same notes keeps all notes |
| NoteLists.NotesTransferred | database.py:455-481 | after a transfer the source keeps the remaining notes, the target gets the moved notes at its end, both are stamped, and the other tasks are unchanged |
| NoteLists.TransferredInPlace | database.py:513-519 | a transfer is the source update followed by the target update, also when source and target coincide |
| NoteLists.AllNotesAppend | database.py:516 | appending notes to one task adds exactly those notes to all notes |
| NoteLists.AllNotesSplit | database.py:513-515 | taking the moved notes out of the source leaves all notes minus the moved ones |
| NoteLists.TransferConservesNotes | database.py:455-522 | a move between tasks neither loses nor duplicates a note |
| NoteLists.SortedByCreation | database.py:587 | `sort(key=created_at)`: same length, ascending creation time, same notes, in the stable order |
| NoteLists.SortedByCreationFacts | database.py:587 | arranging notes by a stable permutation of positions gives ascending creation times and misses no note |
| NoteLists.Gathered | database.py:582-584 | the gathered notes are exactly the notes of the listed sources |
| NoteLists.GatheredStep | database.py:583-584 | gathering one more source appends that source's notes |
| NoteLists.IdSet | database.py:590 | the set of ids held by the notes |
| NoteLists.Unseen | database.py:590-593 | corrected filter: only notes whose id is not held, each appended id then counting as held; ids come out distinct and every incoming id ends up held |
| NoteLists.UnseenAscending | database.py:587-593 | filtering keeps the ascending creation order |
| NoteLists.UnseenOfSeen | database.py:590-593 | when every incoming id is held, nothing is appended |
| NoteLists.UnseenStep | database.py:591-593 | one loop step: the note is appended unless its id is held, and its id is held afterwards |
| NoteLists.MergedNotes | database.py:589-593 | the target's notes stay first and unchanged; only new incoming notes follow, in ascending order; every incoming id ends up in the target; distinct ids stay distinct |
| NoteLists.MergedNotesFacts | database.py:589-593 | the merged list starts with the target, covers every incoming id and keeps ids distinct and order ascending |
| NoteLists.MergeIdempotent | database.py:589-593 | merging the same incoming notes twice equals merging them once |
| NoteLists.RepeatedMergeAddsNothing | database.py:556-597 | repeating a merge with the same sources and target adds no note, even when the target is a source |
| NoteLists.UnseenAsWritten | database.py:590-593 | the filter as written keeps every incoming note whose id was not held before the loop |
| NoteLists.MergedNotesAsWritten | database.py:589-593 | the merge as written: target notes, then every incoming note whose id the target did not hold before the loop |
| NoteLists.UnseenAsWrittenIgnores | database.py:590-593 | adding an id that no incoming note carries to the skip set changes nothing |
| NoteLists.UnseenAgreesOnDistinct | database.py:590-593 | with distinct incoming ids the filter as written and the corrected filter give the same notes |
| NoteLists.MergedNotesAgreeOnDistinct | database.py:589-593 | with distinct incoming ids the merge as written and the corrected merge give the same target notes |
| NoteLists.GatheredTwice | database.py:582-584 | a source listed twice contributes its notes twice |
| NoteLists.SortedPair | database.py:587 | sorting two copies of one note keeps them |
| NoteLists.RepeatedSourceDuplicatesNotes | database.py:590-593 | as written, a source listed twice puts its note into an empty target twice (ids not distinct); the corrected merge adds it once |
| NoteLists.PairIntoEmpty | database.py:590-593 | as written, two incoming notes with one id are both appended; the corrected filter appends one |
| Search.MatchingPositions | database.py:412-421 | exactly the positions of the matching tasks, in increasing order |
| Search.MatchingPositionsStep | database.py:416-420 | scanning one more task adds its position iff it matches |
| Search.EmptyKeywordMatchesEveryTask | database.py:412-421 | every task matches the empty keyword |
| Search.EmptyKeywordMatchesAll | database.py:412-421 | the empty keyword finds every task, in list order |
| Search.NormalizedKeyword | database.py:429 | the stripped, lower-cased keyword is empty iff the keyword is all whitespace, and is already lower-case |
| Search.HitsAmong | database.py:448-451 | the hits among a task's first notes are exactly its matching notes wrapped with the task |
| Search.HitsIn | database.py:434-436 | a task's hits are exactly its matching notes wrapped with the task |
| Search.HitsAmongCount | database.py:448-451 | among a task's first notes, a matching note gives one hit per copy and a non-matching note none |
| Search.HitsInCount | database.py:434-436 | a task's hits hold each matching note as often as the task does |
| Search.HitsAcross | database.py:433-436 | the hits across tasks are exactly the hits in each scanned task |
| Search.GlobalNoteSearch | database.py:427-437 | empty for a whitespace keyword; otherwise exactly the hits in all tasks for the normalised keyword |
| Search.TaskNoteSearch | database.py:439-453 | empty for an unknown task or a whitespace keyword; otherwise exactly that task's hits |
| Operations.TaskIndex | database.py:181-186 | the position of the first task with the id, or the length when there is none |
| Operations.SubtaskIndex | database.py:238-239 | the position of the first subtask with the id, or the count when there is none |
| Operations.NoteIndex | database.py:333-334 | the position of the first note with the id, or the count when there is none |
| Operations.CreateTaskAppends | database.py:163-179 | the new task comes last and is found by its id; earlier tasks are unchanged; EXPLORING iff created exploring, else PENDING; no children; numbering by position is kept |
| Operations.TaskUpdateSetsNamedFields | database.py:200-209 | a named field takes the patch's value, any other keeps its value; id, children and creation time are kept; stamped |
| Operations.EmptyTaskPatch | database.py:200-209 | an update that names no field only stamps the task |
| Operations.DeleteTaskRemovesOne | database.py:211-220 | deleting removes exactly that task; the other ids keep their order |
| Operations.TasksRenumbered | database.py:301-302 | every task's `order` becomes its position and nothing else changes |
| Operations.MoveTaskSwapsNeighbours | database.py:289-305 | after a move the two neighbours are exchanged, all tasks are numbered 0..N-1, the others are kept, and the ids are the same |
| Operations.Neighbour | database.py:298-299 | the neighbour exists exactly when `c + direction` is inside the list |
| Operations.SubtaskAddedHeals | database.py:222-232 | after adding a subtask the task is never COMPLETED; the old subtasks stay first and the new one comes last |
| Operations.SubtaskUpdateHeals | database.py:234-251 | the update patches only that subtask and keeps its id; the task is consistent, stamped, and demoted from COMPLETED when the patch leaves a subtask incomplete |
| Operations.SubtaskDeleteRenumbers | database.py:253-265 | only the matched subtask goes; the rest keep their relative order and are numbered 0..N-2 |
| Operations.DisplayOrder | database.py:271 | the subtasks in `sorted(key=order)` order, one position per subtask |
| Operations.DisplayOrderArranges | database.py:271 | the display order is a permutation of the subtasks, stably sorted by `order` |
| Operations.IdsInOrder | database.py:273-274 | the ids of the subtasks in display order |
| Operations.SubtaskMoveArrangement | database.py:267-287 | a successful move yields a permutation of the subtasks |
| Operations.UnknownSubtaskNotMoved | database.py:267-287 | an unknown subtask id makes the move fail |
| Operations.SubtaskMoveSwapsNeighbours | database.py:272-281 | a known subtask at display position c moves iff `c + direction` is inside, and then exactly positions c and c+direction swap |
| Operations.FoundInDisplayOrder | database.py:272-278 | a known subtask is found in the display order |
| Operations.SwapKeepsArrangement | database.py:281 | swapping two entries of a permutation gives a permutation |
| Operations.Reordered | database.py:282-283 | each subtask takes as `order` its place in the new arrangement |
| Operations.ReorderedPositions | database.py:282-283 | the list itself keeps its order; each subtask's `order` is its index in the arrangement |
| Operations.ReorderedResorts | database.py:267-287 | sorting the renumbered subtasks by `order` gives back exactly the new arrangement |
| Operations.MoveSubtaskRenumbers | database.py:267-287 | a move changes only `order` fields, makes them a permutation of 0..N-1, and the display order becomes the swapped one |
| Operations.NoteUpdateKeepsIdentity | database.py:341-354 | the patch sets only named note fields, keeps the note's id and creation time, refreshes its modification time and the task's; other notes and all ids are kept |
| Operations.NoteSwapReversible | database.py:356-379 | reordering notes keeps the same notes, and swapping back restores the list |
| Operations.BatchDeleteRemovesListed | database.py:483-497 | exactly the listed notes go; the list shrinks iff some note is listed; removed and kept notes together are the old notes |
| Operations.MoveNoteConserves | database.py:455-481 | the moved note ends the target's list; it leaves the source, whose other notes keep their order; no note is lost or duplicated |
| Operations.BatchMoveConserves | database.py:499-522 | the selected notes end the target's list in their order; the source keeps the rest; no note is lost or duplicated |
| Operations.CopyAddsOne | database.py:524-554 | exactly one new note is added to the target: new id, same content, insight and flag; every other task is unchanged |
| Operations.SourceIndices | database.py:562-564 | the position of each named source task, in the order named |
| Operations.MergeInto | database.py:581-595 | only the target changes; its notes follow the corrected de-dup of the Findings row |
| Operations.Merge | database.py:556-597 | fails with no change exactly for no sources, an unknown source, or (without a title) an unknown target; with a title it reports the new id; the new state is the corrected MergeInto |
| Operations.MergeIntoExistingFacts | database.py:556-597 | a merge into an existing task changes only it; its notes stay first; the added notes ascend by creation time; every source note's id ends up in it; distinct ids stay distinct under the corrected de-dup |
| Operations.MergeIntoNewFacts | database.py:556-597 | with a title a new exploring task is appended (KNOWN_WHAT_UNKNOWN_HOW, next order); its notes are ascending, have distinct ids under the corrected de-dup, and cover every source note |
| Operations.RepeatedMergeIsIdle | database.py:556-597 | repeating a merge into an existing task adds nothing and only restamps it |
| Repository.Database.OnlyTaskChanged | database.py:30-36 | when only one task object changed, only that entry of the task values changes |
| Repository.Database.constructor | database.py:33-48 | opening with no document gives no tasks; otherwise the tasks are the parsed document |
| Repository.Database.Load | database.py:44 | one new task object per loaded task, in order, none listed twice |
| Repository.Database.Save | database.py:50-57 | the saved document encodes the tasks and loads back to the same tasks |
| Repository.Database.GetTask | database.py:181-186 | null iff no task has the id; otherwise the first task with it; nothing changes |
| Repository.Database.FindSubtask | database.py:238-239 | the scan finds the first subtask with the id |
| Repository.Database.FindNote | database.py:333-334 | the scan finds the first note with the id |
| Repository.Database.CreateTask | database.py:163-179 | appends a fresh task object whose value is NewTask; earlier tasks unchanged |
| Repository.Database.UpdateTask | database.py:200-209 | null iff the id is unknown; otherwise only that task changes, by TaskUpdated |
| Repository.Database.DeleteTask | database.py:211-220 | true iff the id is known; then exactly the first task with it is removed |
| Repository.Database.RemoveTaskAt | database.py:215 | the task list loses the entry at `i` |
| Repository.Database.AddSubtask | database.py:222-232 | None iff the task is unknown; otherwise the new subtask is returned and only that task changes, by SubtaskAdded |
| Repository.Database.UpdateSubtask | database.py:234-251 | None, with no change, iff the task or the subtask is unknown; otherwise the patched subtask is returned and only that task changes, by SubtaskUpdated |
| Repository.Database.DeleteSubtask | database.py:253-265 | true iff both ids are known; then only that task changes, by SubtaskDeleted |
| Repository.Database.MoveSubtask | database.py:267-287 | true iff the task is known and SubtaskMove succeeds; then only `order` fields of that task change, to the new arrangement |
| Repository.Database.MoveTask | database.py:289-305 | true iff the task is known and its neighbour exists; then the list is swapped and renumbered |
| Repository.Database.FindTask | database.py:291-295 | the scan finds the first task with the id |
| Repository.Database.SwapTasks | database.py:300 | the two list entries exchange places |
| Repository.Database.RenumberTasks | database.py:301-302 | every task's `order` becomes its position |
| Repository.Database.CompleteSubtask | database.py:307-317 | true iff both ids are known; only that task changes, by SubtaskCompleted |
| Repository.Database.AddExplorationNote | database.py:319-327 | None iff the task is unknown; otherwise the new note is appended to that task alone |
| Repository.Database.DeleteExplorationNote | database.py:329-339 | true iff both ids are known; then only that note leaves that task |
| Repository.Database.UpdateExplorationNote | database.py:341-354 | None iff the task or note is unknown; otherwise the patched note is returned and only that task changes |
| Repository.Database.MoveExplorationNoteOrder | database.py:356-379 | true iff the note is known and its neighbour exists; then the two notes swap |
| Repository.Database.SwitchTaskMode | database.py:381-390 | null iff the task is unknown; otherwise only that task switches mode as the entity methods do |
| Repository.Database.SetTaskConclusion | database.py:392-399 | null iff the task is unknown; otherwise only its conclusion and modification time change |
| Repository.Database.ClearTaskConclusion | database.py:401-410 | null iff the task is unknown; otherwise only its conclusion (now empty) and modification time change |
| Repository.Database.SearchTasks | database.py:412-421 | exactly the matching task objects, in list order |
| Repository.Database.SearchExplorationNotesGlobal | database.py:427-437 | the hits are GlobalNoteSearch of the tasks |
| Repository.Database.AllHits | database.py:433-436 | the loop over all tasks yields the hits across them |
| Repository.Database.HitsOf | database.py:434-436 | the hits in one task |
| Repository.Database.SearchExplorationNotesInTask | database.py:439-453 | the hits are TaskNoteSearch of the tasks |
| Repository.Database.Transfer | database.py:513-519 | source and target notes are replaced and stamped, as NotesTransferred says |
| Repository.Database.MoveExplorationNote | database.py:455-481 | true iff both tasks and the note are known; then the note moves to the target's end |
| Repository.Database.BatchDeleteExplorationNotes | database.py:483-497 | true iff the task is known, ids are given and some note matches; then exactly those notes go |
| Repository.Database.BatchMoveExplorationNotes | database.py:499-522 | true iff both tasks are known, ids are given and some source note matches; then those notes move, in order |
| Repository.Database.CopyExplorationNote | database.py:524-554 | Some iff both tasks and the note are known; then a new note with the same content is appended to the target |
| Repository.Database.MergeTasksExplorationNotes | database.py:556-597 | the outcome and the new task values are exactly Merge of the old values (the corrected de-dup) |
| Repository.Database.MergeIntoNewTask | database.py:568-574 | creates the exploring target, merges into it, reports its id |
| Repository.Database.MergeIntoTask | database.py:581-595 | gather, sort, append and stamp change only the target, as the corrected MergeInto says |
| Repository.Database.GetSources | database.py:562-565 | every source object, and success iff every source id is known |
| Repository.Database.LookUpAll | database.py:563 | for each source id, its first task object, or null when it is unknown |
| Repository.AllPresent | database.py:564 | `all(...)` is true iff no looked-up task is null |
| Repository.Database.GatherNotes | database.py:582-584 | the notes of the sources, source by source |
| Repository.ApplyTaskPatch | database.py:204-208 | the task's new value is TaskUpdated of its old one |
| Repository.UpdateSubtaskOf | database.py:238-250 | the subtask is patched and returned; the task heals as SubtaskUpdated says |
| Repository.DeleteSubtaskOf | database.py:259-262 | the subtask is popped and the rest renumbered, as SubtaskDeleted says |
| Repository.MoveSubtaskOf | database.py:271-284 | moves iff SubtaskMove succeeds; then only the `order` fields change, to the new arrangement |
| Repository.ArrangementAfterMove | database.py:271-281 | the sort-locate-swap of the display order is SubtaskMove |
| Repository.AddSubtaskTo | database.py:225-229 | adds the subtask and reopens a COMPLETED task, as SubtaskAdded says |
| Repository.Renumber | database.py:282-283 | the renumbering loop gives Reordered |
| Repository.NoteHitsOf | database.py:448-451 | the loop over one task's notes yields its hits |
| Repository.KeepNotes | database.py:513-518 | the source keeps the remaining notes and is stamped |
| Repository.AppendNotes | database.py:516-519 | the moved notes are appended to the target, which is stamped |
| Repository.MergeNotesInto | database.py:589-595 | the target's notes become the corrected MergedNotes of its notes and the sorted incoming notes, and it is stamped |
| Repository.AppendUnseen | database.py:590-593 | the append loop (corrected, with the seen set updated) yields MergedNotes |

## Left out

- Reading and writing the file (`_load`, `_save`): `os.path.exists`, `open`, and JSON text. A document is a parameter: None stands for a missing or unreadable file, which the source treats as empty. Every mutating operation also calls `_save`; the model has `Save` to build the document, and the operations do not call it.
- Repository.Database.constructor: requires a document that parses. The source catches only decode and I/O errors, so a missing required key or an unknown enum name raises `KeyError` in `_dict_to_task` (database.py:104-110), which escapes `_load` (database.py:45).
- Time: `datetime.now()` is the integer `now`. ISO-8601 formatting and parsing are left out, and instants are stored as integers.
- Ids: `uuid4()` is a supplied id. A precondition requires it to differ from every task, subtask and note id.
- Text: `lower()` and `strip()` are modelled for ASCII letters and ASCII whitespace. Unicode case mapping is left out.
- Models.Task.Progress: returns an exact ratio `num/den` instead of a float.
- Keyword setters: `update_task`, `update_subtask` and `update_exploration_note` take `**kwargs`. The model uses patch records listing the plain fields. Setting `id`, `created_at`, the child lists, or a note's `updated_at` through keyword arguments is not modelled. Types are not checked at run time, and neither are values set that way.
- Repository.AppendUnseen: follows the corrected de-dup of the Findings row: each appended id joins the skip set, which the loop at database.py:591-593 never does. The two agree when the gathered ids are distinct (NoteLists.MergedNotesAgreeOnDistinct); a source listed twice, or a note shared by two sources, is appended once here and twice by the program.
- Repository.MergeNotesInto: the target's notes are the corrected MergedNotes, not MergedNotesAsWritten; see Repository.AppendUnseen.
- Repository.Database.MergeIntoTask: follows the corrected de-dup through MergeNotesInto; see Repository.AppendUnseen.
- Repository.Database.MergeTasksExplorationNotes: the new state is the corrected Merge; see Repository.AppendUnseen.
- Operations.MergeInto: specifies the target's notes by the corrected MergedNotes; see Repository.AppendUnseen.
- Operations.Merge: its new state is the corrected MergeInto; see Repository.AppendUnseen.
- Operations.MergeIntoExistingFacts: "distinct ids stay distinct" holds for the corrected de-dup only; as written a repeated id is appended again.
- Operations.MergeIntoNewFacts: "distinct ids" holds for the corrected de-dup only; as written a repeated id is appended again.
- Aliasing: merge appends the same note objects that the sources hold. The model has value semantics, so sources and target hold equal notes that are not shared.
- `get_all_tasks`, `get_tasks_by_status`, `get_tasks_by_mode`: read-only copies and filters of the list, not modelled.
- `delete_task` does not renumber the remaining tasks' `order`. The model keeps that behaviour.
- The desktop interface in main.py is not part of this model.

## Findings

| source | as written | input that shows it | evidently intended | confidence | as-written member | corrected member |
|---|---|---|---|---|---|---|
| database.py:590-593 | the ids to skip are collected once, before the loop, so notes appended during the loop are not skipped | the same source id listed twice, that task holding one note, merged into a task with no notes: the note is appended twice | each note id appended at most once, so a merge skips duplicates and repeating it adds nothing | high; not executed | NoteLists.RepeatedSourceDuplicatesNotes | NoteLists.MergedNotes, used by Repository.AppendUnseen, Repository.MergeNotesInto, Repository.Database.MergeIntoTask, Repository.Database.MergeTasksExplorationNotes, Operations.MergeInto, Operations.Merge |
