/**
 * Keyword search over tasks and exploration notes: the matching rules and
 * the result lists the repository's searches build.
 */
module Search {
  import opened Wrappers
  import opened Sequences
  import opened Text
  import opened Models

  // ---------------------------------------------------------------------------
  // Task search (`search_tasks`)
  // ---------------------------------------------------------------------------

  /** The lowercased keyword occurs in the lowercased title, description or some tag. */
  predicate TaskMatches(t: TaskData, keyword: string) {
    || MatchesIgnoringCase(t.title, keyword)
    || MatchesIgnoringCase(t.description, keyword)
    || exists k :: 0 <= k < |t.tags| && MatchesIgnoringCase(t.tags[k], keyword)
  }

  /** The positions of the matching tasks, in list order. */
  function MatchingPositions(vs: seq<TaskData>, keyword: string): (ps: seq<nat>)
    ensures |ps| <= |vs|
    ensures forall k :: 0 <= k < |ps| ==> ps[k] < |vs| && TaskMatches(vs[ps[k]], keyword)
    ensures forall i :: 0 <= i < |vs| && TaskMatches(vs[i], keyword) ==> i in ps
    ensures forall a, b :: 0 <= a < b < |ps| ==> ps[a] < ps[b]
  {
    if vs == [] then []
    else
      var last := |vs| - 1;
      var init := vs[..last];
      assert forall i :: 0 <= i < last ==> init[i] == vs[i];
      MatchingPositions(init, keyword) + if TaskMatches(vs[last], keyword) then [last] else []
  }

  /** Scanning one more task adds its position exactly when it matches. */
  lemma MatchingPositionsStep(vs: seq<TaskData>, i: nat, keyword: string)
    requires i < |vs|
    ensures MatchingPositions(vs[..i + 1], keyword)
            == MatchingPositions(vs[..i], keyword) + if TaskMatches(vs[i], keyword) then [i] else []
  {
    assert vs[..i + 1][..i] == vs[..i];
  }

  /** The empty keyword occurs in every text, so every task matches it. */
  lemma EmptyKeywordMatchesEveryTask(t: TaskData)
    ensures TaskMatches(t, "")
  {
    assert Lower("") == "";
    ContainsEmpty(Lower(t.title));
  }

  /** Searching for the empty keyword returns every task, in list order. */
  lemma {:induction false} EmptyKeywordMatchesAll(vs: seq<TaskData>)
    ensures MatchingPositions(vs, "") == Range(|vs|)
  {
    if vs != [] {
      var last := |vs| - 1;
      EmptyKeywordMatchesAll(vs[..last]);
      EmptyKeywordMatchesEveryTask(vs[last]);
    }
  }

  // ---------------------------------------------------------------------------
  // Note search (`_match_note_keyword`, `search_exploration_notes_*`)
  // ---------------------------------------------------------------------------

  /** The lowercased keyword occurs in the lowercased content or insight. */
  predicate NoteMatches(n: ExplorationNote, keyword: string) {
    MatchesIgnoringCase(n.content, keyword) || MatchesIgnoringCase(n.insight, keyword)
  }

  /** The keyword as the note searches use it: stripped of white space, then lowercased. */
  function NormalizedKeyword(keyword: string): (needle: string)
    ensures needle == [] <==> AllSpace(keyword)
    ensures Lower(needle) == needle
  {
    LowerIdempotent(Strip(keyword));
    Lower(Strip(keyword))
  }

  /** A search hit for note `n` of task `t`. */
  function Hit(t: TaskData, n: ExplorationNote): ExplorationNoteSearchResult {
    ExplorationNoteSearchResult(t.id, t.title, t.mode, n, false)
  }

  /** The hits among the first `count` notes of `t`, in note order. */
  function HitsAmong(t: TaskData, count: nat, needle: string): (r: seq<ExplorationNoteSearchResult>)
    requires count <= |t.explorationNotes|
    ensures |r| <= count
    ensures forall h :: h in r <==> exists j :: 0 <= j < count && NoteMatches(t.explorationNotes[j], needle)
                                                  && h == Hit(t, t.explorationNotes[j])
  {
    if count == 0 then []
    else
      var r := HitsAmong(t, count - 1, needle);
      var n := t.explorationNotes[count - 1];
      r + if NoteMatches(n, needle) then [Hit(t, n)] else []
  }

  /** The hits among all notes of `t`. */
  function HitsIn(t: TaskData, needle: string): (r: seq<ExplorationNoteSearchResult>)
    ensures forall h :: h in r <==> h.note in t.explorationNotes && NoteMatches(h.note, needle) && h == Hit(t, h.note)
  {
    HitsAmong(t, |t.explorationNotes|, needle)
  }

  /** A matching note gives one hit per copy among the first `count` notes; a note that does not match gives none. */
  lemma {:induction false} HitsAmongCount(t: TaskData, count: nat, needle: string, n: ExplorationNote)
    requires count <= |t.explorationNotes|
    ensures multiset(HitsAmong(t, count, needle))[Hit(t, n)]
            == if NoteMatches(n, needle) then multiset(t.explorationNotes[..count])[n] else 0
  {
    var notes := t.explorationNotes;
    if count == 0 {
      assert notes[..0] == [];
    } else {
      HitsAmongCount(t, count - 1, needle, n);
      assert notes[..count] == notes[..count - 1] + [notes[count - 1]];
    }
  }

  /** A task's hits count each matching note as often as the task holds it. */
  lemma HitsInCount(t: TaskData, needle: string, n: ExplorationNote)
    ensures multiset(HitsIn(t, needle))[Hit(t, n)]
            == if NoteMatches(n, needle) then multiset(t.explorationNotes)[n] else 0
  {
    HitsAmongCount(t, |t.explorationNotes|, needle, n);
    assert t.explorationNotes[..|t.explorationNotes|] == t.explorationNotes;
  }

  /** The hits in the first `count` tasks, task by task. */
  function HitsAcross(vs: seq<TaskData>, count: nat, needle: string): (r: seq<ExplorationNoteSearchResult>)
    requires count <= |vs|
    ensures forall h :: h in r <==> exists i :: 0 <= i < count && h in HitsIn(vs[i], needle)
  {
    if count == 0 then [] else HitsAcross(vs, count - 1, needle) + HitsIn(vs[count - 1], needle)
  }

  /** `search_exploration_notes_global`: nothing for a blank keyword, otherwise every matching note. */
  function GlobalNoteSearch(vs: seq<TaskData>, keyword: string): (r: seq<ExplorationNoteSearchResult>)
    ensures AllSpace(keyword) ==> r == []
    ensures forall h :: h in r <==>
      !AllSpace(keyword) && exists i :: 0 <= i < |vs| && h in HitsIn(vs[i], NormalizedKeyword(keyword))
  {
    var needle := NormalizedKeyword(keyword);
    if needle == [] then [] else HitsAcross(vs, |vs|, needle)
  }

  /**
   * `search_exploration_notes_in_task`: nothing for an unknown task or a blank
   * keyword, otherwise the matching notes of the first task with the id.
   */
  function TaskNoteSearch(vs: seq<TaskData>, taskId: string, keyword: string): (r: seq<ExplorationNoteSearchResult>)
    ensures taskId !in TaskIds(vs) || AllSpace(keyword) ==> r == []
    ensures taskId in TaskIds(vs) && !AllSpace(keyword) ==>
      r == HitsIn(vs[FirstIndex(TaskIds(vs), taskId)], NormalizedKeyword(keyword))
  {
    var i := FirstIndex(TaskIds(vs), taskId);
    var needle := NormalizedKeyword(keyword);
    if i == |vs| || needle == [] then [] else HitsIn(vs[i], needle)
  }
}
