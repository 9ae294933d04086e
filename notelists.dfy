/**
 * Operations on exploration-note lists that the repository's cross-task
 * note operations are built from: selection by id, transfer between tasks,
 * the timeline sort and the de-duplicating append of a merge.
 */
module NoteLists {
  import opened Sequences
  import opened Wrappers
  import opened Models

  // ---------------------------------------------------------------------------
  // Selection by id (`[n for n in notes if n.id in ids]` and its complement)
  // ---------------------------------------------------------------------------

  /** The notes whose id is in `ids`, in their original order. */
  function Selected(notes: seq<ExplorationNote>, ids: seq<string>): (r: seq<ExplorationNote>)
    ensures |r| <= |notes|
    ensures forall n :: n in r <==> n in notes && n.id in ids
  {
    if notes == [] then []
    else (if notes[0].id in ids then [notes[0]] else []) + Selected(notes[1..], ids)
  }

  /** The notes whose id is not in `ids`, in their original order. */
  function Unselected(notes: seq<ExplorationNote>, ids: seq<string>): (r: seq<ExplorationNote>)
    ensures |r| <= |notes|
    ensures forall n :: n in r <==> n in notes && n.id !in ids
  {
    if notes == [] then []
    else (if notes[0].id !in ids then [notes[0]] else []) + Unselected(notes[1..], ids)
  }

  /**
   * Selection splits a list in two: together the parts hold exactly the
   * original notes, and nothing is left out of the kept part exactly when
   * nothing is selected.
   */
  lemma SelectionPartitions(notes: seq<ExplorationNote>, ids: seq<string>)
    ensures multiset(Selected(notes, ids)) + multiset(Unselected(notes, ids)) == multiset(notes)
    ensures |Selected(notes, ids)| + |Unselected(notes, ids)| == |notes|
    ensures |Unselected(notes, ids)| == |notes| <==> Selected(notes, ids) == []
  {
    SelectionSplitsNotes(notes, ids);
    assert |multiset(notes)| == |notes|;
  }

  /** The selected and the unselected notes together are the original notes, counted with multiplicity. */
  lemma {:induction false} SelectionSplitsNotes(notes: seq<ExplorationNote>, ids: seq<string>)
    ensures multiset(Selected(notes, ids)) + multiset(Unselected(notes, ids)) == multiset(notes)
  {
    if notes != [] {
      var h, tl := notes[0], notes[1..];
      SelectionSplitsNotes(tl, ids);
      assert multiset(notes) == multiset{h} + multiset(tl) by {
        assert notes == [h] + tl;
      }
      if h.id in ids {
        assert Selected(notes, ids) == [h] + Selected(tl, ids);
        assert Unselected(notes, ids) == Unselected(tl, ids);
      } else {
        assert Selected(notes, ids) == Selected(tl, ids);
        assert Unselected(notes, ids) == [h] + Unselected(tl, ids);
      }
    }
  }

  /** When selection keeps every note, it keeps the list as it was. */
  lemma {:induction false} NothingSelectedKeepsAll(notes: seq<ExplorationNote>, ids: seq<string>)
    requires |Unselected(notes, ids)| == |notes|
    ensures Unselected(notes, ids) == notes
  {
    if notes != [] {
      assert |Unselected(notes[1..], ids)| <= |notes| - 1;
      NothingSelectedKeepsAll(notes[1..], ids);
      assert notes == [notes[0]] + notes[1..];
    }
  }

  /** A single note is selected exactly when its id is listed, and kept exactly when it is not. */
  lemma SelectedOne(n: ExplorationNote, ids: seq<string>)
    ensures Selected([n], ids) == if n.id in ids then [n] else []
    ensures Unselected([n], ids) == if n.id in ids then [] else [n]
  {
    assert [n][1..] == [];
  }

  /**
   * Selection works piece by piece: the selected notes of a concatenation are
   * those of each part, one after the other, so they keep the original
   * relative order.
   */
  lemma {:induction false} SelectedAppend(a: seq<ExplorationNote>, b: seq<ExplorationNote>, ids: seq<string>)
    ensures Selected(a + b, ids) == Selected(a, ids) + Selected(b, ids)
  {
    if a == [] {
      assert a + b == b;
    } else {
      var h := a[0];
      assert (a + b)[0] == h && (a + b)[1..] == a[1..] + b;
      SelectedAppend(a[1..], b, ids);
      var front := if h.id in ids then [h] else [];
      assert Selected(a + b, ids) == front + Selected(a[1..] + b, ids);
      assert Selected(a, ids) == front + Selected(a[1..], ids);
    }
  }

  /** The kept notes of a concatenation are those of each part, one after the other. */
  lemma {:induction false} UnselectedAppend(a: seq<ExplorationNote>, b: seq<ExplorationNote>, ids: seq<string>)
    ensures Unselected(a + b, ids) == Unselected(a, ids) + Unselected(b, ids)
  {
    if a == [] {
      assert a + b == b;
    } else {
      var h, tl := a[0], a[1..];
      var ab := a + b;
      assert ab != [] && ab[0] == h && ab[1..] == tl + b;
      UnselectedAppend(tl, b, ids);
      var front := if h.id !in ids then [h] else [];
      calc {
        Unselected(ab, ids);
        front + Unselected(tl + b, ids);
        front + (Unselected(tl, ids) + Unselected(b, ids));
        (front + Unselected(tl, ids)) + Unselected(b, ids);
        Unselected(a, ids) + Unselected(b, ids);
      }
    }
  }

  // ---------------------------------------------------------------------------
  // The notes of a whole task collection
  // ---------------------------------------------------------------------------

  /** Every note held by some task of `ts`, counted with multiplicity. */
  function AllNotes(ts: seq<TaskData>): multiset<ExplorationNote> {
    if ts == [] then multiset{}
    else AllNotes(ts[..|ts| - 1]) + multiset(ts[|ts| - 1].explorationNotes)
  }

  /** Replacing one task changes the collection's notes by exactly that task's notes. */
  lemma {:induction false} AllNotesUpdate(ts: seq<TaskData>, i: nat, t: TaskData)
    requires i < |ts|
    ensures AllNotes(ts[i := t]) + multiset(ts[i].explorationNotes)
            == AllNotes(ts) + multiset(t.explorationNotes)
    decreases |ts|, 1
  {
    var last := |ts| - 1;
    if i == last {
      assert ts[i := t][..last] == ts[..last];
    } else {
      AllNotesUpdateBefore(ts, i, t);
    }
  }

  /** The case of AllNotesUpdate where the replaced task is not the last one. */
  lemma {:induction false} AllNotesUpdateBefore(ts: seq<TaskData>, i: nat, t: TaskData)
    requires i < |ts| - 1
    ensures AllNotes(ts[i := t]) + multiset(ts[i].explorationNotes)
            == AllNotes(ts) + multiset(t.explorationNotes)
    decreases |ts|, 0
  {
    var last := |ts| - 1;
    var us, pre := ts[i := t], ts[..last];
    assert us[..last] == pre[i := t];
    AllNotesUpdate(pre, i, t);
    var x, y, z := multiset(ts[i].explorationNotes), multiset(t.explorationNotes), multiset(ts[last].explorationNotes);
    assert AllNotes(us) == AllNotes(pre[i := t]) + z;
    assert AllNotes(ts) == AllNotes(pre) + z;
    AddOnBothSides(AllNotes(pre[i := t]), AllNotes(pre), x, y, z);
  }

  /** Adding the same multiset to both sides of an equation of multiset sums keeps it. */
  lemma AddOnBothSides<T>(a: multiset<T>, b: multiset<T>, x: multiset<T>, y: multiset<T>, z: multiset<T>)
    requires a + x == b + y
    ensures a + z + x == b + z + y
  {
    assert forall e :: (a + z + x)[e] == (a + x)[e] + z[e] == (b + y)[e] + z[e] == (b + z + y)[e];
  }

  /** Replacing a task by one with the same notes leaves the collection's notes alone. */
  lemma AllNotesSameNotes(ts: seq<TaskData>, i: nat, t: TaskData)
    requires i < |ts| && t.explorationNotes == ts[i].explorationNotes
    ensures AllNotes(ts[i := t]) == AllNotes(ts)
  {
    AllNotesUpdate(ts, i, t);
    var u, v, x := AllNotes(ts[i := t]), AllNotes(ts), multiset(t.explorationNotes);
    assert u + x == v + x;
    assert forall n :: u[n] == (u + x)[n] - x[n] == (v + x)[n] - x[n] == v[n];
  }

  /**
   * The collection after notes move between tasks, following the repository's
   * steps: the source keeps `remaining`, `moved` is appended to the target,
   * then both are stamped with `now`. The source and the target may be the
   * same task.
   */
  function NotesTransferred(ts: seq<TaskData>, si: nat, ti: nat, moved: seq<ExplorationNote>,
                            remaining: seq<ExplorationNote>, now: int): (r: seq<TaskData>)
    requires si < |ts| && ti < |ts|
    ensures |r| == |ts|
    ensures forall j :: 0 <= j < |ts| && j != si && j != ti ==> r[j] == ts[j]
    ensures r[ti].explorationNotes == (if si == ti then remaining else ts[ti].explorationNotes) + moved
    ensures si != ti ==> r[si].explorationNotes == remaining
    ensures r[si].updatedAt == now && r[ti].updatedAt == now
  {
    var a := ts[si := ts[si].(explorationNotes := remaining)];
    var b := a[ti := a[ti].(explorationNotes := a[ti].explorationNotes + moved)];
    var c := b[si := b[si].(updatedAt := now)];
    c[ti := c[ti].(updatedAt := now)]
  }

  /** Task `t` holding `notes`, stamped with `now`. */
  function WithNotes(t: TaskData, notes: seq<ExplorationNote>, now: int): TaskData {
    t.(explorationNotes := notes, updatedAt := now)
  }

  /** The transfer written as the two task updates it consists of: the source's, then the target's. */
  lemma TransferredInPlace(ts: seq<TaskData>, si: nat, ti: nat, moved: seq<ExplorationNote>,
                           remaining: seq<ExplorationNote>, now: int)
    requires si < |ts| && ti < |ts|
    ensures var mid := ts[si := WithNotes(ts[si], remaining, now)];
            NotesTransferred(ts, si, ti, moved, remaining, now)
            == mid[ti := WithNotes(mid[ti], mid[ti].explorationNotes + moved, now)]
  {
  }

  /** Appending to one task's notes adds exactly the appended notes to the collection. */
  lemma AllNotesAppend(ts: seq<TaskData>, i: nat, t: TaskData, moved: seq<ExplorationNote>)
    requires i < |ts| && t.explorationNotes == ts[i].explorationNotes + moved
    ensures AllNotes(ts[i := t]) == AllNotes(ts) + multiset(moved)
  {
    AllNotesUpdate(ts, i, t);
    var u, v, x, y := AllNotes(ts[i := t]), AllNotes(ts), multiset(ts[i].explorationNotes), multiset(moved);
    assert u + x == v + (x + y);
    assert forall n :: u[n] == (u + x)[n] - x[n] == (v + (x + y))[n] - x[n] == (v + y)[n];
  }

  /** Splitting a task's notes off into `remaining` removes the complementary part from the collection. */
  lemma AllNotesSplit(ts: seq<TaskData>, i: nat, moved: seq<ExplorationNote>, remaining: seq<ExplorationNote>)
    requires i < |ts|
    requires multiset(moved) + multiset(remaining) == multiset(ts[i].explorationNotes)
    ensures AllNotes(ts[i := ts[i].(explorationNotes := remaining)]) + multiset(moved) == AllNotes(ts)
  {
    var t := ts[i].(explorationNotes := remaining);
    AllNotesUpdate(ts, i, t);
    var u, v, m, r := AllNotes(ts[i := t]), AllNotes(ts), multiset(moved), multiset(remaining);
    assert u + (m + r) == v + r;
    assert forall n :: (u + m)[n] == (u + (m + r))[n] - r[n] == (v + r)[n] - r[n] == v[n];
  }

  /** A transfer that splits the source's notes into `moved` and `remaining` loses and invents no note. */
  lemma TransferConservesNotes(ts: seq<TaskData>, si: nat, ti: nat, moved: seq<ExplorationNote>,
                               remaining: seq<ExplorationNote>, now: int)
    requires si < |ts| && ti < |ts|
    requires multiset(moved) + multiset(remaining) == multiset(ts[si].explorationNotes)
    ensures AllNotes(NotesTransferred(ts, si, ti, moved, remaining, now)) == AllNotes(ts)
  {
    var a := ts[si := ts[si].(explorationNotes := remaining)];
    var b := a[ti := a[ti].(explorationNotes := a[ti].explorationNotes + moved)];
    var c := b[si := b[si].(updatedAt := now)];
    var d := c[ti := c[ti].(updatedAt := now)];
    AllNotesSplit(ts, si, moved, remaining);
    AllNotesAppend(a, ti, b[ti], moved);
    AllNotesSameNotes(b, si, c[si]);
    AllNotesSameNotes(c, ti, d[ti]);
    assert AllNotes(d) == AllNotes(a) + multiset(moved) == AllNotes(ts);
  }

  // ---------------------------------------------------------------------------
  // The merged timeline
  // ---------------------------------------------------------------------------

  function CreationKeys(notes: seq<ExplorationNote>): (keys: seq<int>)
    ensures |keys| == |notes| && forall k :: 0 <= k < |notes| ==> keys[k] == notes[k].createdAt
  {
    seq(|notes|, k requires 0 <= k < |notes| => notes[k].createdAt)
  }

  /**
   * `notes.sort(key=created_at)`: the notes in ascending creation order,
   * notes created at the same instant keeping their relative order.
   */
  function SortedByCreation(notes: seq<ExplorationNote>): (r: seq<ExplorationNote>)
    ensures |r| == |notes|
    ensures forall a, b :: 0 <= a < b < |r| ==> r[a].createdAt <= r[b].createdAt
    ensures forall n :: n in r <==> n in notes
    ensures forall k :: 0 <= k < |r| ==> r[k] == notes[SortIndices(CreationKeys(notes))[k]]
  {
    var p := SortIndices(CreationKeys(notes));
    SortIndicesSorts(CreationKeys(notes));
    PermutationCovers(CreationKeys(notes), p);
    var r := seq(|notes|, k requires 0 <= k < |notes| => notes[p[k]]);
    SortedByCreationFacts(notes, p, r);
    r
  }

  lemma SortedByCreationFacts(notes: seq<ExplorationNote>, p: seq<nat>, r: seq<ExplorationNote>)
    requires |p| == |notes| && SortedBy(CreationKeys(notes), p)
    requires forall q :: 0 <= q < |notes| ==> q in p
    requires |r| == |notes| && forall k :: 0 <= k < |r| ==> r[k] == notes[p[k]]
    ensures forall a, b :: 0 <= a < b < |r| ==> r[a].createdAt <= r[b].createdAt
    ensures forall n :: n in notes ==> n in r
  {
    forall a, b | 0 <= a < b < |r| ensures r[a].createdAt <= r[b].createdAt {
      assert Before(CreationKeys(notes), p[a], p[b]);
    }
    forall n | n in notes ensures n in r {
      var q :| 0 <= q < |notes| && notes[q] == n;
      assert q in p;
      var k :| 0 <= k < |p| && p[k] == q;
      assert r[k] == n;
    }
  }

  /** The notes of the tasks at positions `sources`, source by source (`all_notes.extend(...)`). */
  function Gathered(ts: seq<TaskData>, sources: seq<nat>): (r: seq<ExplorationNote>)
    requires forall j :: 0 <= j < |sources| ==> sources[j] < |ts|
    ensures forall n :: n in r <==> exists j :: 0 <= j < |sources| && n in ts[sources[j]].explorationNotes
  {
    if sources == [] then []
    else
      var init := sources[..|sources| - 1];
      var r := Gathered(ts, init) + ts[sources[|sources| - 1]].explorationNotes;
      assert forall j :: 0 <= j < |init| ==> init[j] == sources[j];
      r
  }

  /** Gathering one more source appends that source's notes. */
  lemma GatheredStep(ts: seq<TaskData>, sources: seq<nat>, j: nat)
    requires j < |sources| && forall m :: 0 <= m < |sources| ==> sources[m] < |ts|
    ensures Gathered(ts, sources[..j + 1]) == Gathered(ts, sources[..j]) + ts[sources[j]].explorationNotes
  {
    assert sources[..j + 1][..j] == sources[..j];
  }

  // ---------------------------------------------------------------------------
  // Appending the merged notes to the target
  // ---------------------------------------------------------------------------

  predicate DistinctIds(notes: seq<ExplorationNote>) {
    forall a, b :: 0 <= a < b < |notes| ==> notes[a].id != notes[b].id
  }

  predicate AscendingByCreation(notes: seq<ExplorationNote>) {
    forall a, b :: 0 <= a < b < |notes| ==> notes[a].createdAt <= notes[b].createdAt
  }

  function IdSet(notes: seq<ExplorationNote>): (ids: set<string>)
    ensures forall id :: id in ids <==> id in NoteIds(notes)
  {
    set k | 0 <= k < |notes| :: notes[k].id
  }

  /**
   * The incoming notes that are appended to a target whose ids are `seen`:
   * a note is skipped when its id is already in the target, including a note
   * appended earlier in the same merge.
   */
  function Unseen(incoming: seq<ExplorationNote>, seen: set<string>): (r: seq<ExplorationNote>)
    ensures forall n :: n in r ==> n in incoming && n.id !in seen
    ensures forall n :: n in incoming ==> n.id in seen || n.id in NoteIds(r)
    ensures DistinctIds(r)
  {
    if incoming == [] then []
    else if incoming[0].id in seen then Unseen(incoming[1..], seen)
    else
      var rest := Unseen(incoming[1..], seen + {incoming[0].id});
      UnseenConsCovers(incoming, seen, rest);
      [incoming[0]] + rest
  }

  lemma UnseenConsCovers(incoming: seq<ExplorationNote>, seen: set<string>, rest: seq<ExplorationNote>)
    requires incoming != []
    requires forall n :: n in incoming[1..] ==> n.id in seen + {incoming[0].id} || n.id in NoteIds(rest)
    ensures forall n :: n in incoming ==> n.id in seen || n.id in NoteIds([incoming[0]] + rest)
  {
    var r := [incoming[0]] + rest;
    forall n | n in incoming ensures n.id in seen || n.id in NoteIds(r) {
      if n == incoming[0] {
        assert r[0].id == n.id;
      } else {
        assert n in incoming[1..];
        if n.id in NoteIds(rest) {
          var k :| 0 <= k < |rest| && rest[k].id == n.id;
          assert r[k + 1].id == n.id;
        } else if n.id == incoming[0].id {
          assert r[0].id == n.id;
        }
      }
    }
  }

  /** Skipping notes keeps an ascending timeline ascending. */
  lemma {:induction false} UnseenAscending(incoming: seq<ExplorationNote>, seen: set<string>)
    requires AscendingByCreation(incoming)
    ensures AscendingByCreation(Unseen(incoming, seen))
  {
    if incoming != [] {
      var h, tl := incoming[0], incoming[1..];
      assert AscendingByCreation(tl) by {
        forall a, b | 0 <= a < b < |tl| ensures tl[a].createdAt <= tl[b].createdAt {
          assert tl[a] == incoming[a + 1] && tl[b] == incoming[b + 1];
        }
      }
      if h.id in seen {
        UnseenAscending(tl, seen);
        assert Unseen(incoming, seen) == Unseen(tl, seen);
      } else {
        var r := Unseen(tl, seen + {h.id});
        UnseenAscending(tl, seen + {h.id});
        forall b | 0 <= b < |r| ensures h.createdAt <= r[b].createdAt {
          assert r[b] in tl;
          var k :| 0 <= k < |tl| && tl[k] == r[b];
          assert incoming[k + 1] == r[b];
        }
        ConsAscending(h, r);
        assert Unseen(incoming, seen) == [h] + r;
      }
    }
  }

  /** A note no later than every note of an ascending timeline can lead it. */
  lemma ConsAscending(h: ExplorationNote, r: seq<ExplorationNote>)
    requires AscendingByCreation(r)
    requires forall b :: 0 <= b < |r| ==> h.createdAt <= r[b].createdAt
    ensures AscendingByCreation([h] + r)
  {
    var s := [h] + r;
    forall a, b | 0 <= a < b < |s| ensures s[a].createdAt <= s[b].createdAt {
      assert s[b] == r[b - 1];
      if a > 0 {
        assert s[a] == r[a - 1];
      }
    }
  }

  /** Nothing is appended when every incoming id is already present. */
  lemma {:induction false} UnseenOfSeen(incoming: seq<ExplorationNote>, seen: set<string>)
    requires forall n :: n in incoming ==> n.id in seen
    ensures Unseen(incoming, seen) == []
  {
    if incoming != [] {
      UnseenOfSeen(incoming[1..], seen);
    }
  }

  /** One step of the append loop: the note at `i` is appended unless its id is held, and then it is held. */
  lemma UnseenStep(incoming: seq<ExplorationNote>, i: nat, seen: set<string>)
    requires i < |incoming|
    ensures Unseen(incoming[i..], seen) ==
      if incoming[i].id in seen then Unseen(incoming[i + 1..], seen)
      else [incoming[i]] + Unseen(incoming[i + 1..], seen + {incoming[i].id})
  {
    assert incoming[i..][0] == incoming[i] && incoming[i..][1..] == incoming[i + 1..];
  }

  /** The target's notes followed by the incoming notes it did not already hold. */
  function MergedNotes(target: seq<ExplorationNote>, incoming: seq<ExplorationNote>): (r: seq<ExplorationNote>)
    ensures |r| >= |target| && r[..|target|] == target
    ensures forall n :: n in r[|target|..] ==> n in incoming && n.id !in NoteIds(target)
    ensures forall n :: n in incoming ==> n.id in NoteIds(r)
    ensures DistinctIds(target) ==> DistinctIds(r)
    ensures AscendingByCreation(incoming) ==> AscendingByCreation(r[|target|..])
  {
    var added := Unseen(incoming, IdSet(target));
    MergedNotesFacts(target, incoming, added);
    target + added
  }

  lemma MergedNotesFacts(target: seq<ExplorationNote>, incoming: seq<ExplorationNote>, added: seq<ExplorationNote>)
    requires added == Unseen(incoming, IdSet(target))
    ensures (target + added)[|target|..] == added
    ensures forall n :: n in incoming ==> n.id in NoteIds(target + added)
    ensures DistinctIds(target) ==> DistinctIds(target + added)
    ensures AscendingByCreation(incoming) ==> AscendingByCreation(added)
  {
    var r := target + added;
    assert r[|target|..] == added;
    forall n | n in incoming ensures n.id in NoteIds(r) {
      if n.id in IdSet(target) {
        var k :| 0 <= k < |target| && target[k].id == n.id;
        assert r[k].id == n.id;
      } else {
        var k :| 0 <= k < |added| && added[k].id == n.id;
        assert r[|target| + k].id == n.id;
      }
    }
    if DistinctIds(target) {
      forall a, b | 0 <= a < b < |r| ensures r[a].id != r[b].id {
        if a < |target| && b >= |target| {
          assert r[b] in added;
          assert r[a].id in NoteIds(target);
        }
      }
    }
    if AscendingByCreation(incoming) {
      UnseenAscending(incoming, IdSet(target));
    }
  }

  /** Merging the same notes again adds nothing. */
  lemma MergeIdempotent(target: seq<ExplorationNote>, incoming: seq<ExplorationNote>)
    ensures MergedNotes(MergedNotes(target, incoming), incoming) == MergedNotes(target, incoming)
  {
    var once := MergedNotes(target, incoming);
    UnseenOfSeen(incoming, IdSet(once));
  }

  /**
   * The target's notes after a merge from the tasks at `sources`: the gathered
   * notes in timeline order, each id appended once.
   */
  function MergedFrom(ts: seq<TaskData>, sources: seq<nat>, ti: nat): seq<ExplorationNote>
    requires ti < |ts| && forall j :: 0 <= j < |sources| ==> sources[j] < |ts|
  {
    MergedNotes(ts[ti].explorationNotes, SortedByCreation(Gathered(ts, sources)))
  }

  /**
   * Repeating a merge with the same sources and target adds no note, even
   * when the target is itself one of the sources.
   */
  lemma {:induction false} RepeatedMergeAddsNothing(ts: seq<TaskData>, sources: seq<nat>, ti: nat, now: int)
    requires ti < |ts| && forall j :: 0 <= j < |sources| ==> sources[j] < |ts|
    ensures var once := ts[ti := ts[ti].(explorationNotes := MergedFrom(ts, sources, ti), updatedAt := now)];
            MergedFrom(once, sources, ti) == once[ti].explorationNotes
  {
    var once := ts[ti := ts[ti].(explorationNotes := MergedFrom(ts, sources, ti), updatedAt := now)];
    var merged := once[ti].explorationNotes;
    var again := Gathered(once, sources);
    forall n | n in SortedByCreation(again) ensures n.id in IdSet(merged) {
      var j :| 0 <= j < |sources| && n in once[sources[j]].explorationNotes;
      if sources[j] == ti {
        var k :| 0 <= k < |merged| && merged[k] == n;
        assert NoteIds(merged)[k] == n.id;
      } else {
        assert n in ts[sources[j]].explorationNotes;
        assert n in Gathered(ts, sources);
        assert n in SortedByCreation(Gathered(ts, sources));
      }
    }
    UnseenOfSeen(SortedByCreation(again), IdSet(merged));
  }

  // ---------------------------------------------------------------------------
  // The de-duplication as written: ids are checked only against the target's
  // ids taken before the merge, never against notes appended by the merge
  // ---------------------------------------------------------------------------

  /** The incoming notes whose id is not in the fixed set `seen`. */
  function UnseenAsWritten(incoming: seq<ExplorationNote>, seen: set<string>): (r: seq<ExplorationNote>)
    ensures forall n :: n in r <==> n in incoming && n.id !in seen
  {
    if incoming == [] then []
    else (if incoming[0].id in seen then [] else [incoming[0]]) + UnseenAsWritten(incoming[1..], seen)
  }

  /** The merged notes as written: the target's notes followed by the filtered incoming notes. */
  function MergedNotesAsWritten(target: seq<ExplorationNote>, incoming: seq<ExplorationNote>): (r: seq<ExplorationNote>)
    ensures |r| >= |target| && r[..|target|] == target
    ensures forall n :: n in r[|target|..] <==> n in incoming && n.id !in NoteIds(target)
  {
    var r := target + UnseenAsWritten(incoming, IdSet(target));
    assert r[|target|..] == UnseenAsWritten(incoming, IdSet(target));
    r
  }

  /** Holding one more id changes nothing when no incoming note carries it. */
  lemma {:induction false} UnseenAsWrittenIgnores(incoming: seq<ExplorationNote>, seen: set<string>, id: string)
    requires id !in NoteIds(incoming)
    ensures UnseenAsWritten(incoming, seen + {id}) == UnseenAsWritten(incoming, seen)
  {
    if incoming != [] {
      assert NoteIds(incoming)[0] == incoming[0].id;
      assert id !in NoteIds(incoming[1..]) by {
        forall k | 0 <= k < |incoming[1..]| ensures NoteIds(incoming[1..])[k] != id {
          assert NoteIds(incoming)[k + 1] == incoming[1..][k].id;
        }
      }
      UnseenAsWrittenIgnores(incoming[1..], seen, id);
    }
  }

  /**
   * The two filters agree when the incoming ids are distinct: the skip set
   * taken once only misses repeats within the incoming notes themselves.
   */
  lemma {:induction false} UnseenAgreesOnDistinct(incoming: seq<ExplorationNote>, seen: set<string>)
    requires DistinctIds(incoming)
    ensures Unseen(incoming, seen) == UnseenAsWritten(incoming, seen)
  {
    if incoming != [] {
      var h, tl := incoming[0], incoming[1..];
      assert DistinctIds(tl) by {
        forall a, b | 0 <= a < b < |tl| ensures tl[a].id != tl[b].id {
          assert tl[a] == incoming[a + 1] && tl[b] == incoming[b + 1];
        }
      }
      if h.id in seen {
        UnseenAgreesOnDistinct(tl, seen);
      } else {
        assert h.id !in NoteIds(tl) by {
          forall k | 0 <= k < |tl| ensures NoteIds(tl)[k] != h.id {
            assert tl[k] == incoming[k + 1];
          }
        }
        UnseenAgreesOnDistinct(tl, seen + {h.id});
        UnseenAsWrittenIgnores(tl, seen, h.id);
      }
    }
  }

  /** With distinct incoming ids, the merge as written and the corrected merge give the same notes. */
  lemma MergedNotesAgreeOnDistinct(target: seq<ExplorationNote>, incoming: seq<ExplorationNote>)
    requires DistinctIds(incoming)
    ensures MergedNotesAsWritten(target, incoming) == MergedNotes(target, incoming)
  {
    UnseenAgreesOnDistinct(incoming, IdSet(target));
  }

  lemma GatheredTwice(ts: seq<TaskData>, si: nat)
    requires si < |ts|
    ensures Gathered(ts, [si, si]) == ts[si].explorationNotes + ts[si].explorationNotes
  {
    var notes := ts[si].explorationNotes;
    assert [si, si][..1] == [si];
    assert [si][..0] == [];
    assert Gathered(ts, [si]) == Gathered(ts, []) + notes == notes;
    assert Gathered(ts, [si, si]) == Gathered(ts, [si]) + notes;
  }

  lemma SortedPair(n: ExplorationNote)
    ensures SortedByCreation([n, n]) == [n, n]
  {
    var g := SortedByCreation([n, n]);
    assert g[0] in [n, n] && g[1] in [n, n];
  }

  /**
   * Listing a source that holds one note twice, with an empty target,
   * appends that note twice under the same id as written, whereas the
   * corrected merge appends it once.
   */
  lemma RepeatedSourceDuplicatesNotes(ts: seq<TaskData>, si: nat, ti: nat, n: ExplorationNote)
    requires si < |ts| && ti < |ts|
    requires ts[si].explorationNotes == [n] && ts[ti].explorationNotes == []
    ensures var gathered := SortedByCreation(Gathered(ts, [si, si]));
            && MergedNotesAsWritten(ts[ti].explorationNotes, gathered) == [n, n]
            && !DistinctIds(MergedNotesAsWritten(ts[ti].explorationNotes, gathered))
            && MergedNotes(ts[ti].explorationNotes, gathered) == [n]
  {
    GatheredTwice(ts, si);
    SortedPair(n);
    PairIntoEmpty(n);
  }

  lemma PairIntoEmpty(n: ExplorationNote)
    ensures MergedNotesAsWritten([], [n, n]) == [n, n]
    ensures MergedNotes([], [n, n]) == [n]
  {
    assert IdSet([]) == {};
    assert UnseenAsWritten([n], {}) == [n];
    assert UnseenAsWritten([n, n], {}) == [n, n];
    assert [n, n][1..] == [n] && [n][1..] == [];
    assert Unseen([n], {n.id}) == [];
    var empty: set<string> := {};
    assert empty + {n.id} == {n.id};
    assert Unseen([n, n], empty) == [n] + Unseen([n], {n.id});
  }
}
