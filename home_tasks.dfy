/**
 * The transforms the screen of src/pages/Home.tsx applies to its task
 * collection: each derives the next collection from the current one.
 */
module HomeTasks {
  import opened Wrappers
  import opened TaskItem

  /** Some task already carries exactly this title (case-sensitive). */
  predicate TitleTaken(tasks: seq<Task>, title: string)
  {
    exists t :: t in tasks && t.title == title
  }

  /** Some task carries this id. */
  predicate HasId(tasks: seq<Task>, id: int)
  {
    exists t :: t in tasks && t.id == id
  }

  /** No two records share an id (the screen hopes for this; nothing enforces it). */
  predicate UniqueIds(tasks: seq<Task>)
  {
    forall i, j :: 0 <= i < j < |tasks| ==> tasks[i].id != tasks[j].id
  }

  /** No two records share a title. */
  predicate UniqueTitles(tasks: seq<Task>)
  {
    forall i, j :: 0 <= i < j < |tasks| ==> tasks[i].title != tasks[j].title
  }

  /** How many records carry this id. */
  function CountId(tasks: seq<Task>, id: int): (n: nat)
    ensures n <= |tasks|
    ensures n == 0 <==> !HasId(tasks, id)
  {
    if tasks == [] then 0
    else (if tasks[0].id == id then 1 else 0) + CountId(tasks[1..], id)
  }

  /** Position i holds the first record titled `title`. */
  predicate FirstWithTitle(tasks: seq<Task>, title: string, i: int)
  {
    0 <= i < |tasks| && tasks[i].title == title
    && forall j :: 0 <= j < i ==> tasks[j].title != title
  }

  /** `tasks.find(task => task.title === title)`: the first record with that title, if any. */
  function FindByTitle(tasks: seq<Task>, title: string): (r: Option<Task>)
    ensures r.None? <==> !TitleTaken(tasks, title)
    ensures r.Some? ==> exists i :: FirstWithTitle(tasks, title, i) && tasks[i] == r.value
  {
    if tasks == [] then None
    else if tasks[0].title == title then
      assert FirstWithTitle(tasks, title, 0);
      Some(tasks[0])
    else
      var r := FindByTitle(tasks[1..], title);
      assert TitleTaken(tasks, title) ==> TitleTaken(tasks[1..], title) by {
        if TitleTaken(tasks, title) {
          var t :| t in tasks && t.title == title;
          assert t in tasks[1..];
        }
      }
      if r.Some? then
        var i :| FirstWithTitle(tasks[1..], title, i) && tasks[1..][i] == r.value;
        assert FirstWithTitle(tasks, title, i + 1) by {
          assert forall j :: 1 <= j < i + 1 ==> tasks[j] == tasks[1..][j - 1];
        }
        r
      else r
  }

  /** What an add attempt does: reject a duplicate title, or give the next collection. */
  datatype AddOutcome = DuplicateTitle | Added(tasks: seq<Task>)

  /**
   * handleAddTask: a title that exactly matches an existing one is rejected; any
   * other is appended as a new, not-done record with the given id.
   */
  function AddTask(tasks: seq<Task>, title: string, newId: int): (r: AddOutcome)
    ensures r.DuplicateTitle? <==> TitleTaken(tasks, title)
    ensures r.Added? ==> |r.tasks| == |tasks| + 1
    ensures r.Added? ==> r.tasks[..|tasks|] == tasks
    ensures r.Added? ==> r.tasks[|tasks|] == Task(newId, title, false)
  {
    if FindByTitle(tasks, title).Some? then DuplicateTitle
    else Added(tasks + [Task(newId, title, false)])
  }

  /** handleToggleTaskDone: negate `done` on every record with that id. */
  function ToggleDone(tasks: seq<Task>, id: int): (r: seq<Task>)
    ensures |r| == |tasks|
    ensures forall i :: 0 <= i < |tasks| ==> r[i].id == tasks[i].id && r[i].title == tasks[i].title
    ensures forall i :: 0 <= i < |tasks| && tasks[i].id == id ==> r[i].done == !tasks[i].done
    ensures forall i :: 0 <= i < |tasks| && tasks[i].id != id ==> r[i] == tasks[i]
  {
    if tasks == [] then []
    else
      var rest := ToggleDone(tasks[1..], id);
      var r := [if tasks[0].id == id then tasks[0].(done := !tasks[0].done) else tasks[0]] + rest;
      assert forall i :: 1 <= i < |tasks| ==> r[i] == rest[i - 1] && tasks[i] == tasks[1..][i - 1];
      r
  }

  /** handleEditTask: set `title` on every record with that id; no duplicate check. */
  function EditTitle(tasks: seq<Task>, id: int, taskNewTitle: string): (r: seq<Task>)
    ensures |r| == |tasks|
    ensures forall i :: 0 <= i < |tasks| ==> r[i].id == tasks[i].id && r[i].done == tasks[i].done
    ensures forall i :: 0 <= i < |tasks| && tasks[i].id == id ==> r[i].title == taskNewTitle
    ensures forall i :: 0 <= i < |tasks| && tasks[i].id != id ==> r[i] == tasks[i]
  {
    if tasks == [] then []
    else
      var rest := EditTitle(tasks[1..], id, taskNewTitle);
      var r := [if tasks[0].id == id then tasks[0].(title := taskNewTitle) else tasks[0]] + rest;
      assert forall i :: 1 <= i < |tasks| ==> r[i] == rest[i - 1] && tasks[i] == tasks[1..][i - 1];
      r
  }

  /** handleRemoveTask: keep the records whose id differs. */
  function RemoveId(tasks: seq<Task>, id: int): (r: seq<Task>)
    ensures |r| == |tasks| - CountId(tasks, id)
  {
    if tasks == [] then []
    else if tasks[0].id == id then RemoveId(tasks[1..], id)
    else [tasks[0]] + RemoveId(tasks[1..], id)
  }

  // ---------------------------------------------------------------------------
  // Properties of the transforms
  // ---------------------------------------------------------------------------

  /** Remove keeps exactly the records whose id differs from the argument. */
  lemma {:induction false} RemoveIdMembers(tasks: seq<Task>, id: int)
    ensures forall t :: t in RemoveId(tasks, id) <==> t in tasks && t.id != id
  {
    if tasks != [] {
      RemoveIdMembers(tasks[1..], id);
      assert forall t :: t in tasks <==> t == tasks[0] || t in tasks[1..];
    }
  }

  /** Toggling the same id twice gives back the original collection. */
  lemma ToggleTwice(tasks: seq<Task>, id: int)
    ensures ToggleDone(ToggleDone(tasks, id), id) == tasks
  {
  }

  /** Toggle with an id no record has changes nothing. */
  lemma ToggleAbsent(tasks: seq<Task>, id: int)
    requires !HasId(tasks, id)
    ensures ToggleDone(tasks, id) == tasks
  {
  }

  /** Edit with an id no record has changes nothing. */
  lemma EditAbsent(tasks: seq<Task>, id: int, taskNewTitle: string)
    requires !HasId(tasks, id)
    ensures EditTitle(tasks, id, taskNewTitle) == tasks
  {
  }

  /** Remove with an id no record has changes nothing. */
  lemma {:induction false} RemoveAbsent(tasks: seq<Task>, id: int)
    requires !HasId(tasks, id)
    ensures RemoveId(tasks, id) == tasks
  {
    if tasks != [] {
      assert tasks[0] in tasks;
      assert forall t :: t in tasks[1..] ==> t in tasks;
      RemoveAbsent(tasks[1..], id);
      assert tasks == [tasks[0]] + tasks[1..];
    }
  }

  /** Remove works piece by piece, so it keeps the survivors' relative order. */
  lemma {:induction false} RemoveConcat(a: seq<Task>, b: seq<Task>, id: int)
    ensures RemoveId(a + b, id) == RemoveId(a, id) + RemoveId(b, id)
  {
    if a == [] {
      assert a + b == b;
    } else {
      var ab := a + b;
      assert ab != [] && ab[0] == a[0] && ab[1..] == a[1..] + b;
      RemoveConcat(a[1..], b, id);
      if a[0].id == id {
        calc {
          RemoveId(ab, id);
          RemoveId(a[1..] + b, id);
          RemoveId(a[1..], id) + RemoveId(b, id);
          RemoveId(a, id) + RemoveId(b, id);
        }
      } else {
        calc {
          RemoveId(ab, id);
          [a[0]] + RemoveId(a[1..] + b, id);
          [a[0]] + (RemoveId(a[1..], id) + RemoveId(b, id));
          ([a[0]] + RemoveId(a[1..], id)) + RemoveId(b, id);
          RemoveId(a, id) + RemoveId(b, id);
        }
      }
    }
  }

  /** With unique ids, the records before and after position k do not carry its id. */
  lemma UniqueIdsApart(tasks: seq<Task>, k: nat)
    requires UniqueIds(tasks) && k < |tasks|
    ensures !HasId(tasks[..k], tasks[k].id) && !HasId(tasks[k + 1..], tasks[k].id)
  {
  }

  /** In a collection with unique ids, removing the id at position k drops exactly that record. */
  lemma RemoveUniqueAt(tasks: seq<Task>, k: nat)
    requires UniqueIds(tasks) && k < |tasks|
    ensures RemoveId(tasks, tasks[k].id) == tasks[..k] + tasks[k + 1..]
    ensures |RemoveId(tasks, tasks[k].id)| == |tasks| - 1
  {
    var id := tasks[k].id;
    var pre, post := tasks[..k], tasks[k + 1..];
    assert tasks == pre + ([tasks[k]] + post);
    UniqueIdsApart(tasks, k);
    RemoveAbsent(pre, id);
    RemoveAbsent(post, id);
    RemoveConcat(pre, [tasks[k]] + post, id);
    assert RemoveId([tasks[k]] + post, id) == RemoveId(post, id);
  }

  /** In a collection with unique ids, a present id occurs exactly once. */
  lemma UniqueIdCountsOnce(tasks: seq<Task>, id: int)
    requires UniqueIds(tasks) && HasId(tasks, id)
    ensures CountId(tasks, id) == 1
  {
  }

  /** Putting a record in front of unique-id records that lack its id keeps ids unique. */
  lemma UniqueIdsCons(t: Task, rest: seq<Task>)
    requires UniqueIds(rest) && !HasId(rest, t.id)
    ensures UniqueIds([t] + rest)
  {
  }

  /** Removing keeps ids unique. */
  lemma {:induction false} RemoveKeepsUniqueIds(tasks: seq<Task>, id: int)
    requires UniqueIds(tasks)
    ensures UniqueIds(RemoveId(tasks, id))
  {
    if tasks != [] {
      assert UniqueIds(tasks[1..]);
      RemoveKeepsUniqueIds(tasks[1..], id);
      if tasks[0].id != id {
        UniqueIdsApart(tasks, 0);
        RemoveIdMembers(tasks[1..], id);
        UniqueIdsCons(tasks[0], RemoveId(tasks[1..], id));
      }
    }
  }

  /** Toggle and edit keep every id in place, so they keep ids unique. */
  lemma ToggleEditKeepUniqueIds(tasks: seq<Task>, id: int, taskNewTitle: string)
    requires UniqueIds(tasks)
    ensures UniqueIds(ToggleDone(tasks, id))
    ensures UniqueIds(EditTitle(tasks, id, taskNewTitle))
  {
  }

  /** Adding with an id no record has keeps ids unique (the clock does not promise this). */
  lemma AddFreshKeepsUniqueIds(tasks: seq<Task>, title: string, newId: int)
    requires UniqueIds(tasks) && !HasId(tasks, newId)
    ensures AddTask(tasks, title, newId).Added? ==> UniqueIds(AddTask(tasks, title, newId).tasks)
  {
  }

  /** The duplicate check means adding never creates two equal titles. */
  lemma AddKeepsUniqueTitles(tasks: seq<Task>, title: string, newId: int)
    requires UniqueTitles(tasks)
    ensures AddTask(tasks, title, newId).Added? ==> UniqueTitles(AddTask(tasks, title, newId).tasks)
  {
  }

  /**
   * Edit has no duplicate check: renaming one record to another's title is accepted,
   * although adding that same title would be rejected.
   */
  lemma EditMayDuplicateTitles()
    ensures var tasks := [Task(1, "a", false), Task(2, "b", false)];
      UniqueTitles(tasks)
      && !UniqueTitles(EditTitle(tasks, 2, "a"))
      && AddTask(tasks, "a", 3).DuplicateTitle?
  {
  }
}
