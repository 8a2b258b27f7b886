/**
 * The screen of src/pages/Home.tsx: the single owner of the task collection.
 * Each handler replaces `tasks` with the collection its transform derives.
 */
module Home {
  import opened TaskItem
  import opened HomeTasks

  /** The two buttons of the remove confirmation dialog: "Não" and "Sim". */
  datatype Choice = No | Yes

  /** The collection after the screen handles one intent (`answer` matters only for remove). */
  function Apply(tasks: seq<Task>, intent: Intent, answer: Choice): seq<Task>
  {
    match intent
    case ToggleTaskDone(id) => ToggleDone(tasks, id)
    case RemoveTask(id) => if answer == Yes then RemoveId(tasks, id) else tasks
    case EditTask(id, title) => EditTitle(tasks, id, title)
  }

  /** The collection after the screen handles the intents in order. */
  function ApplyAll(tasks: seq<Task>, intents: seq<Intent>, answer: Choice): seq<Task>
    decreases |intents|
  {
    if intents == [] then tasks
    else ApplyAll(Apply(tasks, intents[0], answer), intents[1..], answer)
  }

  class HomeScreen {
    var tasks: seq<Task>

    /** The screen starts with no tasks. */
    constructor ()
      ensures tasks == []
    {
      tasks := [];
    }

    /**
     * handleAddTask. `now` is the clock reading that becomes the new id.
     * Returns whether the duplicate-title alert was raised.
     */
    method HandleAddTask(newTaskTitle: string, now: int) returns (alerted: bool)
      modifies this
      ensures alerted <==> TitleTaken(old(tasks), newTaskTitle)
      ensures alerted ==> tasks == old(tasks)
      ensures !alerted ==> tasks == old(tasks) + [Task(now, newTaskTitle, false)]
      ensures UniqueIds(old(tasks)) && !HasId(old(tasks), now) ==> UniqueIds(tasks)
      ensures UniqueTitles(old(tasks)) ==> UniqueTitles(tasks)
    {
      var found := FindByTitle(tasks, newTaskTitle);
      if found.Some? {
        alerted := true;
        return;
      }
      alerted := false;
      if UniqueIds(tasks) && !HasId(tasks, now) {
        AddFreshKeepsUniqueIds(tasks, newTaskTitle, now);
      }
      if UniqueTitles(tasks) {
        AddKeepsUniqueTitles(tasks, newTaskTitle, now);
      }
      var outcome := AddTask(tasks, newTaskTitle, now);
      assert outcome.tasks == tasks + [Task(now, newTaskTitle, false)];
      tasks := outcome.tasks;
    }

    /** handleToggleTaskDone. */
    method HandleToggleTaskDone(id: int)
      modifies this
      ensures tasks == ToggleDone(old(tasks), id)
      ensures !HasId(old(tasks), id) ==> tasks == old(tasks)
      ensures UniqueIds(old(tasks)) ==> UniqueIds(tasks)
    {
      if !HasId(tasks, id) {
        ToggleAbsent(tasks, id);
      }
      if UniqueIds(tasks) {
        ToggleEditKeepUniqueIds(tasks, id, "");
      }
      tasks := ToggleDone(tasks, id);
    }

    /** handleRemoveTask. */
    method HandleRemoveTask(id: int)
      modifies this
      ensures tasks == RemoveId(old(tasks), id)
      ensures !HasId(old(tasks), id) ==> tasks == old(tasks)
      ensures UniqueIds(old(tasks)) ==> UniqueIds(tasks)
      ensures UniqueIds(old(tasks)) && HasId(old(tasks), id) ==> |tasks| == |old(tasks)| - 1
    {
      if !HasId(tasks, id) {
        RemoveAbsent(tasks, id);
      }
      if UniqueIds(tasks) {
        RemoveKeepsUniqueIds(tasks, id);
        if HasId(tasks, id) {
          UniqueIdCountsOnce(tasks, id);
        }
      }
      tasks := RemoveId(tasks, id);
    }

    /** askToRemoveTask: "Não" leaves the collection alone, "Sim" removes the task. */
    method AskToRemoveTask(id: int, answer: Choice)
      modifies this
      ensures answer == No ==> tasks == old(tasks)
      ensures answer == Yes ==> tasks == RemoveId(old(tasks), id)
    {
      if answer == Yes {
        HandleRemoveTask(id);
      }
    }

    /** handleEditTask. */
    method HandleEditTask(id: int, taskNewTitle: string)
      modifies this
      ensures tasks == EditTitle(old(tasks), id, taskNewTitle)
      ensures !HasId(old(tasks), id) ==> tasks == old(tasks)
      ensures UniqueIds(old(tasks)) ==> UniqueIds(tasks)
    {
      if !HasId(tasks, id) {
        EditAbsent(tasks, id, taskNewTitle);
      }
      if UniqueIds(tasks) {
        ToggleEditKeepUniqueIds(tasks, id, taskNewTitle);
      }
      tasks := EditTitle(tasks, id, taskNewTitle);
    }

    /**
     * The callbacks the screen hands to every row: toggle and edit go straight to
     * their handlers, remove goes through the confirmation dialog, whose answer
     * is `answer` (consulted only for a remove intent).
     */
    method Receive(intent: Intent, answer: Choice)
      modifies this
      ensures intent.ToggleTaskDone? ==> tasks == ToggleDone(old(tasks), intent.id)
      ensures intent.EditTask? ==> tasks == EditTitle(old(tasks), intent.id, intent.taskNewTitle)
      ensures intent.RemoveTask? ==>
        tasks == (if answer == Yes then RemoveId(old(tasks), intent.id) else old(tasks))
      ensures tasks == Apply(old(tasks), intent, answer)
    {
      match intent
      case ToggleTaskDone(id) => HandleToggleTaskDone(id);
      case RemoveTask(id) => AskToRemoveTask(id, answer);
      case EditTask(id, title) => HandleEditTask(id, title);
    }

    /** Handle the intents a row fired, one after the other, as the row fired them. */
    method ReceiveAll(intents: seq<Intent>, answer: Choice)
      modifies this
      ensures tasks == ApplyAll(old(tasks), intents, answer)
      decreases |intents|
    {
      if intents != [] {
        Receive(intents[0], answer);
        ReceiveAll(intents[1..], answer);
      }
    }
  }

  /**
   * One session on an empty screen: add "Buy milk" (accepted), try to add it again
   * (alert, nothing changes), toggle it done, remove it with "Sim": the list is empty.
   */
  method BuyMilkSession(now: int, later: int)
    returns (firstAlerted: bool, afterFirst: seq<Task>, secondAlerted: bool,
             lengthAfterSecond: nat, doneAfterToggle: bool, final: seq<Task>)
    ensures !firstAlerted && afterFirst == [Task(now, "Buy milk", false)]
    ensures secondAlerted && lengthAfterSecond == 1 && doneAfterToggle
    ensures final == []
  {
    var screen := new HomeScreen();
    firstAlerted := screen.HandleAddTask("Buy milk", now);
    afterFirst := screen.tasks;
    assert screen.tasks == [Task(now, "Buy milk", false)];
    assert screen.tasks[0] in screen.tasks;
    secondAlerted := screen.HandleAddTask("Buy milk", later);
    lengthAfterSecond := |screen.tasks|;
    screen.HandleToggleTaskDone(now);
    assert screen.tasks[0].done;
    doneAfterToggle := screen.tasks[0].done;
    assert screen.tasks == [Task(now, "Buy milk", true)];
    screen.AskToRemoveTask(now, Yes);
    assert RemoveId([Task(now, "Buy milk", true)], now) == RemoveId([], now);
    final := screen.tasks;
  }

  /**
   * A row edit followed by the screen handling whatever the row fired during it:
   * a cancelled edit fires nothing, so the screen's collection is unchanged; a
   * submitted one fires one edit intent, which renames the row's task.
   */
  method RowEditReachesScreen(screen: HomeScreen, row: TaskRow, text: string, cancel: bool)
    requires screen != row as object
    modifies screen, row
    ensures cancel ==> row.emitted == old(row.emitted) && screen.tasks == old(screen.tasks)
    ensures !cancel ==> screen.tasks == EditTitle(old(screen.tasks), row.item.id, text)
  {
    var before := |row.emitted|;
    if cancel {
      StartTypeCancel(row, text);
    } else {
      StartTypeSubmit(row, text);
    }
    var fired := row.emitted[before..];
    screen.ReceiveAll(fired, No);
    if !cancel {
      assert fired == [EditTask(row.item.id, text)];
      assert ApplyAll(old(screen.tasks), fired, No) == ApplyAll(EditTitle(old(screen.tasks), row.item.id, text), [], No);
    }
  }
}
