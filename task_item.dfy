/**
 * The task record and the per-row edit state machine of the to-do screen
 * (src/components/TaskItem.tsx).
 */
module TaskItem {

  /** A to-do record: the id comes from the clock at creation, done starts false. */
  datatype Task = Task(id: int, title: string, done: bool)

  /**
   * What a row can ask of its parent: the three callback props
   * `toggleTaskDone(id)`, `removeTask(id)` and `editTask(id, taskNewTitle)`.
   */
  datatype Intent =
    | ToggleTaskDone(id: int)
    | RemoveTask(id: int)
    | EditTask(id: int, taskNewTitle: string)

  /**
   * One rendered row. `item` is the record the row was rendered for (read-only);
   * `editing` and `editedTitle` are the row's local state; `emitted` is the log
   * of callbacks the row has fired, oldest first.
   */
  class TaskRow {
    const item: Task
    var editing: bool
    var editedTitle: string
    var emitted: seq<Intent>

    /** A freshly mounted row: viewing, with the draft set to the task's title. */
    constructor (item: Task)
      ensures this.item == item
      ensures !editing && editedTitle == item.title && emitted == []
    {
      this.item := item;
      editing := false;
      editedTitle := item.title;
      emitted := [];
    }

    /** Pen press: enter editing mode; the draft is kept as it is. */
    method StartEditing()
      modifies this
      ensures editing
      ensures editedTitle == old(editedTitle) && emitted == old(emitted)
    {
      editing := true;
    }

    /** Close press: discard the draft, back to viewing, nothing sent upward. */
    method CancelEditing()
      modifies this
      ensures !editing
      ensures editedTitle == item.title && emitted == old(emitted)
    {
      editedTitle := item.title;
      editing := false;
    }

    /**
     * Text submit: send the draft as it stands (empty or unchanged included), then
     * view. The field is editable only while editing, so only then can it be submitted.
     */
    method SubmitEditing()
      modifies this
      ensures !editing
      ensures editedTitle == old(editedTitle)
      ensures emitted == old(emitted) + (if old(editing) then [EditTask(item.id, old(editedTitle))] else [])
    {
      if editing {
        emitted := emitted + [EditTask(item.id, editedTitle)];
        editing := false;
      }
    }

    /** Press on the marker/title area: always asks to toggle, in either mode. */
    method PressToggle()
      modifies this
      ensures editing == old(editing) && editedTitle == old(editedTitle)
      ensures emitted == old(emitted) + [ToggleTaskDone(item.id)]
    {
      emitted := emitted + [ToggleTaskDone(item.id)];
    }

    /** Trash press: the button is disabled while editing, so it fires only when viewing. */
    method PressRemove()
      modifies this
      ensures editing == old(editing) && editedTitle == old(editedTitle)
      ensures emitted == old(emitted) + (if old(editing) then [] else [RemoveTask(item.id)])
    {
      if !editing {
        emitted := emitted + [RemoveTask(item.id)];
      }
    }

    /** A text change replaces the draft wholesale; the field takes input only while editing. */
    method ChangeText(text: string)
      modifies this
      ensures editing == old(editing) && emitted == old(emitted)
      ensures editedTitle == (if old(editing) then text else old(editedTitle))
    {
      if editing {
        editedTitle := text;
      }
    }
  }

  /**
   * Start editing, type anything, cancel: no callback fires and the draft is the
   * task's title again, from whatever state the row was in.
   */
  method StartTypeCancel(row: TaskRow, text: string)
    modifies row
    ensures !row.editing && row.editedTitle == row.item.title
    ensures row.emitted == old(row.emitted)
  {
    row.StartEditing();
    row.ChangeText(text);
    assert row.editedTitle == text;
    row.CancelEditing();
  }

  /** Start editing, type, submit: exactly one edit intent carrying the typed text. */
  method StartTypeSubmit(row: TaskRow, text: string)
    modifies row
    ensures !row.editing && row.editedTitle == text
    ensures row.emitted == old(row.emitted) + [EditTask(row.item.id, text)]
  {
    row.StartEditing();
    row.ChangeText(text);
    row.SubmitEditing();
  }
}

