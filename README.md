# To-do screen: task collection and row edit state, in Dafny

This project models the core of a small React Native to-do screen:

- **TaskItem** (`task_item.dfy`): the `Task {id, title, done}` record, the three callbacks a row can fire (toggle, remove, edit), and the row's two pieces of local state, `editing` and the draft `editedTitle`. The row is the class `TaskRow`. Each handler is a method. The callbacks fired so far are logged in the field `emitted`.
- **HomeTasks** (`home_tasks.dfy`): the pure transforms that the screen's handlers apply to the collection:
  - `FindByTitle` (`tasks.find`)
  - `AddTask`, which rejects a duplicate title
  - `ToggleDone` and `EditTitle` (`tasks.map` with an object spread)
  - `RemoveId` (`filter`)

  Lemmas about these transforms cover toggle-twice, the absent-id identities, order preservation on remove, exact removal under unique ids, and which transforms keep ids or titles unique.
- **Home** (`home.dfy`): the screen as the class `HomeScreen`. Its `tasks` field is replaced by each handler. `Receive` models the wiring of the row callbacks to the screen, with the remove callback going through the yes/no confirmation. The module also has the add / duplicate / toggle / confirm-remove session and the row-to-screen edit path.
- **Wrappers** (`wrappers.dfy`): `Option`, the result of `find`.

The new task's id comes from the clock (`new Date().getTime()`). Here it is the parameter `now` of `HandleAddTask`. The source does not guarantee that ids are unique. Every unique-id property is therefore stated conditionally: if ids were unique before and the new id is fresh, they stay unique. The confirmation dialog's answer is the parameter `answer` (`No` is "Não", `Yes` is "Sim").

Starting an edit does **not** re-initialise the draft: `handleStartEditing` only sets `editing` (src/components/TaskItem.tsx:42-44). The draft is set from the task's title only at mount and on cancel. `TaskRow.StartEditing` keeps the draft unchanged.

## Model

| member | source | states |
|---|---|---|
| `TaskItem.TaskRow.constructor` | src/components/TaskItem.tsx:38-39 | A new row is not editing, its draft equals the task's title, and it has fired nothing. |
| `TaskItem.TaskRow.StartEditing` | src/components/TaskItem.tsx:42-44 | Editing becomes true; the draft and the fired callbacks are untouched (no draft reset). |
| `TaskItem.TaskRow.CancelEditing` | src/components/TaskItem.tsx:46-49 | Editing becomes false, the draft is the task's title again, no callback fires. |
| `TaskItem.TaskRow.SubmitEditing` | src/components/TaskItem.tsx:51-54 | While editing, exactly one edit intent `(item.id, draft)` with the current draft is fired, whatever the draft is, and then editing is false; the draft is kept. While viewing, the field is not editable (line 86), so it cannot be submitted and nothing fires. |
| `TaskItem.TaskRow.PressToggle` | src/components/TaskItem.tsx:69-73 | A toggle intent for the row's id is fired in either mode; editing and draft do not change. |
| `TaskItem.TaskRow.PressRemove` | src/components/TaskItem.tsx:114-118 | A remove intent for the row's id is fired only when not editing; while editing nothing fires; editing and draft do not change. |
| `TaskItem.TaskRow.ChangeText` | src/components/TaskItem.tsx:82-89 | While editing, the draft becomes the new text wholesale; otherwise the field is not editable and nothing changes. |
| `TaskItem.StartTypeCancel` | src/components/TaskItem.tsx:42-49 | Start, type anything, cancel: no callback fires and the row ends viewing with the draft equal to the task's title. |
| `TaskItem.StartTypeSubmit` | src/components/TaskItem.tsx:42-54 | Start, type, submit: exactly one edit intent carrying the typed text, and the row ends viewing. |
| `HomeTasks.FindByTitle` | src/pages/Home.tsx:13 | None exactly when no task has the title; otherwise the first task (in order) whose title equals it. |
| `HomeTasks.AddTask` | src/pages/Home.tsx:12-27 | Rejected exactly when some task has that exact title; otherwise one record `{id, title, done=false}` is appended, with the old collection as an unchanged prefix. |
| `HomeTasks.ToggleDone` | src/pages/Home.tsx:29-42 | Same length and order; matching records keep id and title and have `done` negated; all other records are identical. |
| `HomeTasks.EditTitle` | src/pages/Home.tsx:61-74 | Same length and order; every id and done kept; matching records get the new title; others identical. |
| `HomeTasks.RemoveId` | src/pages/Home.tsx:44-46 | The length drops by exactly the number of records carrying that id. |
| `HomeTasks.RemoveIdMembers` | src/pages/Home.tsx:45 | A record is in the result of remove exactly when it was in the input with a different id. |
| `HomeTasks.ToggleTwice` | src/pages/Home.tsx:29-42 | Toggling the same id twice restores the original collection. |
| `HomeTasks.ToggleAbsent` | src/pages/Home.tsx:30-39 | Toggle with an id no record has is the identity. |
| `HomeTasks.EditAbsent` | src/pages/Home.tsx:62-71 | Edit with an id no record has is the identity. |
| `HomeTasks.RemoveAbsent` | src/pages/Home.tsx:45 | Remove with an id no record has is the identity. |
| `HomeTasks.RemoveConcat` | src/pages/Home.tsx:45 | Remove distributes over concatenation, so the survivors keep their original relative order. |
| `HomeTasks.RemoveUniqueAt` | src/pages/Home.tsx:44-46 | With unique ids, removing the id at position k gives exactly the collection without position k, one shorter. |
| `HomeTasks.UniqueIdCountsOnce` | src/pages/Home.tsx:44-46 | With unique ids, an id that is present occurs exactly once, so remove drops exactly one record. |
| `HomeTasks.RemoveKeepsUniqueIds` | src/pages/Home.tsx:44-46 | Remove keeps ids unique. |
| `HomeTasks.ToggleEditKeepUniqueIds` | src/pages/Home.tsx:29-74 | Toggle and edit keep ids unique (they never change an id). |
| `HomeTasks.AddFreshKeepsUniqueIds` | src/pages/Home.tsx:20-26 | Adding with an id no record has keeps ids unique. |
| `HomeTasks.AddKeepsUniqueTitles` | src/pages/Home.tsx:12-26 | Because of the duplicate check, adding never creates two equal titles. |
| `HomeTasks.EditMayDuplicateTitles` | src/pages/Home.tsx:61-74 | Edit can produce two equal titles; adding that same title would be rejected. |
| `Home.HomeScreen.constructor` | src/pages/Home.tsx:10 | The screen starts with an empty collection. |
| `Home.HomeScreen.HandleAddTask` | src/pages/Home.tsx:12-27 | The alert is raised exactly when the title is taken, and then nothing changes. Otherwise `{now, title, false}` is appended. Unique ids (with a fresh `now`) and unique titles are preserved. |
| `Home.HomeScreen.HandleToggleTaskDone` | src/pages/Home.tsx:29-42 | The collection becomes `ToggleDone` of the old one: identity on an absent id, unique ids preserved. |
| `Home.HomeScreen.HandleRemoveTask` | src/pages/Home.tsx:44-46 | The collection becomes `RemoveId` of the old one: identity on an absent id, unique ids preserved, one shorter when the id is present and ids are unique. |
| `Home.HomeScreen.AskToRemoveTask` | src/pages/Home.tsx:48-59 | "Não" leaves the collection unchanged; "Sim" is exactly remove(id). |
| `Home.HomeScreen.HandleEditTask` | src/pages/Home.tsx:61-74 | The collection becomes `EditTitle` of the old one: identity on an absent id, unique ids preserved. |
| `Home.HomeScreen.Receive` | src/pages/Home.tsx:82-87 | A toggle intent toggles, an edit intent edits, and a remove intent goes through the confirmation. |
| `Home.HomeScreen.ReceiveAll` | src/pages/Home.tsx:82-87 | Intents that a row fired one after another are handled in that order: the collection is the old one with each intent applied in turn. |
| `Home.BuyMilkSession` | src/pages/Home.tsx:12-59 | From empty: the first add of "Buy milk" is accepted and gives `[{now, "Buy milk", false}]`. Adding it again raises the alert and the length stays 1. Toggling it sets done. Removing it with "Sim" leaves the collection empty. |
| `Home.RowEditReachesScreen` | src/components/TaskItem.tsx:46-54 | The screen handles everything the row fired during the edit. A cancelled edit fires nothing, so the collection is unchanged. A submitted edit renames the row's task to the typed text. |

## Left out

- src/components/TasksList.tsx: it only hands the collection to `FlatList`, keyed by `String(item.id)`, and passes the callbacks through. That passthrough is folded into `Home.HomeScreen.Receive`. Virtualisation and keying are not modelled.
- The `Alert.alert` dialogs and their texts. Only the fact that the duplicate alert was raised (`alerted`) and the yes/no answer of the remove dialog (`answer`) are kept.
- Clock-based id generation: the id is the parameter `now`. Ids are Dafny `int`, while in the source they are JavaScript numbers; millisecond timestamps are integral, so nothing is lost for them.
- The focus/blur effect of the text field (src/components/TaskItem.tsx:56-64). It is a side effect on a native ref, with no state of the model.
- The visibility of the pen and close buttons (src/components/TaskItem.tsx:94-110). `StartEditing` and `CancelEditing` are modelled as the handlers are written, with no guard. Which of the two buttons is shown is not modelled.
- Re-rendering a row with new props: `TaskRow.item` is fixed for the row's lifetime. The model does not follow how React keeps a row's local state when the parent re-renders that row with a changed record.
- The header counter (`tasks.length`), `TodoInput`, `Header`, `ItemWrapper`, test IDs, icons, images and all styling.
