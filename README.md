# To-do task store, modelled in Dafny

The to-do app keeps its tasks in a single React `useReducer` store. The repository has two
copies of that store, and they have drifted apart:

- **frontend/src/App.jsx** is backed by a remote document store.
  - New tasks go at the front.
  - Edits and toggles replace the whole task record with what the remote call returned.
  - Every task action ends the `loading` state.
  - Each UI handler awaits one remote call, then dispatches either the success action or `SET_ERROR`.
- **src/App.jsx** is local only.
  - New tasks are appended and numbered from a `nextTaskId` counter.
  - `EDIT_TASK` merges `updates` into the matching record.
  - The toggles flip one flag of the record with the given id.
  - `DELETE_LIST` is declared but has no case, so it falls through to `default`.

Both copies derive the same views: `getFilteredTasks` for the open and done lists of the active
view, `getTaskCount` for the sidebar numbers, and `getViewTitle` for the header. The local copy
also has `isOverdue`.

Modules:

| file | module | contents |
|---|---|---|
| options.dfy | `Options` | `Option`; `Remote` (how an awaited call settled: a value, or a rejection) |
| seqs.dfy | `Seqs` | `Array.prototype.filter` and `.map` over sequences, and the subsequence relation |
| text.dfy | `Text` | `String.prototype.trim` with the JavaScript white-space set, decimal `${n}`, string `<`, and the order of `YYYY-MM-DD` dates |
| views.dfy | `Views` | View keys (`my-day`, `important`, `planned`, `all`, a list id), `ADD_LIST` ids, `getViewTitle` |
| remote_app.dfy | `RemoteApp` | Remote-backed copy: state, `appReducer`, the filters and counts, and the records the handlers send |
| remote_store.dfy | `RemoteStore` | Remote-backed copy: class `Store` (the reducer's state) and the async handlers as methods on it, with each remote outcome as a parameter |
| local_app.dfy | `LocalApp` | Local copy: state, `appReducer`, id invariants, the filters and counts, `handleAddTask`, `isOverdue` |

Modelling choices:

- **Remote-backed task records.** A record in the remote-backed copy is a loose JavaScript
  object, so every field except `id` is an `Option`. `None` stands for `null` or a missing
  field.
- **Truthiness.** A flag counts as true only when it is `Some(true)`. A date counts as present
  only when it is a non-empty string.
- **Strict equality.** `t.completed === c` is false when the field is missing.
- **Local task records.** In the local copy, tasks are built from `handleAddTask` payloads, so
  the flags are plain `bool`s.

## Model

| member | source | states |
|---|---|---|
| `RemoteApp.Reduce` | frontend/src/App.jsx:36-103 | `appReducer`: every task action (`SET_TASKS`, `ADD_TASK`, `EDIT_TASK`, `DELETE_TASK`, the toggles) clears `loading` and keeps `error`, `lists` and `activeView`. Every other action keeps `tasks`. |
| `RemoteApp.AddTaskPrepends` | frontend/src/App.jsx:41-46 | `ADD_TASK` puts the payload at index 0 and keeps the old tasks after it, in order. `loading` becomes false; nothing else changes. |
| `RemoteApp.AddTaskRunNewestFirst` | frontend/src/App.jsx:41-46 | Any run of `ADD_TASK`s leaves the added tasks newest first (the payloads reversed), ahead of the old tasks. Loading is off once anything was added; nothing else changes. |
| `RemoteApp.ReplaceByPayload` | frontend/src/App.jsx:48-80 | `EDIT_TASK`, `TOGGLE_COMPLETE` and `TOGGLE_IMPORTANT` keep the length. Every task with the payload's id becomes exactly the payload (no merge). Other tasks stay unchanged and in place. `loading` becomes false. |
| `RemoteApp.DeleteTaskRemoves` | frontend/src/App.jsx:57-62 | `DELETE_TASK` leaves an order-preserving subsequence holding exactly the tasks with another id. An absent id leaves `tasks` unchanged. |
| `RemoteApp.OtherActions` | frontend/src/App.jsx:82-101 | `SET_ACTIVE_VIEW` and `SET_LOADING` change only their own field. `SET_ERROR` sets `error` and clears `loading`. `ADD_LIST` appends a list. An unknown type returns the state unchanged. |
| `RemoteApp.FirstAddList` | frontend/src/App.jsx:13-92 | From `initialState`, the first `ADD_LIST` appends `{list-2, name, blue}` and changes nothing else. |
| `RemoteApp.RunKeepsListsCanonical` | frontend/src/App.jsx:85-92 | Any run of actions keeps the list ids canonical: `personal` first, then `list-2`, `list-3`, … in order. |
| `RemoteApp.ReachableListIdsDistinct` | frontend/src/App.jsx:85-92 | From `initialState`, list ids stay pairwise distinct whatever is dispatched. |
| `RemoteApp.FilteredTasks` | frontend/src/App.jsx:406-415 | `getFilteredTasks(c)` is an order-preserving subsequence of `tasks`. A task is in it iff `completed === c` and the active view's test (`RemoteApp.InView`: `myDay`, `important` or `date` truthy, always, or `list === view`) holds. Each such task appears as often as in `tasks`. |
| `RemoteApp.AllViewKeepsStatus` | frontend/src/App.jsx:406-415 | Under `all`, the filter is exactly the tasks with `completed === c`. |
| `RemoteApp.TaskCount` | frontend/src/App.jsx:269-277 | `getTaskCount(v)` counts at most every task. |
| `RemoteApp.CountMatchesFiltered` | frontend/src/App.jsx:269-277 | When every task has a boolean `completed`, `getTaskCount(v)` equals the length of `getFilteredTasks(false)` with `v` active. |
| `RemoteApp.MyDayScenario` | frontend/src/App.jsx:406-415 | Two open tasks, one in My Day: the My Day list shows only that one. |
| `RemoteApp.NewTaskRecord` | frontend/src/App.jsx:423-432 | The new task: trimmed title, not completed, not important, `myDay` is `true` under `my-day` and `false` (never missing) otherwise, `list` is `personal` for the virtual views and the view's id otherwise, the user's id, no date or time. |
| `RemoteApp.AddedTaskShownFirst` | frontend/src/App.jsx:417-441 | The added task is first in the open list of the view it was added in. Under Important and Planned it is not listed. |
| `RemoteApp.UpdateReply` | frontend/src/App.jsx:122-126 | The corrected `updateTask` reply: the stored record with `updates` over it. The id, owner, My Day flag, list and date are kept. |
| `RemoteApp.UpdateReplyAsWritten` | frontend/src/App.jsx:122-126 | `{id, ...updates}` as written: only the id and the sent fields; every other field is missing. |
| `RemoteApp.EditWithReplyAsWrittenHidesTask` | frontend/src/App.jsx:535-546 | As written, renaming an open My Day task removes it from the open and done lists of My Day and of All Tasks, while All Tasks still counts it. |
| `RemoteApp.ReplyAsWrittenHides` | frontend/src/App.jsx:122-126 | As written, an edit, or a toggle of `important`, leaves the task in no list of any view; a toggle of `completed` does the same in every view but All Tasks. |
| `RemoteApp.ToggleTwiceRestores` | frontend/src/App.jsx:548-574 | With the corrected reply, toggling `completed` (or `important`) twice gives back the record, when that flag was a boolean. |
| `RemoteApp.ToggleTwiceAsWrittenLosesFields` | frontend/src/App.jsx:122-126 | As written, toggling twice brings the flag back as a boolean, but the record keeps only its id; every other field is missing, so a titled task is not restored. |
| `RemoteApp.ReplyKeepsStatus` | frontend/src/App.jsx:548-574 | With the corrected reply, an edit or toggle keeps a boolean `completed` on every task. A reply without an `important` change stays in the same views. |
| `RemoteApp.OwnedBy` | frontend/src/App.jsx:796-798 | `fetchTasks`'s filter: an order-preserving subsequence holding exactly the documents whose `userId` is the user's, each as often as fetched. |
| `RemoteStore.Store.constructor` | frontend/src/App.jsx:13-21 | The store starts at `initialState`, with nothing dispatched and no call made. |
| `RemoteStore.Store.Dispatch` | frontend/src/App.jsx:36-103 | `dispatch` steps the state by `appReducer` and records the action. |
| `RemoteStore.Store.HandleAddTask` | frontend/src/App.jsx:417-441 | Blank input does nothing. Otherwise `SET_LOADING(true)`, then `createTask` with the trimmed title, the view and the user, then `ADD_TASK` with the new record (task first, `loading` off), or `SET_ERROR("Failed to add task")` with `tasks` unchanged. |
| `RemoteStore.Store.FetchTasks` | frontend/src/App.jsx:792-804 | `SET_LOADING(true)`, one `getDocs`, then `SET_TASKS` with the user's documents, or `SET_ERROR("Failed to load tasks")` with `tasks` unchanged. |
| `RemoteStore.Store.HandleEditSave` | frontend/src/App.jsx:535-546 | Blank text does nothing. Otherwise `updateTask(id, {title: trimmed})`, then `EDIT_TASK` with exactly what it resolved with, or `SET_ERROR("Failed to update task")`. With the corrected reply every task keeps a boolean status; with the reply as written the task leaves every list. |
| `RemoteStore.Store.SaveTitle` | frontend/src/App.jsx:667-677 | Like `handleEditSave`, but the title is sent untrimmed. |
| `RemoteStore.Store.HandleToggleComplete` | frontend/src/App.jsx:548-560 | `TaskItem`'s handler; `TaskPanel`'s at 679-689 dispatches the same sequence. `updateTask(id, {completed: !completed})` (a missing flag becomes true), then `TOGGLE_COMPLETE` with the reply, or `SET_ERROR("Failed to update task")`. With the corrected reply every task keeps a boolean status; with the reply as written the task leaves every list outside All Tasks. |
| `RemoteStore.Store.HandleToggleImportant` | frontend/src/App.jsx:562-574 | `TaskItem`'s handler; `TaskPanel`'s at 691-701 dispatches the same sequence. `updateTask(id, {important: !important})`, then `TOGGLE_IMPORTANT` with the reply, or `SET_ERROR("Failed to update task")`. With the corrected reply every task keeps a boolean status; with the reply as written the task leaves every list. |
| `RemoteStore.Store.HandleDelete` | frontend/src/App.jsx:576-586 | `TaskItem`'s handler; `TaskPanel`'s at 703-712 dispatches the same sequence and then closes the panel. `deleteTask(id)`, then `DELETE_TASK` (every record with that id is gone, nothing else), or `SET_ERROR("Failed to delete task")`. |
| `RemoteStore.Store.HandleLogout` | frontend/src/App.jsx:812-816 | `SET_TASKS([])`: no tasks and not loading; everything else is kept; no remote call. |
| `RemoteStore.Store.HandleCreateList` | frontend/src/App.jsx:279-285 | Blank names do nothing. Otherwise `ADD_LIST` with the trimmed name appends one list. No remote call. |
| `LocalApp.Reduce` | src/App.jsx:25-92 | `appReducer`: only `ADD_TASK` moves the counter (by one), only `ADD_LIST` touches the lists, only `SET_ACTIVE_VIEW` changes the view, and the list, view and unknown actions keep the tasks. |
| `LocalApp.AddTaskAppends` | src/App.jsx:27-39 | `ADD_TASK` appends the payload with `id := nextTaskId`, adds 1 to the counter and keeps the old tasks in front. |
| `LocalApp.EditTaskMerges` | src/App.jsx:41-49 | `EDIT_TASK` merges `updates` into the tasks with that id. The others and the length are unchanged. |
| `LocalApp.MergeFields` | src/App.jsx:46 | Characterises `LocalApp.Merge` (`{ ...task, ...updates }`): field by field it takes the value in `updates` when there is one and keeps the record's own otherwise. |
| `LocalApp.MergeLaws` | src/App.jsx:46 | An empty patch is the identity. Two merges are one merge of the combined patch. Merging the same patch twice is the same as once. |
| `LocalApp.DeleteTaskRemoves` | src/App.jsx:51-55 | `DELETE_TASK` keeps, in order, exactly the tasks with another id. |
| `LocalApp.ToggleCompleteFlips` | src/App.jsx:57-65 | `TOGGLE_COMPLETE` flips `completed` on the tasks with that id and changes nothing else. |
| `LocalApp.ToggleImportantFlips` | src/App.jsx:67-75 | `TOGGLE_IMPORTANT` flips only `important` on the tasks with that id. |
| `LocalApp.ToggleTwiceRestores` | src/App.jsx:57-75 | Toggling twice restores the state. |
| `LocalApp.OtherActions` | src/App.jsx:77-91 | `SET_ACTIVE_VIEW` sets the view and `ADD_LIST` appends a list. `DELETE_LIST` and unknown types return the state unchanged. |
| `LocalApp.ReduceKeepsIdsValid` | src/App.jsx:25-92 | Every action whose patch carries no id keeps the ids below the counter and increasing along the list, and never lowers the counter. |
| `LocalApp.RunKeepsIdsValid` | src/App.jsx:25-92 | The same over any run of such actions. |
| `LocalApp.ReachableIdsDistinct` | src/App.jsx:5-39 | From `initialState`, task ids stay pairwise distinct and below `nextTaskId`. |
| `LocalApp.EditCanDuplicateIds` | src/App.jsx:41-49 | An `EDIT_TASK` whose `updates` carry an `id` can give two tasks the same id. |
| `LocalApp.AddTaskRunNumbers` | src/App.jsx:27-39 | A run of `ADD_TASK`s appends the payloads in order, numbered on from the counter. |
| `LocalApp.AddTaskRunFromInitial` | src/App.jsx:5-39 | From `initialState`, the k-th added task gets id k+1. |
| `LocalApp.RunKeepsListsCanonical` | src/App.jsx:80-87 | Any run keeps the list ids canonical. |
| `LocalApp.ReachableListIdsDistinct` | src/App.jsx:80-87 | From `initialState`, list ids stay pairwise distinct. |
| `LocalApp.FilteredTasks` | src/App.jsx:226-235 | `getFilteredTasks(c)` is an order-preserving subsequence. A task is in it iff `completed == c` and the view's test (`LocalApp.InView`: `myDay`, `important`, a non-empty `date`, always, or `list === view`) holds. Each such task appears as often as in `tasks`. |
| `LocalApp.AllViewKeepsStatus` | src/App.jsx:226-235 | Under `all`, the filter is exactly the tasks with that status. |
| `LocalApp.TaskCount` | src/App.jsx:99-107 | `getTaskCount(v)` counts at most every task. |
| `LocalApp.CountMatchesFiltered` | src/App.jsx:99-107 | `getTaskCount(v)` equals the length of `getFilteredTasks(false)` with `v` active. |
| `LocalApp.MyDayScenario` | src/App.jsx:226-235 | Two open tasks, one in My Day: only that one is listed. |
| `LocalApp.AddTaskRequest` | src/App.jsx:237-254 | Blank input dispatches nothing. Otherwise the payload is: trimmed non-empty title, not completed or important, `myDay` iff `my-day`, `list` is `personal` for virtual views and else the view's id, no date or time. |
| `LocalApp.AddedTaskShown` | src/App.jsx:237-254 | The added task is in the open list of its view iff that view is not Important or Planned. |
| `LocalApp.CreateListRequest` | src/App.jsx:109-115 | Blank names dispatch nothing; otherwise `ADD_LIST` with the trimmed, non-empty name. |
| `LocalApp.IsOverdue` | src/App.jsx:326-330 | An overdue task has a date and is open. |
| `LocalApp.OverdueMeansEarlierDay` | src/App.jsx:326-330 | For `YYYY-MM-DD` dates, string `<` means an earlier calendar day, so overdue iff open and due before today. A task due today is not overdue. |
| `LocalApp.UiRunHasNoDates` | src/App.jsx:237-254 | The UI's own actions never date a task. From date-less tasks, nothing is overdue and Planned is empty. |
| `Views.ParseView` | frontend/src/App.jsx:406-415 | `my-day`, `important`, `planned` and `all` name My Day, Important, Planned and All Tasks; any other key is a list view of that id. |
| `Views.ParseViewRoundTrip` | frontend/src/App.jsx:406-415 | Parsing a key and printing it back gives the key. |
| `Views.ViewKeyRoundTrip` | frontend/src/App.jsx:406-415 | Printing a view and parsing it back gives the view, for every virtual view and for a list id that is not one of the four keys. |
| `Views.DefaultListFor` | frontend/src/App.jsx:428 | A new task goes to `personal` under a virtual view and to the active list otherwise. |
| `Views.AddListTo` | frontend/src/App.jsx:85-92 | `ADD_LIST` appends `{list-(n+1), name, blue}` after the `n` existing lists. |
| `Views.InitialListsCanonical` | frontend/src/App.jsx:13-21 | The initial lists are canonical. |
| `Views.AddListKeepsCanonical` | frontend/src/App.jsx:85-92 | Appending a list keeps the ids canonical. |
| `Views.CanonicalListIdsDistinct` | frontend/src/App.jsx:85-92 | Canonical list ids are pairwise distinct. |
| `Views.FindList` | frontend/src/App.jsx:402 | `lists.find`: nothing iff no list has the id; otherwise the first list that has it. |
| `Views.FindListDistinct` | frontend/src/App.jsx:402 | With distinct ids, looking up a list's id finds that list. |
| `Views.ViewTitle` | frontend/src/App.jsx:397-404 | The fixed titles for the four virtual views. For a list view: the list's name, or `Tasks` when no list has that id. |
| `Views.NewListTitle` | frontend/src/App.jsx:397-404 | Right after `ADD_LIST`, the new list's id shows the new name as the title. |
| `Views.FirstNewListId` | frontend/src/App.jsx:85-92 | The first list added to the initial lists is `list-2`. |
| `Text.LeadingCount` | frontend/src/App.jsx:418 | The length of the leading run of JavaScript white space: all white space, and followed by a character that is not. |
| `Text.TrailingStart` | frontend/src/App.jsx:418 | Where the trailing run of JavaScript white space begins: all white space after it, and a character that is not white space before it. |
| `Text.Trim` | frontend/src/App.jsx:418 | `trim()`: empty iff the input is all white space. The result is the input's characters from the end of the leading white space on, with no white space at either end, and every character it drops is white space. |
| `Text.TrimIdempotent` | frontend/src/App.jsx:418 | Trimming twice is trimming once. |
| `Text.NatToString` | frontend/src/App.jsx:90 | `${n}`: non-empty decimal digits, no leading zero, whose value is `n`. |
| `Text.NatToStringInjective` | frontend/src/App.jsx:90 | Different counts give different list ids. |
| `Text.LexLessIrreflexive` | src/App.jsx:329 | String `<` (`Text.LexLess`, characterised by this row and the next five) is irreflexive. |
| `Text.LexLessTransitive` | src/App.jsx:329 | String `<` is transitive. |
| `Text.LexLessTrichotomy` | src/App.jsx:329 | String `<` is a strict total order. |
| `Text.LexLessConcat` | src/App.jsx:329 | For equal-length prefixes, `<` decides on the prefix first, then on the rest. |
| `Text.DigitsOrder` | src/App.jsx:329 | For equal-length digit strings, `<` is numeric order. |
| `Text.IsoDateOrder` | src/App.jsx:326-330 | For `YYYY-MM-DD` strings, `<` holds iff the first date is an earlier calendar day. |
| `Seqs.Filter` | frontend/src/App.jsx:407 | `filter`: an order-preserving subsequence holding exactly the elements that pass, each as often as in the input; everything stays when all pass. |
| `Seqs.FilterFuse` | frontend/src/App.jsx:407 | Two chained filters are one filter by the conjunction. |
| `Seqs.UpdateWhere` | frontend/src/App.jsx:51-53 | `map(t => match ? f(t) : t)`: same length, matched elements replaced, others kept. |
| `Seqs.UpdateWhereTwice` | src/App.jsx:57-65 | Applying an involution to the matched elements twice restores the sequence. |

## Left out

- Remote document store and sign-in are not modelled. The `firebaseAPI` calls, `getDocs`,
  `onSnapshot` and the auth provider are replaced by the `Remote` outcome each handler receives.
  - The live listener `getAllTasksRealtime` is not modelled.
  - `onAuthStateChanged`, `AuthScreen` and `handleLogin` are not modelled.
  - `handleLogout`'s `localStorage` and `setUser` steps are not modelled.
- Other repository code is not modelled: the backend (Express route, admin SDK set-up, token
  middleware), `frontend/src/services/api.js`, routing and the build configuration. None of it
  belongs to the store.
- Clock values are left out: `createdAt`, `updatedAt` and `Date.now()` are not stored. Today's
  date in `isOverdue` is a parameter, and `formatDate` is left out.
- UI-local state and rendering are left out. This covers the input, editing and panel hooks
  (`setInputValue('')`, `setIsEditing`, `close()`), the `panelTask` lookup, and all JSX and
  styling.
- Error logging is left out. The `console.error` call in every `catch` branch
  (frontend/src/App.jsx:438, 543, 557, 571, 583, 674, 686, 698, 709 and 801) writes to the
  console only; the `SET_ERROR` dispatched next to it is modelled.
- Handlers run one at a time. Each store method runs from its first dispatch to its last, so
  actions dispatched while a remote call is pending (interleaved handlers) are not modelled.
- Records in the remote-backed copy have typed fields, so a document field of another JSON type
  (a `completed` that is a string, say) is not modelled. The same goes for extra fields in a
  local `updates` object.
- `Text.LexLess`: compares characters as code points. JavaScript compares UTF-16 code units, and
  the two orders differ only for characters outside the Basic Multilingual Plane. `YYYY-MM-DD`
  dates have none.
- `RemoteApp.CountMatchesFiltered`: holds only when every task has a boolean `completed`. A task
  without the field is counted by `!t.completed` but matches neither `=== true` nor
  `=== false`. `RemoteApp.EditWithReplyAsWrittenHidesTask` shows that case.
- `LocalApp.ReachableIdsDistinct`: covers only runs whose `EDIT_TASK` patches carry no `id`.
  The spread lets `updates.id` overwrite a task's id, which `LocalApp.EditCanDuplicateIds`
  exhibits.
- `LocalApp.ReachableIdsDistinct`: `nextTaskId` is an unbounded integer. A JavaScript number
  stops growing at 2^53, after which `nextTaskId + 1` repeats an id, so the result holds only
  for runs of fewer than 2^53 - 1 `ADD_TASK`s. The same bound applies to `LocalApp.AddTaskRunFromInitial`.
- The update handlers take what `updateTask` resolved with as a parameter and dispatch it
  unchanged. Their view properties are stated for the two possible replies, the corrected one
  (`RemoteApp.UpdateReply`) and the one written (`RemoteApp.UpdateReplyAsWritten`). See Findings.

## Findings

| source | as written | input that shows it | evidently intended | confidence | as-written member | corrected member |
|---|---|---|---|---|---|---|
| frontend/src/App.jsx:122-126 | `updateTask` resolves with `{id, ...updates}`, and `EDIT_TASK`/`TOGGLE_*` replace the whole record with it (48-80). The record loses `completed`, `myDay`, `list`, `userId` and `date` (or `title`). | Rename an open task `{completed: false, myDay: true, list: "personal"}` under My Day. The reply has only `id` and `title`, so it is in neither list of My Day or All Tasks, yet All Tasks still counts it. | The reply is the stored task with `updates` merged in, so an edit or toggle changes only the field it sends. | not executed | `RemoteApp.EditWithReplyAsWrittenHidesTask`, `RemoteApp.ReplyAsWrittenHides` | `RemoteApp.ReplyKeepsStatus` |
