/** The store of the remote-backed app (frontend/src/App.jsx) and the handlers that step it: each
    awaits one call to the document store and then dispatches either the success action or
    `SET_ERROR`. How the call settles is a parameter. */
module RemoteStore {
  import opened Options
  import opened Text
  import opened Views
  import opened RemoteApp

  /** A call to `firebaseAPI` or to `getDocs`, with what it sends. */
  datatype Request =
    | CreateTask(title: string, activeView: string, uid: string)
    | GetAllTasks
    | UpdateTask(id: string, updates: Patch)
    | DeleteTaskDoc(id: string)

  class Store {
    /** The value `useReducer(appReducer, initialState)` holds. */
    var state: AppState
    /** Every action dispatched so far, oldest first. */
    ghost var Dispatched: seq<Action>
    /** Every call made to the document store so far, oldest first. */
    ghost var Requests: seq<Request>

    constructor ()
      ensures state == InitialState && Dispatched == [] && Requests == []
    {
      state := InitialState;
      Dispatched := [];
      Requests := [];
    }

    method Dispatch(a: Action)
      modifies this
      ensures state == Reduce(old(state), a) && Dispatched == old(Dispatched) + [a]
      ensures Requests == old(Requests)
    {
      state := Reduce(state, a);
      Dispatched := Dispatched + [a];
    }

    /** `handleAddTask`; `created` is how `createTask` settled, with the new document's id. */
    method HandleAddTask(input: string, uid: string, created: Remote<string>)
      modifies this
      ensures AllWhitespace(input) ==>
                state == old(state) && Dispatched == old(Dispatched) && Requests == old(Requests)
      ensures !AllWhitespace(input) ==>
                Requests == old(Requests) + [CreateTask(Trim(input), old(state.activeView), uid)]
      ensures !AllWhitespace(input) && created.Resolved? ==>
                var t := NewTaskRecord(created.value, Trim(input), old(state.activeView), uid);
                Dispatched == old(Dispatched) + [SetLoading(true), AddTask(t)] &&
                state == old(state).(tasks := [t] + old(state.tasks), loading := false)
      ensures !AllWhitespace(input) && created.Rejected? ==>
                Dispatched == old(Dispatched) + [SetLoading(true), SetError("Failed to add task")] &&
                state == old(state).(loading := false, error := Some("Failed to add task"))
    {
      var title := Trim(input);
      if title == [] {
        return;
      }
      var view := state.activeView;
      Dispatch(SetLoading(true));
      Requests := Requests + [CreateTask(title, view, uid)];
      match created
      case Resolved(docId) =>
        Dispatch(AddTask(NewTaskRecord(docId, title, view, uid)));
      case Rejected =>
        Dispatch(SetError("Failed to add task"));
    }

    /** `fetchTasks(uid)`; `fetched` is how `getDocs` settled, with every task document. */
    method FetchTasks(uid: string, fetched: Remote<seq<Task>>)
      modifies this
      ensures Requests == old(Requests) + [GetAllTasks]
      ensures fetched.Resolved? ==>
                Dispatched == old(Dispatched) + [SetLoading(true), SetTasks(OwnedBy(fetched.value, uid))] &&
                state == old(state).(tasks := OwnedBy(fetched.value, uid), loading := false)
      ensures fetched.Rejected? ==>
                Dispatched == old(Dispatched) + [SetLoading(true), SetError("Failed to load tasks")] &&
                state == old(state).(loading := false, error := Some("Failed to load tasks"))
    {
      Dispatch(SetLoading(true));
      Requests := Requests + [GetAllTasks];
      match fetched
      case Resolved(docs) =>
        var mine := OwnedBy(docs, uid);
        Dispatch(SetTasks(mine));
        assert state == old(state).(tasks := mine, loading := false);
      case Rejected =>
        Dispatch(SetError("Failed to load tasks"));
    }

    /** `TaskItem`'s `handleEditSave`: send the trimmed text as the new title, or do nothing for
        blank text; on success dispatch `EDIT_TASK` with whatever `updateTask` resolved with. With
        the stored record patched, every task keeps its status; with the reply as written, the
        task drops out of every list of the view. */
    method HandleEditSave(task: Task, editValue: string, updated: Remote<Task>)
      modifies this
      ensures AllWhitespace(editValue) ==>
                state == old(state) && Dispatched == old(Dispatched) && Requests == old(Requests)
      ensures !AllWhitespace(editValue) ==>
                Requests == old(Requests) + [UpdateTask(task.id, TitlePatch(Trim(editValue)))]
      ensures !AllWhitespace(editValue) && updated.Resolved? ==>
                Dispatched == old(Dispatched) + [EditTask(updated.value)] &&
                state == Reduce(old(state), EditTask(updated.value))
      ensures !AllWhitespace(editValue) && updated.Rejected? ==>
                Dispatched == old(Dispatched) + [SetError("Failed to update task")] &&
                state == old(state).(loading := false, error := Some("Failed to update task"))
      ensures updated == Resolved(UpdateReply(task, TitlePatch(Trim(editValue)))) &&
              AllHaveStatus(old(state.tasks)) && task.completed.Some? ==>
                AllHaveStatus(state.tasks)
      ensures !AllWhitespace(editValue) &&
              updated == Resolved(UpdateReplyAsWritten(task.id, TitlePatch(Trim(editValue)))) ==>
                forall c: bool, t :: t in FilteredTasks(state, c) ==> t.id != task.id
    {
      var title := Trim(editValue);
      if title == [] {
        return;
      }
      ghost var before := state;
      Requests := Requests + [UpdateTask(task.id, TitlePatch(title))];
      match updated
      case Resolved(reply) =>
        Dispatch(EditTask(reply));
        if reply == UpdateReply(task, TitlePatch(title)) && AllHaveStatus(before.tasks) && task.completed.Some? {
          ReplyKeepsStatus(before, task, TitlePatch(title), EditTask(reply));
        }
        if reply == UpdateReplyAsWritten(task.id, TitlePatch(title)) {
          ReplyAsWrittenHides(before, task.id, TitlePatch(title), EditTask(reply));
        }
      case Rejected =>
        Dispatch(SetError("Failed to update task"));
    }

    /** `TaskPanel`'s `saveTitle`: like `handleEditSave`, but the title is sent untrimmed. */
    method SaveTitle(task: Task, title: string, updated: Remote<Task>)
      modifies this
      ensures AllWhitespace(title) ==>
                state == old(state) && Dispatched == old(Dispatched) && Requests == old(Requests)
      ensures !AllWhitespace(title) ==> Requests == old(Requests) + [UpdateTask(task.id, TitlePatch(title))]
      ensures !AllWhitespace(title) && updated.Resolved? ==>
                Dispatched == old(Dispatched) + [EditTask(updated.value)] &&
                state == Reduce(old(state), EditTask(updated.value))
      ensures !AllWhitespace(title) && updated.Rejected? ==>
                Dispatched == old(Dispatched) + [SetError("Failed to update task")] &&
                state == old(state).(loading := false, error := Some("Failed to update task"))
      ensures updated == Resolved(UpdateReply(task, TitlePatch(title))) &&
              AllHaveStatus(old(state.tasks)) && task.completed.Some? ==>
                AllHaveStatus(state.tasks)
      ensures !AllWhitespace(title) && updated == Resolved(UpdateReplyAsWritten(task.id, TitlePatch(title))) ==>
                forall c: bool, t :: t in FilteredTasks(state, c) ==> t.id != task.id
    {
      if Trim(title) == [] {
        return;
      }
      ghost var before := state;
      Requests := Requests + [UpdateTask(task.id, TitlePatch(title))];
      match updated
      case Resolved(reply) =>
        Dispatch(EditTask(reply));
        if reply == UpdateReply(task, TitlePatch(title)) && AllHaveStatus(before.tasks) && task.completed.Some? {
          ReplyKeepsStatus(before, task, TitlePatch(title), EditTask(reply));
        }
        if reply == UpdateReplyAsWritten(task.id, TitlePatch(title)) {
          ReplyAsWrittenHides(before, task.id, TitlePatch(title), EditTask(reply));
        }
      case Rejected =>
        Dispatch(SetError("Failed to update task"));
    }

    /** `handleToggleComplete`: send the flipped `completed`, then `TOGGLE_COMPLETE` with the
        reply. As written the reply hides the task everywhere but under All Tasks. */
    method HandleToggleComplete(task: Task, updated: Remote<Task>)
      modifies this
      ensures Requests == old(Requests) + [UpdateTask(task.id, CompletedPatch(task))]
      ensures CompletedPatch(task).completed == Some(!Truthy(task.completed))
      ensures updated.Resolved? ==>
                Dispatched == old(Dispatched) + [ToggleComplete(updated.value)] &&
                state == Reduce(old(state), ToggleComplete(updated.value))
      ensures updated.Rejected? ==>
                Dispatched == old(Dispatched) + [SetError("Failed to update task")] &&
                state == old(state).(loading := false, error := Some("Failed to update task"))
      ensures updated == Resolved(UpdateReply(task, CompletedPatch(task))) &&
              AllHaveStatus(old(state.tasks)) && task.completed.Some? ==>
                AllHaveStatus(state.tasks)
      ensures updated == Resolved(UpdateReplyAsWritten(task.id, CompletedPatch(task))) &&
              ParseView(old(state.activeView)) != All ==>
                forall c: bool, t :: t in FilteredTasks(state, c) ==> t.id != task.id
    {
      ghost var before := state;
      Requests := Requests + [UpdateTask(task.id, CompletedPatch(task))];
      match updated
      case Resolved(reply) =>
        Dispatch(ToggleComplete(reply));
        if reply == UpdateReply(task, CompletedPatch(task)) && AllHaveStatus(before.tasks) && task.completed.Some? {
          ReplyKeepsStatus(before, task, CompletedPatch(task), ToggleComplete(reply));
        }
        if reply == UpdateReplyAsWritten(task.id, CompletedPatch(task)) && ParseView(before.activeView) != All {
          ReplyAsWrittenHides(before, task.id, CompletedPatch(task), ToggleComplete(reply));
        }
      case Rejected =>
        Dispatch(SetError("Failed to update task"));
    }

    /** `handleToggleImportant`: send the flipped `important`, then `TOGGLE_IMPORTANT` with the
        reply. As written the reply hides the task in every view. */
    method HandleToggleImportant(task: Task, updated: Remote<Task>)
      modifies this
      ensures Requests == old(Requests) + [UpdateTask(task.id, ImportantPatch(task))]
      ensures ImportantPatch(task).important == Some(!Truthy(task.important))
      ensures updated.Resolved? ==>
                Dispatched == old(Dispatched) + [ToggleImportant(updated.value)] &&
                state == Reduce(old(state), ToggleImportant(updated.value))
      ensures updated.Rejected? ==>
                Dispatched == old(Dispatched) + [SetError("Failed to update task")] &&
                state == old(state).(loading := false, error := Some("Failed to update task"))
      ensures updated == Resolved(UpdateReply(task, ImportantPatch(task))) &&
              AllHaveStatus(old(state.tasks)) && task.completed.Some? ==>
                AllHaveStatus(state.tasks)
      ensures updated == Resolved(UpdateReplyAsWritten(task.id, ImportantPatch(task))) ==>
                forall c: bool, t :: t in FilteredTasks(state, c) ==> t.id != task.id
    {
      ghost var before := state;
      Requests := Requests + [UpdateTask(task.id, ImportantPatch(task))];
      match updated
      case Resolved(reply) =>
        Dispatch(ToggleImportant(reply));
        if reply == UpdateReply(task, ImportantPatch(task)) && AllHaveStatus(before.tasks) && task.completed.Some? {
          ReplyKeepsStatus(before, task, ImportantPatch(task), ToggleImportant(reply));
        }
        if reply == UpdateReplyAsWritten(task.id, ImportantPatch(task)) {
          ReplyAsWrittenHides(before, task.id, ImportantPatch(task), ToggleImportant(reply));
        }
      case Rejected =>
        Dispatch(SetError("Failed to update task"));
    }

    /** `handleDelete`: after `deleteTask` settles, `DELETE_TASK` or `SET_ERROR`. */
    method HandleDelete(task: Task, deleted: Remote<()>)
      modifies this
      ensures Requests == old(Requests) + [DeleteTaskDoc(task.id)]
      ensures deleted.Resolved? ==>
                Dispatched == old(Dispatched) + [DeleteTask(task.id)] &&
                state == Reduce(old(state), DeleteTask(task.id)) &&
                forall t :: t in state.tasks <==> t in old(state.tasks) && t.id != task.id
      ensures deleted.Rejected? ==>
                Dispatched == old(Dispatched) + [SetError("Failed to delete task")] &&
                state == old(state).(loading := false, error := Some("Failed to delete task"))
    {
      Requests := Requests + [DeleteTaskDoc(task.id)];
      match deleted
      case Resolved(_) => Dispatch(DeleteTask(task.id));
      case Rejected => Dispatch(SetError("Failed to delete task"));
    }

    /** `handleLogout` empties the list of tasks. */
    method HandleLogout()
      modifies this
      ensures Dispatched == old(Dispatched) + [SetTasks([])] && Requests == old(Requests)
      ensures state == old(state).(tasks := [], loading := false)
    {
      Dispatch(SetTasks([]));
    }

    /** `handleCreateList`: `ADD_LIST` with the trimmed name, or nothing for a blank name. */
    method HandleCreateList(input: string)
      modifies this
      ensures Requests == old(Requests)
      ensures AllWhitespace(input) ==> state == old(state) && Dispatched == old(Dispatched)
      ensures !AllWhitespace(input) ==>
                Dispatched == old(Dispatched) + [AddList(Trim(input))] &&
                state == old(state).(lists := AddListTo(old(state.lists), Trim(input)))
    {
      var name := Trim(input);
      if name != [] {
        Dispatch(AddList(name));
      }
    }
  }
}
