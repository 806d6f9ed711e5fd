/** The remote-backed copy of the app (frontend/src/App.jsx): the reducer over
    `{tasks, lists, activeView, loading, error}`, the views derived from it, and the records the
    handlers build. Tasks come back from the document store as loosely typed records, so every
    field except the id may be missing (`None` stands for `null` or `undefined`). */
module RemoteApp {
  import opened Options
  import opened Seqs
  import opened Views

  /** A task document with its id. `createdAt` and `updatedAt` (clock readings) are not modelled. */
  datatype Task = Task(id: string, title: Option<string>, completed: Option<bool>,
                       important: Option<bool>, myDay: Option<bool>, list: Option<string>,
                       userId: Option<string>, date: Option<string>, time: Option<string>)

  /** The `updates` the handlers send to `updateTask`: a new title or a flipped flag. */
  datatype Patch = Patch(title: Option<string>, completed: Option<bool>, important: Option<bool>)

  datatype AppState = AppState(tasks: seq<Task>, lists: seq<TaskList>, activeView: string,
                               loading: bool, error: Option<string>)

  datatype Action =
    | SetTasks(all: seq<Task>)
    | AddTask(task: Task)
    | EditTask(task: Task)
    | DeleteTask(taskId: string)
    | ToggleComplete(task: Task)
    | ToggleImportant(task: Task)
    | SetActiveView(view: string)
    | AddList(name: string)
    | SetLoading(on: bool)
    | SetError(message: string)
    | Unrecognized(kind: string)

  const InitialState := AppState([], InitialLists, "my-day", false, None)

  function HasId(id: string): Task -> bool { (t: Task) => t.id == id }
  function LacksId(id: string): Task -> bool { (t: Task) => t.id != id }
  function Becomes(t: Task): Task -> Task { (_: Task) => t }

  /** `appReducer`: every task action ends loading and keeps the error, the lists and the view;
      every other action leaves the tasks alone. */
  function Reduce(s: AppState, a: Action): (r: AppState)
    ensures IsTaskAction(a) ==>
              !r.loading && r.error == s.error && r.lists == s.lists && r.activeView == s.activeView
    ensures !IsTaskAction(a) ==> r.tasks == s.tasks
  {
    match a
    case SetTasks(ts) => s.(tasks := ts, loading := false)
    case AddTask(t) => s.(tasks := [t] + s.tasks, loading := false)
    case EditTask(t) => s.(tasks := UpdateWhere(s.tasks, HasId(t.id), Becomes(t)), loading := false)
    case DeleteTask(id) => s.(tasks := Filter(LacksId(id), s.tasks), loading := false)
    case ToggleComplete(t) =>
      s.(tasks := UpdateWhere(s.tasks, HasId(t.id), Becomes(t)), loading := false)
    case ToggleImportant(t) =>
      s.(tasks := UpdateWhere(s.tasks, HasId(t.id), Becomes(t)), loading := false)
    case SetActiveView(v) => s.(activeView := v)
    case AddList(name) => s.(lists := AddListTo(s.lists, name))
    case SetLoading(on) => s.(loading := on)
    case SetError(m) => s.(error := Some(m), loading := false)
    case Unrecognized(_) => s
  }

  /** The state after dispatching `actions` in order. */
  function Run(s: AppState, actions: seq<Action>): AppState
    decreases |actions|
  {
    if actions == [] then s else Run(Reduce(s, actions[0]), actions[1..])
  }

  predicate IsTaskAction(a: Action) {
    a.SetTasks? || a.AddTask? || a.EditTask? || a.DeleteTask? || a.ToggleComplete? ||
    a.ToggleImportant?
  }

  // ---------------------------------------------------------------------------------------------
  // The reducer, action by action

  /** `ADD_TASK` puts the new task first; the others follow in their order. */
  lemma AddTaskPrepends(s: AppState, t: Task)
    ensures var r := Reduce(s, AddTask(t));
            |r.tasks| == |s.tasks| + 1 && r.tasks[0] == t && r.tasks[1..] == s.tasks &&
            r == s.(tasks := r.tasks, loading := false)
  {
    assert ([t] + s.tasks)[1..] == s.tasks;
  }

  function AddTasks(ts: seq<Task>): (r: seq<Action>)
    ensures |r| == |ts| && forall i :: 0 <= i < |r| ==> r[i] == AddTask(ts[i])
  {
    seq(|ts|, i requires 0 <= i < |ts| => AddTask(ts[i]))
  }

  /** A run of `ADD_TASK`s leaves the tasks newest first, ahead of the old ones; once anything was
      added, loading is over. */
  lemma {:induction false} AddTaskRunNewestFirst(s: AppState, ts: seq<Task>)
    ensures var r := Run(s, AddTasks(ts));
            r.tasks == Reversed(ts) + s.tasks &&
            r == s.(tasks := r.tasks, loading := if ts == [] then s.loading else false)
    decreases |ts|
  {
    if ts != [] {
      var s1 := Reduce(s, AddTask(ts[0]));
      assert AddTasks(ts)[1..] == AddTasks(ts[1..]);
      AddTaskRunNewestFirst(s1, ts[1..]);
      assert Reversed(ts[1..]) + ([ts[0]] + s.tasks) == Reversed(ts) + s.tasks;
    }
  }

  /** `EDIT_TASK` and both toggles replace every task with the payload's id by the payload as a
      whole (no merge), and leave the other tasks where they were. */
  lemma ReplaceByPayload(s: AppState, a: Action)
    requires a.EditTask? || a.ToggleComplete? || a.ToggleImportant?
    ensures var r := Reduce(s, a);
            r == s.(tasks := r.tasks, loading := false) && |r.tasks| == |s.tasks| &&
            forall i :: 0 <= i < |s.tasks| ==>
              r.tasks[i] == if s.tasks[i].id == a.task.id then a.task else s.tasks[i]
  {
  }

  /** `DELETE_TASK` keeps, in order, exactly the tasks with another id; an unknown id changes no task. */
  lemma DeleteTaskRemoves(s: AppState, id: string)
    ensures var r := Reduce(s, DeleteTask(id));
            r == s.(tasks := r.tasks, loading := false) && IsSubsequence(r.tasks, s.tasks) &&
            (forall t :: t in r.tasks <==> t in s.tasks && t.id != id) &&
            (forall t :: multiset(r.tasks)[t] == if t.id != id then multiset(s.tasks)[t] else 0) &&
            ((forall t :: t in s.tasks ==> t.id != id) ==> r.tasks == s.tasks)
  {
  }

  /** The other actions change their own field only; `SET_ERROR` also ends loading; an action
      type the reducer does not know returns the state as it was. */
  lemma OtherActions(s: AppState, view: string, name: string, on: bool, message: string, kind: string)
    ensures Reduce(s, SetActiveView(view)) == s.(activeView := view)
    ensures Reduce(s, SetLoading(on)) == s.(loading := on)
    ensures Reduce(s, SetError(message)) == s.(error := Some(message), loading := false)
    ensures Reduce(s, AddList(name)) == s.(lists := AddListTo(s.lists, name))
    ensures Reduce(s, Unrecognized(kind)) == s
  {
  }

  /** A first `ADD_LIST` from the initial state creates `list-2`; nothing else changes. */
  lemma FirstAddList(name: string)
    ensures var r := Reduce(InitialState, AddList(name));
            r.lists == InitialLists + [TaskList("list-2", name, "blue")] &&
            r == InitialState.(lists := r.lists)
  {
    FirstNewListId(name);
  }

  /** Lists keep the `personal`, `list-2`, `list-3`, ... shape under every action. */
  lemma {:induction false} RunKeepsListsCanonical(s: AppState, actions: seq<Action>)
    requires CanonicalLists(s.lists)
    ensures CanonicalLists(Run(s, actions).lists)
    decreases |actions|
  {
    if actions != [] {
      if actions[0].AddList? { AddListKeepsCanonical(s.lists, actions[0].name); }
      RunKeepsListsCanonical(Reduce(s, actions[0]), actions[1..]);
    }
  }

  /** Every reachable state has lists with distinct ids. */
  lemma ReachableListIdsDistinct(actions: seq<Action>)
    ensures DistinctListIds(Run(InitialState, actions).lists)
  {
    RunKeepsListsCanonical(InitialState, actions);
    CanonicalListIdsDistinct(Run(InitialState, actions).lists);
  }

  // ---------------------------------------------------------------------------------------------
  // Views

  /** JavaScript truthiness of a flag that may be missing. */
  predicate Truthy(b: Option<bool>) { b == Some(true) }

  /** `t.date` is truthy: present and not the empty string. */
  predicate HasDate(t: Task) { t.date.Some? && t.date.value != "" }

  /** The view's own test in `getFilteredTasks` and `getTaskCount`. */
  predicate InView(v: View, t: Task) {
    match v
    case MyDay => Truthy(t.myDay)
    case Important => Truthy(t.important)
    case Planned => HasDate(t)
    case All => true
    case ListView(id) => t.list == Some(id)
  }

  /** `t.completed === completed`: a missing flag matches neither status. */
  function StatusIs(completed: bool): Task -> bool { (t: Task) => t.completed == Some(completed) }
  function InViewOf(v: View): Task -> bool { (t: Task) => InView(v, t) }
  /** `getTaskCount`'s test: in the view and `!t.completed`, which a missing flag passes. */
  function OpenIn(v: View): Task -> bool { (t: Task) => InView(v, t) && !Truthy(t.completed) }

  /** The test the two filters of `getFilteredTasks(false)` apply together. */
  function ShownOpenIn(v: View): Task -> bool {
    (t: Task) => t.completed == Some(false) && InView(v, t)
  }

  /** `getFilteredTasks(completed)`: the tasks with that status shown under the active view. */
  function FilteredTasks(s: AppState, completed: bool): (r: seq<Task>)
    ensures IsSubsequence(r, s.tasks)
    ensures forall t :: t in r <==>
              t in s.tasks && t.completed == Some(completed) && InView(ParseView(s.activeView), t)
    ensures forall t :: multiset(r)[t] ==
              if t.completed == Some(completed) && InView(ParseView(s.activeView), t)
              then multiset(s.tasks)[t] else 0
  {
    var byStatus := Filter(StatusIs(completed), s.tasks);
    var r := Filter(InViewOf(ParseView(s.activeView)), byStatus);
    SubsequenceTransitive(r, byStatus, s.tasks);
    forall t ensures multiset(r)[t] ==
                     if t.completed == Some(completed) && InView(ParseView(s.activeView), t)
                     then multiset(s.tasks)[t] else 0 {
      assert multiset(byStatus)[t] ==
             if t.completed == Some(completed) then multiset(s.tasks)[t] else 0;
    }
    r
  }

  /** `getTaskCount(view)`: the number next to a view or list in the sidebar. */
  function TaskCount(tasks: seq<Task>, view: string): (count: nat)
    ensures count <= |tasks|
  {
    |Filter(OpenIn(ParseView(view)), tasks)|
  }

  /** Every task carries a boolean `completed`. */
  ghost predicate AllHaveStatus(tasks: seq<Task>) {
    forall t :: t in tasks ==> t.completed.Some?
  }

  /** When every task has a boolean `completed`, the sidebar count of a view is the length of the
      open list that view shows. */
  lemma CountMatchesFiltered(s: AppState, view: string)
    requires AllHaveStatus(s.tasks)
    ensures TaskCount(s.tasks, view) == |FilteredTasks(s.(activeView := view), false)|
  {
    var v := ParseView(view);
    var both := ShownOpenIn(v);
    forall t | t in s.tasks ensures OpenIn(v)(t) == both(t) {
      assert t.completed.Some?;
      if t.completed.value { assert Truthy(t.completed); } else { assert t.completed == Some(false); }
    }
    FilterCongruent(OpenIn(v), both, s.tasks);
    FilterFuse(StatusIs(false), InViewOf(v), both, s.tasks);
  }

  /** Under `all` the filter keeps exactly the tasks with the requested status. */
  lemma AllViewKeepsStatus(s: AppState, completed: bool)
    requires s.activeView == "all"
    ensures FilteredTasks(s, completed) == Filter(StatusIs(completed), s.tasks)
  {
  }

  /** Two open tasks, one in My Day: the My Day view lists that one only. */
  lemma MyDayScenario()
    ensures var a := Task("1", Some("A"), Some(false), Some(false), Some(true), Some("personal"), None, None, None);
            var b := Task("2", Some("B"), Some(false), Some(false), Some(false), Some("personal"), None, None, None);
            FilteredTasks(AppState([a, b], InitialLists, "my-day", false, None), false) == [a]
  {
    var a := Task("1", Some("A"), Some(false), Some(false), Some(true), Some("personal"), None, None, None);
    var b := Task("2", Some("B"), Some(false), Some(false), Some(false), Some("personal"), None, None, None);
    assert [a, b][1..] == [b];
  }

  // ---------------------------------------------------------------------------------------------
  // Records the handlers build

  /** `{ id: docRef.id, ...taskData }` for the `taskData` of `handleAddTask`. */
  function NewTaskRecord(docId: string, title: string, activeView: string, uid: string): (t: Task)
    ensures t.id == docId && t.title == Some(title) && t.userId == Some(uid)
    ensures t.completed == Some(false) && t.important == Some(false)
    ensures t.myDay == Some(ParseView(activeView) == MyDay)
    ensures t.list == Some(if ParseView(activeView).ListView? then activeView else "personal")
    ensures t.date.None? && t.time.None?
  {
    Task(docId, Some(title), Some(false), Some(false), Some(activeView == "my-day"),
         Some(DefaultListFor(activeView)), Some(uid), None, None)
  }

  /** A task just added is first in the open list of the view it was added in, except under
      Important and Planned, where it is not listed: it starts neither important nor dated. */
  lemma AddedTaskShownFirst(s: AppState, docId: string, title: string, uid: string)
    ensures var t := NewTaskRecord(docId, title, s.activeView, uid);
            var shown := FilteredTasks(Reduce(s, AddTask(t)), false);
            var v := ParseView(s.activeView);
            (v != Important && v != Planned ==> shown != [] && shown[0] == t) &&
            (v == Important || v == Planned ==> t !in shown)
  {
    var t := NewTaskRecord(docId, title, s.activeView, uid);
    var v := ParseView(s.activeView);
    var all := [t] + s.tasks;
    assert Reduce(s, AddTask(t)).tasks == all;
    FirstOfFiltered(v, t, s.tasks);
  }

  /** Filtering a list headed by an open task: it heads the result exactly when the view takes it. */
  lemma FirstOfFiltered(v: View, t: Task, rest: seq<Task>)
    requires t.completed == Some(false)
    ensures var shown := Filter(InViewOf(v), Filter(StatusIs(false), [t] + rest));
            (InView(v, t) ==> shown != [] && shown[0] == t) &&
            (!InView(v, t) ==> shown == Filter(InViewOf(v), Filter(StatusIs(false), rest)))
  {
    var all := [t] + rest;
    assert all[0] == t && all[1..] == rest;
    var byStatus := Filter(StatusIs(false), all);
    assert byStatus == [t] + Filter(StatusIs(false), rest);
    assert byStatus[0] == t && byStatus[1..] == Filter(StatusIs(false), rest);
  }

  /** What `updateTask` should resolve with: the stored record with `updates` spread over it. */
  function UpdateReply(t: Task, u: Patch): (r: Task)
    ensures r.id == t.id && r.userId == t.userId && r.myDay == t.myDay && r.list == t.list &&
            r.date == t.date && r.time == t.time
    ensures r.title == (if u.title.Some? then u.title else t.title)
    ensures r.completed == (if u.completed.Some? then u.completed else t.completed)
    ensures r.important == (if u.important.Some? then u.important else t.important)
  {
    t.(title := if u.title.Some? then u.title else t.title,
       completed := if u.completed.Some? then u.completed else t.completed,
       important := if u.important.Some? then u.important else t.important)
  }

  /** What `firebaseAPI.updateTask` resolves with as written: `{ id, ...updates }`, which carries
      none of the record's other fields. */
  function UpdateReplyAsWritten(id: string, u: Patch): (r: Task)
    ensures r.id == id && r.title == u.title && r.completed == u.completed &&
            r.important == u.important
    ensures r.myDay.None? && r.list.None? && r.userId.None? && r.date.None? && r.time.None?
  {
    Task(id, u.title, u.completed, u.important, None, None, None, None, None)
  }

  function TitlePatch(title: string): Patch { Patch(Some(title), None, None) }

  /** The flipped flag the toggles send: `{ completed: !task.completed }`. */
  function CompletedPatch(t: Task): Patch { Patch(None, Some(!Truthy(t.completed)), None) }

  /** `{ important: !task.important }` */
  function ImportantPatch(t: Task): Patch { Patch(None, None, Some(!Truthy(t.important))) }

  /** As written, renaming an open My Day task makes it vanish from the open and the done list of
      My Day and of All Tasks, yet All Tasks still counts it. */
  lemma EditWithReplyAsWrittenHidesTask()
    ensures var t := Task("1", Some("A"), Some(false), Some(false), Some(true), Some("personal"),
                          Some("u"), None, None);
            var s := AppState([t], InitialLists, "my-day", false, None);
            var r := Reduce(s, EditTask(UpdateReplyAsWritten(t.id, TitlePatch("B"))));
            FilteredTasks(r, false) == [] && FilteredTasks(r, true) == [] &&
            FilteredTasks(r.(activeView := "all"), false) == [] &&
            FilteredTasks(r.(activeView := "all"), true) == [] &&
            TaskCount(r.tasks, "all") == 1
  {
    var t := Task("1", Some("A"), Some(false), Some(false), Some(true), Some("personal"),
                  Some("u"), None, None);
    var reply := UpdateReplyAsWritten(t.id, TitlePatch("B"));
    var s := AppState([t], InitialLists, "my-day", false, None);
    var r := Reduce(s, EditTask(reply));
    assert r.tasks == [reply];
    assert Filter(OpenIn(All), [reply]) == [reply];
  }

  /** With the corrected reply, toggling twice gives back a record whose flag was a boolean. */
  lemma ToggleTwiceRestores(t: Task)
    ensures var once := UpdateReply(t, CompletedPatch(t));
            t.completed.Some? ==> UpdateReply(once, CompletedPatch(once)) == t
    ensures var once := UpdateReply(t, ImportantPatch(t));
            t.important.Some? ==> UpdateReply(once, ImportantPatch(once)) == t
  {
    if t.completed.Some? {
      var once := UpdateReply(t, CompletedPatch(t));
      assert once.completed == Some(!t.completed.value);
      assert UpdateReply(once, CompletedPatch(once)).completed == t.completed;
    }
    if t.important.Some? {
      var once := UpdateReply(t, ImportantPatch(t));
      assert once.important == Some(!t.important.value);
      assert UpdateReply(once, ImportantPatch(once)).important == t.important;
    }
  }

  /** As written, toggling twice brings the flag back as a boolean but leaves every other field
      except the id missing. */
  lemma ToggleTwiceAsWrittenLosesFields(t: Task)
    ensures var once := UpdateReplyAsWritten(t.id, CompletedPatch(t));
            var twice := UpdateReplyAsWritten(t.id, CompletedPatch(once));
            twice == Task(t.id, None, Some(Truthy(t.completed)), None, None, None, None, None, None) &&
            (t.title.Some? ==> twice != t)
    ensures var once := UpdateReplyAsWritten(t.id, ImportantPatch(t));
            var twice := UpdateReplyAsWritten(t.id, ImportantPatch(once));
            twice == Task(t.id, None, None, Some(Truthy(t.important)), None, None, None, None, None) &&
            (t.title.Some? ==> twice != t)
  {
  }

  /** With the corrected reply, an edit or toggle changes only the field it sends, so the record
      stays in the views it was in and every task keeps a boolean status. */
  lemma ReplyKeepsStatus(s: AppState, t: Task, u: Patch, a: Action)
    requires AllHaveStatus(s.tasks) && t.completed.Some?
    requires a == EditTask(UpdateReply(t, u)) || a == ToggleComplete(UpdateReply(t, u)) ||
             a == ToggleImportant(UpdateReply(t, u))
    ensures AllHaveStatus(Reduce(s, a).tasks)
    ensures u.important.None? ==> forall v :: InView(v, UpdateReply(t, u)) == InView(v, t)
  {
    var r := Reduce(s, a);
    forall x | x in r.tasks ensures x.completed.Some? {
      var i :| 0 <= i < |r.tasks| && r.tasks[i] == x;
      assert s.tasks[i] in s.tasks;
    }
  }

  /** As written, the reply of an edit or toggle leaves the record with that id outside both
      lists of every view, except that a completion toggle keeps it under All Tasks: the reply
      carries no `myDay`, `list` or `date`, and only the completion toggle carries `completed`. */
  lemma ReplyAsWrittenHides(s: AppState, id: string, u: Patch, a: Action)
    requires a == EditTask(UpdateReplyAsWritten(id, u)) ||
             a == ToggleComplete(UpdateReplyAsWritten(id, u)) ||
             a == ToggleImportant(UpdateReplyAsWritten(id, u))
    requires u.completed.None? || ParseView(s.activeView) != All
    requires u.important.None? || u.completed.None?
    ensures forall c: bool, t :: t in FilteredTasks(Reduce(s, a), c) ==> t.id != id
  {
    var r := Reduce(s, a);
    var reply := UpdateReplyAsWritten(id, u);
    var v := ParseView(s.activeView);
    assert !InView(v, reply) || reply.completed.None? by {
      if v.MyDay? || v.Planned? || v.ListView? {
        assert !InView(v, reply);
      }
    }
    forall c: bool, t | t in FilteredTasks(r, c) ensures t.id != id {
      if t.id == id {
        PayloadReplaces(s, a, t);
      }
    }
  }

  /** After an edit or toggle, the records with the payload's id are the payload. */
  lemma PayloadReplaces(s: AppState, a: Action, t: Task)
    requires a.EditTask? || a.ToggleComplete? || a.ToggleImportant?
    requires t in Reduce(s, a).tasks && t.id == a.task.id
    ensures t == a.task
  {
    var r := Reduce(s, a);
    var i :| 0 <= i < |r.tasks| && r.tasks[i] == t;
    assert s.tasks[i].id == t.id;
  }

  /** `task.userId === uid`, the filter `fetchTasks` applies to the fetched documents. */
  function OwnerIs(uid: string): Task -> bool { (t: Task) => t.userId == Some(uid) }

  /** The documents of one user, in the order fetched. */
  function OwnedBy(docs: seq<Task>, uid: string): (r: seq<Task>)
    ensures IsSubsequence(r, docs)
    ensures forall t :: t in r <==> t in docs && t.userId == Some(uid)
    ensures forall t :: multiset(r)[t] == if t.userId == Some(uid) then multiset(docs)[t] else 0
  {
    Filter(OwnerIs(uid), docs)
  }
}
