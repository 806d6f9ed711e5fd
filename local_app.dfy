/** The local-only copy of the app (src/App.jsx): a reducer over `{tasks, lists, activeView,
    nextTaskId}` that numbers tasks from a counter, merges edits, toggles flags by task id, and the
    views derived from it. Everything here is a pure function of the state value. */
module LocalApp {
  import opened Options
  import opened Seqs
  import opened Text
  import opened Views

  /** A task record. `createdAt` (read from the clock) is not modelled. */
  datatype Task = Task(id: int, title: string, completed: bool, important: bool, myDay: bool,
                       list: string, date: Option<string>, time: Option<string>)

  /** The payload of `ADD_TASK`: a task without its id. */
  datatype NewTask = NewTask(title: string, completed: bool, important: bool, myDay: bool,
                             list: string, date: Option<string>, time: Option<string>)

  /** `EDIT_TASK`'s `updates`: the fields it carries (`Some`) override the record's. A field that is
      itself nullable is present with `Some(None)` when `updates` sets it to `null`. */
  datatype Patch = Patch(id: Option<int>, title: Option<string>, completed: Option<bool>,
                         important: Option<bool>, myDay: Option<bool>, list: Option<string>,
                         date: Option<Option<string>>, time: Option<Option<string>>)

  const EmptyPatch := Patch(None, None, None, None, None, None, None, None)

  datatype AppState = AppState(tasks: seq<Task>, lists: seq<TaskList>, activeView: string,
                               nextTaskId: int)

  datatype Action =
    | AddTask(payload: NewTask)
    | EditTask(id: int, updates: Patch)
    | DeleteTask(taskId: int)
    | ToggleComplete(toggleId: int)
    | ToggleImportant(starId: int)
    | SetActiveView(view: string)
    | AddList(name: string)
    | DeleteList(listId: string)    // declared as an action type, handled by no case
    | Unrecognized(kind: string)

  const InitialState := AppState([], InitialLists, "my-day", 1)

  /** `{ ...payload, id }` */
  function WithId(p: NewTask, id: int): Task {
    Task(id, p.title, p.completed, p.important, p.myDay, p.list, p.date, p.time)
  }

  /** `{ ...task, ...updates }` */
  function Merge(t: Task, u: Patch): Task {
    Task(u.id.GetOr(t.id), u.title.GetOr(t.title), u.completed.GetOr(t.completed),
         u.important.GetOr(t.important), u.myDay.GetOr(t.myDay), u.list.GetOr(t.list),
         u.date.GetOr(t.date), u.time.GetOr(t.time))
  }

  /** `{ ...a, ...b }` on two patches: `b`'s fields win. */
  function Combine(a: Patch, b: Patch): Patch {
    Patch(if b.id.Some? then b.id else a.id, if b.title.Some? then b.title else a.title,
          if b.completed.Some? then b.completed else a.completed,
          if b.important.Some? then b.important else a.important,
          if b.myDay.Some? then b.myDay else a.myDay, if b.list.Some? then b.list else a.list,
          if b.date.Some? then b.date else a.date, if b.time.Some? then b.time else a.time)
  }

  function HasId(id: int): Task -> bool { (t: Task) => t.id == id }
  function LacksId(id: int): Task -> bool { (t: Task) => t.id != id }
  function MergeWith(u: Patch): Task -> Task { (t: Task) => Merge(t, u) }
  function FlipCompleted(t: Task): Task { t.(completed := !t.completed) }
  function FlipImportant(t: Task): Task { t.(important := !t.important) }

  /** `appReducer`: only `ADD_TASK` moves the counter, only `ADD_LIST` touches the lists, only
      `SET_ACTIVE_VIEW` changes the view, and the list and view actions leave the tasks alone. */
  function Reduce(s: AppState, a: Action): (r: AppState)
    ensures r.nextTaskId == if a.AddTask? then s.nextTaskId + 1 else s.nextTaskId
    ensures !a.AddList? ==> r.lists == s.lists
    ensures !a.SetActiveView? ==> r.activeView == s.activeView
    ensures a.SetActiveView? || a.AddList? || a.DeleteList? || a.Unrecognized? ==> r.tasks == s.tasks
  {
    match a
    case AddTask(p) =>
      s.(tasks := s.tasks + [WithId(p, s.nextTaskId)], nextTaskId := s.nextTaskId + 1)
    case EditTask(id, u) => s.(tasks := UpdateWhere(s.tasks, HasId(id), MergeWith(u)))
    case DeleteTask(id) => s.(tasks := Filter(LacksId(id), s.tasks))
    case ToggleComplete(id) => s.(tasks := UpdateWhere(s.tasks, HasId(id), FlipCompleted))
    case ToggleImportant(id) => s.(tasks := UpdateWhere(s.tasks, HasId(id), FlipImportant))
    case SetActiveView(v) => s.(activeView := v)
    case AddList(name) => s.(lists := AddListTo(s.lists, name))
    case DeleteList(_) => s
    case Unrecognized(_) => s
  }

  /** The state after dispatching `actions` in order. */
  function Run(s: AppState, actions: seq<Action>): AppState
    decreases |actions|
  {
    if actions == [] then s else Run(Reduce(s, actions[0]), actions[1..])
  }

  // ---------------------------------------------------------------------------------------------
  // The reducer, action by action

  /** `ADD_TASK` appends the payload under the counter's id and advances the counter. */
  lemma AddTaskAppends(s: AppState, p: NewTask)
    ensures var r := Reduce(s, AddTask(p));
            |r.tasks| == |s.tasks| + 1 && r.tasks[..|s.tasks|] == s.tasks &&
            r.tasks[|s.tasks|] == WithId(p, s.nextTaskId) && r.nextTaskId == s.nextTaskId + 1 &&
            r.lists == s.lists && r.activeView == s.activeView
  {
    assert (s.tasks + [WithId(p, s.nextTaskId)])[..|s.tasks|] == s.tasks;
  }

  /** `EDIT_TASK` merges `updates` into the tasks with that id and leaves the rest in place. */
  lemma EditTaskMerges(s: AppState, id: int, u: Patch)
    ensures var r := Reduce(s, EditTask(id, u));
            |r.tasks| == |s.tasks| && r.lists == s.lists && r.activeView == s.activeView &&
            r.nextTaskId == s.nextTaskId &&
            forall i :: 0 <= i < |s.tasks| ==>
              r.tasks[i] == if s.tasks[i].id == id then Merge(s.tasks[i], u) else s.tasks[i]
  {
  }

  /** A merged field takes the value `updates` carries, and keeps its own when `updates` has none. */
  lemma MergeFields(t: Task, u: Patch)
    ensures var r := Merge(t, u);
            (u.id.None? ==> r.id == t.id) && (u.id.Some? ==> r.id == u.id.value) &&
            (u.title.None? ==> r.title == t.title) && (u.title.Some? ==> r.title == u.title.value) &&
            (u.completed.None? ==> r.completed == t.completed) &&
            (u.completed.Some? ==> r.completed == u.completed.value) &&
            (u.important.None? ==> r.important == t.important) &&
            (u.important.Some? ==> r.important == u.important.value) &&
            (u.myDay.None? ==> r.myDay == t.myDay) && (u.myDay.Some? ==> r.myDay == u.myDay.value) &&
            (u.list.None? ==> r.list == t.list) && (u.list.Some? ==> r.list == u.list.value) &&
            (u.date.None? ==> r.date == t.date) && (u.date.Some? ==> r.date == u.date.value) &&
            (u.time.None? ==> r.time == t.time) && (u.time.Some? ==> r.time == u.time.value)
  {
  }

  /** Merging nothing is the identity; merging twice is merging the combined patch. */
  lemma MergeLaws(t: Task, u: Patch, v: Patch)
    ensures Merge(t, EmptyPatch) == t
    ensures Merge(Merge(t, u), v) == Merge(t, Combine(u, v))
    ensures Merge(Merge(t, u), u) == Merge(t, u)
  {
  }

  /** `DELETE_TASK` keeps, in order, exactly the tasks with another id. */
  lemma DeleteTaskRemoves(s: AppState, id: int)
    ensures var r := Reduce(s, DeleteTask(id));
            IsSubsequence(r.tasks, s.tasks) &&
            (forall t :: t in r.tasks <==> t in s.tasks && t.id != id) &&
            (forall t :: multiset(r.tasks)[t] == if t.id != id then multiset(s.tasks)[t] else 0) &&
            r == s.(tasks := r.tasks) &&
            ((forall t :: t in s.tasks ==> t.id != id) ==> r == s)
  {
  }

  /** `TOGGLE_COMPLETE` flips `completed` of the tasks with that id, and nothing else. */
  lemma ToggleCompleteFlips(s: AppState, id: int)
    ensures var r := Reduce(s, ToggleComplete(id));
            r == s.(tasks := r.tasks) && |r.tasks| == |s.tasks| &&
            forall i :: 0 <= i < |s.tasks| ==>
              r.tasks[i] == if s.tasks[i].id == id then s.tasks[i].(completed := !s.tasks[i].completed)
                            else s.tasks[i]
  {
  }

  /** `TOGGLE_IMPORTANT` flips `important` of the tasks with that id, and nothing else. */
  lemma ToggleImportantFlips(s: AppState, id: int)
    ensures var r := Reduce(s, ToggleImportant(id));
            r == s.(tasks := r.tasks) && |r.tasks| == |s.tasks| &&
            forall i :: 0 <= i < |s.tasks| ==>
              r.tasks[i] == if s.tasks[i].id == id then s.tasks[i].(important := !s.tasks[i].important)
                            else s.tasks[i]
  {
  }

  /** Toggling the same task twice restores the state. */
  lemma ToggleTwiceRestores(s: AppState, id: int)
    ensures Reduce(Reduce(s, ToggleComplete(id)), ToggleComplete(id)) == s
    ensures Reduce(Reduce(s, ToggleImportant(id)), ToggleImportant(id)) == s
  {
    UpdateWhereTwice(s.tasks, HasId(id), FlipCompleted);
    UpdateWhereTwice(s.tasks, HasId(id), FlipImportant);
  }

  /** `SET_ACTIVE_VIEW` and `ADD_LIST` touch only their own field; `DELETE_LIST` and any
      other action type fall through to `default` and return the state as it was. */
  lemma OtherActions(s: AppState, view: string, name: string, listId: string, kind: string)
    ensures Reduce(s, SetActiveView(view)) == s.(activeView := view)
    ensures Reduce(s, AddList(name)) == s.(lists := AddListTo(s.lists, name))
    ensures Reduce(s, DeleteList(listId)) == s
    ensures Reduce(s, Unrecognized(kind)) == s
  {
  }

  // ---------------------------------------------------------------------------------------------
  // Task ids from the counter

  /** The counter is at least 1; ids are at least 1, below the counter, and increase along the
      list (so they are distinct). */
  ghost predicate IdsValid(s: AppState) {
    s.nextTaskId >= 1 && IdsBelow(s.tasks, s.nextTaskId) && IdsIncreasing(s.tasks)
  }

  ghost predicate DistinctIds(tasks: seq<Task>) {
    forall i, j :: 0 <= i < j < |tasks| ==> tasks[i].id != tasks[j].id
  }

  /** Every action except an `EDIT_TASK` whose `updates` carry an `id` leaves ids alone. */
  predicate KeepsIds(a: Action) {
    !(a.EditTask? && a.updates.id.Some?)
  }

  ghost predicate IdsBelow(tasks: seq<Task>, bound: int) {
    forall i :: 0 <= i < |tasks| ==> 1 <= tasks[i].id < bound
  }

  ghost predicate IdsIncreasing(tasks: seq<Task>) {
    forall i, j :: 0 <= i < j < |tasks| ==> tasks[i].id < tasks[j].id
  }

  /** Dropping tasks keeps the ids in range and increasing. */
  lemma {:induction false} SubsequenceKeepsIdOrder(a: seq<Task>, b: seq<Task>, bound: int)
    requires IsSubsequence(a, b) && IdsBelow(b, bound) && IdsIncreasing(b)
    ensures IdsBelow(a, bound) && IdsIncreasing(a)
    decreases |b|
  {
    SubsequenceElements(a, b);
    assert forall i :: 0 <= i < |a| ==> a[i] in b;
    if a != [] {
      if a[0] == b[0] && IsSubsequence(a[1..], b[1..]) {
        SubsequenceKeepsIdOrder(a[1..], b[1..], bound);
        SubsequenceElements(a[1..], b[1..]);
        forall j | 1 <= j < |a| ensures a[0].id < a[j].id {
          assert a[j] == a[1..][j - 1];
          assert a[j] in a[1..];
          var k :| 0 <= k < |b[1..]| && b[1..][k] == a[j];
          assert b[k + 1] == a[j];
        }
        forall i, j | 0 <= i < j < |a| ensures a[i].id < a[j].id {
          if i > 0 { assert a[i] == a[1..][i - 1] && a[j] == a[1..][j - 1]; }
        }
      } else {
        SubsequenceKeepsIdOrder(a, b[1..], bound);
      }
    }
  }

  lemma SameIds(a: seq<Task>, b: seq<Task>)
    requires |a| == |b| && forall i :: 0 <= i < |a| ==> a[i].id == b[i].id
    ensures forall bound :: IdsBelow(a, bound) ==> IdsBelow(b, bound)
    ensures IdsIncreasing(a) ==> IdsIncreasing(b)
  {
  }

  lemma ReduceKeepsIdsValid(s: AppState, a: Action)
    requires IdsValid(s) && KeepsIds(a)
    ensures IdsValid(Reduce(s, a)) && Reduce(s, a).nextTaskId >= s.nextTaskId
  {
    match a
    case DeleteTask(id) =>
      SubsequenceKeepsIdOrder(Filter(LacksId(id), s.tasks), s.tasks, s.nextTaskId);
    case EditTask(id, u) => SameIds(s.tasks, Reduce(s, a).tasks);
    case ToggleComplete(id) => SameIds(s.tasks, Reduce(s, a).tasks);
    case ToggleImportant(id) => SameIds(s.tasks, Reduce(s, a).tasks);
    case _ =>
  }

  lemma {:induction false} RunKeepsIdsValid(s: AppState, actions: seq<Action>)
    requires IdsValid(s) && forall i :: 0 <= i < |actions| ==> KeepsIds(actions[i])
    ensures IdsValid(Run(s, actions))
    decreases |actions|
  {
    if actions != [] {
      ReduceKeepsIdsValid(s, actions[0]);
      RunKeepsIdsValid(Reduce(s, actions[0]), actions[1..]);
    }
  }

  /** From the initial state, whatever is dispatched (short of rewriting an id through
      `EDIT_TASK`), task ids stay pairwise distinct and below `nextTaskId`. */
  lemma ReachableIdsDistinct(actions: seq<Action>)
    requires forall i :: 0 <= i < |actions| ==> KeepsIds(actions[i])
    ensures var s := Run(InitialState, actions);
            DistinctIds(s.tasks) && forall i :: 0 <= i < |s.tasks| ==> s.tasks[i].id < s.nextTaskId
  {
    RunKeepsIdsValid(InitialState, actions);
  }

  /** An `EDIT_TASK` whose `updates` carry an id can give two tasks the same id. */
  lemma EditCanDuplicateIds(p: NewTask)
    ensures var s := Run(InitialState, [AddTask(p), AddTask(p), EditTask(2, EmptyPatch.(id := Some(1)))]);
            |s.tasks| == 2 && s.tasks[0].id == s.tasks[1].id
  {
    var edit := EditTask(2, EmptyPatch.(id := Some(1)));
    var s1 := Reduce(InitialState, AddTask(p));
    var s2 := Reduce(s1, AddTask(p));
    var s3 := Reduce(s2, edit);
    assert [AddTask(p), AddTask(p), edit][1..] == [AddTask(p), edit];
    assert [AddTask(p), edit][1..] == [edit];
    assert Run(s2, [edit]) == s3;
    assert s2.tasks == [WithId(p, 1), WithId(p, 2)];
    assert s3.tasks[1] == Merge(s2.tasks[1], EmptyPatch.(id := Some(1)));
  }

  function AddTasks(payloads: seq<NewTask>): (r: seq<Action>)
    ensures |r| == |payloads| && forall i :: 0 <= i < |r| ==> r[i] == AddTask(payloads[i])
  {
    seq(|payloads|, i requires 0 <= i < |payloads| => AddTask(payloads[i]))
  }

  /** A run of `ADD_TASK`s appends the payloads in order, numbered on from the counter. */
  lemma {:induction false} AddTaskRunNumbers(s: AppState, payloads: seq<NewTask>)
    ensures var r := Run(s, AddTasks(payloads));
            r.nextTaskId == s.nextTaskId + |payloads| &&
            r.tasks == s.tasks + seq(|payloads|, i requires 0 <= i < |payloads| =>
                                       WithId(payloads[i], s.nextTaskId + i))
    decreases |payloads|
  {
    if payloads != [] {
      var s1 := Reduce(s, AddTask(payloads[0]));
      assert AddTasks(payloads)[1..] == AddTasks(payloads[1..]);
      AddTaskRunNumbers(s1, payloads[1..]);
      var tail := seq(|payloads| - 1, i requires 0 <= i < |payloads| - 1 =>
                        WithId(payloads[1..][i], s1.nextTaskId + i));
      var whole := seq(|payloads|, i requires 0 <= i < |payloads| =>
                         WithId(payloads[i], s.nextTaskId + i));
      assert whole == [WithId(payloads[0], s.nextTaskId)] + tail;
    }
  }

  /** From the initial state, the k-th added task (counting from 0) gets id k + 1. */
  lemma AddTaskRunFromInitial(payloads: seq<NewTask>)
    ensures var r := Run(InitialState, AddTasks(payloads));
            |r.tasks| == |payloads| &&
            forall i :: 0 <= i < |payloads| ==> r.tasks[i] == WithId(payloads[i], i + 1)
  {
    AddTaskRunNumbers(InitialState, payloads);
  }

  /** The sidebar's lists keep the `personal`, `list-2`, `list-3`, ... shape under every action. */
  lemma {:induction false} RunKeepsListsCanonical(s: AppState, actions: seq<Action>)
    requires CanonicalLists(s.lists)
    ensures CanonicalLists(Run(s, actions).lists)
    decreases |actions|
  {
    if actions != [] {
      if actions[0].AddList? { AddListKeepsCanonical(s.lists, actions[0].name); }
      RunKeepsListsCanonical(Reduce(s, actions[0]), actions[1..]);
    }
  }

  /** Every reachable state has lists with distinct ids. */
  lemma ReachableListIdsDistinct(actions: seq<Action>)
    ensures DistinctListIds(Run(InitialState, actions).lists)
  {
    RunKeepsListsCanonical(InitialState, actions);
    CanonicalListIdsDistinct(Run(InitialState, actions).lists);
  }

  // ---------------------------------------------------------------------------------------------
  // Views

  /** `t.date` is truthy: present and not the empty string. */
  predicate HasDate(t: Task) { t.date.Some? && t.date.value != "" }

  /** The view's own test in `getFilteredTasks`. */
  predicate InView(v: View, t: Task) {
    match v
    case MyDay => t.myDay
    case Important => t.important
    case Planned => HasDate(t)
    case All => true
    case ListView(id) => t.list == id
  }

  function StatusIs(completed: bool): Task -> bool { (t: Task) => t.completed == completed }
  function InViewOf(v: View): Task -> bool { (t: Task) => InView(v, t) }
  function OpenIn(v: View): Task -> bool { (t: Task) => InView(v, t) && !t.completed }

  /** `getFilteredTasks(completed)`: the tasks with that status shown under the active view. */
  function FilteredTasks(s: AppState, completed: bool): (r: seq<Task>)
    ensures IsSubsequence(r, s.tasks)
    ensures forall t :: t in r <==>
              t in s.tasks && t.completed == completed && InView(ParseView(s.activeView), t)
    ensures forall t :: multiset(r)[t] ==
              if t.completed == completed && InView(ParseView(s.activeView), t)
              then multiset(s.tasks)[t] else 0
  {
    var byStatus := Filter(StatusIs(completed), s.tasks);
    var r := Filter(InViewOf(ParseView(s.activeView)), byStatus);
    SubsequenceTransitive(r, byStatus, s.tasks);
    forall t ensures multiset(r)[t] ==
                     if t.completed == completed && InView(ParseView(s.activeView), t)
                     then multiset(s.tasks)[t] else 0 {
      assert multiset(byStatus)[t] == if t.completed == completed then multiset(s.tasks)[t] else 0;
    }
    r
  }

  /** `getTaskCount(view)`: how many open tasks the sidebar shows next to a view. */
  function TaskCount(tasks: seq<Task>, view: string): (count: nat)
    ensures count <= |tasks|
  {
    |Filter(OpenIn(ParseView(view)), tasks)|
  }

  /** The sidebar count of a view is the length of the open list that view would show. */
  lemma CountMatchesFiltered(s: AppState, view: string)
    ensures TaskCount(s.tasks, view) == |FilteredTasks(s.(activeView := view), false)|
  {
    var v := ParseView(view);
    FilterFuse(StatusIs(false), InViewOf(v), OpenIn(v), s.tasks);
  }

  /** Under `all` the filter keeps exactly the tasks with the requested status. */
  lemma AllViewKeepsStatus(s: AppState, completed: bool)
    requires s.activeView == "all"
    ensures FilteredTasks(s, completed) == Filter(StatusIs(completed), s.tasks)
  {
  }

  // ---------------------------------------------------------------------------------------------
  // Handlers

  /** `handleAddTask`: nothing for blank input, else `ADD_TASK` with the trimmed title, marked for
      My Day when that view is active, in the active list or `personal`, with no date or time. */
  function AddTaskRequest(input: string, activeView: string): (r: Option<Action>)
    ensures r.None? <==> AllWhitespace(input)
    ensures r.Some? ==>
              r.value.AddTask? &&
              var p := r.value.payload;
              p.title == Trim(input) && p.title != [] && !p.completed && !p.important &&
              (p.myDay <==> ParseView(activeView) == MyDay) &&
              (ParseView(activeView).ListView? ==> p.list == activeView) &&
              (!ParseView(activeView).ListView? ==> p.list == "personal") &&
              p.date.None? && p.time.None?
  {
    var title := Trim(input);
    if title == [] then None
    else Some(AddTask(NewTask(title, false, false, activeView == "my-day",
                              DefaultListFor(activeView), None, None)))
  }

  /** A task just added is listed under the view it was added in, except under Important and
      Planned, since it starts neither important nor dated. */
  lemma AddedTaskShown(s: AppState, input: string)
    requires !AllWhitespace(input)
    ensures var r := Reduce(s, AddTaskRequest(input, s.activeView).value);
            var v := ParseView(s.activeView);
            (r.tasks[|s.tasks|] in FilteredTasks(r, false)) <==> v != Important && v != Planned
  {
    var r := Reduce(s, AddTaskRequest(input, s.activeView).value);
    assert r.tasks[|s.tasks|] in r.tasks;
  }

  /** `handleCreateList`: `ADD_LIST` with the trimmed name, or nothing for a blank name. */
  function CreateListRequest(input: string): (r: Option<Action>)
    ensures r.None? <==> AllWhitespace(input)
    ensures r.Some? ==> r == Some(AddList(Trim(input))) && r.value.name != []
  {
    var name := Trim(input);
    if name == [] then None else Some(AddList(name))
  }

  /** `isOverdue(task)` with `today` the current date as `YYYY-MM-DD`: an open task with a due
      date that sorts before today. */
  function IsOverdue(t: Task, today: string): (r: bool)
    ensures r ==> HasDate(t) && !t.completed
  {
    if !HasDate(t) || t.completed then false else LexLess(t.date.value, today)
  }

  /** For ISO dates the string test is "due on an earlier calendar day"; due today is not overdue. */
  lemma OverdueMeansEarlierDay(t: Task, today: string)
    requires HasDate(t) && IsIsoDate(t.date.value) && IsIsoDate(today)
    ensures IsOverdue(t, today) <==> !t.completed && ChronologicallyBefore(t.date.value, today)
    ensures t.date.value == today ==> !IsOverdue(t, today)
  {
    IsoDateOrder(t.date.value, today);
    LexLessIrreflexive(today);
  }

  /** The actions this copy's UI dispatches: `ADD_TASK` from `handleAddTask` (never dated),
      the two toggles, `SET_ACTIVE_VIEW` and `ADD_LIST`. */
  predicate UiAction(a: Action) {
    (a.AddTask? && a.payload.date.None?) || a.ToggleComplete? || a.ToggleImportant? ||
    a.SetActiveView? || a.AddList?
  }

  /** Nothing the UI dispatches gives a task a date, so from the initial state no task is
      ever overdue and the Planned view stays empty. */
  lemma {:induction false} UiRunHasNoDates(s: AppState, actions: seq<Action>, today: string)
    requires forall t :: t in s.tasks ==> t.date.None?
    requires forall i :: 0 <= i < |actions| ==> UiAction(actions[i])
    ensures var r := Run(s, actions);
            (forall t :: t in r.tasks ==> t.date.None? && !IsOverdue(t, today)) &&
            (r.activeView == "planned" ==> FilteredTasks(r, false) == [] && FilteredTasks(r, true) == [])
    decreases |actions|
  {
    if actions != [] {
      var s1 := Reduce(s, actions[0]);
      assert forall t :: t in s1.tasks ==> t.date.None? by {
        forall t | t in s1.tasks ensures t.date.None? {
          var i :| 0 <= i < |s1.tasks| && s1.tasks[i] == t;
          if !actions[0].AddTask? && !actions[0].SetActiveView? && !actions[0].AddList? {
            assert s.tasks[i] in s.tasks;
          } else if actions[0].AddTask? && i < |s.tasks| {
            assert s1.tasks[i] == s.tasks[i];
          }
        }
      }
      UiRunHasNoDates(s1, actions[1..], today);
    } else if s.activeView == "planned" {
      UndatedPlannedEmpty(s, false);
      UndatedPlannedEmpty(s, true);
    }
  }

  /** With no dated task, Planned lists nothing. */
  lemma UndatedPlannedEmpty(s: AppState, completed: bool)
    requires forall t :: t in s.tasks ==> t.date.None?
    requires s.activeView == "planned"
    ensures FilteredTasks(s, completed) == []
  {
  }

  // ---------------------------------------------------------------------------------------------
  // Scenarios

  /** Two open tasks, one in My Day: the My Day view lists that one only. */
  lemma MyDayScenario()
    ensures var a := Task(1, "A", false, false, true, "personal", None, None);
            var b := Task(2, "B", false, false, false, "personal", None, None);
            FilteredTasks(AppState([a, b], InitialLists, "my-day", 3), false) == [a]
  {
    var a := Task(1, "A", false, false, true, "personal", None, None);
    var b := Task(2, "B", false, false, false, "personal", None, None);
    assert [a, b][1..] == [b];
  }
}
