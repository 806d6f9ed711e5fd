/** What both copies of the app share verbatim: the view keys, the sidebar's lists with the ids
    `ADD_LIST` hands out, and the heading `getViewTitle` shows for the active view. */
module Views {
  import opened Options
  import opened Text

  /** The active view: one of the four virtual views, or a user list (by its id). */
  datatype View = MyDay | Important | Planned | All | ListView(listId: string)

  /** `['my-day', 'important', 'planned', 'all'].includes(key)` */
  predicate IsVirtualKey(key: string) {
    key == "my-day" || key == "important" || key == "planned" || key == "all"
  }

  /** How the `switch` over `activeView` reads the key; any other key names a list. */
  function ParseView(key: string): (v: View)
    ensures key == "my-day" ==> v == MyDay
    ensures key == "important" ==> v == Important
    ensures key == "planned" ==> v == Planned
    ensures key == "all" ==> v == All
    ensures v.ListView? <==> !IsVirtualKey(key)
    ensures v.ListView? ==> v.listId == key
  {
    if key == "my-day" then MyDay
    else if key == "important" then Important
    else if key == "planned" then Planned
    else if key == "all" then All
    else ListView(key)
  }

  /** The key the sidebar dispatches with `SET_ACTIVE_VIEW` for a view. */
  function ViewKey(v: View): string {
    match v
    case MyDay => "my-day"
    case Important => "important"
    case Planned => "planned"
    case All => "all"
    case ListView(id) => id
  }

  /** Reading a key back gives the same key, so no key is lost in parsing. */
  lemma ParseViewRoundTrip(key: string)
    ensures ViewKey(ParseView(key)) == key
  {
  }

  /** Every view whose list id is not a reserved key survives the round trip. */
  lemma ViewKeyRoundTrip(v: View)
    requires v.ListView? ==> !IsVirtualKey(v.listId)
    ensures ParseView(ViewKey(v)) == v
  {
  }

  /** The list a new task goes to: `personal` under a virtual view, else the active list. */
  function DefaultListFor(activeView: string): (list: string)
    ensures IsVirtualKey(activeView) ==> list == "personal"
    ensures !IsVirtualKey(activeView) ==> list == activeView
  {
    if IsVirtualKey(activeView) then "personal" else activeView
  }

  // ---------------------------------------------------------------------------------------------
  // Lists

  datatype TaskList = TaskList(id: string, name: string, color: string)

  const PersonalList := TaskList("personal", "Personal", "red")

  /** `initialState.lists` */
  const InitialLists: seq<TaskList> := [PersonalList]

  /** The id `ADD_LIST` gives the list added when `count` lists exist: `list-${count + 1}`. */
  function NewListId(count: nat): string {
    "list-" + NatToString(count + 1)
  }

  /** The `ADD_LIST` case: append a blue list with the next sequential id. */
  function AddListTo(lists: seq<TaskList>, name: string): (r: seq<TaskList>)
    ensures |r| == |lists| + 1 && r[..|lists|] == lists
    ensures r[|lists|] == TaskList(NewListId(|lists|), name, "blue")
  {
    lists + [TaskList(NewListId(|lists|), name, "blue")]
  }

  /** The shape every reachable `lists` has: `personal` first, then `list-2`, `list-3`, ... */
  ghost predicate CanonicalLists(lists: seq<TaskList>) {
    |lists| >= 1 && lists[0].id == "personal" &&
    forall i :: 1 <= i < |lists| ==> lists[i].id == NewListId(i)
  }

  ghost predicate DistinctListIds(lists: seq<TaskList>) {
    forall i, j :: 0 <= i < j < |lists| ==> lists[i].id != lists[j].id
  }

  lemma InitialListsCanonical()
    ensures CanonicalLists(InitialLists)
  {
  }

  lemma AddListKeepsCanonical(lists: seq<TaskList>, name: string)
    requires CanonicalLists(lists)
    ensures CanonicalLists(AddListTo(lists, name))
  {
  }

  /** The sequential ids never collide, with each other or with `personal`. */
  lemma CanonicalListIdsDistinct(lists: seq<TaskList>)
    requires CanonicalLists(lists)
    ensures DistinctListIds(lists)
  {
    forall i, j | 0 <= i < j < |lists| ensures lists[i].id != lists[j].id {
      if i == 0 {
        assert lists[i].id[0] == 'p' && lists[j].id[0] == 'l';
      } else {
        assert lists[i].id[5..] == NatToString(i + 1) && lists[j].id[5..] == NatToString(j + 1);
      }
    }
  }

  /** `lists.find(l => l.id === id)`: the first list with that id, if any. */
  function FindList(lists: seq<TaskList>, id: string): (r: Option<TaskList>)
    ensures r.None? <==> forall i :: 0 <= i < |lists| ==> lists[i].id != id
    ensures r.Some? ==> exists i :: 0 <= i < |lists| && lists[i] == r.value && r.value.id == id &&
                                    forall j :: 0 <= j < i ==> lists[j].id != id
    decreases |lists|
  {
    if lists == [] then None
    else if lists[0].id == id then Some(lists[0])
    else
      var r := FindList(lists[1..], id);
      assert r.Some? ==> exists i :: 0 <= i < |lists| && lists[i] == r.value && r.value.id == id &&
                                    forall j :: 0 <= j < i ==> lists[j].id != id by {
        if r.Some? {
          var i :| 0 <= i < |lists| - 1 && lists[1..][i] == r.value && r.value.id == id &&
                   forall j :: 0 <= j < i ==> lists[1..][j].id != id;
          assert lists[i + 1] == r.value;
          assert forall j :: 1 <= j < i + 1 ==> lists[j].id == lists[1..][j - 1].id;
        }
      }
      r
  }

  /** With distinct ids, looking up the id of the list at `k` finds that list. */
  lemma FindListDistinct(lists: seq<TaskList>, k: nat)
    requires DistinctListIds(lists) && k < |lists|
    ensures FindList(lists, lists[k].id) == Some(lists[k])
  {
  }

  /** `getViewTitle()`: the heading shown above the list of tasks. */
  function ViewTitle(lists: seq<TaskList>, activeView: string): (title: string)
    ensures activeView == "my-day" ==> title == "My Day"
    ensures activeView == "important" ==> title == "Important"
    ensures activeView == "planned" ==> title == "Planned"
    ensures activeView == "all" ==> title == "All Tasks"
    ensures !IsVirtualKey(activeView) ==>
              title == match FindList(lists, activeView) { case Some(l) => l.name case None => "Tasks" }
  {
    if activeView == "my-day" then "My Day"
    else if activeView == "important" then "Important"
    else if activeView == "planned" then "Planned"
    else if activeView == "all" then "All Tasks"
    else match FindList(lists, activeView) { case Some(l) => l.name case None => "Tasks" }
  }

  /** After a list is created and selected, the heading is the name it was created with. */
  lemma NewListTitle(lists: seq<TaskList>, name: string)
    requires CanonicalLists(lists)
    ensures ViewTitle(AddListTo(lists, name), NewListId(|lists|)) == name
  {
    var r := AddListTo(lists, name);
    AddListKeepsCanonical(lists, name);
    CanonicalListIdsDistinct(r);
    FindListDistinct(r, |lists|);
    assert NewListId(|lists|)[0] == 'l';
  }

  /** A first `ADD_LIST` on the initial lists creates `list-2`. */
  lemma FirstNewListId(name: string)
    ensures AddListTo(InitialLists, name)[1] == TaskList("list-2", name, "blue")
  {
    assert NatToString(2) == "2";
  }
}
