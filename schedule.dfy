/**
 * The day planner's task list: the four updaters the application hands to
 * the planner page (add, edit, delete, toggle-complete), the form handler
 * that guards them, and the store that holds the list.
 *
 * Each updater is a pure function from the old list to the new one, as the
 * source's `setTasks(prev => ...)` callbacks are.  Task ids come from the
 * wall clock in the source; here the caller supplies them.
 */
module Schedule {
  import opened Options
  import TimeHelpers

  /** The priority buttons of the form: 'low', 'medium', 'high', or null for the plain "Add Task" button. */
  datatype Priority = Low | Medium | High | Unset

  /** One timed block of the day; `start` and `end` are minutes since midnight. */
  datatype Task = Task(id: int, text: string, start: int, end: int, priority: Priority, completed: bool)

  predicate HasId(tasks: seq<Task>, id: int)
  {
    exists i :: 0 <= i < |tasks| && tasks[i].id == id
  }

  /** No two tasks share an id. */
  predicate UniqueIds(tasks: seq<Task>)
  {
    forall i, j :: 0 <= i < j < |tasks| ==> tasks[i].id != tasks[j].id
  }

  /** What the form guarantees of every task it submits: a title and a positive duration. */
  predicate Submittable(t: Task)
  {
    t.text != [] && t.start < t.end
  }

  /** `a` is `b` with some elements left out, the rest in their original order. */
  predicate IsSubsequence<T(==)>(a: seq<T>, b: seq<T>)
  {
    a == [] || (b != [] && ((a[0] == b[0] && IsSubsequence(a[1..], b[1..])) || IsSubsequence(a, b[1..])))
  }

  /** `Array.prototype.filter`. */
  function Filter(s: seq<Task>, keep: Task -> bool): (r: seq<Task>)
    ensures |r| <= |s|
    ensures forall x :: x in r <==> x in s && keep(x)
  {
    if s == [] then [] else (if keep(s[0]) then [s[0]] else []) + Filter(s[1..], keep)
  }

  // ---------------------------------------------------------------------
  // The updaters

  /** `addTaskRange`: append a new, not yet completed task. */
  function AddTaskRange(tasks: seq<Task>, id: int, text: string, start: int, end: int, priority: Priority): (r: seq<Task>)
    ensures |r| == |tasks| + 1 && r[..|tasks|] == tasks
    ensures r[|tasks|] == Task(id, text, start, end, priority, false)
  {
    tasks + [Task(id, text, start, end, priority, false)]
  }

  /** `editTaskRange`: every task with the id gets the new text, times and priority. */
  function EditTaskRange(tasks: seq<Task>, id: int, text: string, start: int, end: int, priority: Priority): (r: seq<Task>)
    ensures |r| == |tasks|
    ensures forall i :: 0 <= i < |tasks| && tasks[i].id == id ==>
      r[i] == Task(id, text, start, end, priority, tasks[i].completed)
    ensures forall i :: 0 <= i < |tasks| && tasks[i].id != id ==> r[i] == tasks[i]
  {
    if tasks == [] then []
    else
      var t := tasks[0];
      [if t.id == id then t.(text := text, start := start, end := end, priority := priority) else t]
        + EditTaskRange(tasks[1..], id, text, start, end, priority)
  }

  /** The test `t.id !== id` of `deleteTask`. */
  function Other(id: int): Task -> bool
  {
    (t: Task) => t.id != id
  }

  /** `deleteTask`: keep the tasks whose id differs. */
  function DeleteTask(tasks: seq<Task>, id: int): (r: seq<Task>)
    ensures |r| <= |tasks|
    ensures forall t :: t in r <==> t in tasks && t.id != id
  {
    Filter(tasks, Other(id))
  }

  /** `toggleComplete`: flip `completed` on every task with the id. */
  function ToggleComplete(tasks: seq<Task>, id: int): (r: seq<Task>)
    ensures |r| == |tasks|
    ensures forall i :: 0 <= i < |tasks| && tasks[i].id == id ==>
      r[i] == tasks[i].(completed := !tasks[i].completed)
    ensures forall i :: 0 <= i < |tasks| && tasks[i].id != id ==> r[i] == tasks[i]
  {
    if tasks == [] then []
    else
      var t := tasks[0];
      [if t.id == id then t.(completed := !t.completed) else t] + ToggleComplete(tasks[1..], id)
  }

  // ---------------------------------------------------------------------
  // The form handler

  /** JavaScript truthiness of the form's `editMode`: null and the id 0 both mean "adding". */
  predicate Editing(editMode: Option<int>)
  {
    editMode.Some? && editMode.value != 0
  }

  /** The values the form's hour and minute selects offer. */
  predicate Selectable(h: int, m: int)
  {
    0 <= h < 24 && (m == 0 || m == 15 || m == 30 || m == 45)
  }

  /**
   * `handleRangeSubmit`: the new list and whether the form closes.  A
   * submission with an empty title or an end not after the start changes
   * nothing; otherwise it edits the task being edited or appends a new one
   * with the fresh id.
   */
  function HandleRangeSubmit(tasks: seq<Task>, editMode: Option<int>, title: string,
                             startH: int, startM: int, endH: int, endM: int,
                             priority: Priority, freshId: int): (r: (seq<Task>, bool))
    ensures var startTime, endTime := TimeHelpers.ToMins(startH, startM), TimeHelpers.ToMins(endH, endM);
      && (r.1 <==> title != [] && endTime > startTime)
      && (!r.1 ==> r.0 == tasks)
      && (r.1 && Editing(editMode) ==> r.0 == EditTaskRange(tasks, editMode.value, title, startTime, endTime, priority))
      && (r.1 && !Editing(editMode) ==>
            && |r.0| == |tasks| + 1 && r.0[..|tasks|] == tasks
            && r.0[|tasks|] == Task(freshId, title, startTime, endTime, priority, false))
    ensures r.1 && !Editing(editMode) && Selectable(startH, startM) && Selectable(endH, endM) ==>
      0 <= r.0[|tasks|].start < r.0[|tasks|].end <= 1425
    ensures r.1 && Editing(editMode) && Selectable(startH, startM) && Selectable(endH, endM) ==>
      forall i :: 0 <= i < |tasks| && tasks[i].id == editMode.value ==> 0 <= r.0[i].start < r.0[i].end <= 1425
  {
    var startTime := TimeHelpers.ToMins(startH, startM);
    var endTime := TimeHelpers.ToMins(endH, endM);
    if title != [] && endTime > startTime then
      if Editing(editMode) then (EditTaskRange(tasks, editMode.value, title, startTime, endTime, priority), true)
      else (AddTaskRange(tasks, freshId, title, startTime, endTime, priority), true)
    else (tasks, false)
  }

  // ---------------------------------------------------------------------
  // Lemmas

  lemma {:induction false} FilterIsSubsequence(s: seq<Task>, keep: Task -> bool)
    ensures IsSubsequence(Filter(s, keep), s)
  {
    if s != [] {
      FilterIsSubsequence(s[1..], keep);
      var r := Filter(s, keep);
      if keep(s[0]) {
        assert r[0] == s[0] && r[1..] == Filter(s[1..], keep);
      } else {
        assert r == Filter(s[1..], keep);
      }
    }
  }

  /** Filter keeps every copy of a task that passes the test and no copy of one that fails it. */
  lemma {:induction false} FilterCounts(s: seq<Task>, keep: Task -> bool)
    ensures forall x :: multiset(Filter(s, keep))[x] == if keep(x) then multiset(s)[x] else 0
  {
    if s != [] {
      assert s == [s[0]] + s[1..];
      FilterCounts(s[1..], keep);
    }
  }

  lemma {:induction false} FilterOfNone(s: seq<Task>, keep: Task -> bool)
    requires forall i :: 0 <= i < |s| ==> keep(s[i])
    ensures Filter(s, keep) == s
  {
    if s != [] {
      FilterOfNone(s[1..], keep);
    }
  }

  /**
   * After a delete no task carries the id; the survivors are exactly the other
   * tasks, in their original order; deleting an unknown id changes nothing.
   */
  lemma DeleteTaskSpec(tasks: seq<Task>, id: int)
    ensures !HasId(DeleteTask(tasks, id), id)
    ensures forall t :: t in DeleteTask(tasks, id) <==> t in tasks && t.id != id
    ensures IsSubsequence(DeleteTask(tasks, id), tasks)
    ensures forall t :: multiset(DeleteTask(tasks, id))[t] == if t.id != id then multiset(tasks)[t] else 0
    ensures !HasId(tasks, id) ==> DeleteTask(tasks, id) == tasks
  {
    var r := DeleteTask(tasks, id);
    FilterCounts(tasks, Other(id));
    FilterIsSubsequence(tasks, Other(id));
    forall i | 0 <= i < |r|
      ensures r[i].id != id
    {
      assert r[i] in r;
    }
    if !HasId(tasks, id) {
      FilterOfNone(tasks, Other(id));
    }
  }

  /** Editing or toggling an id that no task carries leaves the list as it was. */
  lemma UnknownIdIsNoOp(tasks: seq<Task>, id: int, text: string, start: int, end: int, priority: Priority)
    requires !HasId(tasks, id)
    ensures EditTaskRange(tasks, id, text, start, end, priority) == tasks
    ensures ToggleComplete(tasks, id) == tasks
  {
    var e := EditTaskRange(tasks, id, text, start, end, priority);
    var t := ToggleComplete(tasks, id);
    assert forall i :: 0 <= i < |tasks| ==> e[i] == tasks[i];
    assert forall i :: 0 <= i < |tasks| ==> t[i] == tasks[i];
  }

  /** Toggling twice gives back the original list. */
  lemma ToggleTwice(tasks: seq<Task>, id: int)
    ensures ToggleComplete(ToggleComplete(tasks, id), id) == tasks
  {
    var once := ToggleComplete(tasks, id);
    var twice := ToggleComplete(once, id);
    assert forall i :: 0 <= i < |tasks| ==> once[i].id == tasks[i].id;
    assert forall i :: 0 <= i < |tasks| ==> twice[i] == tasks[i];
  }

  /** The elements of a subsequence come from the whole. */
  lemma {:induction false} SubsequenceMembers(a: seq<Task>, b: seq<Task>)
    requires IsSubsequence(a, b)
    ensures forall t :: t in a ==> t in b
  {
    if a != [] {
      if a[0] == b[0] && IsSubsequence(a[1..], b[1..]) {
        SubsequenceMembers(a[1..], b[1..]);
        forall t | t in a
          ensures t in b
        {
          if t != a[0] {
            assert t in a[1..];
            assert t in b[1..];
          }
        }
      } else {
        SubsequenceMembers(a, b[1..]);
        forall t | t in a
          ensures t in b
        {
          assert t in b[1..];
        }
      }
    }
  }

  /** A subsequence of a list with unique ids has unique ids. */
  lemma {:induction false} SubsequenceKeepsUniqueIds(a: seq<Task>, b: seq<Task>)
    requires IsSubsequence(a, b) && UniqueIds(b)
    ensures UniqueIds(a)
  {
    if a != [] {
      assert b != [];
      if a[0] == b[0] && IsSubsequence(a[1..], b[1..]) {
        SubsequenceKeepsUniqueIds(a[1..], b[1..]);
        SubsequenceMembers(a[1..], b[1..]);
        forall j | 0 < j < |a|
          ensures a[0].id != a[j].id
        {
          assert a[j] in a[1..];
          var k :| 0 <= k < |b[1..]| && b[1..][k] == a[j];
          assert b[k + 1] == a[j];
        }
        forall i, j | 0 < i < j < |a|
          ensures a[i].id != a[j].id
        {
          assert a[i] == a[1..][i - 1] && a[j] == a[1..][j - 1];
        }
      } else {
        SubsequenceKeepsUniqueIds(a, b[1..]);
      }
    }
  }

  /** Appending a task whose id is not yet in use keeps the ids unique. */
  lemma AddKeepsUniqueIds(tasks: seq<Task>, id: int, text: string, start: int, end: int, priority: Priority)
    requires UniqueIds(tasks) && !HasId(tasks, id)
    ensures UniqueIds(AddTaskRange(tasks, id, text, start, end, priority))
  {
    var r := AddTaskRange(tasks, id, text, start, end, priority);
    forall i, j | 0 <= i < j < |r|
      ensures r[i].id != r[j].id
    {
      if j == |tasks| {
        assert r[i] == tasks[i];
      } else {
        assert r[i] == tasks[i] && r[j] == tasks[j];
      }
    }
  }

  /** Edit, delete and toggle keep the ids unique. */
  lemma UpdatesKeepUniqueIds(tasks: seq<Task>, id: int, text: string, start: int, end: int, priority: Priority)
    requires UniqueIds(tasks)
    ensures UniqueIds(EditTaskRange(tasks, id, text, start, end, priority))
    ensures UniqueIds(DeleteTask(tasks, id))
    ensures UniqueIds(ToggleComplete(tasks, id))
  {
    FilterIsSubsequence(tasks, Other(id));
    SubsequenceKeepsUniqueIds(DeleteTask(tasks, id), tasks);
    var e := EditTaskRange(tasks, id, text, start, end, priority);
    assert forall i :: 0 <= i < |tasks| ==> e[i].id == tasks[i].id;
    var t := ToggleComplete(tasks, id);
    assert forall i :: 0 <= i < |tasks| ==> t[i].id == tasks[i].id;
  }

  /**
   * A list built by submissions alone holds only submittable tasks: every
   * accepted submission, and every delete or toggle, keeps that so.
   */
  lemma SubmitKeepsSubmittable(tasks: seq<Task>, editMode: Option<int>, title: string,
                               startH: int, startM: int, endH: int, endM: int,
                               priority: Priority, freshId: int, id: int)
    requires forall i :: 0 <= i < |tasks| ==> Submittable(tasks[i])
    ensures var r := HandleRangeSubmit(tasks, editMode, title, startH, startM, endH, endM, priority, freshId).0;
      forall i :: 0 <= i < |r| ==> Submittable(r[i])
    ensures forall t :: t in DeleteTask(tasks, id) ==> Submittable(t)
    ensures var r := ToggleComplete(tasks, id); forall i :: 0 <= i < |r| ==> Submittable(r[i])
  {
  }

  // ---------------------------------------------------------------------
  // The store

  /**
   * The list `App` keeps in a state cell and replaces on every update.
   * Reading it from local storage is not part of this model: the constructor
   * takes the list that was loaded.
   */
  class TaskStore {
    var tasks: seq<Task>

    /** Unique ids, and every task as the form would have submitted it. */
    ghost predicate Valid()
      reads this
    {
      UniqueIds(tasks) && forall i :: 0 <= i < |tasks| ==> Submittable(tasks[i])
    }

    constructor (loaded: seq<Task>)
      ensures tasks == loaded
      ensures loaded == [] ==> Valid()
    {
      tasks := loaded;
    }

    method Add(id: int, text: string, start: int, end: int, priority: Priority)
      modifies this
      ensures tasks == AddTaskRange(old(tasks), id, text, start, end, priority)
      ensures old(Valid()) && !HasId(old(tasks), id) && text != [] && start < end ==> Valid()
    {
      if Valid() && !HasId(tasks, id) {
        AddKeepsUniqueIds(tasks, id, text, start, end, priority);
      }
      tasks := AddTaskRange(tasks, id, text, start, end, priority);
    }

    method Edit(id: int, text: string, start: int, end: int, priority: Priority)
      modifies this
      ensures tasks == EditTaskRange(old(tasks), id, text, start, end, priority)
      ensures old(Valid()) && text != [] && start < end ==> Valid()
    {
      if Valid() {
        UpdatesKeepUniqueIds(tasks, id, text, start, end, priority);
      }
      tasks := EditTaskRange(tasks, id, text, start, end, priority);
    }

    method Delete(id: int)
      modifies this
      ensures tasks == DeleteTask(old(tasks), id)
      ensures old(Valid()) ==> Valid()
    {
      if Valid() {
        UpdatesKeepUniqueIds(tasks, id, [], 0, 0, Unset);
        SubmitKeepsSubmittable(tasks, None, [], 0, 0, 0, 0, Unset, 0, id);
        ghost var r := DeleteTask(tasks, id);
        assert forall i :: 0 <= i < |r| ==> r[i] in r;
      }
      tasks := DeleteTask(tasks, id);
    }

    method Toggle(id: int)
      modifies this
      ensures tasks == ToggleComplete(old(tasks), id)
      ensures old(Valid()) ==> Valid()
    {
      if Valid() {
        UpdatesKeepUniqueIds(tasks, id, [], 0, 0, Unset);
      }
      tasks := ToggleComplete(tasks, id);
    }

    /** `handleRangeSubmit` applied to the store; `closed` says whether the form closes. */
    method SubmitRange(editMode: Option<int>, title: string, startH: int, startM: int, endH: int, endM: int,
                       priority: Priority, freshId: int) returns (closed: bool)
      modifies this
      ensures (tasks, closed) == HandleRangeSubmit(old(tasks), editMode, title, startH, startM, endH, endM, priority, freshId)
      ensures old(Valid()) && !HasId(old(tasks), freshId) ==> Valid()
    {
      var startTime := TimeHelpers.ToMins(startH, startM);
      var endTime := TimeHelpers.ToMins(endH, endM);
      closed := title != [] && endTime > startTime;
      if closed {
        if Editing(editMode) {
          Edit(editMode.value, title, startTime, endTime, priority);
        } else {
          Add(freshId, title, startTime, endTime, priority);
        }
      }
    }
  }
}
