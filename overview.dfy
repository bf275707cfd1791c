/**
 * The schedule overview: the daily timeline, which is the task list sorted by
 * start time, and the priority breakdown, which filters the timeline once per
 * priority.
 *
 * The source sorts a copy with `Array.prototype.sort` and the comparator
 * `a.start - b.start`; that sort is stable, so tasks that start together keep
 * the order in which they were added.  The model is an insertion sort that
 * places each task before every task starting at the same time or later.
 */
module Overview {
  import opened Schedule

  predicate SortedByStart(s: seq<Task>)
  {
    forall i, j :: 0 <= i < j < |s| ==> s[i].start <= s[j].start
  }

  /** Place `x` before the first task that starts no earlier than it. */
  function Insert(x: Task, s: seq<Task>): (r: seq<Task>)
    ensures |r| == |s| + 1
    ensures multiset(r) == multiset(s) + multiset{x}
    ensures r[0] == x || (s != [] && r[0] == s[0])
  {
    if s == [] || x.start <= s[0].start then [x] + s
    else
      assert s == [s[0]] + s[1..];
      [s[0]] + Insert(x, s[1..])
  }

  /** Inserting into a sorted list keeps it sorted. */
  lemma {:induction false} InsertSorted(x: Task, s: seq<Task>)
    requires SortedByStart(s)
    ensures SortedByStart(Insert(x, s))
  {
    if s != [] && x.start > s[0].start {
      InsertSorted(x, s[1..]);
      var rest := Insert(x, s[1..]);
      assert s[0].start <= rest[0].start;
      assert Insert(x, s) == [s[0]] + rest;
    }
  }

  /** `[...tasks].sort((a, b) => a.start - b.start)`. */
  function SortByStart(s: seq<Task>): (r: seq<Task>)
    ensures |r| == |s|
    ensures multiset(r) == multiset(s)
    ensures SortedByStart(r)
  {
    if s == [] then []
    else
      assert s == [s[0]] + s[1..];
      InsertSorted(s[0], SortByStart(s[1..]));
      Insert(s[0], SortByStart(s[1..]))
  }

  function StartsAt(k: int): Task -> bool
  {
    (t: Task) => t.start == k
  }

  function HasPriority(p: Priority): Task -> bool
  {
    (t: Task) => t.priority == p
  }

  /** What `CalendarOverlay` shows: the timeline and the three priority groups. */
  datatype Calendar = Calendar(timeline: seq<Task>, high: seq<Task>, medium: seq<Task>, low: seq<Task>)

  /** `sortedTasks` and `groups` of `CalendarOverlay`. */
  function CalendarOverlay(tasks: seq<Task>): Calendar
  {
    var sorted := SortByStart(tasks);
    Calendar(sorted, Filter(sorted, HasPriority(High)), Filter(sorted, HasPriority(Medium)), Filter(sorted, HasPriority(Low)))
  }

  /** The group the breakdown shows for one priority. */
  function Group(c: Calendar, p: Priority): seq<Task>
  {
    match p
    case High => c.high
    case Medium => c.medium
    case Low => c.low
    case Unset => []
  }

  // ---------------------------------------------------------------------
  // Lemmas

  /** One step of `Filter`: the head is kept or dropped, the rest is filtered. */
  lemma FilterCons(x: Task, s: seq<Task>, keep: Task -> bool)
    ensures Filter([x] + s, keep) == (if keep(x) then [x] else []) + Filter(s, keep)
  {
    assert ([x] + s)[1..] == s;
  }

  /** A task that starts no later than every task of a list is inserted at its front. */
  lemma InsertAtFront(x: Task, s: seq<Task>)
    requires forall t :: t in s ==> x.start <= t.start
    ensures Insert(x, s) == [x] + s
  {
    if s != [] {
      assert s[0] in s;
    }
  }

  lemma FilterInsertFront(x: Task, s: seq<Task>, keep: Task -> bool)
    requires SortedByStart(s) && (s == [] || x.start <= s[0].start)
    ensures Filter(Insert(x, s), keep) == if keep(x) then Insert(x, Filter(s, keep)) else Filter(s, keep)
  {
    assert Insert(x, s) == [x] + s;
    FilterCons(x, s, keep);
    if keep(x) {
      var f := Filter(s, keep);
      forall t | t in f
        ensures x.start <= t.start
      {
        var j :| 0 <= j < |s| && s[j] == t;
        assert s[0].start <= s[j].start;
      }
      InsertAtFront(x, f);
    }
  }

  /** Filtering the tasks kept by `keep` out of an insertion into a sorted list. */
  lemma {:induction false} FilterInsert(x: Task, s: seq<Task>, keep: Task -> bool)
    requires SortedByStart(s)
    ensures Filter(Insert(x, s), keep) == if keep(x) then Insert(x, Filter(s, keep)) else Filter(s, keep)
  {
    if s == [] || x.start <= s[0].start {
      FilterInsertFront(x, s, keep);
    } else {
      var s1 := s[1..];
      assert s == [s[0]] + s1;
      assert SortedByStart(s1);
      assert Insert(x, s) == [s[0]] + Insert(x, s1);
      FilterInsert(x, s1, keep);
      FilterCons(s[0], Insert(x, s1), keep);
      FilterCons(s[0], s1, keep);
      var f1 := Filter(s1, keep);
      var head := if keep(s[0]) then [s[0]] else [];
      assert Filter(Insert(x, s), keep) == head + Filter(Insert(x, s1), keep);
      assert Filter(s, keep) == head + f1;
      if !keep(x) {
        assert Filter(Insert(x, s1), keep) == f1;
      } else if keep(s[0]) {
        assert Filter(Insert(x, s1), keep) == Insert(x, f1);
        assert ([s[0]] + f1)[1..] == f1;
        assert Insert(x, [s[0]] + f1) == [s[0]] + Insert(x, f1);
      } else {
        assert head == [];
        assert Filter(Insert(x, s1), keep) == Insert(x, f1);
        assert Filter(s, keep) == f1;
      }
    }
  }

  /** Filtering the sorted list gives the sorted filtered list. */
  lemma {:induction false} FilterSortCommute(s: seq<Task>, keep: Task -> bool)
    ensures Filter(SortByStart(s), keep) == SortByStart(Filter(s, keep))
  {
    if s != [] {
      FilterSortCommute(s[1..], keep);
      FilterInsert(s[0], SortByStart(s[1..]), keep);
      if keep(s[0]) {
        assert Filter(s, keep) == [s[0]] + Filter(s[1..], keep);
        assert ([s[0]] + Filter(s[1..], keep))[1..] == Filter(s[1..], keep);
      } else {
        assert Filter(s, keep) == Filter(s[1..], keep);
      }
    }
  }

  /** Sorting tasks that all start at the same time leaves them as they are. */
  lemma {:induction false} SortSameStart(s: seq<Task>, k: int)
    requires forall i :: 0 <= i < |s| ==> s[i].start == k
    ensures SortByStart(s) == s
  {
    if s != [] {
      SortSameStart(s[1..], k);
      assert [s[0]] + s[1..] == s;
    }
  }

  /**
   * The timeline sort is stable: for every start time, the tasks starting then
   * appear in the timeline in the order they have in the list.
   */
  lemma SortIsStable(s: seq<Task>, k: int)
    ensures Filter(SortByStart(s), StartsAt(k)) == Filter(s, StartsAt(k))
  {
    var same := Filter(s, StartsAt(k));
    FilterSortCommute(s, StartsAt(k));
    assert forall i :: 0 <= i < |same| ==> same[i] in same;
    SortSameStart(same, k);
  }

  /**
   * The overview's timeline is the list sorted by start, stably; each group
   * of the breakdown is exactly the tasks of that priority, in timeline
   * order, that is, the sorted list of the tasks that have that priority.
   */
  lemma CalendarOverlaySpec(tasks: seq<Task>, p: Priority)
    requires p != Unset
    ensures var c := CalendarOverlay(tasks);
      && SortedByStart(c.timeline) && multiset(c.timeline) == multiset(tasks)
      && Group(c, p) == SortByStart(Filter(tasks, HasPriority(p)))
      && (forall t :: t in Group(c, p) <==> t in tasks && t.priority == p)
  {
    FilterSortCommute(tasks, HasPriority(p));
    var c := CalendarOverlay(tasks);
    forall t
      ensures t in Group(c, p) <==> t in tasks && t.priority == p
    {
      calc {
        t in Group(c, p);
        t in c.timeline && t.priority == p;
        { assert t in c.timeline <==> t in multiset(c.timeline); }
        t in tasks && t.priority == p;
      }
    }
  }

  /** A task without a priority appears in the timeline but in no group. */
  lemma UnsetInNoGroup(tasks: seq<Task>, t: Task)
    requires t in tasks && t.priority == Unset
    ensures var c := CalendarOverlay(tasks);
      t in c.timeline && t !in c.high && t !in c.medium && t !in c.low
  {
    var c := CalendarOverlay(tasks);
    assert t in multiset(tasks);
  }
}
