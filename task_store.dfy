/** The in-memory task list behind the table: three sequences of tasks, one
    per section (Now, Soon, Upcoming), each kept in ascending order of due
    date. It is filled once from the fetch, and then the fetched results
    controller's change notifications insert and delete one task at a time. */
module TaskStore {
  import opened Wrappers
  import opened Buckets
  import opened RelativeDay

  /** A task: its identity (the managed object), its title (None when the
      stored title is nil) and its due date. */
  datatype Task = Task(id: nat, title: Option<string>, due: int)

  /** A row position handed to the table view with each insert or delete. */
  datatype IndexPath = IndexPath(section: nat, row: nat)

  /** A change the fetched results controller reports for one task. For an
      insert or a delete, `days` is the day count from now until the task's
      due date at the moment the change is handled. */
  datatype Change =
    | Insert(task: Task, days: Option<int>)
    | Delete(task: Task, days: Option<int>)
    | Move(task: Task)
    | Update(task: Task)

  datatype AbortReason = UnsupportedChange | TaskNotInSection

  /** What handling a change does: rows inserted or deleted at a path, or a
      stop of the program (`fatalError`, or a force unwrap of a missing index). */
  datatype Outcome = RowInserted(path: IndexPath) | RowDeleted(path: IndexPath) | Abort(reason: AbortReason)

  // ---------------------------------------------------------------------
  // One section
  // ---------------------------------------------------------------------

  predicate SortedByDue(s: seq<Task>)
  {
    forall i, j :: 0 <= i < j < |s| ==> s[i].due <= s[j].due
  }

  predicate HasId(s: seq<Task>, id: nat)
  {
    exists j :: 0 <= j < |s| && s[j].id == id
  }

  /** The first position whose task is due strictly later than `due`, or the
      length of the section when there is none. */
  function InsertionIndex(s: seq<Task>, due: int): (k: nat)
    ensures k <= |s|
    ensures forall j :: 0 <= j < k ==> s[j].due <= due
    ensures k < |s| ==> due < s[k].due
  {
    if s == [] then 0
    else if due < s[0].due then 0
    else 1 + InsertionIndex(s[1..], due)
  }

  /** The first position whose task has identity `id`, or None. */
  function IndexOfId(s: seq<Task>, id: nat): (r: Option<nat>)
    ensures r.None? <==> !HasId(s, id)
    ensures r.Some? ==> r.value < |s| && s[r.value].id == id
    ensures r.Some? ==> forall j :: 0 <= j < r.value ==> s[j].id != id
  {
    if s == [] then None
    else if s[0].id == id then Some(0)
    else match IndexOfId(s[1..], id)
      case None => None
      case Some(k) => Some(k + 1)
  }

  function InsertAt(s: seq<Task>, k: nat, t: Task): (r: seq<Task>)
    requires k <= |s|
    ensures |r| == |s| + 1 && r[k] == t
    ensures forall i :: 0 <= i < k ==> r[i] == s[i]
    ensures forall i :: k < i < |r| ==> r[i] == s[i - 1]
    ensures multiset(r) == multiset(s) + multiset{t}
  {
    assert s == s[..k] + s[k..];
    s[..k] + [t] + s[k..]
  }

  function RemoveAt(s: seq<Task>, k: nat): (r: seq<Task>)
    requires k < |s|
    ensures |r| == |s| - 1
    ensures forall i :: 0 <= i < k ==> r[i] == s[i]
    ensures forall i :: k <= i < |r| ==> r[i] == s[i + 1]
    ensures multiset(r) + multiset{s[k]} == multiset(s)
  {
    assert s == s[..k] + [s[k]] + s[k + 1..];
    s[..k] + s[k + 1..]
  }

  /** Inserting at the insertion index keeps a sorted section sorted, and the
      new task comes after every task that is due at the same time. */
  lemma {:induction false} InsertKeepsSorted(s: seq<Task>, t: Task)
    requires SortedByDue(s)
    ensures SortedByDue(InsertAt(s, InsertionIndex(s, t.due), t))
  {
    var k := InsertionIndex(s, t.due);
    var r := InsertAt(s, k, t);
    forall i, j | 0 <= i < j < |r| ensures r[i].due <= r[j].due {
      assert forall m :: 0 <= m < k ==> r[m] == s[m];
      assert forall m :: k < m < |r| ==> r[m] == s[m - 1];
      if j == k {
        assert r[i] == s[i];
      } else if i == k {
        assert r[j] == s[j - 1];
        assert s[k].due <= s[j - 1].due;
      }
    }
  }

  /** The new task is placed after all tasks due at the same time, and
      before all tasks due later. */
  lemma InsertAfterEqualDue(s: seq<Task>, t: Task, j: nat)
    requires SortedByDue(s) && j < |s|
    ensures var k := InsertionIndex(s, t.due);
            (s[j].due <= t.due ==> j < k) && (s[j].due > t.due ==> j >= k)
  {
  }

  /** When no task in the section is due later, the new task is appended. */
  lemma InsertLatestAppends(s: seq<Task>, t: Task)
    requires forall j :: 0 <= j < |s| ==> s[j].due <= t.due
    ensures InsertAt(s, InsertionIndex(s, t.due), t) == s + [t]
  {
    assert s[..|s|] == s && s[|s|..] == [];
  }

  /** In a section without `t`, the task inserted is found at its insertion position. */
  lemma {:induction false} IndexOfInserted(s: seq<Task>, k: nat, t: Task)
    requires k <= |s| && !HasId(s, t.id)
    ensures IndexOfId(InsertAt(s, k, t), t.id) == Some(k)
  {
    var r := InsertAt(s, k, t);
    if k > 0 {
      assert r[1..] == InsertAt(s[1..], k - 1, t);
      assert s[0].id != t.id;
      assert forall j :: 0 <= j < |s[1..]| ==> s[1..][j] == s[j + 1];
      IndexOfInserted(s[1..], k - 1, t);
    }
  }

  lemma RemoveInserted(s: seq<Task>, k: nat, t: Task)
    requires k <= |s|
    ensures RemoveAt(InsertAt(s, k, t), k) == s
  {
    var r := InsertAt(s, k, t);
    assert r[..k] == s[..k];
    assert r[k + 1..] == s[k..];
    assert s == s[..k] + s[k..];
  }

  lemma RemoveKeepsSorted(s: seq<Task>, k: nat)
    requires SortedByDue(s) && k < |s|
    ensures SortedByDue(RemoveAt(s, k))
  {
    var r := RemoveAt(s, k);
    assert forall m :: 0 <= m < k ==> r[m] == s[m];
    assert forall m :: k <= m < |r| ==> r[m] == s[m + 1];
  }

  // ---------------------------------------------------------------------
  // The three sections
  // ---------------------------------------------------------------------

  predicate SectionsSorted(secs: seq<seq<Task>>)
  {
    forall b :: 0 <= b < |secs| ==> SortedByDue(secs[b])
  }

  function TotalCount(secs: seq<seq<Task>>): nat
    requires |secs| == SECTION_COUNT
  {
    |secs[0]| + |secs[1]| + |secs[2]|
  }

  /** The sections after inserting `t`, whose day count is `days`: the task
      goes into its section at the insertion position, and no other section
      changes. */
  function InsertIntoSections(secs: seq<seq<Task>>, t: Task, days: Option<int>): (r: seq<seq<Task>>)
    requires |secs| == SECTION_COUNT
    ensures |r| == SECTION_COUNT && TotalCount(r) == TotalCount(secs) + 1
    ensures forall c :: 0 <= c < SECTION_COUNT && c != SectionIndex(days) ==> r[c] == secs[c]
    ensures var b := SectionIndex(days);
            var k := InsertionIndex(secs[b], t.due);
            |r[b]| == |secs[b]| + 1 && r[b][k] == t && multiset(r[b]) == multiset(secs[b]) + multiset{t}
    ensures var b := SectionIndex(days);
            var k := InsertionIndex(secs[b], t.due);
            r[b] == InsertAt(secs[b], k, t)
    ensures SectionsSorted(secs) ==> SectionsSorted(r)
  {
    var b := SectionIndex(days);
    var r := secs[b := InsertAt(secs[b], InsertionIndex(secs[b], t.due), t)];
    if SectionsSorted(secs) then InsertKeepsSorted(secs[b], t); r else r
  }

  /** The sections after deleting `t`, whose day count is `days`: None when
      `t` is not in the section its day count gives (the force unwrap fails);
      otherwise its first occurrence there is removed and no other section
      changes. */
  function DeleteFromSections(secs: seq<seq<Task>>, t: Task, days: Option<int>): (r: Option<seq<seq<Task>>>)
    requires |secs| == SECTION_COUNT
    ensures r.None? <==> !HasId(secs[SectionIndex(days)], t.id)
    ensures r.Some? ==> |r.value| == SECTION_COUNT && TotalCount(r.value) + 1 == TotalCount(secs)
    ensures r.Some? ==> forall c :: 0 <= c < SECTION_COUNT && c != SectionIndex(days) ==> r.value[c] == secs[c]
    ensures r.Some? ==> var b := SectionIndex(days);
            var k := IndexOfId(secs[b], t.id).value;
            r.value[b] == RemoveAt(secs[b], k) && multiset(r.value[b]) + multiset{secs[b][k]} == multiset(secs[b])
    ensures r.Some? && SectionsSorted(secs) ==> SectionsSorted(r.value)
  {
    var b := SectionIndex(days);
    match IndexOfId(secs[b], t.id)
    case None => None
    case Some(k) =>
      var r := secs[b := RemoveAt(secs[b], k)];
      if SectionsSorted(secs) then RemoveKeepsSorted(secs[b], k); Some(r) else Some(r)
  }

  /** Deleting a task right after inserting it, with the same day count,
      gives back the sections as they were, when the task was not already
      in its section. */
  lemma DeleteAfterInsert(secs: seq<seq<Task>>, t: Task, days: Option<int>)
    requires |secs| == SECTION_COUNT && !HasId(secs[SectionIndex(days)], t.id)
    ensures DeleteFromSections(InsertIntoSections(secs, t, days), t, days) == Some(secs)
  {
    var b := SectionIndex(days);
    var k := InsertionIndex(secs[b], t.due);
    IndexOfInserted(secs[b], k, t);
    RemoveInserted(secs[b], k, t);
    var r := InsertIntoSections(secs, t, days);
    assert r == secs[b := InsertAt(secs[b], k, t)];
    assert DeleteFromSections(r, t, days) == Some(r[b := RemoveAt(r[b], k)]) by {
      assert IndexOfId(r[b], t.id) == Some(k);
    }
    assert r[b := RemoveAt(r[b], k)] == secs;
  }

  /** The tasks of a fetch that fall into section `b`, in fetch order. */
  function Bucketed(tasks: seq<Task>, days: Task -> Option<int>, b: nat): (r: seq<Task>)
    ensures forall i :: 0 <= i < |r| ==> SectionIndex(days(r[i])) == b
    ensures forall x :: x in r ==> x in tasks
  {
    if tasks == [] then []
    else
      var rest := Bucketed(tasks[..|tasks| - 1], days, b);
      var last := tasks[|tasks| - 1];
      if SectionIndex(days(last)) == b then rest + [last] else rest
  }

  /** The sections after appending every task of a fetch to its section. */
  function Loaded(start: seq<seq<Task>>, tasks: seq<Task>, days: Task -> Option<int>): (r: seq<seq<Task>>)
    requires |start| == SECTION_COUNT
    ensures |r| == SECTION_COUNT
    ensures forall c :: 0 <= c < SECTION_COUNT ==> |start[c]| <= |r[c]| && r[c][..|start[c]|] == start[c]
    ensures TotalCount(r) == TotalCount(start) + |tasks|
  {
    BucketedCount(tasks, days);
    [start[0] + Bucketed(tasks, days, 0), start[1] + Bucketed(tasks, days, 1), start[2] + Bucketed(tasks, days, 2)]
  }

  /** One more fetched task appends it to its own section only. */
  lemma LoadedStep(start: seq<seq<Task>>, tasks: seq<Task>, days: Task -> Option<int>, i: nat)
    requires |start| == SECTION_COUNT && i < |tasks|
    ensures var b := SectionIndex(days(tasks[i]));
            var before := Loaded(start, tasks[..i], days);
            Loaded(start, tasks[..i + 1], days) == before[b := before[b] + [tasks[i]]]
  {
    var b := SectionIndex(days(tasks[i]));
    var before, after := Loaded(start, tasks[..i], days), Loaded(start, tasks[..i + 1], days);
    assert tasks[..i + 1][..i] == tasks[..i] && tasks[..i + 1][i] == tasks[i];
    forall c | 0 <= c < SECTION_COUNT ensures after[c] == before[b := before[b] + [tasks[i]]][c] {
      if c == b {
        assert Bucketed(tasks[..i + 1], days, c) == Bucketed(tasks[..i], days, c) + [tasks[i]];
      } else {
        assert Bucketed(tasks[..i + 1], days, c) == Bucketed(tasks[..i], days, c);
      }
    }
  }

  lemma LoadedFromEmptyIsBucketed(tasks: seq<Task>, days: Task -> Option<int>)
    ensures Loaded([[], [], []], tasks, days)
            == [Bucketed(tasks, days, 0), Bucketed(tasks, days, 1), Bucketed(tasks, days, 2)]
  {
    var b0, b1, b2 := Bucketed(tasks, days, 0), Bucketed(tasks, days, 1), Bucketed(tasks, days, 2);
    assert [] + b0 == b0 && [] + b1 == b1 && [] + b2 == b2;
  }

  /** Loading a fetch into empty sections gives a partition of the fetch. */
  lemma LoadedFromEmptyPartition(tasks: seq<Task>, days: Task -> Option<int>)
    ensures var r := Loaded([[], [], []], tasks, days);
            multiset(r[0]) + multiset(r[1]) + multiset(r[2]) == multiset(tasks)
  {
    LoadedFromEmptyIsBucketed(tasks, days);
    BucketedPartition(tasks, days);
  }

  /** Loading a fetch sorted by due date into empty sections gives sorted sections. */
  lemma LoadedFromEmptySorted(tasks: seq<Task>, days: Task -> Option<int>)
    requires SortedByDue(tasks)
    ensures SectionsSorted(Loaded([[], [], []], tasks, days))
  {
    LoadedFromEmptyIsBucketed(tasks, days);
    BucketedSorted(tasks, days, 0);
    BucketedSorted(tasks, days, 1);
    BucketedSorted(tasks, days, 2);
  }

  /** A fetch sorted by due date gives sorted sections. */
  lemma {:induction false} BucketedSorted(tasks: seq<Task>, days: Task -> Option<int>, b: nat)
    requires SortedByDue(tasks)
    ensures SortedByDue(Bucketed(tasks, days, b))
  {
    if tasks != [] {
      var init := tasks[..|tasks| - 1];
      var last := tasks[|tasks| - 1];
      assert SortedByDue(init);
      BucketedSorted(init, days, b);
      var rest := Bucketed(init, days, b);
      forall x | x in rest ensures x.due <= last.due {
        assert x in init;
        var j :| 0 <= j < |init| && init[j] == x;
        assert tasks[j] == x;
      }
    }
  }

  /** The three sections of a fetch are a partition of it: together they hold
      every fetched task exactly as often as the fetch does. */
  lemma {:induction false} BucketedPartition(tasks: seq<Task>, days: Task -> Option<int>)
    ensures multiset(Bucketed(tasks, days, 0)) + multiset(Bucketed(tasks, days, 1))
            + multiset(Bucketed(tasks, days, 2)) == multiset(tasks)
  {
    if tasks != [] {
      var init := tasks[..|tasks| - 1];
      var last := tasks[|tasks| - 1];
      BucketedPartition(init, days);
      assert tasks == init + [last];
      var b := SectionIndex(days(last));
      var i0, i1, i2 := Bucketed(init, days, 0), Bucketed(init, days, 1), Bucketed(init, days, 2);
      assert Bucketed(tasks, days, 0) == if b == 0 then i0 + [last] else i0;
      assert Bucketed(tasks, days, 1) == if b == 1 then i1 + [last] else i1;
      assert Bucketed(tasks, days, 2) == if b == 2 then i2 + [last] else i2;
      assert multiset(tasks) == multiset(init) + multiset{last};
    }
  }

  /** The three sections of a fetch hold as many tasks as the fetch. */
  lemma BucketedCount(tasks: seq<Task>, days: Task -> Option<int>)
    ensures |Bucketed(tasks, days, 0)| + |Bucketed(tasks, days, 1)| + |Bucketed(tasks, days, 2)| == |tasks|
  {
    BucketedPartition(tasks, days);
    assert |multiset(tasks)| == |tasks|;
  }

  /** The two labels of a table cell; None is a label without text. */
  datatype Cell = Cell(text: Option<string>, detail: Option<string>)

  /** The cell shown for a task whose due day is `calendarDays` calendar days
      from today, filled into `reused`, the cell the table view hands out for
      reuse. The title is always assigned; the detail only when the calendar
      produced a day difference, so otherwise the reused cell's detail stays. */
  function CellFor(t: Task, calendarDays: Option<int>, reused: Cell): (c: Cell)
    ensures c.text == t.title
    ensures calendarDays.None? ==> c.detail == reused.detail
    ensures calendarDays.Some? ==> c.detail.Some? && ParseDescription(c.detail.value) == calendarDays
  {
    match DetailText(calendarDays)
    case None => Cell(t.title, reused.detail)
    case Some(d) => Cell(t.title, Some(d))
  }

  // ---------------------------------------------------------------------
  // The view controller's task sections
  // ---------------------------------------------------------------------

  class TaskSections {
    var sections: seq<seq<Task>>

    ghost predicate Valid()
      reads this
    {
      |sections| == SECTION_COUNT
    }

    ghost predicate Sorted()
      reads this
    {
      Valid() && SectionsSorted(sections)
    }

    /** The list as it is before the fetch: three empty sections. */
    constructor ()
      ensures Valid() && Sorted() && sections == [[], [], []]
    {
      sections := [[], [], []];
    }

    /** The table always has three sections. */
    function NumberOfSections(): (n: nat)
      reads this
      requires Valid()
      ensures n == SECTION_COUNT
    {
      |sections|
    }

    /** The initial load: appends every fetched task, in fetch order, to the
        section its day count gives. */
    method Load(fetched: seq<Task>, days: Task -> Option<int>)
      requires Valid()
      modifies this
      ensures Valid()
      ensures sections == Loaded(old(sections), fetched, days)
      ensures TotalCount(sections) == old(TotalCount(sections)) + |fetched|
      ensures old(sections) == [[], [], []] && SortedByDue(fetched) ==> Sorted()
    {
      ghost var start := sections;
      var i := 0;
      assert start[0] + [] == start[0] && start[1] + [] == start[1] && start[2] + [] == start[2];
      assert Loaded(start, fetched[..0], days) == start;
      while i < |fetched|
        invariant 0 <= i <= |fetched|
        invariant sections == Loaded(start, fetched[..i], days)
      {
        LoadedStep(start, fetched, days, i);
        var b := SectionIndex(days(fetched[i]));
        sections := sections[b := sections[b] + [fetched[i]]];
        i := i + 1;
      }
      assert fetched[..|fetched|] == fetched;
      if start == [[], [], []] && SortedByDue(fetched) {
        LoadedFromEmptySorted(fetched, days);
      }
    }

    /** An insert notification: the task goes into the section its day count
        gives, after every task there due no later than it. Returns the row
        path handed to the table view. */
    method InsertTask(t: Task, days: Option<int>) returns (path: IndexPath)
      requires Valid()
      modifies this
      ensures Valid()
      ensures path.section == SectionIndex(days)
      ensures path.row == InsertionIndex(old(sections[path.section]), t.due)
      ensures sections == InsertIntoSections(old(sections), t, days)
      ensures sections[path.section][path.row] == t
      ensures old(Sorted()) ==> Sorted()
    {
      var b := SectionIndex(days);
      var k := InsertionIndex(sections[b], t.due);
      sections := sections[b := InsertAt(sections[b], k, t)];
      path := IndexPath(b, k);
    }

    /** A delete notification: recomputes the task's section from its day
        count and removes the task found there by identity. Returns None, and
        changes nothing, when the task is not in that section: there the
        source's force unwrap stops the program. */
    method DeleteTask(t: Task, days: Option<int>) returns (path: Option<IndexPath>)
      requires Valid()
      modifies this
      ensures Valid()
      ensures path.None? <==> !HasId(old(sections[SectionIndex(days)]), t.id)
      ensures path.None? ==> sections == old(sections)
      ensures path.Some? ==> path.value.section == SectionIndex(days)
                             && IndexOfId(old(sections[path.value.section]), t.id) == Some(path.value.row)
                             && Some(sections) == DeleteFromSections(old(sections), t, days)
      ensures old(Sorted()) ==> Sorted()
    {
      var b := SectionIndex(days);
      var found := IndexOfId(sections[b], t.id);
      match found
      case None =>
        path := None;
      case Some(k) =>
        sections := sections[b := RemoveAt(sections[b], k)];
        path := Some(IndexPath(b, k));
    }

    /** The fetched results controller's change callback: inserts and deletes
        are applied, moves and updates stop the program. */
    method DidChange(change: Change) returns (outcome: Outcome)
      requires Valid()
      modifies this
      ensures Valid()
      ensures change.Insert? ==> var b := SectionIndex(change.days);
                                 outcome == RowInserted(IndexPath(b, InsertionIndex(old(sections)[b], change.task.due)))
                                 && sections == InsertIntoSections(old(sections), change.task, change.days)
      ensures change.Delete? ==> match DeleteFromSections(old(sections), change.task, change.days)
                                 case None => outcome == Abort(TaskNotInSection) && sections == old(sections)
                                 case Some(after) =>
                                   var b := SectionIndex(change.days);
                                   outcome == RowDeleted(IndexPath(b, IndexOfId(old(sections)[b], change.task.id).value))
                                   && sections == after
      ensures (change.Move? || change.Update?) ==> outcome == Abort(UnsupportedChange) && sections == old(sections)
      ensures old(Sorted()) ==> Sorted()
    {
      match change
      case Insert(t, days) =>
        var path := InsertTask(t, days);
        outcome := RowInserted(path);
      case Delete(t, days) =>
        var path := DeleteTask(t, days);
        outcome := if path.Some? then RowDeleted(path.value) else Abort(TaskNotInSection);
      case Move(_) =>
        outcome := Abort(UnsupportedChange);
      case Update(_) =>
        outcome := Abort(UnsupportedChange);
    }
  }
}
