/** The kanban board: tasks grouped into three status columns, the moves
    each column offers, and the status update those moves request. */
module TaskBoard {

  import opened Types

  // ---- columns ---------------------------------------------------------------------

  /** The column of a status: the tasks with that status, in list order. */
  function Column(tasks: seq<Task>, s: Status): (r: seq<Task>)
    ensures |r| <= |tasks|
    decreases |tasks|
  {
    if tasks == [] then []
    else
      var n := |tasks| - 1;
      Column(tasks[..n], s) + (if tasks[n].status == s then [tasks[n]] else [])
  }

  /** A task is in the column of its status and in no other. */
  lemma {:induction false} ColumnMembers(tasks: seq<Task>, s: Status)
    ensures forall t :: t in Column(tasks, s) <==> t in tasks && t.status == s
    decreases |tasks|
  {
    if tasks != [] {
      var n := |tasks| - 1;
      ColumnMembers(tasks[..n], s);
      assert tasks == tasks[..n] + [tasks[n]];
    }
  }

  /** A column keeps the board's order: it distributes over concatenation. */
  lemma {:induction false} ColumnAppend(a: seq<Task>, b: seq<Task>, s: Status)
    ensures Column(a + b, s) == Column(a, s) + Column(b, s)
    decreases |b|
  {
    if b == [] {
      assert a + b == a;
    } else {
      var n := |b| - 1;
      assert (a + b)[..|a + b| - 1] == a + b[..n];
      assert (a + b)[|a + b| - 1] == b[n];
      ColumnAppend(a, b[..n], s);
    }
  }

  /** The three columns partition the board: their sizes add up to the number
      of tasks, and together they hold each task as often as the board does. */
  lemma ColumnsPartition(tasks: seq<Task>)
    ensures |Column(tasks, Todo)| + |Column(tasks, InProgress)| + |Column(tasks, Completed)| == |tasks|
    ensures multiset(Column(tasks, Todo)) + multiset(Column(tasks, InProgress)) + multiset(Column(tasks, Completed))
            == multiset(tasks)
  {
    ColumnsCover(tasks);
    assert |multiset(Column(tasks, Todo)) + multiset(Column(tasks, InProgress)) + multiset(Column(tasks, Completed))|
           == |Column(tasks, Todo)| + |Column(tasks, InProgress)| + |Column(tasks, Completed)|;
  }

  lemma {:induction false} ColumnsCover(tasks: seq<Task>)
    ensures multiset(Column(tasks, Todo)) + multiset(Column(tasks, InProgress)) + multiset(Column(tasks, Completed))
            == multiset(tasks)
    decreases |tasks|
  {
    if tasks != [] {
      var n := |tasks| - 1;
      var init := tasks[..n];
      var t := tasks[n];
      ColumnsCover(init);
      assert tasks == init + [t];
      assert multiset(tasks) == multiset(init) + multiset{t};
      PartitionStep(init, t);
    }
  }

  /** Adding one task adds it to exactly one column. */
  lemma PartitionStep(init: seq<Task>, t: Task)
    ensures multiset(Column(init + [t], Todo)) + multiset(Column(init + [t], InProgress)) + multiset(Column(init + [t], Completed))
            == multiset(Column(init, Todo)) + multiset(Column(init, InProgress)) + multiset(Column(init, Completed)) + multiset{t}
  {
    var tasks := init + [t];
    assert tasks[..|tasks| - 1] == init;
  }

  // ---- moves -------------------------------------------------------------------------

  /** The buttons of a card in the column of status `s`, in display order:
      one for every status other than `s`. */
  function MoveTargets(s: Status): (r: seq<Status>)
    ensures |r| == 2
    ensures s !in r
    ensures forall x: Status :: x != s ==> x in r
  {
    (if s != Todo then [Todo] else [])
    + (if s != InProgress then [InProgress] else [])
    + (if s != Completed then [Completed] else [])
  }

  // ---- status update -------------------------------------------------------------------

  /** The store's status update, seen on the task list: every task whose id
      matches takes the new status. */
  function UpdateStatus(tasks: seq<Task>, id: string, s: Status): (r: seq<Task>)
    ensures |r| == |tasks|
    ensures forall k :: 0 <= k < |tasks| ==> r[k].(status := tasks[k].status) == tasks[k]
    ensures forall k :: 0 <= k < |tasks| ==> r[k].status == if tasks[k].id == id then s else tasks[k].status
  {
    seq(|tasks|, k requires 0 <= k < |tasks| => if tasks[k].id == id then tasks[k].(status := s) else tasks[k])
  }

  /** No two tasks share an id. */
  predicate UniqueIds(tasks: seq<Task>)
  {
    forall i, j :: 0 <= i < j < |tasks| ==> tasks[i].id != tasks[j].id
  }

  /** Repeating an update changes nothing more. */
  lemma UpdateIdempotent(tasks: seq<Task>, id: string, s: Status)
    ensures UpdateStatus(UpdateStatus(tasks, id, s), id, s) == UpdateStatus(tasks, id, s)
  {
  }

  /** Moving a task back to the status it had restores the board. */
  lemma UpdateUndo(tasks: seq<Task>, k: nat, s: Status)
    requires k < |tasks| && UniqueIds(tasks)
    ensures UpdateStatus(UpdateStatus(tasks, tasks[k].id, s), tasks[k].id, tasks[k].status) == tasks
  {
    var r := UpdateStatus(UpdateStatus(tasks, tasks[k].id, s), tasks[k].id, tasks[k].status);
    forall j | 0 <= j < |tasks| ensures r[j] == tasks[j] {
      if j != k {
        assert tasks[j].id != tasks[k].id;
      }
    }
  }

  /** Moving the task at `k` to another status takes it out of its column
      and into the target column, and leaves the third column alone. */
  lemma {:induction false} UpdateMovesOne(tasks: seq<Task>, k: nat, s: Status, c: Status)
    requires k < |tasks| && UniqueIds(tasks) && tasks[k].status != s
    ensures c == s ==> |Column(UpdateStatus(tasks, tasks[k].id, s), c)| == |Column(tasks, c)| + 1
    ensures c == tasks[k].status ==> |Column(UpdateStatus(tasks, tasks[k].id, s), c)| == |Column(tasks, c)| - 1
    ensures c != s && c != tasks[k].status ==> Column(UpdateStatus(tasks, tasks[k].id, s), c) == Column(tasks, c)
  {
    var id := tasks[k].id;
    var a := tasks[..k];
    var b := tasks[k + 1..];
    assert tasks == a + [tasks[k]] + b;
    forall j | 0 <= j < |b| ensures b[j].id != id {
      assert b[j] == tasks[k + 1 + j];
    }
    UpdateSplit(a, tasks[k], b, s);
    ColumnSplit(a, tasks[k], b, c);
    ColumnSplit(a, tasks[k].(status := s), b, c);
  }

  /** Updating the one task with a given id, between tasks with other ids. */
  lemma UpdateSplit(a: seq<Task>, x: Task, b: seq<Task>, s: Status)
    requires forall j :: 0 <= j < |a| ==> a[j].id != x.id
    requires forall j :: 0 <= j < |b| ==> b[j].id != x.id
    ensures UpdateStatus(a + [x] + b, x.id, s) == a + [x.(status := s)] + b
  {
  }

  lemma ColumnSplit(a: seq<Task>, x: Task, b: seq<Task>, c: Status)
    ensures Column(a + [x] + b, c) == Column(a, c) + (if x.status == c then [x] else []) + Column(b, c)
  {
    ColumnAppend(a + [x], b, c);
    ColumnAppend(a, [x], c);
    ColumnSingle(x, c);
  }

  lemma ColumnSingle(t: Task, c: Status)
    ensures Column([t], c) == if t.status == c then [t] else []
  {
    assert [t][..0] == [];
  }

  /** An update for an id no task has changes nothing. */
  lemma UpdateOthers(tasks: seq<Task>, id: string, s: Status)
    requires forall j :: 0 <= j < |tasks| ==> tasks[j].id != id
    ensures UpdateStatus(tasks, id, s) == tasks
  {
  }

  /** The board after `updateTaskStatus`: the refetched list shows the update
      when the store accepted it, and otherwise the list is unchanged and the
      error text is shown. */
  function AfterStatusUpdate(tasks: seq<Task>, id: string, s: Status, o: StoreOutcome): (r: (seq<Task>, Option<string>))
    ensures o.Stored? ==> r == (UpdateStatus(tasks, id, s), None)
    ensures !o.Stored? ==> r.0 == tasks && r.1.Some?
  {
    (if o.Stored? then UpdateStatus(tasks, id, s) else tasks, StoreErrorText(o))
  }
}
