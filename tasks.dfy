/** The task transitions of the board (App.tsx): the pure `prev => …` updates
    that the store hands to `setTasks`, and the three derived columns.
    Wall-clock time is the parameter `now`, read once per operation. */
module Tasks {
  import opened Types
  import opened JsString
  import opened JsArray

  /** The task `addTask` creates from already trimmed text: a TODO task
      stamped with its creation time, with no time on a stopped timer, and
      so well formed. */
  function NewTask(id: string, text: string, now: int): (r: Task)
    ensures r.id == id && r.text == text && r.createdAt == now && r.status == Todo
    ensures r.startedAt.None? && r.completedAt.None?
    ensures r.elapsedTime == 0 && !HasOpenSegment(r)
    ensures WellFormed(r)
  {
    Task(id, text, Todo, now, None, None, 0, false, None)
  }

  /** `addTask`: text that trims to nothing is ignored; otherwise a fresh TODO
      task with the trimmed text goes in front of the list. */
  function AddTask(ts: seq<Task>, text: string, id: string, now: int): (r: seq<Task>)
    ensures Trim(text) == [] ==> r == ts
    ensures Trim(text) != [] ==>
      && |r| == |ts| + 1 && r[1..] == ts
      && r[0].id == id && r[0].text == Trim(text) && r[0].status == Todo
      && r[0].createdAt == now && r[0].startedAt == None && r[0].completedAt == None
      && r[0].elapsedTime == 0 && !r[0].isTimerRunning && r[0].lastTimerStartTime == None
    ensures AllWellFormed(ts) ==> AllWellFormed(r)
  {
    var text' := Trim(text);
    if text' == [] then ts else [NewTask(id, text', now)] + ts
  }

  /** `prev.map(t => t.id === id ? f(t) : t)`. */
  function MapById(ts: seq<Task>, id: string, f: Task -> Task): (r: seq<Task>)
    ensures |r| == |ts|
    ensures forall i :: 0 <= i < |ts| ==> r[i] == if ts[i].id == id then f(ts[i]) else ts[i]
  {
    if ts == [] then [] else [if ts[0].id == id then f(ts[0]) else ts[0]] + MapById(ts[1..], id, f)
  }

  /** `updateTaskText`: the tasks with id `id` get the new text; nothing else
      changes. */
  function UpdateTaskText(ts: seq<Task>, id: string, text: string): (r: seq<Task>)
    ensures |r| == |ts|
    ensures forall i :: 0 <= i < |ts| && ts[i].id != id ==> r[i] == ts[i]
    ensures forall i :: 0 <= i < |ts| && ts[i].id == id ==> r[i] == ts[i].(text := text)
    ensures AllWellFormed(ts) ==> AllWellFormed(r)
  {
    MapById(ts, id, (t: Task) => t.(text := text))
  }

  /** `deleteTask`: exactly the tasks with id `id` are gone. */
  function DeleteTask(ts: seq<Task>, id: string): (r: seq<Task>)
    ensures r == RemoveById(ts, TaskId, id)
    ensures forall i :: 0 <= i < |r| ==> r[i].id != id
    ensures forall x :: x in r <==> x in ts && x.id != id
    ensures AllWellFormed(ts) ==> AllWellFormed(r)
  {
    var r := RemoveById(ts, TaskId, id);
    forall x ensures x in r <==> x in ts && x.id != id {
      RemoveByIdCount(ts, TaskId, id, x);
    }
    r
  }

  /** The `updates: Partial<Task>` record that `moveTask` fills in before it
      spreads it over the task. A field that is `None` was never assigned;
      `clearsTimerStart` records `updates.lastTimerStartTime = undefined`. */
  datatype Patch = Patch(
    status: TaskStatus,
    startedAt: Option<int>,
    completedAt: Option<int>,
    isTimerRunning: Option<bool>,
    elapsedTime: Option<int>,
    clearsTimerStart: bool)

  /** `{ ...t, ...updates }`: every field the patch assigns is taken from
      it, every other field from `t`; a patch that assigns nothing but the
      current status gives `t` back. */
  function Merge(t: Task, p: Patch): (r: Task)
    ensures r.id == t.id && r.text == t.text && r.createdAt == t.createdAt
    ensures r.status == p.status
    ensures p.startedAt.None? ==> r.startedAt == t.startedAt
    ensures p.completedAt.None? ==> r.completedAt == t.completedAt
    ensures p.isTimerRunning.None? ==> r.isTimerRunning == t.isTimerRunning
    ensures p.elapsedTime.None? ==> r.elapsedTime == t.elapsedTime
    ensures !p.clearsTimerStart ==> r.lastTimerStartTime == t.lastTimerStartTime
    ensures p.startedAt.Some? ==> r.startedAt == p.startedAt
    ensures p.completedAt.Some? ==> r.completedAt == p.completedAt
    ensures p.isTimerRunning.Some? ==> r.isTimerRunning == p.isTimerRunning.value
    ensures p.elapsedTime.Some? ==> r.elapsedTime == p.elapsedTime.value
    ensures p.clearsTimerStart ==> r.lastTimerStartTime == None
    ensures p == Patch(t.status, None, None, None, None, false) ==> r == t
  {
    t.(status := p.status,
       startedAt := if p.startedAt.Some? then p.startedAt else t.startedAt,
       completedAt := if p.completedAt.Some? then p.completedAt else t.completedAt,
       isTimerRunning := if p.isTimerRunning.Some? then p.isTimerRunning.value else t.isTimerRunning,
       elapsedTime := if p.elapsedTime.Some? then p.elapsedTime.value else t.elapsedTime,
       lastTimerStartTime := if p.clearsTimerStart then None else t.lastTimerStartTime)
  }

  /** Whether the timer has an open segment that `t.isTimerRunning &&
      t.lastTimerStartTime` accepts. */
  predicate HasOpenSegment(t: Task)
  {
    t.isTimerRunning && Truthy(t.lastTimerStartTime)
  }

  /** The three conditional blocks of `moveTask`, applied in order to the
      `updates` record: entering IN_PROGRESS, entering DONE, leaving
      IN_PROGRESS. */
  function MoveUpdates(t: Task, newStatus: TaskStatus, now: int): (p: Patch)
    ensures p.status == newStatus
    ensures p.startedAt.Some? <==> newStatus == InProgress && t.status != InProgress
    ensures p.startedAt.Some? ==> p.startedAt.value == OrElse(t.startedAt, now)
    ensures p.completedAt.Some? <==> newStatus == Done
    ensures p.completedAt.Some? ==> p.completedAt.value == now
    ensures p.isTimerRunning.Some? <==> StopsTimer(t, newStatus)
    ensures p.isTimerRunning.Some? ==> !p.isTimerRunning.value
    ensures p.elapsedTime.Some? <==> StopsTimer(t, newStatus) && HasOpenSegment(t)
    ensures p.clearsTimerStart <==> p.elapsedTime.Some?
    ensures p.elapsedTime.Some? ==> p.elapsedTime.value == t.elapsedTime + (now - t.lastTimerStartTime.value)
  {
    var u0 := Patch(newStatus, None, None, None, None, false);
    var u1 :=
      if newStatus == InProgress && t.status != InProgress
      then u0.(startedAt := Some(OrElse(t.startedAt, now)))
      else u0;
    var u2 :=
      if newStatus == Done then
        var d := u1.(completedAt := Some(now), isTimerRunning := Some(false));
        if HasOpenSegment(t)
        then d.(elapsedTime := Some(t.elapsedTime + (now - t.lastTimerStartTime.value)), clearsTimerStart := true)
        else d
      else u1;
    var u3 :=
      if t.status == InProgress && newStatus != InProgress then
        var d := u2.(isTimerRunning := Some(false));
        if HasOpenSegment(t)
        then d.(elapsedTime := Some(t.elapsedTime + (now - t.lastTimerStartTime.value)), clearsTimerStart := true)
        else d
      else u2;
    u3
  }

  /** Whether moving to `newStatus` stops the timer: entering DONE, or
      leaving IN_PROGRESS. */
  predicate StopsTimer(t: Task, newStatus: TaskStatus)
  {
    newStatus == Done || (t.status == InProgress && newStatus != InProgress)
  }

  /** `moveTask` on one task. Entering IN_PROGRESS keeps a recorded start
      (first entry wins); entering DONE always stamps `completedAt`; a move
      that stops the timer folds an open segment into `elapsedTime` once,
      even when both the DONE block and the leave-IN_PROGRESS block fire. */
  function Move(t: Task, newStatus: TaskStatus, now: int): (r: Task)
    ensures r.id == t.id && r.text == t.text && r.createdAt == t.createdAt
    ensures r.status == newStatus
    ensures r.startedAt ==
      if newStatus == InProgress && t.status != InProgress then Some(OrElse(t.startedAt, now)) else t.startedAt
    ensures r.completedAt == if newStatus == Done then Some(now) else t.completedAt
    ensures r.isTimerRunning == (t.isTimerRunning && !StopsTimer(t, newStatus))
    ensures r.elapsedTime ==
      if StopsTimer(t, newStatus) && HasOpenSegment(t)
      then t.elapsedTime + (now - t.lastTimerStartTime.value)
      else t.elapsedTime
    ensures r.lastTimerStartTime ==
      if StopsTimer(t, newStatus) && HasOpenSegment(t) then None else t.lastTimerStartTime
  {
    Merge(t, MoveUpdates(t, newStatus, now))
  }

  /** A move keeps a task well formed while the clock reads positive times. */
  lemma MovePreservesWellFormed(t: Task, newStatus: TaskStatus, now: int)
    requires WellFormed(t) && now > 0
    ensures WellFormed(Move(t, newStatus, now))
  {
  }

  /** `moveTask`: the tasks with id `id` are moved, the others are untouched. */
  function MoveTask(ts: seq<Task>, id: string, newStatus: TaskStatus, now: int): (r: seq<Task>)
    ensures |r| == |ts|
    ensures forall i :: 0 <= i < |ts| && ts[i].id != id ==> r[i] == ts[i]
    ensures forall i :: 0 <= i < |ts| && ts[i].id == id ==> r[i] == Move(ts[i], newStatus, now)
    ensures AllWellFormed(ts) && now > 0 ==> AllWellFormed(r)
  {
    MapById(ts, id, (t: Task) => Move(t, newStatus, now))
  }

  /** How many times `moveTask` calls `confetti`: once for each task with id
      `id` that enters DONE from another status; there is a celebration
      exactly when some such task exists. */
  function Celebrations(ts: seq<Task>, id: string, newStatus: TaskStatus): (n: nat)
    ensures n <= |ts|
    ensures newStatus != Done ==> n == 0
    ensures n > 0 <==> newStatus == Done && exists i :: 0 <= i < |ts| && ts[i].id == id && ts[i].status != Done
  {
    if ts == [] then 0
    else
      var rest := Celebrations(ts[1..], id, newStatus);
      assert forall i :: 0 < i < |ts| ==> ts[i] == ts[1..][i - 1];
      (if newStatus == Done && ts[0].id == id && ts[0].status != Done then 1 else 0) + rest
  }

  /** `toggleTimer` on one task: a running timer is paused, the segment since
      its start (or nothing, when no start is recorded) folded into
      `elapsedTime`; a stopped timer starts a segment at `now`. */
  function Toggle(t: Task, now: int): (r: Task)
    ensures r.id == t.id && r.text == t.text && r.status == t.status && r.createdAt == t.createdAt
    ensures r.startedAt == t.startedAt && r.completedAt == t.completedAt
    ensures r.isTimerRunning == !t.isTimerRunning
    ensures !t.isTimerRunning ==> r.lastTimerStartTime == Some(now) && r.elapsedTime == t.elapsedTime
    ensures t.isTimerRunning ==> r.lastTimerStartTime == None
    ensures HasOpenSegment(t) ==> r.elapsedTime == t.elapsedTime + (now - t.lastTimerStartTime.value)
    ensures t.isTimerRunning && !Truthy(t.lastTimerStartTime) ==> r.elapsedTime == t.elapsedTime
    ensures WellFormed(t) && now > 0 ==> WellFormed(r)
  {
    if t.isTimerRunning then
      t.(isTimerRunning := false,
         elapsedTime := t.elapsedTime + (now - OrElse(t.lastTimerStartTime, now)),
         lastTimerStartTime := None)
    else
      t.(isTimerRunning := true, lastTimerStartTime := Some(now))
  }

  /** Starting at `t1` and pausing at `t2` adds exactly `t2 - t1` and leaves
      the task otherwise as it was. */
  lemma ToggleTwice(t: Task, t1: int, t2: int)
    requires WellFormed(t) && !t.isTimerRunning && t1 > 0
    ensures Toggle(Toggle(t, t1), t2) == t.(elapsedTime := t.elapsedTime + (t2 - t1))
  {
    var s := Toggle(t, t1);
    assert HasOpenSegment(s);
  }

  /** `toggleTimer`: the tasks with id `id` toggle, the others are untouched. */
  function ToggleTimer(ts: seq<Task>, id: string, now: int): (r: seq<Task>)
    ensures |r| == |ts|
    ensures forall i :: 0 <= i < |ts| && ts[i].id != id ==> r[i] == ts[i]
    ensures forall i :: 0 <= i < |ts| && ts[i].id == id ==> r[i] == Toggle(ts[i], now)
    ensures AllWellFormed(ts) && now > 0 ==> AllWellFormed(r)
  {
    MapById(ts, id, (t: Task) => Toggle(t, now))
  }

  /** `resetTimer` on one task: no time, no running segment; every other
      field as it was. The result is well formed whatever the task was. */
  function Reset(t: Task): (r: Task)
    ensures r.elapsedTime == 0 && !r.isTimerRunning && r.lastTimerStartTime == None
    ensures r.(elapsedTime := t.elapsedTime, isTimerRunning := t.isTimerRunning,
               lastTimerStartTime := t.lastTimerStartTime) == t
    ensures (t.startedAt.Some? ==> t.startedAt.value > 0) ==> WellFormed(r)
  {
    t.(elapsedTime := 0, isTimerRunning := false, lastTimerStartTime := None)
  }

  /** `resetTimer`: the tasks with id `id` are reset, the others untouched. */
  function ResetTimer(ts: seq<Task>, id: string): (r: seq<Task>)
    ensures |r| == |ts|
    ensures forall i :: 0 <= i < |ts| && ts[i].id != id ==> r[i] == ts[i]
    ensures forall i :: 0 <= i < |ts| && ts[i].id == id ==> r[i] == Reset(ts[i])
    ensures AllWellFormed(ts) ==> AllWellFormed(r)
  {
    MapById(ts, id, Reset)
  }

  /** An id that is not on the board makes every update by id a no-op. */
  lemma UnknownIdIsNoOp(ts: seq<Task>, id: string, text: string, newStatus: TaskStatus, now: int)
    requires forall i :: 0 <= i < |ts| ==> ts[i].id != id
    ensures UpdateTaskText(ts, id, text) == ts && DeleteTask(ts, id) == ts
    ensures MoveTask(ts, id, newStatus, now) == ts && ToggleTimer(ts, id, now) == ts
    ensures ResetTimer(ts, id) == ts
  {
  }

  /** The start stamp is set on the first entry into IN_PROGRESS and kept:
      TODO, IN_PROGRESS, DONE and IN_PROGRESS again end with the first
      stamp, and DONE stamps the completion each time. */
  lemma {:induction false} FirstStartWins(t: Task, t1: int, t2: int, t3: int)
    requires WellFormed(t) && t.status == Todo && t.startedAt == None && t1 > 0
    ensures var a := Move(t, InProgress, t1);
      var b := Move(a, Done, t2);
      var c := Move(b, InProgress, t3);
      && a.startedAt == Some(t1) && b.startedAt == Some(t1) && c.startedAt == Some(t1)
      && b.completedAt == Some(t2) && Move(b, Done, t3).completedAt == Some(t3)
  {
  }

  /** A task's life as the board's users see it: created at `t0`, started at
      `t1`, timed from `t2` for five seconds, finished at `t3`. It ends DONE
      with five seconds on the clock, the timer stopped and both stamps set. */
  lemma Lifecycle(id: string, t0: int, t1: int, t2: int, t3: int)
    requires 0 < t0 <= t1 <= t2 && t2 + 5000 <= t3
    ensures var a := AddTask([], "Write spec", id, t0);
      && |a| == 1 && a[0].status == Todo && a[0].elapsedTime == 0
      && var b := Move(a[0], InProgress, t1);
      && b.startedAt == Some(t1) && b.elapsedTime == 0
      && var c := Toggle(b, t2);
      && c.isTimerRunning
      && var d := Toggle(c, t2 + 5000);
      && d.elapsedTime == 5000 && !d.isTimerRunning
      && var e := Move(d, Done, t3);
      && e.status == Done && e.completedAt == Some(t3) && e.startedAt == Some(t1)
      && e.elapsedTime == 5000 && !e.isTimerRunning && WellFormed(e)
  {
    var text := "Write spec";
    assert !IsWhiteSpace(text[0]) && !IsWhiteSpace(text[|text| - 1]);
    TrimOfTrimmed(text);
    var a := AddTask([], text, id, t0);
    assert a == [NewTask(id, text, t0)];
    ToggleTwice(Move(a[0], InProgress, t1), t2, t2 + 5000);
  }

  /** `tasks.filter(t => t.status === status)`. */
  function WithStatus(ts: seq<Task>, status: TaskStatus): (r: seq<Task>)
    ensures |r| <= |ts|
    ensures forall i :: 0 <= i < |r| ==> r[i].status == status
  {
    if ts == [] then []
    else (if ts[0].status == status then [ts[0]] else []) + WithStatus(ts[1..], status)
  }

  /** When every task has the status the filter keeps the whole list; when
      none has it, the filter keeps nothing. */
  lemma {:induction false} WithStatusAllOrNone(ts: seq<Task>, status: TaskStatus)
    ensures (forall i :: 0 <= i < |ts| ==> ts[i].status == status) ==> WithStatus(ts, status) == ts
    ensures (forall i :: 0 <= i < |ts| ==> ts[i].status != status) ==> WithStatus(ts, status) == []
  {
    if ts != [] {
      WithStatusAllOrNone(ts[1..], status);
      assert forall i :: 1 <= i < |ts| ==> ts[1..][i - 1] == ts[i];
    }
  }

  /** The status filter keeps exactly the tasks of that status, each with its
      multiplicity. */
  lemma {:induction false} WithStatusCount(ts: seq<Task>, status: TaskStatus, x: Task)
    ensures multiset(WithStatus(ts, status))[x] == if x.status == status then multiset(ts)[x] else 0
  {
    if ts != [] {
      assert ts == [ts[0]] + ts[1..];
      WithStatusCount(ts[1..], status, x);
    }
  }

  /** The status filter keeps the tasks in their relative order. */
  lemma {:induction false} WithStatusConcat(a: seq<Task>, b: seq<Task>, status: TaskStatus)
    ensures WithStatus(a + b, status) == WithStatus(a, status) + WithStatus(b, status)
  {
    if a != [] {
      var head := if a[0].status == status then [a[0]] else [];
      assert (a + b)[0] == a[0] && (a + b)[1..] == a[1..] + b;
      assert WithStatus(a + b, status) == head + WithStatus(a[1..] + b, status);
      assert WithStatus(a, status) == head + WithStatus(a[1..], status);
      WithStatusConcat(a[1..], b, status);
      assert head + (WithStatus(a[1..], status) + WithStatus(b, status))
          == (head + WithStatus(a[1..], status)) + WithStatus(b, status);
    } else {
      assert a + b == b;
    }
  }

  function CreatedKey(t: Task): int { t.createdAt }

  /** `(t.startedAt || 0)`. */
  function StartedKey(t: Task): int { OrElse(t.startedAt, 0) }

  /** `(t.completedAt || 0)`. */
  function CompletedKey(t: Task): int { OrElse(t.completedAt, 0) }

  /** A board column: the tasks of one status, newest first by `key`, ties
      in board order. */
  function Column(ts: seq<Task>, status: TaskStatus, key: Task -> int): (r: seq<Task>)
    ensures forall i :: 0 <= i < |r| ==> r[i].status == status
    ensures forall x :: multiset(r)[x] == if x.status == status then multiset(ts)[x] else 0
    ensures SortedDesc(r, key)
    ensures forall k :: WithKey(r, key, k) == WithKey(WithStatus(ts, status), key, k)
  {
    var f := WithStatus(ts, status);
    var r := SortDesc(f, key);
    forall x ensures multiset(r)[x] == if x.status == status then multiset(ts)[x] else 0 {
      WithStatusCount(ts, status, x);
    }
    forall i | 0 <= i < |r| ensures r[i].status == status {
      assert r[i] in multiset(f);
    }
    forall k ensures WithKey(r, key, k) == WithKey(f, key, k) {
      SortDescStable(f, key, k);
    }
    r
  }

  /** `todoTasks`: TODO tasks, most recently created first. */
  function TodoColumn(ts: seq<Task>): (r: seq<Task>)
    ensures forall i :: 0 <= i < |r| ==> r[i].status == Todo
    ensures forall x :: multiset(r)[x] == if x.status == Todo then multiset(ts)[x] else 0
    ensures forall i :: 0 < i < |r| ==> r[i - 1].createdAt >= r[i].createdAt
    ensures forall k :: WithKey(r, CreatedKey, k) == WithKey(WithStatus(ts, Todo), CreatedKey, k)
  {
    Column(ts, Todo, CreatedKey)
  }

  /** `inProgressTasks`: IN_PROGRESS tasks, most recently started first; a
      task without a start stamp counts as started at 0. */
  function InProgressColumn(ts: seq<Task>): (r: seq<Task>)
    ensures forall i :: 0 <= i < |r| ==> r[i].status == InProgress
    ensures forall x :: multiset(r)[x] == if x.status == InProgress then multiset(ts)[x] else 0
    ensures forall i :: 0 < i < |r| ==> OrElse(r[i - 1].startedAt, 0) >= OrElse(r[i].startedAt, 0)
    ensures forall k :: WithKey(r, StartedKey, k) == WithKey(WithStatus(ts, InProgress), StartedKey, k)
  {
    Column(ts, InProgress, StartedKey)
  }

  /** `doneTasks`: DONE tasks, most recently completed first; a task
      without a completion stamp counts as completed at 0. */
  function DoneColumn(ts: seq<Task>): (r: seq<Task>)
    ensures forall i :: 0 <= i < |r| ==> r[i].status == Done
    ensures forall x :: multiset(r)[x] == if x.status == Done then multiset(ts)[x] else 0
    ensures forall i :: 0 < i < |r| ==> OrElse(r[i - 1].completedAt, 0) >= OrElse(r[i].completedAt, 0)
    ensures forall k :: WithKey(r, CompletedKey, k) == WithKey(WithStatus(ts, Done), CompletedKey, k)
  {
    Column(ts, Done, CompletedKey)
  }

  /** Every task sits in exactly one column, as many times as it is on the
      board. */
  lemma ColumnsPartition(ts: seq<Task>, x: Task)
    ensures multiset(TodoColumn(ts))[x] + multiset(InProgressColumn(ts))[x] + multiset(DoneColumn(ts))[x]
            == multiset(ts)[x]
  {
  }
}
