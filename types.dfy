/** The records of the productivity board (types.ts): tasks, calendar events,
    and the optional numeric fields that the application reads with
    JavaScript's truthiness rules. */
module Types {

  datatype Option<T> = None | Some(value: T)

  datatype TaskStatus = Todo | InProgress | Done

  /** A task card. Timestamps are milliseconds since the epoch; `elapsedTime`
      holds only the closed timer segments. */
  datatype Task = Task(
    id: string,
    text: string,
    status: TaskStatus,
    createdAt: int,
    startedAt: Option<int>,
    completedAt: Option<int>,
    elapsedTime: int,
    isTimerRunning: bool,
    lastTimerStartTime: Option<int>)

  /** A calendar entry; `date` is the `yyyy-MM-dd` key the calendar writes. */
  datatype CalendarEvent = CalendarEvent(id: string, title: string, date: string, isUrgent: bool)

  function TaskId(t: Task): string { t.id }

  function EventId(e: CalendarEvent): string { e.id }

  /** An optional number is truthy in JavaScript when it is present and not 0. */
  predicate Truthy(o: Option<int>)
  {
    o.Some? && o.value != 0
  }

  /** The JavaScript expression `o || d` on an optional number. */
  function OrElse(o: Option<int>, d: int): int
  {
    if Truthy(o) then o.value else d
  }

  /** The timer invariant of a stored task: the timer runs exactly when a
      segment start is recorded. */
  predicate TimerConsistent(t: Task)
  {
    t.isTimerRunning <==> t.lastTimerStartTime.Some?
  }

  /** A task as the board produces it when the clock reads positive times:
      the timer invariant holds and the recorded start stamps are positive,
      so the truthiness tests of the board never see a present-but-zero stamp. */
  predicate WellFormed(t: Task)
  {
    TimerConsistent(t)
    && (t.lastTimerStartTime.Some? ==> t.lastTimerStartTime.value > 0)
    && (t.startedAt.Some? ==> t.startedAt.value > 0)
  }

  predicate AllWellFormed(ts: seq<Task>)
  {
    forall i :: 0 <= i < |ts| ==> WellFormed(ts[i])
  }
}
