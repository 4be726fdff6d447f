/** The board's store (App.tsx): the `tasks` and `events` state that every
    handler replaces wholesale through `setTasks` / `setEvents`. Each method
    applies the corresponding pure update from module Tasks. The clock
    reading and the fresh id of `crypto.randomUUID()` are parameters. */
module Store {
  import opened Types
  import opened JsString
  import opened JsArray
  import opened Tasks

  /** A stored task text, as the add form and the edit form leave it:
      trimmed and not empty. */
  predicate CleanText(s: string)
  {
    s != [] && Trim(s) == s
  }

  class Board {
    var tasks: seq<Task>
    var events: seq<CalendarEvent>

    /** The board invariant: every task keeps the timer invariant and has a
        clean text. */
    ghost predicate Valid()
      reads this
    {
      AllWellFormed(tasks) && forall i :: 0 <= i < |tasks| ==> CleanText(tasks[i].text)
    }

    /** The state before anything is loaded: both lists empty. */
    constructor ()
      ensures tasks == [] && events == [] && Valid()
    {
      tasks := [];
      events := [];
    }

    /** `addEvent`: the event goes at the end, as given. */
    method AddEvent(e: CalendarEvent)
      modifies this
      ensures events == old(events) + [e] && tasks == old(tasks)
      ensures old(Valid()) ==> Valid()
    {
      events := events + [e];
    }

    /** `deleteEvent`: the events with id `id` are dropped, the others stay
        in order. */
    method DeleteEvent(id: string)
      modifies this
      ensures events == RemoveById(old(events), EventId, id) && tasks == old(tasks)
      ensures forall e :: e in events <==> e in old(events) && e.id != id
      ensures old(Valid()) ==> Valid()
    {
      events := RemoveById(events, EventId, id);
      forall e ensures e in events <==> e in old(events) && e.id != id {
        RemoveByIdCount(old(events), EventId, id, e);
      }
    }

    /** `addTask`: text that trims to nothing changes nothing; otherwise the
        new TODO task with the trimmed text is put first. */
    method AddTask(text: string, id: string, now: int) returns (added: bool)
      modifies this
      ensures added <==> Trim(text) != []
      ensures tasks == Tasks.AddTask(old(tasks), text, id, now) && events == old(events)
      ensures added ==> tasks == [NewTask(id, Trim(text), now)] + old(tasks)
      ensures !added ==> tasks == old(tasks)
      ensures old(Valid()) ==> Valid()
    {
      added := Trim(text) != [];
      tasks := Tasks.AddTask(tasks, text, id, now);
      if added {
        assert tasks == [NewTask(id, Trim(text), now)] + old(tasks);
        if old(Valid()) {
          TrimIdempotent(text);
          assert CleanText(tasks[0].text);
          forall i | 1 <= i < |tasks| ensures CleanText(tasks[i].text) {
            assert tasks[i] == old(tasks)[i - 1];
          }
        }
      }
    }

    /** `updateTaskText`: the tasks with id `id` get `text`; the edit form
        only passes clean text, which keeps the invariant. */
    method UpdateTaskText(id: string, text: string)
      modifies this
      ensures tasks == Tasks.UpdateTaskText(old(tasks), id, text) && events == old(events)
      ensures old(Valid()) && CleanText(text) ==> Valid()
    {
      tasks := Tasks.UpdateTaskText(tasks, id, text);
    }

    /** `deleteTask`: the tasks with id `id` are dropped, the others stay in
        order. */
    method DeleteTask(id: string)
      modifies this
      ensures tasks == RemoveById(old(tasks), TaskId, id) && events == old(events)
      ensures forall t :: t in tasks <==> t in old(tasks) && t.id != id
      ensures old(Valid()) ==> Valid()
    {
      tasks := Tasks.DeleteTask(tasks, id);
    }

    /** `moveTask`, reading the clock once; `confetti` is the number of
        celebrations it fires. */
    method MoveTask(id: string, newStatus: TaskStatus, now: int) returns (confetti: nat)
      modifies this
      ensures tasks == Tasks.MoveTask(old(tasks), id, newStatus, now) && events == old(events)
      ensures confetti == Celebrations(old(tasks), id, newStatus)
      ensures confetti > 0 <==>
        newStatus == Done && exists i :: 0 <= i < |old(tasks)| && old(tasks)[i].id == id && old(tasks)[i].status != Done
      ensures old(Valid()) && now > 0 ==> Valid()
    {
      confetti := Celebrations(tasks, id, newStatus);
      tasks := Tasks.MoveTask(tasks, id, newStatus, now);
    }

    /** `toggleTimer`. */
    method ToggleTimer(id: string, now: int)
      modifies this
      ensures tasks == Tasks.ToggleTimer(old(tasks), id, now) && events == old(events)
      ensures old(Valid()) && now > 0 ==> Valid()
    {
      tasks := Tasks.ToggleTimer(tasks, id, now);
    }

    /** `resetTimer`. */
    method ResetTimer(id: string)
      modifies this
      ensures tasks == Tasks.ResetTimer(old(tasks), id) && events == old(events)
      ensures old(Valid()) ==> Valid()
    {
      tasks := Tasks.ResetTimer(tasks, id);
    }
  }
}
