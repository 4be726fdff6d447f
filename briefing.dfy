/** The morning briefing (components/MorningBriefing.tsx): a greeting by the
    hour of the day, and at most one calendar event to show. Whether a date
    is today or tomorrow comes from the wall clock and a date library, so the
    two tests are parameters here. */
module Briefing {
  import opened Types

  /** `getGreeting` for the local hour `new Date().getHours()`. */
  function Greeting(hour: int): (g: string)
    ensures hour < 12 <==> g == "Good Morning"
    ensures 12 <= hour < 18 <==> g == "Good Afternoon"
    ensures hour >= 18 <==> g == "Good Evening"
  {
    if hour < 12 then "Good Morning"
    else if hour < 18 then "Good Afternoon"
    else "Good Evening"
  }

  /** An event dated today or tomorrow. */
  predicate Near(e: CalendarEvent, isToday: string -> bool, isTomorrow: string -> bool)
  {
    isToday(e.date) || isTomorrow(e.date)
  }

  /** The test of one of the two `events.find` calls: near, and urgent when
      `urgentOnly`. */
  predicate Wanted(e: CalendarEvent, isToday: string -> bool, isTomorrow: string -> bool, urgentOnly: bool)
  {
    Near(e, isToday, isTomorrow) && (!urgentOnly || e.isUrgent)
  }

  /** `events.find(...)`, as the position of the first wanted event. */
  function FindWanted(events: seq<CalendarEvent>, isToday: string -> bool, isTomorrow: string -> bool,
                      urgentOnly: bool): (r: Option<nat>)
    ensures r.Some? ==> r.value < |events| && Wanted(events[r.value], isToday, isTomorrow, urgentOnly)
    ensures r.Some? ==> forall j :: 0 <= j < r.value ==> !Wanted(events[j], isToday, isTomorrow, urgentOnly)
    ensures r.None? <==> forall j :: 0 <= j < |events| ==> !Wanted(events[j], isToday, isTomorrow, urgentOnly)
  {
    if events == [] then None
    else if Wanted(events[0], isToday, isTomorrow, urgentOnly) then Some(0)
    else
      match FindWanted(events[1..], isToday, isTomorrow, urgentOnly)
      case None => None
      case Some(i) => Some(i + 1)
  }

  /** `urgentEvent || upcomingEvent`, as a position in `events`: the first
      near urgent event if there is one, else the first near event, else
      nothing. */
  function DisplayIndex(events: seq<CalendarEvent>, isToday: string -> bool, isTomorrow: string -> bool): (r: Option<nat>)
    ensures r.Some? ==> r.value < |events| && Near(events[r.value], isToday, isTomorrow)
    ensures r.None? <==> forall j :: 0 <= j < |events| ==> !Near(events[j], isToday, isTomorrow)
    ensures r.Some? ==>
      (events[r.value].isUrgent <==> exists j :: 0 <= j < |events| && Wanted(events[j], isToday, isTomorrow, true))
    ensures r.Some? && events[r.value].isUrgent ==>
      forall j :: 0 <= j < r.value ==> !Wanted(events[j], isToday, isTomorrow, true)
    ensures r.Some? && !events[r.value].isUrgent ==>
      forall j :: 0 <= j < r.value ==> !Near(events[j], isToday, isTomorrow)
  {
    var urgent := FindWanted(events, isToday, isTomorrow, true);
    if urgent.Some? then urgent
    else
      var upcoming := FindWanted(events, isToday, isTomorrow, false);
      if upcoming.Some? then
        assert !Wanted(events[upcoming.value], isToday, isTomorrow, true);
        upcoming
      else
        assert forall j :: 0 <= j < |events| ==> !Wanted(events[j], isToday, isTomorrow, false);
        upcoming
  }

  /** `displayEvent`: the event the briefing shows, if any. */
  function DisplayEvent(events: seq<CalendarEvent>, isToday: string -> bool, isTomorrow: string -> bool): (r: Option<CalendarEvent>)
    ensures r.Some? ==> r.value in events && Near(r.value, isToday, isTomorrow)
    ensures r.None? <==> forall j :: 0 <= j < |events| ==> !Near(events[j], isToday, isTomorrow)
  {
    match DisplayIndex(events, isToday, isTomorrow)
    case None => None
    case Some(i) => Some(events[i])
  }

  /** The caption over the shown event: "Happening Today" for an event
      dated today, "Reminder for Tomorrow" for any other. */
  function Caption(e: CalendarEvent, isToday: string -> bool): (r: string)
    ensures r == "Happening Today" <==> isToday(e.date)
    ensures r == "Reminder for Tomorrow" <==> !isToday(e.date)
  {
    if isToday(e.date) then "Happening Today" else "Reminder for Tomorrow"
  }

  /** The caption of the shown event is right: "Happening Today" when it is
      dated today, and "Reminder for Tomorrow" only when it is dated
      tomorrow. */
  lemma CaptionIsRight(events: seq<CalendarEvent>, isToday: string -> bool, isTomorrow: string -> bool)
    requires DisplayEvent(events, isToday, isTomorrow).Some?
    ensures var e := DisplayEvent(events, isToday, isTomorrow).value;
      && (Caption(e, isToday) == "Happening Today" <==> isToday(e.date))
      && (Caption(e, isToday) == "Reminder for Tomorrow" ==> isTomorrow(e.date))
  {
  }

  /** An urgent event today wins over a non-urgent one listed before it. */
  lemma UrgentWins(a: CalendarEvent, b: CalendarEvent, isToday: string -> bool, isTomorrow: string -> bool)
    requires isToday(a.date) && !a.isUrgent && isToday(b.date) && b.isUrgent
    ensures DisplayEvent([a, b], isToday, isTomorrow) == Some(b)
  {
    assert [a, b][1..] == [b];
    assert FindWanted([b], isToday, isTomorrow, true) == Some(0);
    assert FindWanted([a, b], isToday, isTomorrow, true) == Some(1);
  }
}
