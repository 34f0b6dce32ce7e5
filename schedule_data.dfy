/**
  The schedule records shared by the client's schedule page
  (client/src/pages/SchedulePage.tsx) and the schedule seeder
  (server/seedScheduleData.ts): forum slots holding sessions, and events,
  each kept per day in a record keyed by day name. The record is an
  association list in the order `Object.entries` walks it.
 */
module ScheduleData {
  import opened Wrappers

  /** One session of a forum slot; `speaker` is optional. */
  datatype ForumItem = ForumItem(id: string, room: string, title: string, speaker: Option<string>)

  /** A forum time slot and the sessions that run in it. */
  datatype ForumSlot = ForumSlot(time: string, sessions: seq<ForumItem>)

  /** One event of the day; `note` is optional. */
  datatype EventItem = EventItem(id: string, time: string, title: string, location: string, note: Option<string>)

  /** A record keyed by day name, as the pairs `Object.entries` yields. */
  type Days<T> = seq<(string, seq<T>)>

  /** The day names of a record are distinct, as the keys of an object are. */
  predicate DistinctDays<T>(data: Days<T>) {
    forall i, j :: 0 <= i < j < |data| ==> data[i].0 != data[j].0
  }

  /**
    `data[day] || []`: the entries stored under `day`, or none when the
    record has no such key.
   */
  function DayList<T>(data: Days<T>, day: string): (r: seq<T>)
    ensures (forall i :: 0 <= i < |data| ==> data[i].0 != day) ==> r == []
    ensures forall i :: 0 <= i < |data| && data[i].0 == day && DistinctDays(data) ==> r == data[i].1
  {
    if data == [] then []
    else if data[0].0 == day then data[0].1
    else
      assert forall i :: 1 <= i < |data| ==> data[1..][i - 1] == data[i];
      DayList(data[1..], day)
  }

  /** A few entries of the source's literal forum table. */
  const SampleForums: Days<ForumSlot> := [
    ("friday", [ForumSlot("09:00 am - 05:00 pm", [ForumItem("fri-f1", "Salon E", "Antenna Seminar", Some(""))])])
  ]

  /** A few entries of the source's literal event table. */
  const SampleEvents: Days<EventItem> := [
    ("friday", [
      EventItem("fri-e1", "7:00 am - 5:00 pm", "Registration/Will Call Open", "Mt. Diablo/Lobby", None),
      EventItem("fri-e4", "12:00 pm Fri - 12:00 pm Sun", "Special Event Station W1AW/6", "Bishop Ranch Patio",
                Some("Hosted by PAARA"))]),
    ("sunday", [
      EventItem("sun-e13", "After ARRL Forum", "Final Prize Drawings & Grand Prize Drawing", "Salon E", None)])
  ]
}
