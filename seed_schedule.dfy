/**
  `seedScheduleData` (server/seedScheduleData.ts): flattens the per-day forum
  and event tables into session rows of the Pacificon conference and inserts
  them in one statement, unless that conference already has forum or event
  rows. Unlike the storage accessors it has no retry loop and no catch block.
 */
module SeedSchedule {
  import opened Wrappers
  import opened Text
  import opened Schema
  import opened ScheduleData
  import opened DatabaseSeed
  import opened Storage

  /** The start and end of a time slot, as `parseTimeRange` returns them. */
  datatype TimeRange = TimeRange(startTime: string, endTime: string)

  /** The separator between the start and the end of a time range. */
  const RangeSeparator: string := " - "

  /**
    `parseTimeRange`: split on " - "; exactly two pieces give the trimmed
    start and end, anything else gives the whole trimmed text and no end.
   */
  function ParseTimeRange(time: string): (r: TimeRange)
    ensures Trim(r.startTime) == r.startTime && Trim(r.endTime) == r.endTime
    ensures |Split(time, RangeSeparator)| != 2 ==> r == TimeRange(Trim(time), "")
  {
    var parts := Split(time, RangeSeparator);
    if |parts| == 2 then
      TrimIdempotent(parts[0]);
      TrimIdempotent(parts[1]);
      TimeRange(Trim(parts[0]), Trim(parts[1]))
    else
      TrimIdempotent(time);
      TimeRange(Trim(time), "")
  }

  /** A range with one separator, and no partial separator running into it, parses into its two trimmed sides. */
  lemma ParseOneSeparator(start: string, end: string)
    requires !Contains(start + " -", RangeSeparator) && !Contains(end, RangeSeparator)
    ensures ParseTimeRange(start + RangeSeparator + end) == TimeRange(Trim(start), Trim(end))
  {
    assert RangeSeparator[..|RangeSeparator| - 1] == " -";
    SplitOnce(start, end, RangeSeparator);
  }

  /** Text without the separator is a start time alone. */
  lemma ParseNoSeparator(time: string)
    requires !Contains(time, RangeSeparator)
    ensures ParseTimeRange(time) == TimeRange(Trim(time), "")
  {
    SplitWithout(time, RangeSeparator);
  }

  /** Text with two separators that do not overlap is a start time alone, the whole text trimmed. */
  lemma ParseTwoSeparators(time: string, i: int, j: int)
    requires OccursAt(time, RangeSeparator, i) && OccursAt(time, RangeSeparator, j) && i + |RangeSeparator| <= j
    ensures ParseTimeRange(time) == TimeRange(Trim(time), "")
  {
    SplitTwoSeparators(time, RangeSeparator, i, j);
  }

  /** Text without a dash cannot hold the separator. */
  lemma DashFree(time: string)
    requires '-' !in time
    ensures !Contains(time, RangeSeparator)
  {
    forall i ensures !OccursAt(time, RangeSeparator, i) {
      if 0 <= i && i + |RangeSeparator| <= |time| {
        assert time[i..i + |RangeSeparator|][1] == time[i + 1];
        assert time[i + 1] in time;
        assert RangeSeparator[1] == '-';
      }
    }
  }

  /** Two dash-free times around the separator parse into the two times, trimmed. */
  lemma ParseDashFree(start: string, end: string)
    requires '-' !in start && '-' !in end
    ensures ParseTimeRange(start + RangeSeparator + end) == TimeRange(Trim(start), Trim(end))
  {
    var front := start + " -";
    forall i ensures !OccursAt(front, RangeSeparator, i) {
      if 0 <= i && i + |RangeSeparator| <= |front| {
        assert front[i..i + |RangeSeparator|][1] == front[i + 1];
        if i + 1 < |start| {
          assert front[i + 1] == start[i + 1];
          assert start[i + 1] in start;
        } else {
          assert front[i + 1] == ' ';
        }
      }
    }
    DashFree(end);
    ParseOneSeparator(start, end);
  }

  /** `start` and `end` have no dash and no white space at their ends. */
  predicate PlainSides(start: string, end: string) {
    '-' !in start && '-' !in end && Trim(start) == start && Trim(end) == end
  }

  /** The sides of the sample forum slot. */
  lemma ForumSlotSides()
    ensures PlainSides("09:00 am", "05:00 pm")
  {
    TrimNoEdges("09:00 am");
    TrimNoEdges("05:00 pm");
  }

  /** A sample forum slot. */
  lemma ParseForumSlotTime(time: string)
    requires time == "09:00 am - 05:00 pm"
    ensures ParseTimeRange(time) == TimeRange("09:00 am", "05:00 pm")
  {
    ForumSlotSides();
    assert time == "09:00 am" + RangeSeparator + "05:00 pm";
    ParseDashFree("09:00 am", "05:00 pm");
  }

  /** The sides of the sample event that spans several days. */
  lemma MultiDaySides()
    ensures PlainSides("12:00 pm Fri", "12:00 pm Sun")
  {
    TrimNoEdges("12:00 pm Fri");
    TrimNoEdges("12:00 pm Sun");
  }

  /** A sample event that spans several days. */
  lemma ParseMultiDayTime(time: string)
    requires time == "12:00 pm Fri" + " - " + "12:00 pm Sun"
    ensures ParseTimeRange(time) == TimeRange("12:00 pm Fri", "12:00 pm Sun")
  {
    MultiDaySides();
    ParseDashFree("12:00 pm Fri", "12:00 pm Sun");
  }

  /** The sample event time given relative to another event has no dash and no white space at its ends. */
  lemma RelativeTimePlain()
    ensures '-' !in "After ARRL Forum" && Trim("After ARRL Forum") == "After ARRL Forum"
  {
    TrimNoEdges("After ARRL Forum");
  }

  /** A sample event whose time is given relative to another event: it becomes the start time. */
  lemma ParseRelativeTime(time: string)
    requires time == "After ARRL Forum"
    ensures ParseTimeRange(time) == TimeRange(time, "")
  {
    RelativeTimePlain();
    DashFree(time);
    ParseNoSeparator(time);
  }

  /** The row pushed for one forum session of a slot. */
  function ForumRow(cid: string, day: string, range: TimeRange, item: ForumItem): (r: Session)
    ensures r.conferenceId == cid && r.day == day && r.category == "forum"
    ensures r.speakerBio.None? && r.abstractText.None?
    ensures item.speaker.None? ==> r.speaker == ""
  {
    Session(cid, item.title, item.speaker.GetOr(""), None, None, day, range.startTime, range.endTime, item.room, "forum")
  }

  /** `note || undefined`: a missing or empty note leaves the abstract unset. */
  function NoteOrNothing(note: Option<string>): (r: Option<string>)
    ensures r.Some? <==> note.Some? && note.value != ""
    ensures r.Some? ==> r == note
  {
    if note.Some? && note.value != "" then note else None
  }

  /** The row pushed for one event. */
  function EventRow(cid: string, day: string, event: EventItem): (r: Session)
    ensures r.conferenceId == cid && r.day == day && r.category == "event"
    ensures r.speaker == "" && r.speakerBio.None?
    ensures r.abstractText.Some? ==> r.abstractText.value != ""
  {
    var range := ParseTimeRange(event.time);
    Session(cid, event.title, "", None, NoteOrNothing(event.note), day, range.startTime, range.endTime,
            event.location, "event")
  }

  /** The rows of the sessions of one slot, in order. */
  function SlotRows(cid: string, day: string, range: TimeRange, items: seq<ForumItem>): (r: seq<Session>)
    ensures |r| == |items|
    ensures forall i :: 0 <= i < |items| ==> r[i] == ForumRow(cid, day, range, items[i])
  {
    if items == [] then []
    else SlotRows(cid, day, range, items[..|items| - 1]) + [ForumRow(cid, day, range, items[|items| - 1])]
  }

  /** How many sessions the slots hold. */
  function SlotCount(slots: seq<ForumSlot>): nat {
    if slots == [] then 0 else SlotCount(slots[..|slots| - 1]) + |slots[|slots| - 1].sessions|
  }

  /** The rows of one day's forum slots, slot by slot. */
  function DayForumRows(cid: string, day: string, slots: seq<ForumSlot>): (r: seq<Session>)
    ensures |r| == SlotCount(slots)
  {
    if slots == [] then []
    else
      var last := slots[|slots| - 1];
      DayForumRows(cid, day, slots[..|slots| - 1]) + SlotRows(cid, day, ParseTimeRange(last.time), last.sessions)
  }

  /** How many forum sessions the table holds over all days and slots. */
  function ForumCount(forums: Days<ForumSlot>): nat {
    if forums == [] then 0 else ForumCount(forums[..|forums| - 1]) + SlotCount(forums[|forums| - 1].1)
  }

  /** The rows of the whole forum table, day by day. */
  function ForumRows(cid: string, forums: Days<ForumSlot>): (r: seq<Session>)
    ensures |r| == ForumCount(forums)
  {
    if forums == [] then []
    else
      var last := forums[|forums| - 1];
      ForumRows(cid, forums[..|forums| - 1]) + DayForumRows(cid, last.0, last.1)
  }

  /** The rows of one day's events, in order. */
  function DayEventRows(cid: string, day: string, events: seq<EventItem>): (r: seq<Session>)
    ensures |r| == |events|
    ensures forall i :: 0 <= i < |events| ==> r[i] == EventRow(cid, day, events[i])
  {
    if events == [] then []
    else DayEventRows(cid, day, events[..|events| - 1]) + [EventRow(cid, day, events[|events| - 1])]
  }

  /** How many events the table holds over all days. */
  function EventCount(events: Days<EventItem>): nat {
    if events == [] then 0 else EventCount(events[..|events| - 1]) + |events[|events| - 1].1|
  }

  /** The rows of the whole event table, day by day. */
  function EventRows(cid: string, events: Days<EventItem>): (r: seq<Session>)
    ensures |r| == EventCount(events)
  {
    if events == [] then []
    else
      var last := events[|events| - 1];
      EventRows(cid, events[..|events| - 1]) + DayEventRows(cid, last.0, last.1)
  }

  /** `sessionsToInsert`: every forum row, then every event row. */
  function ScheduleRows(cid: string, forums: Days<ForumSlot>, events: Days<EventItem>): (r: seq<Session>)
    ensures |r| == ForumCount(forums) + EventCount(events)
  {
    ForumRows(cid, forums) + EventRows(cid, events)
  }

  /** `row` is what the loops push for some session of some slot of `slots`, on day `day`. */
  ghost predicate SlotRowOf(cid: string, day: string, slots: seq<ForumSlot>, row: Session) {
    exists s, k :: 0 <= s < |slots| && 0 <= k < |slots[s].sessions|
      && row == ForumRow(cid, day, ParseTimeRange(slots[s].time), slots[s].sessions[k])
  }

  /** `row` is what the loops push for some forum session of some day of `forums`. */
  ghost predicate ForumRowOf(cid: string, forums: Days<ForumSlot>, row: Session) {
    exists d :: 0 <= d < |forums| && SlotRowOf(cid, forums[d].0, forums[d].1, row)
  }

  /** `row` is what the loops push for some event of some day of `events`. */
  ghost predicate EventRowOf(cid: string, events: Days<EventItem>, row: Session) {
    exists d, k :: 0 <= d < |events| && 0 <= k < |events[d].1| && row == EventRow(cid, events[d].0, events[d].1[k])
  }

  /** Each session of each slot of the day gets its row. */
  lemma {:induction false} DayForumRowListed(cid: string, day: string, slots: seq<ForumSlot>, s: int, k: int)
    requires 0 <= s < |slots| && 0 <= k < |slots[s].sessions|
    ensures ForumRow(cid, day, ParseTimeRange(slots[s].time), slots[s].sessions[k]) in DayForumRows(cid, day, slots)
  {
    var init, last := slots[..|slots| - 1], slots[|slots| - 1];
    var tail := SlotRows(cid, day, ParseTimeRange(last.time), last.sessions);
    assert DayForumRows(cid, day, slots) == DayForumRows(cid, day, init) + tail;
    if s < |init| {
      assert init[s] == slots[s];
      DayForumRowListed(cid, day, init, s, k);
    } else {
      assert s == |slots| - 1;
      assert slots[s] == last;
      assert tail[k] == ForumRow(cid, day, ParseTimeRange(last.time), last.sessions[k]);
    }
  }

  /** Each row of the day comes from a session of one of its slots. */
  lemma {:induction false} DayForumRowSource(cid: string, day: string, slots: seq<ForumSlot>, i: int)
    requires 0 <= i < |DayForumRows(cid, day, slots)|
    ensures SlotRowOf(cid, day, slots, DayForumRows(cid, day, slots)[i])
  {
    var init, last := slots[..|slots| - 1], slots[|slots| - 1];
    var head := DayForumRows(cid, day, init);
    var tail := SlotRows(cid, day, ParseTimeRange(last.time), last.sessions);
    assert DayForumRows(cid, day, slots) == head + tail;
    if i < |head| {
      DayForumRowSource(cid, day, init, i);
      var s, k :| 0 <= s < |init| && 0 <= k < |init[s].sessions|
        && head[i] == ForumRow(cid, day, ParseTimeRange(init[s].time), init[s].sessions[k]);
      assert slots[s] == init[s];
    } else {
      var k := i - |head|;
      assert tail[k] == ForumRow(cid, day, ParseTimeRange(slots[|slots| - 1].time), slots[|slots| - 1].sessions[k]);
    }
  }

  /** Each session of each slot of each day gets its forum row. */
  lemma {:induction false} ForumRowListed(cid: string, forums: Days<ForumSlot>, d: int, row: Session)
    requires 0 <= d < |forums| && row in DayForumRows(cid, forums[d].0, forums[d].1)
    ensures row in ForumRows(cid, forums)
  {
    var init, last := forums[..|forums| - 1], forums[|forums| - 1];
    assert ForumRows(cid, forums) == ForumRows(cid, init) + DayForumRows(cid, last.0, last.1);
    if d < |init| {
      assert init[d] == forums[d];
      ForumRowListed(cid, init, d, row);
    } else {
      assert d == |forums| - 1;
      assert forums[d] == last;
    }
  }

  /** Each forum row comes from one day's rows. */
  lemma {:induction false} ForumRowSource(cid: string, forums: Days<ForumSlot>, i: int)
    requires 0 <= i < |ForumRows(cid, forums)|
    ensures exists d :: 0 <= d < |forums| && ForumRows(cid, forums)[i] in DayForumRows(cid, forums[d].0, forums[d].1)
  {
    var init, last := forums[..|forums| - 1], forums[|forums| - 1];
    var head := ForumRows(cid, init);
    var tail := DayForumRows(cid, last.0, last.1);
    assert ForumRows(cid, forums) == head + tail;
    if i < |head| {
      ForumRowSource(cid, init, i);
      var d :| 0 <= d < |init| && head[i] in DayForumRows(cid, init[d].0, init[d].1);
      assert forums[d] == init[d];
    } else {
      assert tail[i - |head|] in DayForumRows(cid, forums[|forums| - 1].0, forums[|forums| - 1].1);
    }
  }

  /** The forum rows are exactly one row per session of every slot of every day. */
  lemma ForumRowsFrom(cid: string, forums: Days<ForumSlot>, row: Session)
    ensures row in ForumRows(cid, forums) <==> ForumRowOf(cid, forums, row)
  {
    var rows := ForumRows(cid, forums);
    if row in rows {
      var i :| 0 <= i < |rows| && rows[i] == row;
      ForumRowSource(cid, forums, i);
      var d :| 0 <= d < |forums| && row in DayForumRows(cid, forums[d].0, forums[d].1);
      var j :| 0 <= j < |DayForumRows(cid, forums[d].0, forums[d].1)| && DayForumRows(cid, forums[d].0, forums[d].1)[j] == row;
      DayForumRowSource(cid, forums[d].0, forums[d].1, j);
    }
    if ForumRowOf(cid, forums, row) {
      var d :| 0 <= d < |forums| && SlotRowOf(cid, forums[d].0, forums[d].1, row);
      var slots := forums[d].1;
      var s, k :| 0 <= s < |slots| && 0 <= k < |slots[s].sessions|
        && row == ForumRow(cid, forums[d].0, ParseTimeRange(slots[s].time), slots[s].sessions[k]);
      DayForumRowListed(cid, forums[d].0, slots, s, k);
      ForumRowListed(cid, forums, d, row);
    }
  }

  /** Each event of each day gets its row. */
  lemma {:induction false} EventRowListed(cid: string, events: Days<EventItem>, d: int, k: int)
    requires 0 <= d < |events| && 0 <= k < |events[d].1|
    ensures EventRow(cid, events[d].0, events[d].1[k]) in EventRows(cid, events)
  {
    var init, last := events[..|events| - 1], events[|events| - 1];
    var tail := DayEventRows(cid, last.0, last.1);
    assert EventRows(cid, events) == EventRows(cid, init) + tail;
    if d < |init| {
      assert init[d] == events[d];
      EventRowListed(cid, init, d, k);
    } else {
      assert d == |events| - 1;
      assert events[d] == last;
      assert tail[k] == EventRow(cid, last.0, last.1[k]);
    }
  }

  /** Each event row comes from an event of some day. */
  lemma {:induction false} EventRowSource(cid: string, events: Days<EventItem>, i: int)
    requires 0 <= i < |EventRows(cid, events)|
    ensures EventRowOf(cid, events, EventRows(cid, events)[i])
  {
    var init, last := events[..|events| - 1], events[|events| - 1];
    var head := EventRows(cid, init);
    var tail := DayEventRows(cid, last.0, last.1);
    assert EventRows(cid, events) == head + tail;
    if i < |head| {
      EventRowSource(cid, init, i);
      var d, k :| 0 <= d < |init| && 0 <= k < |init[d].1| && head[i] == EventRow(cid, init[d].0, init[d].1[k]);
      assert events[d] == init[d];
    } else {
      var k := i - |head|;
      assert tail[k] == EventRow(cid, events[|events| - 1].0, events[|events| - 1].1[k]);
    }
  }

  /** The event rows are exactly one row per event of every day. */
  lemma EventRowsFrom(cid: string, events: Days<EventItem>, row: Session)
    ensures row in EventRows(cid, events) <==> EventRowOf(cid, events, row)
  {
    var rows := EventRows(cid, events);
    if row in rows {
      var i :| 0 <= i < |rows| && rows[i] == row;
      EventRowSource(cid, events, i);
    }
    if EventRowOf(cid, events, row) {
      var d, k :| 0 <= d < |events| && 0 <= k < |events[d].1| && row == EventRow(cid, events[d].0, events[d].1[k]);
      EventRowListed(cid, events, d, k);
    }
  }

  /**
    Every row to insert belongs to the conference; the forum rows come first
    and carry no abstract; the event rows follow and carry no speaker.
   */
  lemma ScheduleRowsShape(cid: string, forums: Days<ForumSlot>, events: Days<EventItem>)
    ensures var rows := ScheduleRows(cid, forums, events);
      forall i :: 0 <= i < |rows| ==>
        rows[i].conferenceId == cid && rows[i].speakerBio == None
        && (i < ForumCount(forums) ==> rows[i].category == "forum" && rows[i].abstractText == None)
        && (ForumCount(forums) <= i ==> rows[i].category == "event" && rows[i].speaker == ""
                                        && rows[i].abstractText != Some(""))
  {
    var fr: seq<Session>, er: seq<Session> := ForumRows(cid, forums), EventRows(cid, events);
    forall i | 0 <= i < |fr| + |er|
      ensures (fr + er)[i].conferenceId == cid && (fr + er)[i].speakerBio == None
      ensures i < |fr| ==> (fr + er)[i].category == "forum" && (fr + er)[i].abstractText == None
      ensures |fr| <= i ==> (fr + er)[i].category == "event" && (fr + er)[i].speaker == ""
                            && (fr + er)[i].abstractText != Some("")
    {
      if i < |fr| {
        ForumRowsFrom(cid, forums, fr[i]);
        var d :| 0 <= d < |forums| && SlotRowOf(cid, forums[d].0, forums[d].1, fr[i]);
      } else {
        EventRowsFrom(cid, events, er[i - |fr|]);
      }
    }
  }

  /** A session row is a forum or an event row of conference `cid`. */
  predicate IsScheduleRow(row: Row<Session>, cid: string) {
    row.data.conferenceId == cid && (row.data.category == "forum" || row.data.category == "event")
  }

  /** The guard: some session of the conference is already a forum or an event. */
  predicate HasScheduleRows(sessions: seq<Row<Session>>, cid: string) {
    exists i :: 0 <= i < |sessions| && IsScheduleRow(sessions[i], cid)
  }

  /**
    The database after `seedScheduleData`: nothing changes when the Pacificon
    conference is missing, when it already has forum or event rows, or when
    there is nothing to insert; otherwise the rows are appended under fresh keys.
   */
  function ScheduleSeeded(t: Tables, forums: Days<ForumSlot>, events: Days<EventItem>): (r: Tables)
    ensures SeedTarget(t.conferences).None? ==> r == t
    ensures r.(sessions := t.sessions, nextKey := t.nextKey) == t
    ensures t.sessions <= r.sessions && t.nextKey <= r.nextKey
  {
    match SeedTarget(t.conferences)
    case None => t
    case Some(conference) =>
      if HasScheduleRows(t.sessions, conference.id) then t
      else
        var rows := ScheduleRows(conference.id, forums, events);
        if |rows| > 0 then t.(sessions := t.sessions + Stamp(rows, t.nextKey), nextKey := t.nextKey + |rows|)
        else t
  }

  /** The schedule rows take fresh keys: every table stays well keyed. */
  lemma ScheduleSeededKeysIssued(t: Tables, forums: Days<ForumSlot>, events: Days<EventItem>)
    requires KeysIssued(t)
    ensures KeysIssued(ScheduleSeeded(t, forums, events))
  {
    match SeedTarget(t.conferences)
    case None =>
    case Some(conference) =>
      var rows := ScheduleRows(conference.id, forums, events);
      KeysIssuedAddSessions(t, rows);
  }

  /** Seeding the schedule twice inserts nothing the second time: the first insert trips the guard. */
  lemma ScheduleSeedIdempotent(t: Tables, forums: Days<ForumSlot>, events: Days<EventItem>)
    ensures ScheduleSeeded(ScheduleSeeded(t, forums, events), forums, events) == ScheduleSeeded(t, forums, events)
  {
    var target := SeedTarget(t.conferences);
    if target.Some? && !HasScheduleRows(t.sessions, target.value.id) {
      var cid := target.value.id;
      var rows := ScheduleRows(cid, forums, events);
      if |rows| > 0 {
        var once := ScheduleSeeded(t, forums, events);
        ScheduleRowsShape(cid, forums, events);
        assert once.sessions[|t.sessions|] == Row(KeyOf(t.nextKey), rows[0]);
        assert IsScheduleRow(once.sessions[|t.sessions|], cid);
      }
    }
  }

  /** A database whose conference already has one forum or event row is left alone, whatever the tables. */
  lemma ScheduleSeedGuarded(t: Tables, forums: Days<ForumSlot>, events: Days<EventItem>, i: int)
    requires SeedTarget(t.conferences).Some?
    requires 0 <= i < |t.sessions| && IsScheduleRow(t.sessions[i], SeedTarget(t.conferences).value.id)
    ensures ScheduleSeeded(t, forums, events) == t
  {
  }

  /**
    Otherwise every forum session and every event becomes exactly one new
    session row, under consecutive fresh keys, and no other table changes.
   */
  lemma ScheduleSeedInserts(t: Tables, forums: Days<ForumSlot>, events: Days<EventItem>)
    requires SeedTarget(t.conferences).Some?
    requires !HasScheduleRows(t.sessions, SeedTarget(t.conferences).value.id)
    ensures var cid := SeedTarget(t.conferences).value.id;
      var after := ScheduleSeeded(t, forums, events);
      && after == t.(sessions := after.sessions, nextKey := after.nextKey)
      && |after.sessions| == |t.sessions| + ForumCount(forums) + EventCount(events)
      && after.sessions[..|t.sessions|] == t.sessions
      && after.nextKey == t.nextKey + ForumCount(forums) + EventCount(events)
      && (forall row :: row in Values(after.sessions[|t.sessions|..]) <==>
            ForumRowOf(cid, forums, row) || EventRowOf(cid, events, row))
  {
    var cid := SeedTarget(t.conferences).value.id;
    var rows := ScheduleRows(cid, forums, events);
    var after := ScheduleSeeded(t, forums, events);
    forall row
      ensures row in ForumRows(cid, forums) <==> ForumRowOf(cid, forums, row)
      ensures row in EventRows(cid, events) <==> EventRowOf(cid, events, row)
    {
      ForumRowsFrom(cid, forums, row);
      EventRowsFrom(cid, events, row);
    }
    if |rows| > 0 {
      assert after.sessions[|t.sessions|..] == Stamp(rows, t.nextKey);
      assert Values(Stamp(rows, t.nextKey)) == rows;
    } else {
      assert after.sessions[|t.sessions|..] == [];
    }
  }

  /** The forum half of the nested loops: every session of every slot of every day, in order. */
  method CollectForumRows(cid: string, forums: Days<ForumSlot>) returns (rows: seq<Session>)
    ensures rows == ForumRows(cid, forums)
  {
    rows := [];
    var d := 0;
    while d < |forums|
      invariant 0 <= d <= |forums|
      invariant rows == ForumRows(cid, forums[..d])
    {
      var dayRows := CollectDayForumRows(cid, forums[d].0, forums[d].1);
      rows := rows + dayRows;
      assert forums[..d + 1][..d] == forums[..d];
      d := d + 1;
    }
    assert forums[..d] == forums;
  }

  /** The slots of one day, each slot's sessions pushed with the slot's parsed time range. */
  method CollectDayForumRows(cid: string, day: string, slots: seq<ForumSlot>) returns (rows: seq<Session>)
    ensures rows == DayForumRows(cid, day, slots)
  {
    rows := [];
    var s := 0;
    while s < |slots|
      invariant 0 <= s <= |slots|
      invariant rows == DayForumRows(cid, day, slots[..s])
    {
      var slotRows := CollectSlotRows(cid, day, ParseTimeRange(slots[s].time), slots[s].sessions);
      rows := rows + slotRows;
      assert slots[..s + 1][..s] == slots[..s];
      s := s + 1;
    }
    assert slots[..s] == slots;
  }

  /** The innermost forum loop: one row per session of a slot, with the slot's time range. */
  method CollectSlotRows(cid: string, day: string, range: TimeRange, items: seq<ForumItem>) returns (rows: seq<Session>)
    ensures rows == SlotRows(cid, day, range, items)
  {
    rows := [];
    var k := 0;
    while k < |items|
      invariant 0 <= k <= |items|
      invariant rows == SlotRows(cid, day, range, items[..k])
    {
      rows := rows + [ForumRow(cid, day, range, items[k])];
      assert items[..k + 1][..k] == items[..k];
      k := k + 1;
    }
    assert items[..k] == items;
  }

  /** The event half of the loops: every event of every day, in order. */
  method CollectEventRows(cid: string, events: Days<EventItem>) returns (rows: seq<Session>)
    ensures rows == EventRows(cid, events)
  {
    rows := [];
    var e := 0;
    while e < |events|
      invariant 0 <= e <= |events|
      invariant rows == EventRows(cid, events[..e])
    {
      var dayRows := CollectDayEventRows(cid, events[e].0, events[e].1);
      rows := rows + dayRows;
      assert events[..e + 1][..e] == events[..e];
      e := e + 1;
    }
    assert events[..e] == events;
  }

  /** The inner event loop: one row per event of a day. */
  method CollectDayEventRows(cid: string, day: string, events: seq<EventItem>) returns (rows: seq<Session>)
    ensures rows == DayEventRows(cid, day, events)
  {
    rows := [];
    var k := 0;
    while k < |events|
      invariant 0 <= k <= |events|
      invariant rows == DayEventRows(cid, day, events[..k])
    {
      rows := rows + [EventRow(cid, day, events[k])];
      assert events[..k + 1][..k] == events[..k];
      k := k + 1;
    }
    assert events[..k] == events;
  }

  /** `seedScheduleData`: the lookups, the guard, the loops that build the rows, and the insert. */
  method SeedScheduleData(store: DatabaseStorage, forums: Days<ForumSlot>, events: Days<EventItem>)
    requires store.Valid()
    modifies store`sessions, store`nextKey
    ensures store.Valid()
    ensures store.Snapshot() == ScheduleSeeded(old(store.Snapshot()), forums, events)
  {
    ScheduleSeededKeysIssued(store.Snapshot(), forums, events);
    InsertScheduleRows(store, forums, events);
  }

  /** The body of `seedScheduleData`, given that its outcome keeps the keys fresh. */
  method InsertScheduleRows(store: DatabaseStorage, forums: Days<ForumSlot>, events: Days<EventItem>)
    modifies store`sessions, store`nextKey
    ensures store.Snapshot() == ScheduleSeeded(old(store.Snapshot()), forums, events)
  {
    var target := SeedTarget(store.conferences);
    if target.None? {
      return;
    }
    var cid := target.value.id;
    if HasScheduleRows(store.sessions, cid) {
      return;
    }
    var forumRows := CollectForumRows(cid, forums);
    var eventRows := CollectEventRows(cid, events);
    var rows := forumRows + eventRows;
    if |rows| > 0 {
      store.sessions, store.nextKey := store.sessions + Stamp(rows, store.nextKey), store.nextKey + |rows|;
    }
  }
}
