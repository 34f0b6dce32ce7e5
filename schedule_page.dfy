/**
  The schedule page's logic (client/src/pages/SchedulePage.tsx): the day and
  search filters behind its three tabs, whether a session is shown as
  bookmarked, and what a click on a bookmark button does. Rendering, toasts
  and the network requests themselves are left to the browser and the server;
  a click is modelled by the action it chooses.
 */
module SchedulePage {
  import opened Wrappers
  import opened Text
  import opened Seqs
  import opened Schema
  import opened Bookmarks
  import opened ScheduleData

  /** The day the page starts on. */
  const InitialDay: string := "all"

  /** `text.toLowerCase().includes(query.toLowerCase())`. */
  function Mentions(text: string, query: string): (r: bool)
    ensures query == "" ==> r
    ensures r ==> |query| <= |text|
  {
    assert OccursAt(Lower(text), Lower(query), 0) <== query == "";
    Contains(Lower(text), Lower(query))
  }

  /** A forum session matches on its title, or on its speaker when it has a non-empty one. */
  function ItemMatches(item: ForumItem, query: string): (r: bool)
    ensures query == "" ==> r
    ensures item.speaker.None? || item.speaker == Some("") ==> (r <==> Mentions(item.title, query))
  {
    Mentions(item.title, query) || (item.speaker.Some? && item.speaker.value != "" && Mentions(item.speaker.value, query))
  }

  /** A slot is kept, with all its sessions, when one of its sessions matches. */
  predicate SlotMatches(slot: ForumSlot, query: string) {
    exists i :: 0 <= i < |slot.sessions| && ItemMatches(slot.sessions[i], query)
  }

  /** An event matches on its title or its location; its note is not searched. */
  function EventMatches(event: EventItem, query: string): (r: bool)
    ensures query == "" ==> r
    ensures r ==> |query| <= |event.title| || |query| <= |event.location|
  {
    Mentions(event.title, query) || Mentions(event.location, query)
  }

  function SlotKeep(query: string): ForumSlot -> bool {
    slot => SlotMatches(slot, query)
  }

  function EventKeep(query: string): EventItem -> bool {
    event => EventMatches(event, query)
  }

  /** The forum filter: an empty query keeps everything, any other keeps the matching slots in order. */
  function FilterSlots(slots: seq<ForumSlot>, query: string): (r: seq<ForumSlot>)
    ensures query == "" ==> r == slots
    ensures forall slot :: slot in r <==> slot in slots && (query == "" || SlotMatches(slot, query))
    ensures SubsequenceOf(r, slots)
  {
    if query == "" then
      SubsequenceOfItself(slots);
      slots
    else
      FilterIsSubsequence(slots, SlotKeep(query));
      Filter(slots, SlotKeep(query))
  }

  /** The event filter: an empty query keeps everything, any other keeps the matching events in order. */
  function FilterEvents(events: seq<EventItem>, query: string): (r: seq<EventItem>)
    ensures query == "" ==> r == events
    ensures forall event :: event in r <==> event in events && (query == "" || EventMatches(event, query))
    ensures SubsequenceOf(r, events)
  {
    if query == "" then
      SubsequenceOfItself(events);
      events
    else
      FilterIsSubsequence(events, EventKeep(query));
      Filter(events, EventKeep(query))
  }

  /** `filteredAll`: the "All" tab, which lists the forum slots of the selected day. */
  function FilteredAll(forums: Days<ForumSlot>, day: string, query: string): (r: seq<ForumSlot>)
    ensures forall slot :: slot in r ==> slot in DayList(forums, day)
  {
    FilterSlots(DayList(forums, day), query)
  }

  /**
    `filteredForums`: the "Forums" tab. Its body repeats `filteredAll` word
    for word, as the page does: the two tabs are two memoised copies of one filter.
   */
  function FilteredForums(forums: Days<ForumSlot>, day: string, query: string): (r: seq<ForumSlot>)
    ensures forall slot :: slot in r ==> slot in DayList(forums, day)
  {
    FilterSlots(DayList(forums, day), query)
  }

  /** `filteredEvents`: the "Events" tab. */
  function FilteredEvents(events: Days<EventItem>, day: string, query: string): (r: seq<EventItem>)
    ensures forall event :: event in r ==> event in DayList(events, day)
  {
    FilterEvents(DayList(events, day), query)
  }

  /** The "All" tab shows exactly the "Forums" tab: events never appear under "All". */
  lemma AllTabIsForumTab(forums: Days<ForumSlot>, day: string, query: string)
    ensures FilteredAll(forums, day, query) == FilteredForums(forums, day, query)
  {
  }

  /**
    On a day of the record, a forum slot is shown exactly when it belongs to
    that day and the query is empty or matches one of its sessions.
   */
  lemma ForumTabShows(forums: Days<ForumSlot>, i: int, query: string, slot: ForumSlot)
    requires DistinctDays(forums) && 0 <= i < |forums|
    ensures slot in FilteredForums(forums, forums[i].0, query)
            <==> slot in forums[i].1 && (query == "" || SlotMatches(slot, query))
  {
  }

  /** On a day of the record, an event is shown exactly when it belongs to that day and matches. */
  lemma EventTabShows(events: Days<EventItem>, i: int, query: string, event: EventItem)
    requires DistinctDays(events) && 0 <= i < |events|
    ensures event in FilteredEvents(events, events[i].0, query)
            <==> event in events[i].1 && (query == "" || EventMatches(event, query))
  {
  }

  /** Lower-casing the query changes no match. */
  lemma MentionsIgnoresQueryCase(text: string, query: string)
    ensures Mentions(text, Lower(query)) == Mentions(text, query)
  {
    LowerIdempotent(query);
  }

  /** The search ignores the case of the query, on both tabs. */
  lemma {:induction false} SearchIgnoresCase(forums: Days<ForumSlot>, events: Days<EventItem>, day: string, query: string)
    ensures FilteredForums(forums, day, Lower(query)) == FilteredForums(forums, day, query)
    ensures FilteredEvents(events, day, Lower(query)) == FilteredEvents(events, day, query)
  {
    if query != "" {
      assert Lower(query) != "";
      forall slot: ForumSlot | slot in DayList(forums, day)
        ensures SlotKeep(Lower(query))(slot) == SlotKeep(query)(slot)
      {
        forall item: ForumItem ensures ItemMatches(item, Lower(query)) == ItemMatches(item, query) {
          MentionsIgnoresQueryCase(item.title, query);
          if item.speaker.Some? {
            MentionsIgnoresQueryCase(item.speaker.value, query);
          }
        }
      }
      FilterCongruent(DayList(forums, day), SlotKeep(Lower(query)), SlotKeep(query));
      forall event: EventItem | event in DayList(events, day)
        ensures EventKeep(Lower(query))(event) == EventKeep(query)(event)
      {
        MentionsIgnoresQueryCase(event.title, query);
        MentionsIgnoresQueryCase(event.location, query);
      }
      FilterCongruent(DayList(events, day), EventKeep(Lower(query)), EventKeep(query));
    }
  }

  /** Typing more of a query never brings back an entry a shorter part of it hid. */
  lemma SearchNarrows(forums: Days<ForumSlot>, events: Days<EventItem>, day: string, query: string, longer: string)
    requires Contains(Lower(longer), Lower(query))
    ensures forall slot :: slot in FilteredForums(forums, day, longer) ==> slot in FilteredForums(forums, day, query)
    ensures forall event :: event in FilteredEvents(events, day, longer) ==> event in FilteredEvents(events, day, query)
  {
    forall text | Mentions(text, longer) ensures Mentions(text, query) {
      ContainsTransitive(Lower(text), Lower(longer), Lower(query));
    }
    if query != "" {
      assert |Lower(longer)| >= |Lower(query)| > 0;
      forall slot | SlotMatches(slot, longer) ensures SlotMatches(slot, query) {
        var i :| 0 <= i < |slot.sessions| && ItemMatches(slot.sessions[i], longer);
        assert ItemMatches(slot.sessions[i], query);
      }
    }
  }

  /** `bookmarks.includes(id)`: whether a session's button is drawn filled. */
  function IsBookmarked(bookmarks: seq<string>, id: string): (r: bool)
    ensures r <==> id in bookmarks
  {
    Includes(bookmarks, id)
  }

  /** What a click on a bookmark button does. */
  datatype BookmarkAction =
    | LoginPrompt(title: string, description: string)
    | RemoveBookmark(sessionId: string)
    | AddBookmark(sessionId: string)

  const LoginTitle: string := "Login required"
  const LoginDescription: string := "Please log in to bookmark sessions."

  /**
    `handleBookmark`: a signed-out visitor gets a prompt to log in; otherwise
    the click removes a bookmark the page lists and adds one it does not.
   */
  function HandleBookmark(isAuthenticated: bool, bookmarks: seq<string>, id: string): (a: BookmarkAction)
    ensures a.LoginPrompt? <==> !isAuthenticated
    ensures a.LoginPrompt? ==> a == LoginPrompt(LoginTitle, LoginDescription)
    ensures a.RemoveBookmark? <==> isAuthenticated && id in bookmarks
    ensures a.AddBookmark? <==> isAuthenticated && id !in bookmarks
    ensures !a.LoginPrompt? ==> a.sessionId == id
  {
    if !isAuthenticated then LoginPrompt(LoginTitle, LoginDescription)
    else if IsBookmarked(bookmarks, id) then RemoveBookmark(id)
    else AddBookmark(id)
  }

  /** The bookmark table once the request an action sends has succeeded; `key` is the new row's key. */
  function Perform(rows: seq<Row<Bookmark>>, action: BookmarkAction, userId: string, conferenceId: string, key: string)
    : seq<Row<Bookmark>>
  {
    match action
    case LoginPrompt(_, _) => rows
    case RemoveBookmark(id) => WithoutBookmark(rows, Bookmark(userId, conferenceId, id))
    case AddBookmark(id) => WithBookmark(rows, Bookmark(userId, conferenceId, id), key)
  }

  /**
    A signed-in click on a session listed from the user's bookmarks of the
    conference flips whether that session is listed once the request succeeds.
   */
  lemma ClickFlipsBookmark(rows: seq<Row<Bookmark>>, userId: string, conferenceId: string, id: string, key: string)
    requires conferenceId != ""
    ensures var bookmarks := BookmarkedSessions(rows, userId, Some(conferenceId));
      var after := Perform(rows, HandleBookmark(true, bookmarks, id), userId, conferenceId, key);
      IsBookmarked(BookmarkedSessions(after, userId, Some(conferenceId)), id) == !IsBookmarked(bookmarks, id)
  {
    var bookmarks := BookmarkedSessions(rows, userId, Some(conferenceId));
    var b := Bookmark(userId, conferenceId, id);
    if id in bookmarks {
      RemovedBookmarkIsNotListed(rows, b);
    } else {
      AddedBookmarkIsListed(rows, b, key);
    }
  }

  /** A signed-out click changes nothing. */
  lemma SignedOutClickChangesNothing(rows: seq<Row<Bookmark>>, bookmarks: seq<string>, userId: string,
                                     conferenceId: string, id: string, key: string)
    ensures Perform(rows, HandleBookmark(false, bookmarks, id), userId, conferenceId, key) == rows
  {
  }

  /**
    The page's initial day "all" is no key of day records keyed by weekday:
    every tab then starts empty, whatever the entries and the query.
   */
  lemma InitialDayShowsNothing(forums: Days<ForumSlot>, events: Days<EventItem>, query: string)
    requires forall i :: 0 <= i < |forums| ==> forums[i].0 != InitialDay
    requires forall i :: 0 <= i < |events| ==> events[i].0 != InitialDay
    ensures FilteredAll(forums, InitialDay, query) == []
    ensures FilteredForums(forums, InitialDay, query) == []
    ensures FilteredEvents(events, InitialDay, query) == []
  {
  }

  /** The source's records meet that condition, and their first day has entries to hide. */
  lemma SampleDaysLackInitialDay()
    ensures |SampleForums[0].1| > 0 && |SampleEvents[0].1| > 0
    ensures forall i :: 0 <= i < |SampleForums| ==> SampleForums[i].0 != InitialDay
    ensures forall i :: 0 <= i < |SampleEvents| ==> SampleEvents[i].0 != InitialDay
  {
  }

  /** Every day's entries, in record order. */
  function AllDays<T>(data: Days<T>): (r: seq<T>)
    ensures forall i, x :: 0 <= i < |data| && x in data[i].1 ==> x in r
    ensures forall x :: x in r ==> exists i :: 0 <= i < |data| && x in data[i].1
  {
    if data == [] then []
    else
      var init := data[..|data| - 1];
      var r := AllDays(init) + data[|data| - 1].1;
      assert forall i :: 0 <= i < |init| ==> init[i] == data[i];
      r
  }

  /** The evidently intended day selection: "all" gathers every day, any other day looks up its entries. */
  function SelectDay<T>(data: Days<T>, day: string): (r: seq<T>)
    ensures day != InitialDay ==> r == DayList(data, day)
  {
    if day == InitialDay then AllDays(data) else DayList(data, day)
  }

  /** The forum tab with the corrected day selection. */
  function FilteredForumsByDay(forums: Days<ForumSlot>, day: string, query: string): (r: seq<ForumSlot>)
    ensures day != InitialDay ==> r == FilteredForums(forums, day, query)
  {
    FilterSlots(SelectDay(forums, day), query)
  }

  /** The event tab with the corrected day selection. */
  function FilteredEventsByDay(events: Days<EventItem>, day: string, query: string): (r: seq<EventItem>)
    ensures day != InitialDay ==> r == FilteredEvents(events, day, query)
  {
    FilterEvents(SelectDay(events, day), query)
  }

  /** With the corrected selection the initial view lists every matching slot and event of every day. */
  lemma InitialDayShowsEverything(forums: Days<ForumSlot>, events: Days<EventItem>, query: string)
    ensures forall i, slot :: 0 <= i < |forums| && slot in forums[i].1 && (query == "" || SlotMatches(slot, query))
              ==> slot in FilteredForumsByDay(forums, InitialDay, query)
    ensures forall i, event :: 0 <= i < |events| && event in events[i].1 && (query == "" || EventMatches(event, query))
              ==> event in FilteredEventsByDay(events, InitialDay, query)
  {
  }
}
