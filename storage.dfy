/**
  `DatabaseStorage` (server/storage.ts): the tables as fields of one object,
  its getters as functions of those fields and its writers as methods that
  append to, rewrite or delete from them.

  Every accessor takes the fault script of its query (see module Queries):
  the getters return `Access(faults, <what the query computes>, <name>)`, and
  the writers run `WithRetry` over the scripted query, settle its result as the
  catch block does, and change the tables only when the query went through.
 */
module Storage {
  import opened Wrappers
  import opened Seqs
  import opened DbUtils
  import opened Schema
  import opened Queries
  import opened Bookmarks
  import opened Profiles
  import opened Conferences
  import opened DatabaseSeed

  class DatabaseStorage {
    var conferences: seq<Row<Conference>>
    var users: seq<Row<User>>
    var sessions: seq<Row<Session>>
    var bookmarks: seq<Row<Bookmark>>
    var vendors: seq<Row<Vendor>>
    var doorPrizes: seq<Row<DoorPrize>>
    var tHuntingSchedule: seq<Row<THuntingSchedule>>
    var tHuntingWinners: seq<Row<THuntingWinner>>
    var radioContacts: seq<Row<RadioContact>>
    var venueInfo: seq<Row<VenueInfo>>
    var surveyResponses: seq<Row<SurveyResponse>>
    /** The counter behind generated keys: the next row inserted gets `KeyOf(nextKey)`. */
    var nextKey: nat

    /** The whole database as a value. */
    function Snapshot(): Tables
      reads this
    {
      Tables(conferences, users, sessions, bookmarks, vendors, doorPrizes, tHuntingSchedule,
             tHuntingWinners, radioContacts, venueInfo, surveyResponses, nextKey)
    }

    /**
      Every key in the tables came from the counter, and no table holds a key
      twice: the next generated key is fresh, and a key names at most one row.
     */
    ghost predicate Valid()
      reads this
    {
      KeysIssued(Snapshot())
    }

    /** A storage object over the database `t`, whose keys all came from its counter. */
    constructor (t: Tables)
      requires KeysIssued(t)
      ensures Snapshot() == t
      ensures Valid()
    {
      conferences, users, sessions, bookmarks := t.conferences, t.users, t.sessions, t.bookmarks;
      vendors, doorPrizes, tHuntingSchedule := t.vendors, t.doorPrizes, t.tHuntingSchedule;
      tHuntingWinners, radioContacts, venueInfo := t.tHuntingWinners, t.radioContacts, t.venueInfo;
      surveyResponses, nextKey := t.surveyResponses, t.nextKey;
    }

    /* Conferences */

    /** `getConferences`: the active conferences, each as often as the table holds it. */
    function GetConferences(faults: seq<Thrown>): (r: Result<seq<Row<Conference>>, DatabaseError>)
      reads this
      ensures Settled(r, faults, "getConferences")
      ensures r.Ok? ==> forall row :: multiset(r.value)[row] == if row.data.isActive then multiset(conferences)[row] else 0
    {
      Access(faults, Filter(conferences, (row: Row<Conference>) => row.data.isActive), "getConferences")
    }

    /** `getConferenceBySlug`: a conference with the slug, or nothing when no conference has it. */
    function GetConferenceBySlug(slug: string, faults: seq<Thrown>): (r: Result<Option<Row<Conference>>, DatabaseError>)
      reads this
      ensures Settled(r, faults, "getConferenceBySlug")
      ensures r.Ok? ==> (r.value.None? <==> forall row :: row in conferences ==> row.data.slug != slug)
      ensures r.Ok? && r.value.Some? ==> r.value.value in conferences && r.value.value.data.slug == slug
    {
      Access(faults, First(conferences, (row: Row<Conference>) => row.data.slug == slug), "getConferenceBySlug")
    }

    /** `createConference`: the conference is appended under the next key and returned. */
    method CreateConference(conference: Conference, faults: seq<Thrown>)
      returns (r: Result<Row<Conference>, DatabaseError>)
      requires Valid()
      modifies this`conferences, this`nextKey
      ensures Valid()
      ensures Settled(r, faults, "createConference")
      ensures r.Ok? ==> r.value == Row(KeyOf(old(nextKey)), conference)
      ensures r.Ok? ==> forall row :: row in old(conferences) ==> row.id != r.value.id
      ensures r.Ok? ==> conferences == old(conferences) + [r.value] && nextKey == old(nextKey) + 1
      ensures r.Err? ==> conferences == old(conferences) && nextKey == old(nextKey)
    {
      var row := Row(KeyOf(nextKey), conference);
      var result, _, _ := WithRetry(Flaky(faults, row));
      r := Settle(result, "createConference");
      assert r == Access(faults, row, "createConference");
      if r.Ok? {
        InsertConference(conference);
      }
    }

    /** The insert itself: the record goes in under the next key, which no row holds yet. */
    method InsertConference(conference: Conference)
      requires Valid()
      modifies this`conferences, this`nextKey
      ensures Valid()
      ensures conferences == old(conferences) + [Row(KeyOf(old(nextKey)), conference)] && nextKey == old(nextKey) + 1
      ensures forall row :: row in old(conferences) ==> row.id != KeyOf(old(nextKey))
    {
      WellKeyedAppend(conferences, nextKey, conference);
      KeysIssuedRaise(Snapshot(), nextKey + 1);
      conferences := conferences + [Row(KeyOf(nextKey), conference)];
      nextKey := nextKey + 1;
    }

    /**
      `updateConferenceBySlug`: every conference with the slug is patched in
      place; the result is the first of them as updated, or nothing when no
      conference has the slug.
     */
    method UpdateConferenceBySlug(slug: string, patch: ConferencePatch, faults: seq<Thrown>)
      returns (r: Result<Option<Row<Conference>>, DatabaseError>)
      requires Valid()
      modifies this`conferences
      ensures Valid()
      ensures Settled(r, faults, "updateConferenceBySlug")
      ensures r.Ok? ==> r.value == FirstUpdated(old(conferences), slug, patch)
      ensures conferences == if r.Ok? then PatchBySlug(old(conferences), slug, patch) else old(conferences)
    {
      var updated := FirstUpdated(conferences, slug, patch);
      var result, _, _ := WithRetry(Flaky(faults, updated));
      r := Settle(result, "updateConferenceBySlug");
      assert r == Access(faults, updated, "updateConferenceBySlug");
      if r.Ok? {
        WellKeyedSameKeys(conferences, PatchBySlug(conferences, slug, patch), nextKey);
        conferences := PatchBySlug(conferences, slug, patch);
      }
    }

    /* Users */

    /** `getUser`: a user with the key, or nothing when there is none. */
    function GetUser(id: string, faults: seq<Thrown>): (r: Result<Option<Row<User>>, DatabaseError>)
      reads this
      ensures Settled(r, faults, "getUser")
      ensures r.Ok? ==> (r.value.None? <==> forall row :: row in users ==> row.id != id)
      ensures r.Ok? && r.value.Some? ==> r.value.value in users && r.value.value.id == id
    {
      Access(faults, ByKey(users, id), "getUser")
    }

    /**
      `getUserProfile`: the profile of a user with the key, or the default
      profile named "Unknown User" when there is none.
     */
    function GetUserProfile(userId: string, faults: seq<Thrown>): (r: Result<UserProfile, DatabaseError>)
      reads this
      ensures Settled(r, faults, "getUserProfile")
      ensures r.Ok? ==> r.value.name != ""
      ensures r.Ok? && (forall row :: row in users ==> row.id != userId) ==>
                r.value == UserProfile("", UnknownName, "", "", false)
      ensures r.Ok? && (exists row :: row in users && row.id == userId) ==>
                exists row :: row in users && row.id == userId && r.value == ProfileOf(Some(row))
    {
      Access(faults, ProfileOf(ByKey(users, userId)), "getUserProfile")
    }

    /* Conference-scoped reference data */

    /** `getSessions`: the sessions of the conference, or all of them when none is given. */
    function GetSessions(conferenceId: Option<string>, faults: seq<Thrown>): (r: Result<seq<Row<Session>>, DatabaseError>)
      reads this
      ensures Settled(r, faults, "getSessions")
      ensures r.Ok? ==> forall row :: multiset(r.value)[row]
                                      == if InScope(row.data.conferenceId, conferenceId) then multiset(sessions)[row] else 0
    {
      Access(faults, Scoped(sessions, (s: Session) => s.conferenceId, conferenceId), "getSessions")
    }

    /** `getSessionById`: a session with the key, or nothing when there is none. */
    function GetSessionById(id: string, faults: seq<Thrown>): (r: Result<Option<Row<Session>>, DatabaseError>)
      reads this
      ensures Settled(r, faults, "getSessionById")
      ensures r.Ok? ==> (r.value.None? <==> forall row :: row in sessions ==> row.id != id)
      ensures r.Ok? && r.value.Some? ==> r.value.value in sessions && r.value.value.id == id
    {
      Access(faults, ByKey(sessions, id), "getSessionById")
    }

    /** `getVendors`: the vendors of the conference, or all of them when none is given. */
    function GetVendors(conferenceId: Option<string>, faults: seq<Thrown>): (r: Result<seq<Row<Vendor>>, DatabaseError>)
      reads this
      ensures Settled(r, faults, "getVendors")
      ensures r.Ok? ==> forall row :: multiset(r.value)[row]
                                      == if InScope(row.data.conferenceId, conferenceId) then multiset(vendors)[row] else 0
    {
      Access(faults, Scoped(vendors, (v: Vendor) => v.conferenceId, conferenceId), "getVendors")
    }

    /** `getVendorById`: a vendor with the key, or nothing when there is none. */
    function GetVendorById(id: string, faults: seq<Thrown>): (r: Result<Option<Row<Vendor>>, DatabaseError>)
      reads this
      ensures Settled(r, faults, "getVendorById")
      ensures r.Ok? ==> (r.value.None? <==> forall row :: row in vendors ==> row.id != id)
      ensures r.Ok? && r.value.Some? ==> r.value.value in vendors && r.value.value.id == id
    {
      Access(faults, ByKey(vendors, id), "getVendorById")
    }

    /** `getDoorPrizes`: the door prizes in scope, newest first. */
    function GetDoorPrizes(conferenceId: Option<string>, faults: seq<Thrown>)
      : (r: Result<seq<Row<DoorPrize>>, DatabaseError>)
      reads this
      ensures Settled(r, faults, "getDoorPrizes")
      ensures r.Ok? ==> forall row :: multiset(r.value)[row]
                                      == if InScope(row.data.conferenceId, conferenceId) then multiset(doorPrizes)[row] else 0
      ensures r.Ok? ==> forall i, j :: 0 <= i < j < |r.value| ==> r.value[i].data.timestamp >= r.value[j].data.timestamp
    {
      Access(faults, PrizesNewestFirst(doorPrizes, conferenceId), "getDoorPrizes")
    }

    /** `addDoorPrize`: the prize is appended under the next key and returned. */
    method AddDoorPrize(prize: DoorPrize, faults: seq<Thrown>) returns (r: Result<Row<DoorPrize>, DatabaseError>)
      requires Valid()
      modifies this`doorPrizes, this`nextKey
      ensures Valid()
      ensures Settled(r, faults, "addDoorPrize")
      ensures r.Ok? ==> r.value == Row(KeyOf(old(nextKey)), prize)
      ensures r.Ok? ==> forall row :: row in old(doorPrizes) ==> row.id != r.value.id
      ensures r.Ok? ==> doorPrizes == old(doorPrizes) + [r.value] && nextKey == old(nextKey) + 1
      ensures r.Err? ==> doorPrizes == old(doorPrizes) && nextKey == old(nextKey)
    {
      var row := Row(KeyOf(nextKey), prize);
      var result, _, _ := WithRetry(Flaky(faults, row));
      r := Settle(result, "addDoorPrize");
      assert r == Access(faults, row, "addDoorPrize");
      if r.Ok? {
        InsertDoorPrize(prize);
      }
    }

    /** The insert itself: the record goes in under the next key, which no row holds yet. */
    method InsertDoorPrize(prize: DoorPrize)
      requires Valid()
      modifies this`doorPrizes, this`nextKey
      ensures Valid()
      ensures doorPrizes == old(doorPrizes) + [Row(KeyOf(old(nextKey)), prize)] && nextKey == old(nextKey) + 1
      ensures forall row :: row in old(doorPrizes) ==> row.id != KeyOf(old(nextKey))
    {
      WellKeyedAppend(doorPrizes, nextKey, prize);
      KeysIssuedRaise(Snapshot(), nextKey + 1);
      doorPrizes := doorPrizes + [Row(KeyOf(nextKey), prize)];
      nextKey := nextKey + 1;
    }

    /** `getTHuntingSchedule`: the T-hunts of the conference, or all of them when none is given. */
    function GetTHuntingSchedule(conferenceId: Option<string>, faults: seq<Thrown>)
      : (r: Result<seq<Row<THuntingSchedule>>, DatabaseError>)
      reads this
      ensures Settled(r, faults, "getTHuntingSchedule")
      ensures r.Ok? ==> forall row :: multiset(r.value)[row]
                                      == if InScope(row.data.conferenceId, conferenceId) then multiset(tHuntingSchedule)[row] else 0
    {
      Access(faults, Scoped(tHuntingSchedule, (h: THuntingSchedule) => h.conferenceId, conferenceId), "getTHuntingSchedule")
    }

    /** `getTHuntingWinners`: the T-hunt winners in scope, by ascending rank. */
    function GetTHuntingWinners(conferenceId: Option<string>, faults: seq<Thrown>)
      : (r: Result<seq<Row<THuntingWinner>>, DatabaseError>)
      reads this
      ensures Settled(r, faults, "getTHuntingWinners")
      ensures r.Ok? ==> forall row :: multiset(r.value)[row]
                                      == if InScope(row.data.conferenceId, conferenceId) then multiset(tHuntingWinners)[row] else 0
      ensures r.Ok? ==> forall i, j :: 0 <= i < j < |r.value| ==> r.value[i].data.rank <= r.value[j].data.rank
    {
      Access(faults, WinnersByRank(tHuntingWinners, conferenceId), "getTHuntingWinners")
    }

    /** `addTHuntingWinner`: the winner is appended under the next key and returned. */
    method AddTHuntingWinner(winner: THuntingWinner, faults: seq<Thrown>)
      returns (r: Result<Row<THuntingWinner>, DatabaseError>)
      requires Valid()
      modifies this`tHuntingWinners, this`nextKey
      ensures Valid()
      ensures Settled(r, faults, "addTHuntingWinner")
      ensures r.Ok? ==> r.value == Row(KeyOf(old(nextKey)), winner)
      ensures r.Ok? ==> forall row :: row in old(tHuntingWinners) ==> row.id != r.value.id
      ensures r.Ok? ==> tHuntingWinners == old(tHuntingWinners) + [r.value] && nextKey == old(nextKey) + 1
      ensures r.Err? ==> tHuntingWinners == old(tHuntingWinners) && nextKey == old(nextKey)
    {
      var row := Row(KeyOf(nextKey), winner);
      var result, _, _ := WithRetry(Flaky(faults, row));
      r := Settle(result, "addTHuntingWinner");
      assert r == Access(faults, row, "addTHuntingWinner");
      if r.Ok? {
        InsertTHuntingWinner(winner);
      }
    }

    /** The insert itself: the record goes in under the next key, which no row holds yet. */
    method InsertTHuntingWinner(winner: THuntingWinner)
      requires Valid()
      modifies this`tHuntingWinners, this`nextKey
      ensures Valid()
      ensures tHuntingWinners == old(tHuntingWinners) + [Row(KeyOf(old(nextKey)), winner)] && nextKey == old(nextKey) + 1
      ensures forall row :: row in old(tHuntingWinners) ==> row.id != KeyOf(old(nextKey))
    {
      WellKeyedAppend(tHuntingWinners, nextKey, winner);
      KeysIssuedRaise(Snapshot(), nextKey + 1);
      tHuntingWinners := tHuntingWinners + [Row(KeyOf(nextKey), winner)];
      nextKey := nextKey + 1;
    }

    /** `getRadioContacts`: the radio contacts of the conference, or all of them when none is given. */
    function GetRadioContacts(conferenceId: Option<string>, faults: seq<Thrown>)
      : (r: Result<seq<Row<RadioContact>>, DatabaseError>)
      reads this
      ensures Settled(r, faults, "getRadioContacts")
      ensures r.Ok? ==> forall row :: multiset(r.value)[row]
                                      == if InScope(row.data.conferenceId, conferenceId) then multiset(radioContacts)[row] else 0
    {
      Access(faults, Scoped(radioContacts, (c: RadioContact) => c.conferenceId, conferenceId), "getRadioContacts")
    }

    /** `getVenueInfo`: the venue information of the conference, or all of it when none is given. */
    function GetVenueInfo(conferenceId: Option<string>, faults: seq<Thrown>)
      : (r: Result<seq<Row<VenueInfo>>, DatabaseError>)
      reads this
      ensures Settled(r, faults, "getVenueInfo")
      ensures r.Ok? ==> forall row :: multiset(r.value)[row]
                                      == if InScope(row.data.conferenceId, conferenceId) then multiset(venueInfo)[row] else 0
    {
      Access(faults, Scoped(venueInfo, (v: VenueInfo) => v.conferenceId, conferenceId), "getVenueInfo")
    }

    /* Bookmarks */

    /**
      `getUserBookmarks`: the session ids the user has bookmarked, in the
      conference when a non-empty one is given, one per bookmark row, in table order.
     */
    function GetUserBookmarks(userId: string, conferenceId: Option<string>, faults: seq<Thrown>)
      : (r: Result<seq<string>, DatabaseError>)
      reads this
      ensures Settled(r, faults, "getUserBookmarks")
      ensures r.Ok? ==> r.value == ListedSessions(bookmarks, userId, conferenceId)
      ensures r.Ok? ==> forall s :: s in r.value <==>
                          exists row :: row in bookmarks && Listed(row, userId, conferenceId) && row.data.sessionId == s
    {
      Access(faults, BookmarkedSessions(bookmarks, userId, conferenceId), "getUserBookmarks")
    }

    /**
      `addBookmark`: the triple is inserted under the next key unless a row
      already holds it; a table without duplicate triples keeps none.
     */
    method AddBookmark(userId: string, conferenceId: string, sessionId: string, faults: seq<Thrown>)
      returns (r: Result<(), DatabaseError>)
      requires Valid()
      modifies this`bookmarks, this`nextKey
      ensures Valid()
      ensures Settled(r, faults, "addBookmark")
      ensures bookmarks == if r.Ok? then WithBookmark(old(bookmarks), Bookmark(userId, conferenceId, sessionId), KeyOf(old(nextKey)))
                           else old(bookmarks)
      ensures nextKey == old(nextKey) + (|bookmarks| - |old(bookmarks)|)
      ensures old(NoDuplicateTriples(bookmarks)) ==> NoDuplicateTriples(bookmarks)
    {
      var b := Bookmark(userId, conferenceId, sessionId);
      var result, _, _ := WithRetry(Flaky(faults, ()));
      r := Settle(result, "addBookmark");
      assert r == Access(faults, (), "addBookmark");
      if r.Ok? {
        if NoDuplicateTriples(bookmarks) {
          BookmarkUpdatesKeepTriplesUnique(bookmarks, b, KeyOf(nextKey));
        }
        WithBookmarkInsertsWhenAbsent(bookmarks, b, KeyOf(nextKey));
        var existing := Filter(bookmarks, (row: Row<Bookmark>) => row.data == b);
        if |existing| == 0 {
          InsertBookmark(b);
        }
      }
    }

    /** The insert of `addBookmark`: the triple goes in under the next key, which no row holds yet. */
    method InsertBookmark(b: Bookmark)
      requires Valid()
      modifies this`bookmarks, this`nextKey
      ensures Valid()
      ensures bookmarks == old(bookmarks) + [Row(KeyOf(old(nextKey)), b)] && nextKey == old(nextKey) + 1
      ensures forall row :: row in old(bookmarks) ==> row.id != KeyOf(old(nextKey))
    {
      WellKeyedAppend(bookmarks, nextKey, b);
      KeysIssuedRaise(Snapshot(), nextKey + 1);
      bookmarks := bookmarks + [Row(KeyOf(nextKey), b)];
      nextKey := nextKey + 1;
    }

    /** `removeBookmark`: every row holding the triple is deleted, and nothing else. */
    method RemoveBookmark(userId: string, conferenceId: string, sessionId: string, faults: seq<Thrown>)
      returns (r: Result<(), DatabaseError>)
      requires Valid()
      modifies this`bookmarks
      ensures Valid()
      ensures Settled(r, faults, "removeBookmark")
      ensures bookmarks == if r.Ok? then WithoutBookmark(old(bookmarks), Bookmark(userId, conferenceId, sessionId))
                           else old(bookmarks)
      ensures old(NoDuplicateTriples(bookmarks)) ==> NoDuplicateTriples(bookmarks)
    {
      var b := Bookmark(userId, conferenceId, sessionId);
      var result, _, _ := WithRetry(Flaky(faults, ()));
      r := Settle(result, "removeBookmark");
      assert r == Access(faults, (), "removeBookmark");
      if r.Ok? {
        if NoDuplicateTriples(bookmarks) {
          BookmarkUpdatesKeepTriplesUnique(bookmarks, b, KeyOf(nextKey));
        }
        WellKeyedFilter(bookmarks, nextKey, HoldsOther(b));
        bookmarks := WithoutBookmark(bookmarks, b);
      }
    }

    /* Surveys */

    /** `getUserSurveyResponses`: the user's survey responses, each as often as the table holds it. */
    function GetUserSurveyResponses(userId: string, faults: seq<Thrown>)
      : (r: Result<seq<Row<SurveyResponse>>, DatabaseError>)
      reads this
      ensures Settled(r, faults, "getUserSurveyResponses")
      ensures r.Ok? ==> forall row :: multiset(r.value)[row]
                                      == if row.data.userId == userId then multiset(surveyResponses)[row] else 0
    {
      Access(faults, Filter(surveyResponses, (row: Row<SurveyResponse>) => row.data.userId == userId),
             "getUserSurveyResponses")
    }

    /** `submitSurvey`: the response is appended under the next key and returned. */
    method SubmitSurvey(response: SurveyResponse, faults: seq<Thrown>)
      returns (r: Result<Row<SurveyResponse>, DatabaseError>)
      requires Valid()
      modifies this`surveyResponses, this`nextKey
      ensures Valid()
      ensures Settled(r, faults, "submitSurvey")
      ensures r.Ok? ==> r.value == Row(KeyOf(old(nextKey)), response)
      ensures r.Ok? ==> forall row :: row in old(surveyResponses) ==> row.id != r.value.id
      ensures r.Ok? ==> surveyResponses == old(surveyResponses) + [r.value] && nextKey == old(nextKey) + 1
      ensures r.Err? ==> surveyResponses == old(surveyResponses) && nextKey == old(nextKey)
    {
      var row := Row(KeyOf(nextKey), response);
      var result, _, _ := WithRetry(Flaky(faults, row));
      r := Settle(result, "submitSurvey");
      assert r == Access(faults, row, "submitSurvey");
      if r.Ok? {
        InsertSurveyResponse(response);
      }
    }

    /** The insert itself: the record goes in under the next key, which no row holds yet. */
    method InsertSurveyResponse(response: SurveyResponse)
      requires Valid()
      modifies this`surveyResponses, this`nextKey
      ensures Valid()
      ensures surveyResponses == old(surveyResponses) + [Row(KeyOf(old(nextKey)), response)] && nextKey == old(nextKey) + 1
      ensures forall row :: row in old(surveyResponses) ==> row.id != KeyOf(old(nextKey))
    {
      WellKeyedAppend(surveyResponses, nextKey, response);
      KeysIssuedRaise(Snapshot(), nextKey + 1);
      surveyResponses := surveyResponses + [Row(KeyOf(nextKey), response)];
      nextKey := nextKey + 1;
    }

    /**
      `getSurveyResponse`: a response of the user to the survey type, or
      nothing when the user has not answered it.
     */
    function GetSurveyResponse(userId: string, surveyType: string, faults: seq<Thrown>)
      : (r: Result<Option<Row<SurveyResponse>>, DatabaseError>)
      reads this
      ensures Settled(r, faults, "getSurveyResponse")
      ensures r.Ok? ==> (r.value.None? <==> forall row :: row in surveyResponses ==>
                                              !(row.data.userId == userId && row.data.surveyType == surveyType))
      ensures r.Ok? && r.value.Some? ==>
                && r.value.value in surveyResponses
                && r.value.value.data.userId == userId && r.value.value.data.surveyType == surveyType
    {
      Access(faults, First(surveyResponses, (row: Row<SurveyResponse>) =>
                             row.data.userId == userId && row.data.surveyType == surveyType),
             "getSurveyResponse")
    }

    /* Seeding */

    /**
      `seedDatabase`: phase 1 under one retry loop, then phase 2 under
      another; a failed phase ends the run, and no failure reaches the caller.
     */
    method SeedDatabase(conferenceFaults: seq<Thrown>, dataFaults: seq<Thrown>, now: int)
      requires Valid()
      modifies this
      ensures Valid()
      ensures Snapshot() == Seeded(old(Snapshot()), conferenceFaults, dataFaults, now)
    {
      SeedPhasesWith(conferenceFaults, dataFaults, SampleFor(now));
    }

    /** The two phases of `seedDatabase`, for any rows phase 2 would insert for a conference key. */
    method SeedPhasesWith(conferenceFaults: seq<Thrown>, dataFaults: seq<Thrown>, data: string -> ReferenceData)
      requires Valid()
      modifies this
      ensures Valid()
      ensures Snapshot() == SeedPhases(old(Snapshot()), GoesThrough(conferenceFaults), GoesThrough(dataFaults), data)
    {
      var ok := SeedConferencePhase(conferenceFaults);
      if ok {
        SeedDataPhase(dataFaults, data);
      }
    }

    /** Phase 1: under its retry loop, insert Pacificon into an empty conference table. */
    method SeedConferencePhase(faults: seq<Thrown>) returns (ok: bool)
      requires Valid()
      modifies this`conferences, this`nextKey
      ensures Valid()
      ensures ok == GoesThrough(faults)
      ensures Snapshot() == if ok then SeedConferences(old(Snapshot())) else old(Snapshot())
    {
      var result, _, _ := WithRetry(Flaky(faults, ()));
      ok := result.Ok?;
      SeedConferencesKeysIssued(Snapshot());
      if ok && |conferences| == 0 {
        conferences := [Row(KeyOf(nextKey), Pacificon)];
        nextKey := nextKey + 1;
      }
    }

    /**
      Phase 2: under its retry loop, when there are no sessions and the
      Pacificon conference exists, insert the reference data linked to it.
     */
    method SeedDataPhase(faults: seq<Thrown>, data: string -> ReferenceData)
      requires Valid()
      modifies this
      ensures Valid()
      ensures Snapshot() == if GoesThrough(faults) then SeedReferenceData(old(Snapshot()), data) else old(Snapshot())
    {
      var result, _, _ := WithRetry(Flaky(faults, ()));
      if result.Err? || |sessions| > 0 {
        return;
      }
      var target := SeedTarget(conferences);
      if target.None? {
        return;
      }
      InsertReferenceDataKeysIssued(Snapshot(), data(target.value.id));
      InsertReferenceRows(InsertReferenceData(Snapshot(), data(target.value.id)));
    }

    /**
      The seven inserts of phase 2, given the database they produce: the
      tables they fill take their rows from `seeded`, the others keep theirs.
     */
    method InsertReferenceRows(seeded: Tables)
      requires seeded.conferences == conferences && seeded.users == users
      requires seeded.bookmarks == bookmarks && seeded.surveyResponses == surveyResponses
      modifies this`sessions, this`vendors, this`radioContacts, this`venueInfo
      modifies this`doorPrizes, this`tHuntingWinners, this`tHuntingSchedule, this`nextKey
      ensures Snapshot() == seeded
    {
      sessions, vendors, radioContacts, venueInfo := seeded.sessions, seeded.vendors, seeded.radioContacts, seeded.venueInfo;
      doorPrizes, tHuntingWinners, tHuntingSchedule := seeded.doorPrizes, seeded.tHuntingWinners, seeded.tHuntingSchedule;
      nextKey := seeded.nextKey;
    }

  }
}
