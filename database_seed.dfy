/**
  What `seedDatabase` (server/storage.ts) inserts, and when. It runs two
  phases, each one query under `withRetry` with the default policy, and both
  inside one try block whose catch only logs:
    1. when the conferences table is empty, insert the Pacificon 2025 conference;
    2. when the sessions table is empty and a conference with slug
       "pacificon-2025" exists, insert the sample sessions, vendors, radio
       contacts, venue information, door prizes, T-hunt winners and T-hunt
       schedule, all linked to the first such conference.
  A failure of phase 1 skips phase 2; no failure reaches the caller.
  `now` stands for `Date.now()` in milliseconds.
 */
module DatabaseSeed {
  import opened Wrappers
  import opened Seqs
  import opened DbUtils
  import opened Schema
  import opened Queries

  const PacificonSlug: string := "pacificon-2025"

  /** The conference phase 1 inserts. */
  const Pacificon: Conference := Conference(
    PacificonSlug, "Pacificon", 2025, "San Ramon Marriott", "2025-10-10", "2025-10-12T23:59:59",
    "Pacific", "CM87us", "37.7631, -121.9736", "2600 Bishop Dr, San Ramon, CA 94583",
    "https://raw.githubusercontent.com/pacificon/example-assets/main/pacificon-logo.png",
    "/favicon-pacificon.ico", "#1e40af", "#f97316", true)

  /*
    The sample rows phase 2 inserts, as the source lists them, with the
    conference key left empty; door-prize timestamps are relative to `now`.
   */

  const SampleSessions: seq<Session> := [
    Session("", "Advanced Antenna Design for DX Communications", "John Smith, W6ABC",
            Some("John has been designing antennas for over 30 years and holds multiple patents."),
            Some("Learn advanced techniques for designing antennas optimized for long-distance communications."),
            "friday", "09:00", "10:30", "Grand Ballroom A", "Antennas"),
    Session("", "Introduction to Digital Mode Operations", "Sarah Johnson, K6DEF",
            Some("Sarah specializes in digital communications and teaches classes at her local club."),
            Some("Get started with FT8, PSK31, and other popular digital modes."),
            "friday", "09:00", "10:00", "Conference Room 1", "Digital Modes"),
    Session("", "ARRL Update and Legislative Matters", "Mike Davis, N6GHI", None, None,
            "friday", "11:00", "12:00", "Grand Ballroom B", "ARRL"),
    Session("", "Building QRP Transceivers", "Tom Wilson, KJ6LMN", None,
            Some("Hands-on workshop building low-power radio equipment."),
            "saturday", "10:00", "11:30", "Workshop Area", "QRP"),
    Session("", "Contest Operating Techniques", "Lisa Brown, W6OPQ", None, None,
            "saturday", "14:00", "15:30", "Grand Ballroom A", "Contesting"),
    Session("", "Emergency Communications Fundamentals", "Robert Chen, WA6EMC", None,
            Some("Learn how amateur radio supports disaster relief and emergency services."),
            "sunday", "09:00", "10:30", "Grand Ballroom A", "Emergency Comms")]

  const SampleVendors: seq<Vendor> := [
    Vendor("", "Ham Radio Outlet", "12", "Equipment",
           "Complete line of amateur radio transceivers, antennas, and accessories", Some("https://www.hamradio.com")),
    Vendor("", "DX Engineering", "15", "Antennas",
           "Premium antenna systems and tower accessories for serious operators", Some("https://www.dxengineering.com")),
    Vendor("", "Elecraft", "8", "QRP Equipment",
           "High-performance portable and QRP transceivers and accessories", Some("https://www.elecraft.com"))]

  const SampleRadioContacts: seq<RadioContact> := [
    RadioContact("", "talk-in", "146.850 MHz", "Conference Talk-In", Some("PL 100.0 Hz, -0.6 MHz offset")),
    RadioContact("", "simplex", "146.520 MHz", "National Simplex", Some("Primary calling frequency")),
    RadioContact("", "qrp", "7.030 MHz", "QRP CW", Some("40m band activity")),
    RadioContact("", "qrp", "14.060 MHz", "QRP SSB", Some("20m band activity"))]

  const SampleVenueInfo: seq<VenueInfo> := [
    VenueInfo("", "hotel", "San Ramon Marriott", "2600 Bishop Drive, San Ramon, CA 94583 • (925) 867-9200",
              Some("Check-in: 4:00 PM • Check-out: 12:00 PM")),
    VenueInfo("", "parking", "Hotel Parking",
              "Free parking available for conference attendees who book at Pacificon rate", None),
    VenueInfo("", "registration", "Registration Desk", "Main lobby near Grand Ballroom entrance",
              Some("Fri 7AM-5PM • Sat 6AM-4PM • Sun 7:30AM-11AM")),
    VenueInfo("", "testing", "License Testing", "Conference Room 2 • Bring photo ID and $15 test fee",
              Some("Saturday 10:00 AM - 2:00 PM"))]

  /** Three prizes drawn one, two and three hours before `now`. */
  const SampleDoorPrizes: seq<DoorPrize> := [
    DoorPrize("", "147", "W6ABC", "Handheld VHF/UHF Transceiver", -3600000, false),
    DoorPrize("", "89", "K6DEF", "Antenna Analyzer", -7200000, true),
    DoorPrize("", "256", "N6GHI", "Power Supply 25A", -10800000, false)]

  const SampleWinners: seq<THuntingWinner> := [
    THuntingWinner("", 1, "K6XYZ", "24:35", 1, Some("Portable Antenna Kit")),
    THuntingWinner("", 2, "W6LMN", "28:42", 1, Some("RF Attenuator Set")),
    THuntingWinner("", 3, "N6OPQ", "31:15", 1, Some("Coax Cable Kit")),
    THuntingWinner("", 4, "KJ6RST", "35:20", 1, None)]

  const SampleHunts: seq<THuntingSchedule> := [
    THuntingSchedule("", 1, "Saturday 2:00 PM", "Hotel Parking Lot - South End", "easy", false),
    THuntingSchedule("", 2, "Saturday 4:00 PM", "Hotel Grounds", "medium", true),
    THuntingSchedule("", 3, "Sunday 10:00 AM", "TBD", "hard", true)]

  /** The rows phase 2 inserts, one sequence per table, linked to one conference. */
  datatype ReferenceData = ReferenceData(
    sessions: seq<Session>,
    vendors: seq<Vendor>,
    radioContacts: seq<RadioContact>,
    venueInfo: seq<VenueInfo>,
    doorPrizes: seq<DoorPrize>,
    tHuntingWinners: seq<THuntingWinner>,
    tHuntingSchedule: seq<THuntingSchedule>)

  /** The sample rows of the source, linked to conference key `cid`, door prizes dated from `now`. */
  function SampleData(cid: string, now: int): ReferenceData {
    ReferenceData(
      Map(SampleSessions, (s: Session) => s.(conferenceId := cid)),
      Map(SampleVendors, (v: Vendor) => v.(conferenceId := cid)),
      Map(SampleRadioContacts, (c: RadioContact) => c.(conferenceId := cid)),
      Map(SampleVenueInfo, (v: VenueInfo) => v.(conferenceId := cid)),
      PrizesFor(cid, now),
      WinnersFor(cid),
      Map(SampleHunts, (h: THuntingSchedule) => h.(conferenceId := cid)))
  }

  /** The sample door prizes linked to `cid`, dated from `now`. */
  function PrizesFor(cid: string, now: int): seq<DoorPrize> {
    Map(SampleDoorPrizes, (p: DoorPrize) => p.(conferenceId := cid, timestamp := now + p.timestamp))
  }

  /** The sample T-hunt winners linked to `cid`. */
  function WinnersFor(cid: string): seq<THuntingWinner> {
    Map(SampleWinners, (w: THuntingWinner) => w.(conferenceId := cid))
  }

  /** The sample door prizes are an hour apart, newest first. */
  lemma PrizesForNewestFirst(cid: string, now: int)
    ensures var prizes := PrizesFor(cid, now);
            |prizes| == 3 && prizes[0].timestamp > prizes[1].timestamp > prizes[2].timestamp
  {
  }

  /** The sample T-hunt winners hold ranks 1 to 4, in that order. */
  lemma WinnersForRanked(cid: string)
    ensures var winners := WinnersFor(cid);
            |winners| == 4 && forall i :: 0 <= i < 4 ==> winners[i].rank == i + 1
  {
  }

  lemma SampleSessionsSize() ensures |SampleSessions| == 6 {}
  lemma SampleVendorsSize() ensures |SampleVendors| == 3 {}
  lemma SampleRadioContactsSize() ensures |SampleRadioContacts| == 4 {}
  lemma SampleVenueInfoSize() ensures |SampleVenueInfo| == 4 {}
  lemma SampleDoorPrizesSize() ensures |SampleDoorPrizes| == 3 {}
  lemma SampleWinnersSize() ensures |SampleWinners| == 4 {}
  lemma SampleHuntsSize() ensures |SampleHunts| == 3 {}

  /** How many rows of each kind the sample holds: 27 in all. */
  lemma SampleSizes()
    ensures |SampleSessions| == 6 && |SampleVendors| == 3 && |SampleRadioContacts| == 4
    ensures |SampleVenueInfo| == 4 && |SampleDoorPrizes| == 3 && |SampleWinners| == 4 && |SampleHunts| == 3
  {
    SampleSessionsSize();
    SampleVendorsSize();
    SampleRadioContactsSize();
    SampleVenueInfoSize();
    SampleDoorPrizesSize();
    SampleWinnersSize();
    SampleHuntsSize();
  }

  /** Phase 1, once its query succeeds: the conference goes in only when the table has no row at all. */
  function SeedConferences(t: Tables): (r: Tables)
    ensures |r.conferences| >= 1
    ensures t.conferences <= r.conferences && |r.conferences| <= |t.conferences| + 1
    ensures r.(conferences := t.conferences, nextKey := t.nextKey) == t
  {
    if |t.conferences| == 0 then
      t.(conferences := [Row(KeyOf(t.nextKey), Pacificon)], nextKey := t.nextKey + 1)
    else t
  }

  /** The seven inserts of phase 2, in the order they run, each taking the next keys. */
  function InsertReferenceData(t: Tables, d: ReferenceData): Tables {
    var k0 := t.nextKey;
    var k1 := k0 + |d.sessions|;
    var k2 := k1 + |d.vendors|;
    var k3 := k2 + |d.radioContacts|;
    var k4 := k3 + |d.venueInfo|;
    var k5 := k4 + |d.doorPrizes|;
    var k6 := k5 + |d.tHuntingWinners|;
    t.(sessions := t.sessions + Stamp(d.sessions, k0),
       vendors := t.vendors + Stamp(d.vendors, k1),
       radioContacts := t.radioContacts + Stamp(d.radioContacts, k2),
       venueInfo := t.venueInfo + Stamp(d.venueInfo, k3),
       doorPrizes := t.doorPrizes + Stamp(d.doorPrizes, k4),
       tHuntingWinners := t.tHuntingWinners + Stamp(d.tHuntingWinners, k5),
       tHuntingSchedule := t.tHuntingSchedule + Stamp(d.tHuntingSchedule, k6),
       nextKey := k6 + |d.tHuntingSchedule|)
  }

  /** The row phase 2 links to: the first conference with the Pacificon slug. */
  function SeedTarget(conferences: seq<Row<Conference>>): (r: Option<Row<Conference>>)
    ensures r.None? <==> forall row :: row in conferences ==> row.data.slug != PacificonSlug
    ensures r.Some? ==> r.value in conferences && r.value.data.slug == PacificonSlug
  {
    First(conferences, (row: Row<Conference>) => row.data.slug == PacificonSlug)
  }

  /** Phase 2, once its query succeeds: nothing when sessions exist or the conference is missing. */
  function SeedReferenceData(t: Tables, data: string -> ReferenceData): (r: Tables)
    ensures |t.sessions| > 0 || SeedTarget(t.conferences).None? ==> r == t
    ensures r.conferences == t.conferences && r.users == t.users && r.bookmarks == t.bookmarks
            && r.surveyResponses == t.surveyResponses
    ensures t.sessions <= r.sessions
  {
    if |t.sessions| > 0 then t
    else
      match SeedTarget(t.conferences)
      case None => t
      case Some(conference) => InsertReferenceData(t, data(conference.id))
  }

  /**
    The database after the two phases, given whether each phase's query went
    through and what phase 2 inserts for a conference key; a failed phase 1
    throws before phase 2 starts.
   */
  function SeedPhases(t: Tables, conferencePhaseOk: bool, dataPhaseOk: bool, data: string -> ReferenceData): (r: Tables)
    ensures !conferencePhaseOk ==> r == t
    ensures conferencePhaseOk ==> |r.conferences| >= 1
    ensures !dataPhaseOk ==> r.sessions == t.sessions
  {
    if !conferencePhaseOk then t
    else if !dataPhaseOk then SeedConferences(t)
    else SeedReferenceData(SeedConferences(t), data)
  }

  /** What phase 2 inserts for a conference key, with door prizes dated from `now`. */
  function SampleFor(now: int): string -> ReferenceData {
    (cid: string) => SampleData(cid, now)
  }

  /** The database after `seedDatabase`, given each phase's fault script and the clock. */
  function Seeded(t: Tables, conferenceFaults: seq<Thrown>, dataFaults: seq<Thrown>, now: int): (r: Tables)
    ensures !GoesThrough(conferenceFaults) ==> r == t
    ensures GoesThrough(conferenceFaults) ==> |r.conferences| >= 1
    ensures r.users == t.users && r.bookmarks == t.bookmarks && r.surveyResponses == t.surveyResponses
  {
    SeedPhases(t, GoesThrough(conferenceFaults), GoesThrough(dataFaults), SampleFor(now))
  }

  /** Each table of `t` is a prefix of the same table in `u`: only rows were appended. */
  ghost predicate Grows(t: Tables, u: Tables) {
    && t.conferences <= u.conferences && t.users == u.users && t.sessions <= u.sessions
    && t.bookmarks == u.bookmarks && t.vendors <= u.vendors && t.doorPrizes <= u.doorPrizes
    && t.tHuntingSchedule <= u.tHuntingSchedule && t.tHuntingWinners <= u.tHuntingWinners
    && t.radioContacts <= u.radioContacts && t.venueInfo <= u.venueInfo
    && t.surveyResponses == u.surveyResponses && t.nextKey <= u.nextKey
  }

  /** Phase 1 hands Pacificon the next key, which no row holds yet. */
  lemma SeedConferencesKeysIssued(t: Tables)
    requires KeysIssued(t)
    ensures KeysIssued(SeedConferences(t))
  {
    if |t.conferences| == 0 {
      assert [Row(KeyOf(t.nextKey), Pacificon)] == t.conferences + [Row(KeyOf(t.nextKey), Pacificon)];
      WellKeyedAppend(t.conferences, t.nextKey, Pacificon);
      KeysIssuedRaise(t, t.nextKey + 1);
    }
  }

  /** The seven inserts of phase 2 take fresh keys, one after another. */
  lemma InsertReferenceDataKeysIssued(t: Tables, d: ReferenceData)
    requires KeysIssued(t)
    ensures KeysIssued(InsertReferenceData(t, d))
  {
    var u := InsertReferenceData(t, d);
    var k0 := t.nextKey;
    var k1 := k0 + |d.sessions|;
    var k2 := k1 + |d.vendors|;
    var k3 := k2 + |d.radioContacts|;
    var k4 := k3 + |d.venueInfo|;
    var k5 := k4 + |d.doorPrizes|;
    var k6 := k5 + |d.tHuntingWinners|;
    var last := u.nextKey;
    assert u.sessions == t.sessions + Stamp(d.sessions, k0);
    assert u.vendors == t.vendors + Stamp(d.vendors, k1);
    assert u.radioContacts == t.radioContacts + Stamp(d.radioContacts, k2);
    assert u.venueInfo == t.venueInfo + Stamp(d.venueInfo, k3);
    assert u.doorPrizes == t.doorPrizes + Stamp(d.doorPrizes, k4);
    assert u.tHuntingWinners == t.tHuntingWinners + Stamp(d.tHuntingWinners, k5);
    assert u.tHuntingSchedule == t.tHuntingSchedule + Stamp(d.tHuntingSchedule, k6);
    assert u.conferences == t.conferences && u.users == t.users && u.bookmarks == t.bookmarks;
    assert u.surveyResponses == t.surveyResponses;
    WellKeyedRaise(t.conferences, k0, last);
    WellKeyedRaise(t.users, k0, last);
    WellKeyedRaise(t.bookmarks, k0, last);
    WellKeyedRaise(t.surveyResponses, k0, last);
    WellKeyedInsert(t.sessions, k0, k0, d.sessions, last);
    WellKeyedInsert(t.vendors, k0, k1, d.vendors, last);
    WellKeyedInsert(t.radioContacts, k0, k2, d.radioContacts, last);
    WellKeyedInsert(t.venueInfo, k0, k3, d.venueInfo, last);
    WellKeyedInsert(t.doorPrizes, k0, k4, d.doorPrizes, last);
    WellKeyedInsert(t.tHuntingWinners, k0, k5, d.tHuntingWinners, last);
    WellKeyedInsert(t.tHuntingSchedule, k0, k6, d.tHuntingSchedule, last);
  }

  /** Seeding keeps every key issued by the counter and unique within its table. */
  lemma SeedKeysIssued(t: Tables, conferencePhaseOk: bool, dataPhaseOk: bool, data: string -> ReferenceData)
    requires KeysIssued(t)
    ensures KeysIssued(SeedPhases(t, conferencePhaseOk, dataPhaseOk, data))
  {
    SeedConferencesKeysIssued(t);
    var c := SeedConferences(t);
    if |c.sessions| == 0 && SeedTarget(c.conferences).Some? {
      InsertReferenceDataKeysIssued(c, data(SeedTarget(c.conferences).value.id));
    }
  }

  /** Seeding never changes or deletes a row, and never touches users, bookmarks or surveys. */
  lemma SeedOnlyAppends(t: Tables, conferencePhaseOk: bool, dataPhaseOk: bool, data: string -> ReferenceData)
    ensures Grows(t, SeedPhases(t, conferencePhaseOk, dataPhaseOk, data))
  {
    var afterConferences := SeedConferences(t);
    assert Grows(t, afterConferences);
    if conferencePhaseOk && dataPhaseOk && |afterConferences.sessions| == 0 {
      var target := SeedTarget(afterConferences.conferences);
      if target.Some? {
        var u := InsertReferenceData(afterConferences, data(target.value.id));
        assert Grows(afterConferences, u);
      }
    }
  }

  /**
    A database that already has a conference and a session is left exactly as
    it is, whichever phases go through.
   */
  lemma SeedSkipsPopulatedDatabase(t: Tables, conferencePhaseOk: bool, dataPhaseOk: bool,
                                   data: string -> ReferenceData)
    requires |t.conferences| > 0 && |t.sessions| > 0
    ensures SeedPhases(t, conferencePhaseOk, dataPhaseOk, data) == t
  {
  }

  /**
    A run in which both phases went through, inserting at least one session
    whenever it inserts reference data, leaves a database that a later run does
    not change, whichever of its phases go through and whatever it would insert.
   */
  lemma SeedIdempotent(t: Tables, data: string -> ReferenceData, conferencePhaseOk: bool, dataPhaseOk: bool,
                       laterData: string -> ReferenceData)
    requires forall cid :: |data(cid).sessions| > 0
    ensures var once := SeedPhases(t, true, true, data);
            SeedPhases(once, conferencePhaseOk, dataPhaseOk, laterData) == once
  {
    var afterConferences := SeedConferences(t);
    var once := SeedReferenceData(afterConferences, data);
    assert once.conferences == afterConferences.conferences;
    assert SeedConferences(once) == once;
    var target := SeedTarget(afterConferences.conferences);
    if |afterConferences.sessions| == 0 && target.Some? {
      assert |data(target.value.id).sessions| > 0;
      assert |once.sessions| > 0;
    }
  }

  /** `seedDatabase` twice: when the first run's phases both went through, the second changes nothing. */
  lemma SeedTwice(t: Tables, f1: seq<Thrown>, f2: seq<Thrown>, now: int, g1: seq<Thrown>, g2: seq<Thrown>, later: int)
    requires GoesThrough(f1) && GoesThrough(f2)
    ensures Seeded(Seeded(t, f1, f2, now), g1, g2, later) == Seeded(t, f1, f2, now)
  {
    SampleSessionsSize();
    SeedIdempotent(t, SampleFor(now), GoesThrough(g1), GoesThrough(g2), SampleFor(later));
  }

  /**
    Seeding an empty database with no failures creates the one active
    Pacificon conference under the first key, and links the 27 sample rows to
    it, each table's rows under consecutive keys.
   */
  lemma SeedEmptyDatabase(now: int)
    ensures var t := Seeded(EmptyTables, [], [], now);
            var d := SampleData(KeyOf(0), now);
            && t.conferences == [Row(KeyOf(0), Pacificon)]
            && t.sessions == Stamp(d.sessions, 1)
            && t.vendors == Stamp(d.vendors, 7)
            && t.radioContacts == Stamp(d.radioContacts, 10)
            && t.venueInfo == Stamp(d.venueInfo, 14)
            && t.doorPrizes == Stamp(d.doorPrizes, 18)
            && t.tHuntingWinners == Stamp(d.tHuntingWinners, 21)
            && t.tHuntingSchedule == Stamp(d.tHuntingSchedule, 25)
            && t.nextKey == 28
  {
    NoFaultsGoThrough();
    SampleSizes();
    var afterConferences := SeedConferences(EmptyTables);
    assert afterConferences.conferences == [Row(KeyOf(0), Pacificon)];
    assert SeedTarget(afterConferences.conferences) == Some(Row(KeyOf(0), Pacificon)) by {
      assert afterConferences.conferences[0].data.slug == PacificonSlug;
    }
  }

  /**
    When the conference exists but sessions are missing (say a first run's
    second phase failed), a run whose phases go through fills in the reference
    data, linked to the first Pacificon conference, without adding a conference.
   */
  lemma SeedCompletesPartialSeed(t: Tables, data: string -> ReferenceData, target: Row<Conference>)
    requires |t.sessions| == 0 && SeedTarget(t.conferences) == Some(target)
    ensures var u := SeedPhases(t, true, true, data);
            && u.conferences == t.conferences
            && u.sessions == Stamp(data(target.id).sessions, t.nextKey)
  {
    assert |t.conferences| > 0 by {
      assert target in t.conferences;
    }
    assert [] + Stamp(data(target.id).sessions, t.nextKey) == Stamp(data(target.id).sessions, t.nextKey);
  }

  /** Every sample row is linked to the conference it was seeded for. */
  lemma SampleDataLinked(cid: string, now: int)
    ensures var d := SampleData(cid, now);
            && (forall s :: s in d.sessions ==> s.conferenceId == cid)
            && (forall v :: v in d.vendors ==> v.conferenceId == cid)
            && (forall c :: c in d.radioContacts ==> c.conferenceId == cid)
            && (forall v :: v in d.venueInfo ==> v.conferenceId == cid)
            && (forall p :: p in d.doorPrizes ==> p.conferenceId == cid)
            && (forall w :: w in d.tHuntingWinners ==> w.conferenceId == cid)
            && (forall h :: h in d.tHuntingSchedule ==> h.conferenceId == cid)
  {
    var d := SampleData(cid, now);
    forall s | s in d.sessions ensures s.conferenceId == cid {
      var i :| 0 <= i < |d.sessions| && d.sessions[i] == s;
    }
    forall v | v in d.vendors ensures v.conferenceId == cid {
      var i :| 0 <= i < |d.vendors| && d.vendors[i] == v;
    }
    forall c | c in d.radioContacts ensures c.conferenceId == cid {
      var i :| 0 <= i < |d.radioContacts| && d.radioContacts[i] == c;
    }
    forall v | v in d.venueInfo ensures v.conferenceId == cid {
      var i :| 0 <= i < |d.venueInfo| && d.venueInfo[i] == v;
    }
    forall p | p in d.doorPrizes ensures p.conferenceId == cid {
      var i :| 0 <= i < |d.doorPrizes| && d.doorPrizes[i] == p;
    }
    forall w | w in d.tHuntingWinners ensures w.conferenceId == cid {
      var i :| 0 <= i < |d.tHuntingWinners| && d.tHuntingWinners[i] == w;
    }
    forall h | h in d.tHuntingSchedule ensures h.conferenceId == cid {
      var i :| 0 <= i < |d.tHuntingSchedule| && d.tHuntingSchedule[i] == h;
    }
  }

  /** With conferences present but none of them Pacificon, no reference data is ever inserted. */
  lemma SeedWithoutPacificon(t: Tables, conferencePhaseOk: bool, dataPhaseOk: bool, data: string -> ReferenceData)
    requires |t.conferences| > 0 && forall row :: row in t.conferences ==> row.data.slug != PacificonSlug
    ensures SeedPhases(t, conferencePhaseOk, dataPhaseOk, data) == t
  {
  }

  /** The seeded door prizes are already newest first, so `getDoorPrizes` lists them in insertion order. */
  lemma SeededPrizesNewestFirst(cid: string, now: int, first: nat)
    ensures var rows := Stamp(SampleData(cid, now).doorPrizes, first);
            SortBy(rows, NewestFirst) == rows
  {
    PrizesForNewestFirst(cid, now);
    var rows := Stamp(PrizesFor(cid, now), first);
    assert SortedBy(rows, NewestFirst) by {
      assert NewestFirst(rows[0]) < NewestFirst(rows[1]) < NewestFirst(rows[2]);
    }
    SortBySorted(rows, NewestFirst);
  }

  /** The seeded T-hunt winners are already in rank order 1 to 4. */
  lemma SeededWinnersByRank(cid: string, now: int, first: nat)
    ensures var rows := Stamp(SampleData(cid, now).tHuntingWinners, first);
            && SortBy(rows, RankOrder) == rows
            && |rows| == 4 && forall i :: 0 <= i < 4 ==> rows[i].data.rank == i + 1
  {
    WinnersForRanked(cid);
    var rows := Stamp(WinnersFor(cid), first);
    assert SortedBy(rows, RankOrder) by {
      assert RankOrder(rows[0]) < RankOrder(rows[1]) < RankOrder(rows[2]) < RankOrder(rows[3]);
    }
    SortBySorted(rows, RankOrder);
  }
}
