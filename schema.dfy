/**
  Record shapes of the database tables. Every table has a generated primary
  key, kept beside the record in `Row`; every table except `users` and
  `conferences` carries the `conferenceId` of the conference it belongs to.
  Dates and timestamps are opaque: dates as strings, timestamps as integers
  (milliseconds) so that they can be ordered.
 */
module Schema {
  import opened Wrappers
  import opened Text
  import opened Seqs

  /** A stored row: its generated key and its record. */
  datatype Row<T> = Row(id: string, data: T)

  /**
    The key generated for the `n`-th inserted row. The database draws random
    UUIDs; a counter rendered in decimal stands in for them.
   */
  function KeyOf(n: nat): string {
    NatToDecimal(n)
  }

  /** Two counter values with the same key are equal: generated keys never collide. */
  lemma KeyOfInjective(m: nat, n: nat)
    requires KeyOf(m) == KeyOf(n)
    ensures m == n
  {
    NatToDecimalInjective(m, n);
  }

  /** One multi-row insert: the records with consecutive generated keys from `first` on. */
  function Stamp<T>(items: seq<T>, first: nat): (r: seq<Row<T>>)
    ensures |r| == |items|
    ensures forall i :: 0 <= i < |items| ==> r[i] == Row(KeyOf(first + i), items[i])
  {
    seq(|items|, i requires 0 <= i < |items| => Row(KeyOf(first + i), items[i]))
  }

  /** `id` is a key the counter handed out before it reached `bound`. */
  ghost predicate Issued(id: string, bound: nat) {
    exists k: nat :: k < bound && id == KeyOf(k)
  }

  /** Every key of the table was handed out before `bound`, and no two rows share a key. */
  ghost predicate WellKeyed<T>(rows: seq<Row<T>>, bound: nat) {
    && (forall i :: 0 <= i < |rows| ==> Issued(rows[i].id, bound))
    && (forall i, j :: 0 <= i < j < |rows| ==> rows[i].id != rows[j].id)
  }

  /** A key handed out before `bound` is none of the keys handed out from `bound` on. */
  lemma IssuedIsNotFresh(id: string, bound: nat, extra: nat)
    requires Issued(id, bound)
    ensures id != KeyOf(bound + extra)
  {
    var k: nat :| k < bound && id == KeyOf(k);
    assert DecimalValue(id) == k < bound + extra == DecimalValue(KeyOf(bound + extra));
  }

  /** Keys handed out before `bound` were handed out before any later bound too. */
  lemma WellKeyedRaise<T>(rows: seq<Row<T>>, bound: nat, later: nat)
    requires WellKeyed(rows, bound) && bound <= later
    ensures WellKeyed(rows, later)
  {
    forall i | 0 <= i < |rows| ensures Issued(rows[i].id, later) {
      assert Issued(rows[i].id, bound);
      var k: nat :| k < bound && rows[i].id == KeyOf(k);
    }
  }

  /** Inserting rows under the next keys keeps the keys issued and distinct. */
  lemma WellKeyedStamp<T>(rows: seq<Row<T>>, bound: nat, items: seq<T>)
    requires WellKeyed(rows, bound)
    ensures WellKeyed(rows + Stamp(items, bound), bound + |items|)
  {
    var later := bound + |items|;
    var stamped := Stamp(items, bound);
    var r := rows + stamped;
    WellKeyedRaise(rows, bound, later);
    forall i | 0 <= i < |r| ensures Issued(r[i].id, later) {
      if i < |rows| {
        assert r[i] == rows[i];
      } else {
        assert r[i].id == KeyOf(bound + (i - |rows|));
      }
    }
    forall i, j | 0 <= i < j < |r| ensures r[i].id != r[j].id {
      if j >= |rows| {
        assert r[j].id == KeyOf(bound + (j - |rows|));
        if i < |rows| {
          assert r[i] == rows[i];
          IssuedIsNotFresh(r[i].id, bound, j - |rows|);
        } else {
          assert DecimalValue(r[i].id) == bound + (i - |rows|) < bound + (j - |rows|) == DecimalValue(r[j].id);
        }
      }
    }
  }

  /** An insert under keys from `bound` on, into a table keyed below `early <= bound`, stays below `last`. */
  lemma WellKeyedInsert<T>(rows: seq<Row<T>>, early: nat, bound: nat, items: seq<T>, last: nat)
    requires WellKeyed(rows, early) && early <= bound && bound + |items| <= last
    ensures WellKeyed(rows + Stamp(items, bound), last)
  {
    WellKeyedRaise(rows, early, bound);
    WellKeyedStamp(rows, bound, items);
    WellKeyedRaise(rows + Stamp(items, bound), bound + |items|, last);
  }

  /** Appending one row under the next key keeps the keys issued and distinct, and the new key is unused. */
  lemma WellKeyedAppend<T>(rows: seq<Row<T>>, bound: nat, x: T)
    requires WellKeyed(rows, bound)
    ensures WellKeyed(rows + [Row(KeyOf(bound), x)], bound + 1)
    ensures forall row :: row in rows ==> row.id != KeyOf(bound)
  {
    assert Stamp([x], bound) == [Row(KeyOf(bound), x)];
    WellKeyedStamp(rows, bound, [x]);
    forall row | row in rows ensures row.id != KeyOf(bound) {
      var k :| 0 <= k < |rows| && rows[k] == row;
      IssuedIsNotFresh(row.id, bound, 0);
    }
  }

  /** Rewriting rows in place under their own keys keeps the keys issued and distinct. */
  lemma WellKeyedSameKeys<T>(rows: seq<Row<T>>, r: seq<Row<T>>, bound: nat)
    requires WellKeyed(rows, bound)
    requires |r| == |rows| && forall i :: 0 <= i < |rows| ==> r[i].id == rows[i].id
    ensures WellKeyed(r, bound)
  {
  }

  /** Appending a row whose key is issued and unused keeps the table well keyed. */
  lemma WellKeyedSnoc<T>(rows: seq<Row<T>>, x: Row<T>, bound: nat)
    requires WellKeyed(rows, bound) && Issued(x.id, bound)
    requires forall row :: row in rows ==> row.id != x.id
    ensures WellKeyed(rows + [x], bound)
  {
    var r := rows + [x];
    forall i | 0 <= i < |r| ensures Issued(r[i].id, bound) {
      if i < |rows| {
        assert r[i] == rows[i];
      }
    }
    forall i, j | 0 <= i < j < |r| ensures r[i].id != r[j].id {
      if j == |rows| {
        assert r[i] in rows;
      } else {
        assert r[i] == rows[i] && r[j] == rows[j];
      }
    }
  }

  /** A prefix of a well-keyed table is well keyed. */
  lemma WellKeyedPrefix<T>(rows: seq<Row<T>>, n: nat, bound: nat)
    requires WellKeyed(rows, bound) && n <= |rows|
    ensures WellKeyed(rows[..n], bound)
  {
    forall i | 0 <= i < n ensures Issued(rows[..n][i].id, bound) {
      assert rows[..n][i] == rows[i];
    }
  }

  /** The last row's key is issued and held by no row taken from before it. */
  lemma LastKeyUnused<T>(rows: seq<Row<T>>, bound: nat, earlier: seq<Row<T>>)
    requires WellKeyed(rows, bound) && |rows| > 0
    requires forall row :: row in earlier ==> row in rows[..|rows| - 1]
    ensures Issued(rows[|rows| - 1].id, bound)
    ensures forall row :: row in earlier ==> row.id != rows[|rows| - 1].id
  {
    forall row | row in earlier ensures row.id != rows[|rows| - 1].id {
      var k :| 0 <= k < |rows| - 1 && rows[..|rows| - 1][k] == row;
      assert rows[k] == row;
    }
  }

  /** Deleting rows keeps the remaining keys issued and distinct. */
  lemma {:induction false} WellKeyedFilter<T(!new)>(rows: seq<Row<T>>, bound: nat, keep: Row<T> -> bool)
    requires WellKeyed(rows, bound)
    ensures WellKeyed(Filter(rows, keep), bound)
    decreases |rows|
  {
    if rows != [] {
      var init, last := rows[..|rows| - 1], rows[|rows| - 1];
      assert rows == init + [last];
      WellKeyedPrefix(rows, |rows| - 1, bound);
      WellKeyedFilter(init, bound, keep);
      FilterSnoc(init, last, keep);
      if keep(last) {
        var kept := Filter(init, keep);
        LastKeyUnused(rows, bound, kept);
        WellKeyedSnoc(kept, last, bound);
      }
    }
  }

  /** The records of a table, without their keys. */
  function Values<T>(rows: seq<Row<T>>): (r: seq<T>)
    ensures |r| == |rows|
    ensures forall i :: 0 <= i < |rows| ==> r[i] == rows[i].data
  {
    seq(|rows|, i requires 0 <= i < |rows| => rows[i].data)
  }

  datatype Conference = Conference(
    slug: string,
    name: string,
    year: int,
    location: string,
    startDate: string,
    endDate: string,
    division: string,
    gridSquare: string,
    gps: string,
    locationAddress: string,
    logoUrl: string,
    faviconUrl: string,
    primaryColor: string,
    accentColor: string,
    isActive: bool)

  /** A partial conference record (`Partial<Conference>`): the fields to overwrite. */
  datatype ConferencePatch = ConferencePatch(
    slug: Option<string> := None,
    name: Option<string> := None,
    year: Option<int> := None,
    location: Option<string> := None,
    startDate: Option<string> := None,
    endDate: Option<string> := None,
    division: Option<string> := None,
    gridSquare: Option<string> := None,
    gps: Option<string> := None,
    locationAddress: Option<string> := None,
    logoUrl: Option<string> := None,
    faviconUrl: Option<string> := None,
    primaryColor: Option<string> := None,
    accentColor: Option<string> := None,
    isActive: Option<bool> := None)

  /** The fields of a user that the profile reads; any of them may be null. */
  datatype User = User(
    firstName: Option<string>,
    lastName: Option<string>,
    callSign: Option<string>,
    badgeNumber: Option<string>,
    licenseClass: Option<string>,
    isRegistered: Option<bool>)

  datatype UserProfile = UserProfile(
    callSign: string,
    name: string,
    badgeNumber: string,
    licenseClass: string,
    isRegistered: bool)

  datatype Session = Session(
    conferenceId: string,
    title: string,
    speaker: string,
    speakerBio: Option<string>,
    abstractText: Option<string>,  // `abstract` in the table
    day: string,
    startTime: string,
    endTime: string,
    room: string,
    category: string)

  datatype Vendor = Vendor(
    conferenceId: string,
    name: string,
    boothNumber: string,
    category: string,
    description: string,
    website: Option<string>)

  datatype DoorPrize = DoorPrize(
    conferenceId: string,
    badgeNumber: string,
    callSign: string,
    prizeName: string,
    timestamp: int,
    claimed: bool)

  datatype THuntingSchedule = THuntingSchedule(
    conferenceId: string,
    huntNumber: int,
    startTime: string,
    location: string,
    difficulty: string,
    registrationOpen: bool)

  datatype THuntingWinner = THuntingWinner(
    conferenceId: string,
    rank: int,
    callSign: string,
    completionTime: string,
    huntNumber: int,
    prize: Option<string>)

  datatype RadioContact = RadioContact(
    conferenceId: string,
    kind: string,
    frequency: string,
    title: string,  // `label` in the table
    notes: Option<string>)

  datatype VenueInfo = VenueInfo(
    conferenceId: string,
    category: string,
    title: string,
    details: string,
    hours: Option<string>)

  datatype Bookmark = Bookmark(userId: string, conferenceId: string, sessionId: string)

  /** A survey submission; the free-form answers are an opaque key/value document. */
  datatype SurveyResponse = SurveyResponse(
    userId: string,
    conferenceId: string,
    surveyType: string,
    responses: map<string, string>,
    timestamp: int,
    completed: bool)

  /** The whole database: every table, and the counter behind generated keys. */
  datatype Tables = Tables(
    conferences: seq<Row<Conference>>,
    users: seq<Row<User>>,
    sessions: seq<Row<Session>>,
    bookmarks: seq<Row<Bookmark>>,
    vendors: seq<Row<Vendor>>,
    doorPrizes: seq<Row<DoorPrize>>,
    tHuntingSchedule: seq<Row<THuntingSchedule>>,
    tHuntingWinners: seq<Row<THuntingWinner>>,
    radioContacts: seq<Row<RadioContact>>,
    venueInfo: seq<Row<VenueInfo>>,
    surveyResponses: seq<Row<SurveyResponse>>,
    nextKey: nat)

  /**
    Every table of `t` holds only keys the counter handed out before
    `t.nextKey`, each at most once: the next key generated is fresh.
   */
  ghost predicate KeysIssued(t: Tables) {
    && WellKeyed(t.conferences, t.nextKey) && WellKeyed(t.users, t.nextKey)
    && WellKeyed(t.sessions, t.nextKey) && WellKeyed(t.bookmarks, t.nextKey)
    && WellKeyed(t.vendors, t.nextKey) && WellKeyed(t.doorPrizes, t.nextKey)
    && WellKeyed(t.tHuntingSchedule, t.nextKey) && WellKeyed(t.tHuntingWinners, t.nextKey)
    && WellKeyed(t.radioContacts, t.nextKey) && WellKeyed(t.venueInfo, t.nextKey)
    && WellKeyed(t.surveyResponses, t.nextKey)
  }

  /** Moving the counter forward keeps every key issued. */
  lemma KeysIssuedRaise(t: Tables, later: nat)
    requires KeysIssued(t) && t.nextKey <= later
    ensures KeysIssued(t.(nextKey := later))
  {
    WellKeyedRaise(t.conferences, t.nextKey, later);
    WellKeyedRaise(t.users, t.nextKey, later);
    WellKeyedRaise(t.sessions, t.nextKey, later);
    WellKeyedRaise(t.bookmarks, t.nextKey, later);
    WellKeyedRaise(t.vendors, t.nextKey, later);
    WellKeyedRaise(t.doorPrizes, t.nextKey, later);
    WellKeyedRaise(t.tHuntingSchedule, t.nextKey, later);
    WellKeyedRaise(t.tHuntingWinners, t.nextKey, later);
    WellKeyedRaise(t.radioContacts, t.nextKey, later);
    WellKeyedRaise(t.venueInfo, t.nextKey, later);
    WellKeyedRaise(t.surveyResponses, t.nextKey, later);
  }

  /** Stamping new sessions with the next keys keeps every table well keyed. */
  lemma KeysIssuedAddSessions(t: Tables, items: seq<Session>)
    requires KeysIssued(t)
    ensures KeysIssued(t.(sessions := t.sessions + Stamp(items, t.nextKey), nextKey := t.nextKey + |items|))
  {
    WellKeyedStamp(t.sessions, t.nextKey, items);
    KeysIssuedRaise(t, t.nextKey + |items|);
  }

  /** A database with no rows. */
  const EmptyTables: Tables := Tables([], [], [], [], [], [], [], [], [], [], [], 0)

  /** The empty database holds no key at all. */
  lemma EmptyTablesKeysIssued()
    ensures KeysIssued(EmptyTables)
  {
  }
}
