/**
  The bookmark table as `addBookmark`, `removeBookmark` and `getUserBookmarks`
  (server/storage.ts) change and read it. A bookmark is the triple
  (userId, conferenceId, sessionId); rows also carry a generated key.
 */
module Bookmarks {
  import opened Wrappers
  import opened Seqs
  import opened Schema
  import opened Queries

  /** Listing the records of two stretches of rows lists each stretch in turn. */
  lemma ValuesAppend<T>(a: seq<Row<T>>, b: seq<Row<T>>)
    ensures Values(a + b) == Values(a) + Values(b)
  {
    assert forall i :: 0 <= i < |a + b| ==> Values(a + b)[i] == (Values(a) + Values(b))[i];
  }

  /**
    The table after a successful `addBookmark`: the select finds the rows
    holding the triple, and the insert (with key `id`) runs only when there are none.
   */
  function WithBookmark(rows: seq<Row<Bookmark>>, b: Bookmark, id: string): (r: seq<Row<Bookmark>>)
    ensures b in Values(r)
    ensures |rows| <= |r| && r[..|rows|] == rows
  {
    var existing := Filter(rows, (row: Row<Bookmark>) => row.data == b);
    if |existing| == 0 then
      assert b !in Values(rows) by {
        forall i | 0 <= i < |rows| ensures rows[i].data != b {
          assert rows[i] in rows;
        }
      }
      var r := rows + [Row(id, b)];
      assert r[|rows|] == Row(id, b);
      r
    else
      var row := existing[0];
      assert row in existing;
      var i :| 0 <= i < |rows| && rows[i] == row;
      assert Values(rows)[i] == b;
      assert rows[..|rows|] == rows;
      rows
  }

  /** Adding inserts a row exactly when the triple was absent. */
  lemma WithBookmarkInsertsWhenAbsent(rows: seq<Row<Bookmark>>, b: Bookmark, id: string)
    ensures b in Values(rows) ==> WithBookmark(rows, b, id) == rows
    ensures b !in Values(rows) ==> WithBookmark(rows, b, id) == rows + [Row(id, b)]
  {
    var existing := Filter(rows, (row: Row<Bookmark>) => row.data == b);
    if b in Values(rows) {
      var i :| 0 <= i < |rows| && Values(rows)[i] == b;
      assert rows[i] in existing;
    }
  }

  /**
    After adding, the triple is held by exactly one row if it was absent and by
    as many rows as before if it was present; every other triple keeps its count.
   */
  lemma AddBookmarkCounts(rows: seq<Row<Bookmark>>, b: Bookmark, id: string)
    ensures multiset(Values(WithBookmark(rows, b, id)))[b]
            == if b in Values(rows) then multiset(Values(rows))[b] else 1
    ensures forall x :: x != b ==> multiset(Values(WithBookmark(rows, b, id)))[x] == multiset(Values(rows))[x]
  {
    WithBookmarkInsertsWhenAbsent(rows, b, id);
    if b !in Values(rows) {
      assert Values(WithBookmark(rows, b, id)) == Values(rows) + [b] by {
        ValuesAppend(rows, [Row(id, b)]);
        assert Values([Row(id, b)]) == [b];
      }
      assert multiset(Values(rows) + [b]) == multiset(Values(rows)) + multiset{b};
    }
  }

  /** A second `addBookmark` of the same triple changes nothing. */
  lemma AddBookmarkTwice(rows: seq<Row<Bookmark>>, b: Bookmark, id1: string, id2: string)
    ensures WithBookmark(WithBookmark(rows, b, id1), b, id2) == WithBookmark(rows, b, id1)
  {
    WithBookmarkInsertsWhenAbsent(WithBookmark(rows, b, id1), b, id2);
  }

  /** The condition of the delete: the row holds some other triple than `b`. */
  function HoldsOther(b: Bookmark): Row<Bookmark> -> bool {
    (row: Row<Bookmark>) => row.data != b
  }

  /** The triple is some other triple than `b`. */
  function Other(b: Bookmark): Bookmark -> bool {
    (x: Bookmark) => x != b
  }

  /** The table after `removeBookmark`: every row holding the triple is deleted. */
  function WithoutBookmark(rows: seq<Row<Bookmark>>, b: Bookmark): (r: seq<Row<Bookmark>>)
    ensures b !in Values(r)
  {
    var r := Filter(rows, HoldsOther(b));
    assert forall i :: 0 <= i < |r| ==> r[i] in r;
    r
  }

  /** Deleting rows by their triple deletes the triple from the listed records, in order. */
  lemma {:induction false} WithoutBookmarkValues(rows: seq<Row<Bookmark>>, b: Bookmark)
    ensures Values(WithoutBookmark(rows, b)) == Filter(Values(rows), Other(b))
    decreases |rows|
  {
    if rows != [] {
      var init, last := rows[..|rows| - 1], rows[|rows| - 1];
      assert rows == init + [last];
      WithoutBookmarkValues(init, b);
      ValuesAppend(init, [last]);
      assert Values([last]) == [last.data];
      FilterSnoc(Values(init), last.data, Other(b));
      FilterSnoc(init, last, HoldsOther(b));
      if last.data != b {
        ValuesAppend(WithoutBookmark(init, b), [last]);
        calc {
          Values(WithoutBookmark(rows, b));
          Values(WithoutBookmark(init, b) + [last]);
          Values(WithoutBookmark(init, b)) + [last.data];
          Filter(Values(init), Other(b)) + [last.data];
          Filter(Values(init) + [last.data], Other(b));
        }
      } else {
        calc {
          Values(WithoutBookmark(rows, b));
          Values(WithoutBookmark(init, b));
          Filter(Values(init), Other(b));
          Filter(Values(init) + [last.data], Other(b));
        }
      }
    }
  }

  /** Removing deletes every copy of the triple and keeps the count of every other triple. */
  lemma RemoveBookmarkCounts(rows: seq<Row<Bookmark>>, b: Bookmark)
    ensures multiset(Values(WithoutBookmark(rows, b)))[b] == 0
    ensures forall x :: x != b ==> multiset(Values(WithoutBookmark(rows, b)))[x] == multiset(Values(rows))[x]
  {
    WithoutBookmarkValues(rows, b);
  }

  /** Removing a triple that no row holds leaves the table exactly as it was. */
  lemma RemoveMissingBookmark(rows: seq<Row<Bookmark>>, b: Bookmark)
    requires b !in Values(rows)
    ensures WithoutBookmark(rows, b) == rows
  {
    forall row | row in rows ensures row.data != b {
      var i :| 0 <= i < |rows| && rows[i] == row;
      assert Values(rows)[i] == row.data;
    }
    FilterAll(rows, HoldsOther(b));
  }

  /** Adding then removing a triple is the same as only removing it. */
  lemma RemoveUndoesAdd(rows: seq<Row<Bookmark>>, b: Bookmark, id: string)
    ensures WithoutBookmark(WithBookmark(rows, b, id), b) == WithoutBookmark(rows, b)
  {
    WithBookmarkInsertsWhenAbsent(rows, b, id);
    if b !in Values(rows) {
      var grown := rows + [Row(id, b)];
      assert grown[..|grown| - 1] == rows;
    }
  }

  /** No triple is held by two rows. */
  ghost predicate NoDuplicateTriples(rows: seq<Row<Bookmark>>) {
    forall x :: multiset(Values(rows))[x] <= 1
  }

  /** Check-then-insert and delete keep a duplicate-free table duplicate-free. */
  lemma BookmarkUpdatesKeepTriplesUnique(rows: seq<Row<Bookmark>>, b: Bookmark, id: string)
    requires NoDuplicateTriples(rows)
    ensures NoDuplicateTriples(WithBookmark(rows, b, id))
    ensures NoDuplicateTriples(WithoutBookmark(rows, b))
  {
    AddBookmarkCounts(rows, b, id);
    RemoveBookmarkCounts(rows, b);
  }

  /** A row counts for `getUserBookmarks(userId, conferenceId)`. */
  predicate Listed(row: Row<Bookmark>, userId: string, conferenceId: Option<string>) {
    row.data.userId == userId && InScope(row.data.conferenceId, conferenceId)
  }

  /** The where-clause of `getUserBookmarks`, as a condition on rows. */
  function ListedBy(userId: string, conferenceId: Option<string>): Row<Bookmark> -> bool {
    (row: Row<Bookmark>) => Listed(row, userId, conferenceId)
  }

  /** The selected column: the row's session id. */
  function SessionOf(row: Row<Bookmark>): string {
    row.data.sessionId
  }

  /**
    What the query returns, read row by row: one entry for each listed row,
    in table order, and nothing for the others.
   */
  ghost function ListedSessions(rows: seq<Row<Bookmark>>, userId: string, conferenceId: Option<string>): seq<string>
    decreases |rows|
  {
    if rows == [] then []
    else
      var last := rows[|rows| - 1];
      ListedSessions(rows[..|rows| - 1], userId, conferenceId)
        + if Listed(last, userId, conferenceId) then [last.data.sessionId] else []
  }

  /** Filtering the rows and selecting the session id gives the row-by-row reading. */
  lemma {:induction false} SelectedSessions(rows: seq<Row<Bookmark>>, userId: string, conferenceId: Option<string>)
    ensures Map(Filter(rows, ListedBy(userId, conferenceId)), SessionOf) == ListedSessions(rows, userId, conferenceId)
    decreases |rows|
  {
    if rows != [] {
      var init, last := rows[..|rows| - 1], rows[|rows| - 1];
      assert rows == init + [last];
      MapFilterSnoc(init, last, ListedBy(userId, conferenceId), SessionOf);
      SelectedSessions(init, userId, conferenceId);
    }
  }

  /**
    `getUserBookmarks`: the session ids of the user's bookmark rows, restricted
    to one conference when a non-empty `conferenceId` is given, in table order,
    one entry per row.
   */
  function BookmarkedSessions(rows: seq<Row<Bookmark>>, userId: string, conferenceId: Option<string>)
    : (r: seq<string>)
    ensures r == ListedSessions(rows, userId, conferenceId)
    ensures forall s :: s in r <==> exists row :: row in rows && Listed(row, userId, conferenceId) && row.data.sessionId == s
  {
    SelectedSessions(rows, userId, conferenceId);
    SelectedMembers(rows, userId, conferenceId);
    Map(Filter(rows, ListedBy(userId, conferenceId)), SessionOf)
  }

  /** A session id is selected exactly when a listed row holds it. */
  lemma SelectedMembers(rows: seq<Row<Bookmark>>, userId: string, conferenceId: Option<string>)
    ensures var r := Map(Filter(rows, ListedBy(userId, conferenceId)), SessionOf);
            forall s :: s in r <==> exists row :: row in rows && Listed(row, userId, conferenceId) && row.data.sessionId == s
  {
    var mine := Filter(rows, ListedBy(userId, conferenceId));
    var r := Map(mine, SessionOf);
    forall s | s in r ensures exists row :: row in rows && Listed(row, userId, conferenceId) && row.data.sessionId == s {
      var i :| 0 <= i < |r| && r[i] == s;
      assert mine[i] in mine;
    }
    forall row | row in rows && Listed(row, userId, conferenceId) ensures row.data.sessionId in r {
      assert row in mine;
      var i :| 0 <= i < |mine| && mine[i] == row;
      assert r[i] == row.data.sessionId;
    }
  }

  /**
    For one conference, a session is listed as often as the user's bookmark
    triple for it occurs in the table.
   */
  lemma {:induction false} ListedSessionsCount(rows: seq<Row<Bookmark>>, userId: string, conferenceId: string, s: string)
    requires conferenceId != ""
    ensures multiset(ListedSessions(rows, userId, Some(conferenceId)))[s]
            == multiset(Values(rows))[Bookmark(userId, conferenceId, s)]
    decreases |rows|
  {
    if rows != [] {
      var init, last := rows[..|rows| - 1], rows[|rows| - 1];
      assert Values(rows) == Values(init) + [last.data] by {
        assert rows == init + [last];
        ValuesAppend(init, [last]);
        assert Values([last]) == [last.data];
      }
      ListedSessionsCount(init, userId, conferenceId, s);
    }
  }

  /** With no duplicate triples, a conference's listing names each session at most once. */
  lemma BookmarkedSessionsOnce(rows: seq<Row<Bookmark>>, userId: string, conferenceId: string, s: string)
    requires NoDuplicateTriples(rows) && conferenceId != ""
    ensures multiset(BookmarkedSessions(rows, userId, Some(conferenceId)))[s] <= 1
  {
    ListedSessionsCount(rows, userId, conferenceId, s);
  }

  /** Once `addBookmark` succeeds, the session is listed among the user's bookmarks for that conference. */
  lemma AddedBookmarkIsListed(rows: seq<Row<Bookmark>>, b: Bookmark, id: string)
    ensures b.sessionId in BookmarkedSessions(WithBookmark(rows, b, id), b.userId, Some(b.conferenceId))
    ensures b.sessionId in BookmarkedSessions(WithBookmark(rows, b, id), b.userId, None)
  {
    var r := WithBookmark(rows, b, id);
    var i :| 0 <= i < |r| && Values(r)[i] == b;
    assert r[i] in r && Listed(r[i], b.userId, Some(b.conferenceId)) && Listed(r[i], b.userId, None);
  }

  /**
    Once `removeBookmark` has run, the session is no longer listed for that
    conference, and every other session's listing is unaffected.
   */
  lemma RemovedBookmarkIsNotListed(rows: seq<Row<Bookmark>>, b: Bookmark)
    requires b.conferenceId != ""
    ensures b.sessionId !in BookmarkedSessions(WithoutBookmark(rows, b), b.userId, Some(b.conferenceId))
  {
    var r := WithoutBookmark(rows, b);
    forall row | row in r && Listed(row, b.userId, Some(b.conferenceId)) ensures row.data.sessionId != b.sessionId {
      var i :| 0 <= i < |r| && r[i] == row;
      assert Values(r)[i] == row.data;
    }
  }

  /** Removing one triple leaves every other session's listing as it was. */
  lemma RemoveKeepsOtherSessions(rows: seq<Row<Bookmark>>, b: Bookmark, userId: string,
                                 conferenceId: Option<string>, s: string)
    requires s != b.sessionId
    ensures s in BookmarkedSessions(WithoutBookmark(rows, b), userId, conferenceId)
            <==> s in BookmarkedSessions(rows, userId, conferenceId)
  {
    if s in BookmarkedSessions(rows, userId, conferenceId) {
      var row :| row in rows && Listed(row, userId, conferenceId) && row.data.sessionId == s;
      assert row in WithoutBookmark(rows, b);
    }
  }
}
