/**
 The notification inbox: keyset pages, newest first, and the cursor that leads from one page
 to the next.
 */
module Inbox {
  import opened Wrappers

  type Id = string

  /** Creation times have the column's precision, microseconds. */
  datatype Notification = Notification(id: Id, userId: Id, tenantId: Id, createdAt: int)

  /** What is left of a time that passes through a JavaScript `Date`: whole milliseconds. */
  function Millis(time: int): int {
    time / 1000 * 1000
  }

  lemma MillisOrder(a: int, b: int)
    requires a >= b
    ensures Millis(b) <= b && Millis(b) <= Millis(a)
    ensures Millis(a) != Millis(b) <==> b < Millis(a)
  {
  }

  /** The primary key of the table. */
  predicate DistinctIds(table: seq<Notification>) {
    forall i, j :: 0 <= i < j < |table| ==> table[i].id != table[j].id
  }

  function OwnedBy(table: seq<Notification>, userId: Id, tenantId: Id): seq<Notification> {
    if table == [] then []
    else
      (if table[0].userId == userId && table[0].tenantId == tenantId then [table[0]] else [])
      + OwnedBy(table[1..], userId, tenantId)
  }

  function InsertNewestFirst(row: Notification, rows: seq<Notification>): seq<Notification> {
    if rows == [] then [row]
    else if rows[0].createdAt <= row.createdAt then [row] + rows
    else [rows[0]] + InsertNewestFirst(row, rows[1..])
  }

  function NewestFirst(rows: seq<Notification>): seq<Notification> {
    if rows == [] then [] else InsertNewestFirst(rows[0], NewestFirst(rows[1..]))
  }

  /** The user's rows in the order of the query. */
  function SortedInbox(table: seq<Notification>, userId: Id, tenantId: Id): seq<Notification> {
    NewestFirst(OwnedBy(table, userId, tenantId))
  }

  function OlderThan(rows: seq<Notification>, time: int): seq<Notification> {
    if rows == [] then []
    else (if rows[0].createdAt < time then [rows[0]] else []) + OlderThan(rows[1..], time)
  }

  /** The creation time of the cursor row, looked up by id among all rows and read as a `Date`. */
  function CursorTime(table: seq<Notification>, cursor: Option<Id>): Option<int> {
    if cursor.None? || table == [] then None
    else if table[0].id == cursor.value then Some(Millis(table[0].createdAt))
    else CursorTime(table[1..], cursor)
  }

  /** The rows a page is cut from; an unknown cursor adds no condition. */
  function Candidates(table: seq<Notification>, userId: Id, tenantId: Id, cursor: Option<Id>): seq<Notification> {
    var time := CursorTime(table, cursor);
    var inbox := SortedInbox(table, userId, tenantId);
    if time.Some? then OlderThan(inbox, time.value) else inbox
  }

  function Take(rows: seq<Notification>, n: nat): seq<Notification> {
    if |rows| <= n then rows else rows[..n]
  }

  /** The repository reads one row more than the page holds. */
  function FindByUser(table: seq<Notification>, userId: Id, tenantId: Id, limit: nat,
      cursor: Option<Id>): seq<Notification> {
    Take(Candidates(table, userId, tenantId, cursor), limit + 1)
  }

  datatype Page = Page(notifications: seq<Notification>, nextCursor: Option<Id>)

  function List(table: seq<Notification>, userId: Id, tenantId: Id, limit: nat, cursor: Option<Id>): Page {
    var rows := FindByUser(table, userId, tenantId, limit, cursor);
    var hasMore := |rows| > limit;
    var data := if hasMore then rows[..limit] else rows;
    Page(data, if hasMore && |data| > 0 then Some(data[|data| - 1].id) else None)
  }

  // ---------------------------------------------------------------------------
  // The order of the inbox
  // ---------------------------------------------------------------------------

  predicate Descending(rows: seq<Notification>) {
    forall i, j :: 0 <= i < j < |rows| ==> rows[i].createdAt >= rows[j].createdAt
  }

  lemma {:induction false} InsertKeepsRows(row: Notification, rows: seq<Notification>)
    ensures multiset(InsertNewestFirst(row, rows)) == multiset(rows) + multiset{row}
    decreases |rows|
  {
    if rows != [] {
      assert rows == [rows[0]] + rows[1..];
      InsertKeepsRows(row, rows[1..]);
    }
  }

  lemma {:induction false} InsertKeepsOrder(row: Notification, rows: seq<Notification>)
    requires Descending(rows)
    ensures Descending(InsertNewestFirst(row, rows))
    decreases |rows|
  {
    if rows != [] && rows[0].createdAt > row.createdAt {
      InsertKeepsOrder(row, rows[1..]);
      InsertKeepsRows(row, rows[1..]);
      var rest := InsertNewestFirst(row, rows[1..]);
      forall k | 0 <= k < |rest|
        ensures rest[k].createdAt <= rows[0].createdAt
      {
        assert rest[k] in multiset(rest);
        if rest[k] != row {
          var j :| 0 <= j < |rows[1..]| && rows[1..][j] == rest[k];
          assert rows[j + 1] == rest[k];
        }
      }
    }
  }

  lemma {:induction false} SortKeepsRows(rows: seq<Notification>)
    ensures multiset(NewestFirst(rows)) == multiset(rows)
    decreases |rows|
  {
    if rows != [] {
      SortKeepsRows(rows[1..]);
      InsertKeepsRows(rows[0], NewestFirst(rows[1..]));
      assert rows == [rows[0]] + rows[1..];
    }
  }

  lemma {:induction false} SortDescends(rows: seq<Notification>)
    ensures Descending(NewestFirst(rows))
    decreases |rows|
  {
    if rows != [] {
      SortDescends(rows[1..]);
      InsertKeepsOrder(rows[0], NewestFirst(rows[1..]));
    }
  }

  /** The inbox is exactly the user's rows, newest first. */
  lemma SortedIsWholeInbox(rows: seq<Notification>)
    ensures Descending(NewestFirst(rows)) && multiset(NewestFirst(rows)) == multiset(rows)
  {
    SortKeepsRows(rows);
    SortDescends(rows);
  }

  lemma {:induction false} OwnedRows(table: seq<Notification>, userId: Id, tenantId: Id, row: Notification)
    ensures row in OwnedBy(table, userId, tenantId) <==>
            row in table && row.userId == userId && row.tenantId == tenantId
    decreases |table|
  {
    if table != [] {
      OwnedRows(table[1..], userId, tenantId, row);
      assert table == [table[0]] + table[1..];
    }
  }

  lemma {:induction false} CursorOfRow(table: seq<Notification>, row: Notification)
    requires DistinctIds(table) && row in table
    ensures CursorTime(table, Some(row.id)) == Some(Millis(row.createdAt))
    decreases |table|
  {
    assert table == [table[0]] + table[1..];
    if table[0] != row {
      CursorOfRow(table[1..], row);
      var k :| 0 <= k < |table[1..]| && table[1..][k] == row;
      assert table[k + 1] == row;
    }
  }

  /** Every row of the inbox leads its own cursor back to its creation time. */
  lemma CursorOfInboxRow(table: seq<Notification>, userId: Id, tenantId: Id, row: Notification)
    requires DistinctIds(table) && row in SortedInbox(table, userId, tenantId)
    ensures CursorTime(table, Some(row.id)) == Some(Millis(row.createdAt))
  {
    var owned := OwnedBy(table, userId, tenantId);
    SortedIsWholeInbox(owned);
    assert row in multiset(owned);
    OwnedRows(table, userId, tenantId, row);
    CursorOfRow(table, row);
  }

  // ---------------------------------------------------------------------------
  // Rows older than a time
  // ---------------------------------------------------------------------------

  lemma {:induction false} OlderOfConcat(a: seq<Notification>, b: seq<Notification>, time: int)
    ensures OlderThan(a + b, time) == OlderThan(a, time) + OlderThan(b, time)
    decreases |a|
  {
    if a == [] {
      assert a + b == b;
    } else {
      assert (a + b)[1..] == a[1..] + b;
      OlderOfConcat(a[1..], b, time);
    }
  }

  lemma {:induction false} AllOlder(rows: seq<Notification>, time: int)
    requires forall i :: 0 <= i < |rows| ==> rows[i].createdAt < time
    ensures OlderThan(rows, time) == rows
    decreases |rows|
  {
    if rows != [] {
      AllOlder(rows[1..], time);
    }
  }

  lemma {:induction false} NoneOlder(rows: seq<Notification>, time: int)
    requires forall i :: 0 <= i < |rows| ==> rows[i].createdAt >= time
    ensures OlderThan(rows, time) == []
    decreases |rows|
  {
    if rows != [] {
      NoneOlder(rows[1..], time);
    }
  }

  lemma {:induction false} OlderRows(rows: seq<Notification>, time: int)
    ensures |OlderThan(rows, time)| <= |rows|
    ensures forall r :: r in OlderThan(rows, time) ==> r in rows && r.createdAt < time
    decreases |rows|
  {
    if rows != [] {
      OlderRows(rows[1..], time);
    }
  }

  lemma {:induction false} OlderDescend(rows: seq<Notification>, time: int)
    requires Descending(rows)
    ensures Descending(OlderThan(rows, time))
    decreases |rows|
  {
    if rows != [] {
      var rest := OlderThan(rows[1..], time);
      OlderDescend(rows[1..], time);
      OlderRows(rows[1..], time);
      assert forall k :: 0 <= k < |rest| ==> rest[k] in rest;
      assert forall r :: r in rows[1..] ==> r.createdAt <= rows[0].createdAt;
    }
  }

  lemma {:induction false} OlderTwice(rows: seq<Notification>, time: int, earlier: int)
    requires earlier <= time
    ensures OlderThan(OlderThan(rows, time), earlier) == OlderThan(rows, earlier)
    decreases |rows|
  {
    if rows != [] {
      OlderTwice(rows[1..], time, earlier);
      var head := if rows[0].createdAt < time then [rows[0]] else [];
      OlderOfConcat(head, OlderThan(rows[1..], time), earlier);
      if rows[0].createdAt < time {
        assert OlderThan([rows[0]], earlier) == if rows[0].createdAt < earlier then [rows[0]] else [];
      }
    }
  }

  /** Of descending rows, at most those after index `k` are older than a time up to that of row `k`. */
  lemma OlderThanRow(rows: seq<Notification>, k: nat, time: int)
    requires Descending(rows) && k < |rows| && time <= rows[k].createdAt
    ensures OlderThan(rows, time) == OlderThan(rows[k + 1..], time)
    ensures |OlderThan(rows, time)| <= |rows| - (k + 1)
  {
    NoneOlder(rows[..k + 1], time);
    OlderOfConcat(rows[..k + 1], rows[k + 1..], time);
    assert rows == rows[..k + 1] + rows[k + 1..];
    OlderRows(rows[k + 1..], time);
  }

  // ---------------------------------------------------------------------------
  // Following the cursors
  // ---------------------------------------------------------------------------

  lemma CandidatesDescend(table: seq<Notification>, userId: Id, tenantId: Id, cursor: Option<Id>)
    ensures var c := Candidates(table, userId, tenantId, cursor);
            Descending(c) && forall r :: r in c ==> r in SortedInbox(table, userId, tenantId)
  {
    SortedIsWholeInbox(OwnedBy(table, userId, tenantId));
    var time := CursorTime(table, cursor);
    if time.Some? {
      OlderRows(SortedInbox(table, userId, tenantId), time.value);
      OlderDescend(SortedInbox(table, userId, tenantId), time.value);
    }
  }

  /** A page is the first `limit` candidates; a longer rest gives a cursor. */
  lemma PageOfCandidates(table: seq<Notification>, userId: Id, tenantId: Id, limit: nat, cursor: Option<Id>)
    requires limit >= 1
    ensures var c := Candidates(table, userId, tenantId, cursor);
            List(table, userId, tenantId, limit, cursor) ==
            if |c| > limit then Page(c[..limit], Some(c[limit - 1].id)) else Page(c, None)
  {
    var c := Candidates(table, userId, tenantId, cursor);
    if |c| > limit {
      assert Take(c, limit + 1)[..limit] == c[..limit];
    }
  }

  lemma CandidatesAfter(table: seq<Notification>, userId: Id, tenantId: Id, cursor: Option<Id>, row: Notification)
    requires DistinctIds(table) && row in Candidates(table, userId, tenantId, cursor)
    ensures Candidates(table, userId, tenantId, Some(row.id)) ==
            OlderThan(Candidates(table, userId, tenantId, cursor), Millis(row.createdAt))
  {
    var inbox := SortedInbox(table, userId, tenantId);
    CandidatesDescend(table, userId, tenantId, cursor);
    CursorOfInboxRow(table, userId, tenantId, row);
    var time := CursorTime(table, cursor);
    if time.Some? {
      OlderRows(inbox, time.value);
      MillisOrder(row.createdAt, row.createdAt);
      OlderTwice(inbox, time.value, Millis(row.createdAt));
    }
  }

  /** The next page is cut from what is older than the millisecond of this one's last row. */
  lemma NextCandidates(table: seq<Notification>, userId: Id, tenantId: Id, limit: nat, cursor: Option<Id>)
    requires DistinctIds(table) && limit >= 1
    requires |Candidates(table, userId, tenantId, cursor)| > limit
    ensures var c := Candidates(table, userId, tenantId, cursor);
            && Descending(c)
            && Candidates(table, userId, tenantId, Some(c[limit - 1].id)) ==
               OlderThan(c, Millis(c[limit - 1].createdAt))
            && |OlderThan(c, Millis(c[limit - 1].createdAt))| <= |c| - limit
  {
    var c := Candidates(table, userId, tenantId, cursor);
    CandidatesDescend(table, userId, tenantId, cursor);
    CandidatesAfter(table, userId, tenantId, cursor, c[limit - 1]);
    MillisOrder(c[limit - 1].createdAt, c[limit - 1].createdAt);
    OlderThanRow(c, limit - 1, Millis(c[limit - 1].createdAt));
  }

  /** All rows a client sees that follows the cursors from a page to its end. */
  function Follow(table: seq<Notification>, userId: Id, tenantId: Id, limit: nat, cursor: Option<Id>): seq<Notification>
    requires DistinctIds(table) && limit >= 1
    decreases |Candidates(table, userId, tenantId, cursor)|
  {
    var page := List(table, userId, tenantId, limit, cursor);
    if page.nextCursor.None? then page.notifications
    else
      PageOfCandidates(table, userId, tenantId, limit, cursor);
      NextCandidates(table, userId, tenantId, limit, cursor);
      page.notifications + Follow(table, userId, tenantId, limit, page.nextCursor)
  }

  lemma FollowStep(table: seq<Notification>, userId: Id, tenantId: Id, limit: nat, cursor: Option<Id>)
    requires DistinctIds(table) && limit >= 1
    ensures var c := Candidates(table, userId, tenantId, cursor);
            Follow(table, userId, tenantId, limit, cursor) ==
            if |c| > limit then c[..limit] + Follow(table, userId, tenantId, limit, Some(c[limit - 1].id)) else c
  {
    PageOfCandidates(table, userId, tenantId, limit, cursor);
  }

  lemma {:induction false} FollowLength(table: seq<Notification>, userId: Id, tenantId: Id, limit: nat,
      cursor: Option<Id>)
    requires DistinctIds(table) && limit >= 1
    ensures |Follow(table, userId, tenantId, limit, cursor)| <= |Candidates(table, userId, tenantId, cursor)|
    decreases |Candidates(table, userId, tenantId, cursor)|
  {
    var c := Candidates(table, userId, tenantId, cursor);
    FollowStep(table, userId, tenantId, limit, cursor);
    if |c| > limit {
      NextCandidates(table, userId, tenantId, limit, cursor);
      FollowLength(table, userId, tenantId, limit, Some(c[limit - 1].id));
    }
  }

  /** No two rows on both sides of a page boundary were created in the same millisecond. */
  predicate CutsCleanly(rows: seq<Notification>, limit: nat)
    requires limit >= 1
    decreases |rows|
  {
    |rows| <= limit
    || (Millis(rows[limit - 1].createdAt) != Millis(rows[limit].createdAt) && CutsCleanly(rows[limit..], limit))
  }

  /** Descending rows older than the last row of a page: the rest, unless a tie is cut. */
  lemma OlderIsRest(rows: seq<Notification>, limit: nat)
    requires Descending(rows) && 1 <= limit < |rows|
    ensures var time := Millis(rows[limit - 1].createdAt);
            var older := OlderThan(rows, time);
            if time != Millis(rows[limit].createdAt) then older == rows[limit..] else |older| < |rows| - limit
  {
    var time := Millis(rows[limit - 1].createdAt);
    MillisOrder(rows[limit - 1].createdAt, rows[limit].createdAt);
    MillisOrder(rows[limit - 1].createdAt, rows[limit - 1].createdAt);
    if time != Millis(rows[limit].createdAt) {
      OlderThanRow(rows, limit - 1, time);
      AllOlder(rows[limit..], time);
    } else {
      OlderThanRow(rows, limit, time);
    }
  }

  /** From any cursor, following leads through all candidates exactly if no cut hits a tie. */
  lemma {:induction false} FollowIsCandidatesIff(table: seq<Notification>, userId: Id, tenantId: Id, limit: nat,
      cursor: Option<Id>)
    requires DistinctIds(table) && limit >= 1
    ensures var c := Candidates(table, userId, tenantId, cursor);
            Follow(table, userId, tenantId, limit, cursor) == c <==> CutsCleanly(c, limit)
    decreases |Candidates(table, userId, tenantId, cursor)|
  {
    var c := Candidates(table, userId, tenantId, cursor);
    FollowStep(table, userId, tenantId, limit, cursor);
    if |c| > limit {
      var next := Some(c[limit - 1].id);
      NextCandidates(table, userId, tenantId, limit, cursor);
      OlderIsRest(c, limit);
      FollowLength(table, userId, tenantId, limit, next);
      FollowIsCandidatesIff(table, userId, tenantId, limit, next);
      SameRest(c, Follow(table, userId, tenantId, limit, next), limit);
    }
  }

  lemma SameRest(rows: seq<Notification>, rest: seq<Notification>, limit: nat)
    requires limit <= |rows|
    ensures rows[..limit] + rest == rows <==> rest == rows[limit..]
  {
    assert (rows[..limit] + rest)[limit..] == rest;
    assert rows == rows[..limit] + rows[limit..];
  }

  /**
   Pagination is exact: the pages that follow the cursors from the start, put together, are
   the whole inbox, newest first and each row once, if and only if no page boundary falls
   between two rows of the same millisecond.
   */
  lemma PaginationIsExactIff(table: seq<Notification>, userId: Id, tenantId: Id, limit: nat)
    requires DistinctIds(table) && limit >= 1
    ensures Descending(SortedInbox(table, userId, tenantId))
    ensures multiset(SortedInbox(table, userId, tenantId)) == multiset(OwnedBy(table, userId, tenantId))
    ensures Follow(table, userId, tenantId, limit, None) == SortedInbox(table, userId, tenantId) <==>
            CutsCleanly(SortedInbox(table, userId, tenantId), limit)
  {
    SortedIsWholeInbox(OwnedBy(table, userId, tenantId));
    FollowIsCandidatesIff(table, userId, tenantId, limit, None);
  }

  predicate DistinctTimes(rows: seq<Notification>) {
    forall i, j :: 0 <= i < j < |rows| ==> Millis(rows[i].createdAt) != Millis(rows[j].createdAt)
  }

  lemma {:induction false} DistinctTimesCutCleanly(rows: seq<Notification>, limit: nat)
    requires DistinctTimes(rows) && limit >= 1
    ensures CutsCleanly(rows, limit)
    decreases |rows|
  {
    if |rows| > limit {
      DistinctTimesCutCleanly(rows[limit..], limit);
    }
  }

  /** Single-row pages cut everywhere, so only distinct milliseconds pass. */
  lemma {:induction false} SingleRowsCutEverywhere(rows: seq<Notification>)
    requires Descending(rows) && CutsCleanly(rows, 1)
    ensures DistinctTimes(rows)
    decreases |rows|
  {
    if |rows| > 1 {
      SingleRowsCutEverywhere(rows[1..]);
      forall i, j | 0 <= i < j < |rows|
        ensures Millis(rows[i].createdAt) != Millis(rows[j].createdAt)
      {
        if i == 0 {
          MillisOrder(rows[0].createdAt, rows[1].createdAt);
          MillisOrder(rows[1].createdAt, rows[j].createdAt);
        } else {
          assert rows[1..][i - 1] == rows[i] && rows[1..][j - 1] == rows[j];
        }
      }
    }
  }

  /** Every page size is exact precisely for inboxes with pairwise distinct milliseconds. */
  lemma EveryLimitIsExactIff(table: seq<Notification>, userId: Id, tenantId: Id)
    requires DistinctIds(table)
    ensures var inbox := SortedInbox(table, userId, tenantId);
            (forall limit: nat :: limit >= 1 ==> Follow(table, userId, tenantId, limit, None) == inbox) <==>
                DistinctTimes(inbox)
  {
    var inbox := SortedInbox(table, userId, tenantId);
    if DistinctTimes(inbox) {
      forall limit: nat | limit >= 1
        ensures Follow(table, userId, tenantId, limit, None) == inbox
      {
        DistinctTimesCutCleanly(inbox, limit);
        PaginationIsExactIff(table, userId, tenantId, limit);
      }
    } else {
      PaginationIsExactIff(table, userId, tenantId, 1);
      if CutsCleanly(inbox, 1) {
        SingleRowsCutEverywhere(inbox);
      }
    }
  }

  /** The newer of two rows, and the older one. */
  function TwoRows(newer: int, older: int): seq<Notification> {
    [Notification("a", "u", "t", newer), Notification("b", "u", "t", older)]
  }

  lemma TwoRowsAreSorted(newer: int, older: int)
    requires newer >= older
    ensures DistinctIds(TwoRows(newer, older)) && SortedInbox(TwoRows(newer, older), "u", "t") == TwoRows(newer, older)
  {
    var rows := TwoRows(newer, older);
    var a, b := rows[0], rows[1];
    assert rows[1..] == [b] && [b][1..] == [];
    assert OwnedBy([], "u", "t") == [];
    assert OwnedBy([b], "u", "t") == [b];
    assert OwnedBy(rows, "u", "t") == [a] + [b] == rows;
    assert NewestFirst([]) == [] && InsertNewestFirst(b, []) == [b];
    assert NewestFirst([b]) == [b];
    assert InsertNewestFirst(a, [b]) == [a] + [b] == rows;
    assert NewestFirst(rows) == InsertNewestFirst(a, [b]);
  }

  lemma NothingAfterTie(newer: int, older: int)
    requires newer >= older && Millis(newer) == Millis(older)
    requires DistinctIds(TwoRows(newer, older)) && SortedInbox(TwoRows(newer, older), "u", "t") == TwoRows(newer, older)
    ensures Candidates(TwoRows(newer, older), "u", "t", Some("a")) == []
  {
    CandidatesAfter(TwoRows(newer, older), "u", "t", None, TwoRows(newer, older)[0]);
    MillisOrder(newer, older);
    NoneOlder(TwoRows(newer, older), Millis(newer));
  }

  lemma SecondIsSkipped(newer: int, older: int)
    requires newer >= older && Millis(newer) == Millis(older)
    ensures DistinctIds(TwoRows(newer, older)) && SortedInbox(TwoRows(newer, older), "u", "t") == TwoRows(newer, older)
    ensures Follow(TwoRows(newer, older), "u", "t", 1, None) == TwoRows(newer, older)[..1]
  {
    var rows := TwoRows(newer, older);
    TwoRowsAreSorted(newer, older);
    NothingAfterTie(newer, older);
    FollowStep(rows, "u", "t", 1, None);
    FollowStep(rows, "u", "t", 1, Some("a"));
    assert rows[..1] + [] == rows[..1];
  }

  /** Two notifications of the same moment, read one a page: only the first is ever shown. */
  lemma TiedRowIsSkipped()
    ensures DistinctIds(TwoRows(5000, 5000))
    ensures Follow(TwoRows(5000, 5000), "u", "t", 1, None) == TwoRows(5000, 5000)[..1]
  {
    SecondIsSkipped(5000, 5000);
  }

  /** So with rows at 700 and 300 microseconds of one millisecond, although their times differ. */
  lemma SameMillisecondIsSkipped()
    ensures DistinctIds(TwoRows(5700, 5300))
    ensures Follow(TwoRows(5700, 5300), "u", "t", 1, None) == TwoRows(5700, 5300)[..1]
  {
    SecondIsSkipped(5700, 5300);
  }
}
