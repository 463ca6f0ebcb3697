/** The notification tables (internal/infrastructure/notifications/store.go): rows are only ever
    inserted, and a (user, notification) pair in `marks` marks a row as read by that user. */
module NotificationStore {

  datatype Row = Row(id: string, title: string, url: string, createdAt: int)

  datatype Notification = Notification(id: string, title: string, url: string, createdAt: int, read: bool)

  type Reads = set<(string, string)>

  predicate HasId(rows: seq<Row>, id: string) {
    exists k :: 0 <= k < |rows| && rows[k].id == id
  }

  ghost predicate DistinctIds(rows: seq<Row>) {
    forall i, j :: 0 <= i < j < |rows| ==> rows[i].id != rows[j].id
  }

  // ORDER BY created_at DESC, the earlier inserted row first among equals.

  function InsertByAge(sorted: seq<Row>, row: Row): seq<Row> {
    if sorted == [] || sorted[0].createdAt < row.createdAt then [row] + sorted
    else [sorted[0]] + InsertByAge(sorted[1..], row)
  }

  function NewestFirst(rows: seq<Row>): seq<Row> {
    if rows == [] then [] else InsertByAge(NewestFirst(rows[..|rows| - 1]), rows[|rows| - 1])
  }

  // A negative SQL limit means no limit.
  function Limited(rows: seq<Row>, limit: int): seq<Row> {
    if 0 <= limit < |rows| then rows[..limit] else rows
  }

  function Shown(row: Row, marks: Reads, user: string): Notification {
    Notification(row.id, row.title, row.url, row.createdAt, (user, row.id) in marks)
  }

  function ListOf(rows: seq<Row>, marks: Reads, user: string, limit: int): seq<Notification> {
    var picked := Limited(NewestFirst(rows), limit);
    seq(|picked|, k requires 0 <= k < |picked| => Shown(picked[k], marks, user))
  }

  function UnreadOf(rows: seq<Row>, marks: Reads, user: string): nat {
    if rows == [] then 0
    else UnreadOf(rows[..|rows| - 1], marks, user) + if (user, rows[|rows| - 1].id) in marks then 0 else 1
  }

  function MarkedAll(rows: seq<Row>, marks: Reads, user: string): Reads {
    marks + set k | 0 <= k < |rows| :: (user, rows[k].id)
  }

  ghost predicate SortedByAge(rows: seq<Row>) {
    forall i, j :: 0 <= i < j < |rows| ==> rows[i].createdAt >= rows[j].createdAt
  }

  lemma {:induction false} InsertAddsRow(sorted: seq<Row>, row: Row)
    ensures multiset(InsertByAge(sorted, row)) == multiset(sorted) + multiset{row}
  {
    if sorted == [] || sorted[0].createdAt < row.createdAt {
    } else {
      InsertAddsRow(sorted[1..], row);
      assert sorted == [sorted[0]] + sorted[1..];
    }
  }

  lemma {:induction false} InsertKeepsOrder(sorted: seq<Row>, row: Row)
    requires SortedByAge(sorted)
    ensures SortedByAge(InsertByAge(sorted, row))
    ensures forall j :: 0 <= j < |InsertByAge(sorted, row)| ==>
              InsertByAge(sorted, row)[j] == row || InsertByAge(sorted, row)[j] in sorted
  {
    if sorted == [] || sorted[0].createdAt < row.createdAt {
    } else {
      InsertKeepsOrder(sorted[1..], row);
    }
  }

  lemma {:induction false} NewestFirstIsOrdered(rows: seq<Row>)
    ensures SortedByAge(NewestFirst(rows))
  {
    if rows != [] {
      var n := |rows| - 1;
      NewestFirstIsOrdered(rows[..n]);
      InsertKeepsOrder(NewestFirst(rows[..n]), rows[n]);
    }
  }

  lemma OneRowMore(rows: seq<Row>)
    requires rows != []
    ensures multiset(rows) == multiset(rows[..|rows| - 1]) + multiset{rows[|rows| - 1]}
  {
    assert rows == rows[..|rows| - 1] + [rows[|rows| - 1]];
  }

  lemma {:induction false} NewestFirstKeepsRows(rows: seq<Row>)
    ensures multiset(NewestFirst(rows)) == multiset(rows)
  {
    if rows != [] {
      var n := |rows| - 1;
      NewestFirstKeepsRows(rows[..n]);
      InsertAddsRow(NewestFirst(rows[..n]), rows[n]);
      OneRowMore(rows);
    }
  }

  /** The list shows the `limit` newest rows: what it shows and what it leaves out are together the
      whole table, nothing left out is newer than anything shown, and each entry carries that
      user's own read flag. */
  lemma ListIsNewest(rows: seq<Row>, marks: Reads, user: string, limit: nat) returns (picked: seq<Row>, rest: seq<Row>)
    ensures multiset(picked) + multiset(rest) == multiset(rows)
    ensures |picked| == if limit < |rows| then limit else |rows|
    ensures SortedByAge(picked)
    ensures forall i, j :: 0 <= i < |picked| && 0 <= j < |rest| ==> picked[i].createdAt >= rest[j].createdAt
    ensures |ListOf(rows, marks, user, limit)| == |picked|
    ensures forall k :: 0 <= k < |picked| ==>
              var n, row := ListOf(rows, marks, user, limit)[k], picked[k];
              && n.id == row.id && n.title == row.title && n.url == row.url && n.createdAt == row.createdAt
              && (n.read <==> (user, row.id) in marks)
  {
    var all := NewestFirst(rows);
    NewestFirstIsOrdered(rows);
    NewestFirstKeepsRows(rows);
    SameSize(all, rows);
    picked := Limited(all, limit);
    rest := all[|picked|..];
    TakeAndDrop(all, |picked|);
  }

  lemma TakeAndDrop(all: seq<Row>, n: nat)
    requires n <= |all|
    ensures multiset(all[..n]) + multiset(all[n..]) == multiset(all)
  {
    assert all == all[..n] + all[n..];
  }

  lemma SameSize(a: seq<Row>, b: seq<Row>)
    requires multiset(a) == multiset(b)
    ensures |a| == |b|
  {
    assert |multiset(a)| == |a| && |multiset(b)| == |b|;
  }

  /** The positions of the rows without a mark. */
  function UnmarkedAt(rows: seq<Row>, marks: Reads, user: string): set<nat> {
    set k: nat | k < |rows| && (user, rows[k].id) !in marks
  }

  /** The unread count is the number of rows the user has not marked. */
  lemma {:induction false} UnreadCountsUnmarked(rows: seq<Row>, marks: Reads, user: string)
    ensures UnreadOf(rows, marks, user) == |UnmarkedAt(rows, marks, user)|
  {
    if rows != [] {
      var n := |rows| - 1;
      var before := UnmarkedAt(rows[..n], marks, user);
      UnreadCountsUnmarked(rows[..n], marks, user);
      assert UnmarkedAt(rows, marks, user) == before + if (user, rows[n].id) in marks then {} else {n};
    } else {
      assert UnmarkedAt(rows, marks, user) == {};
    }
  }

  /** Reading more can only lower the unread count, and leaves it equal exactly when no row
      became newly read. */
  lemma {:induction false} UnreadFallsByNewReads(rows: seq<Row>, before: Reads, after: Reads, user: string)
    requires before <= after
    ensures UnreadOf(rows, after, user) <= UnreadOf(rows, before, user)
    ensures UnreadOf(rows, after, user) == UnreadOf(rows, before, user) <==>
            forall k :: 0 <= k < |rows| && (user, rows[k].id) in after ==> (user, rows[k].id) in before
  {
    if rows != [] {
      var n := |rows| - 1;
      UnreadFallsByNewReads(rows[..n], before, after, user);
      assert forall k :: 0 <= k < n ==> rows[..n][k] == rows[k];
      if UnreadOf(rows, after, user) == UnreadOf(rows, before, user) {
        forall k | 0 <= k < |rows| && (user, rows[k].id) in after ensures (user, rows[k].id) in before {
          if k < n { assert rows[..n][k] == rows[k]; }
        }
      }
    }
  }

  /** Marking everything read zeroes that user's count and nobody else's. */
  lemma {:induction false} MarkAllZeroesOneUser(rows: seq<Row>, marks: Reads, user: string)
    ensures forall other :: other != user ==>
              UnreadOf(rows, MarkedAll(rows, marks, user), other) == UnreadOf(rows, marks, other)
    ensures UnreadOf(rows, MarkedAll(rows, marks, user), user) == 0
  {
    var after := MarkedAll(rows, marks, user);
    forall other | other != user ensures UnreadOf(rows, after, other) == UnreadOf(rows, marks, other) {
      UnreadFallsByNewReads(rows, marks, after, other);
    }
    AllReadIsZero(rows, after, user);
  }

  lemma {:induction false} AllReadIsZero(rows: seq<Row>, marks: Reads, user: string)
    requires forall k :: 0 <= k < |rows| ==> (user, rows[k].id) in marks
    ensures UnreadOf(rows, marks, user) == 0
  {
    if rows != [] {
      assert forall k :: 0 <= k < |rows| - 1 ==> rows[..|rows| - 1][k] == rows[k];
      AllReadIsZero(rows[..|rows| - 1], marks, user);
    }
  }

  class Store {
    var rows: seq<Row>
    var marks: Reads

    constructor ()
      ensures rows == [] && marks == {}
    {
      rows, marks := [], {};
    }

    /** The primary key makes a second insert of an id fail. */
    method Create(id: string, title: string, url: string, now: int) returns (ok: bool)
      requires DistinctIds(rows)
      modifies this`rows
      ensures DistinctIds(rows)
      ensures ok <==> forall k :: 0 <= k < |old(rows)| ==> old(rows)[k].id != id
      ensures rows == if ok then old(rows) + [Row(id, title, url, now)] else old(rows)
    {
      ok := !HasId(rows, id);
      if ok {
        rows := rows + [Row(id, title, url, now)];
      }
    }

    method List(user: string, limit: int) returns (notifs: seq<Notification>)
      ensures notifs == ListOf(rows, marks, user, limit)
    {
      var picked := Limited(NewestFirst(rows), limit);
      notifs := [];
      for i := 0 to |picked|
        invariant |notifs| == i
        invariant forall k :: 0 <= k < i ==> notifs[k] == Shown(picked[k], marks, user)
      {
        var r := picked[i];
        notifs := notifs + [Notification(r.id, r.title, r.url, r.createdAt, (user, r.id) in marks)];
      }
    }

    method MarkAllRead(user: string)
      modifies this`marks
      ensures marks == MarkedAll(rows, old(marks), user)
      ensures UnreadOf(rows, marks, user) == 0
      ensures forall who, id :: (who, id) in marks <==>
                (who, id) in old(marks) || (who == user && exists k :: 0 <= k < |rows| && rows[k].id == id)
    {
      marks := marks + set k | 0 <= k < |rows| :: (user, rows[k].id);
      MarkAllZeroesOneUser(rows, old(marks), user);
    }
  }
}
