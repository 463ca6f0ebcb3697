/** The chat tables (internal/infrastructure/chat/store.go and its migrations). Queries whose ties SQL
    leaves open are relations: any result they allow is covered. */
module ChatStore {

  const KEEP: nat := 50

  datatype Message = Message(id: string, threadId: string, userId: string, username: string, body: string, createdAt: int)

  datatype Thread = Thread(id: string, kind: string, name: string, isPrivate: bool, createdBy: string, createdAt: int)

  /** The primary keys make members and last-read marks functions of (thread, user). */
  datatype Tables = Tables(threads: map<string, Thread>, members: set<(string, string)>,
                           marks: map<(string, string), int>, messages: set<Message>)

  function InThread(messages: set<Message>, threadId: string): set<Message> {
    set m | m in messages && m.threadId == threadId
  }

  /** ORDER BY created_at DESC LIMIT n, as a set: n of them, none older than one left out. */
  ghost predicate IsNewest(all: set<Message>, n: nat, picked: set<Message>) {
    && picked <= all
    && |picked| == (if n < |all| then n else |all|)
    && forall p, m :: p in picked && m in all - picked ==> p.createdAt >= m.createdAt
  }

  predicate HasId(messages: set<Message>, id: string) {
    exists m :: m in messages && m.id == id
  }

  ghost predicate DistinctIds(messages: set<Message>) {
    forall m, k :: m in messages && k in messages && m.id == k.id ==> m == k
  }

  /** What Save leaves behind: the thread trimmed to its newest 50, every other thread as it was. */
  ghost predicate Saved(before: set<Message>, msg: Message, after: set<Message>) {
    && IsNewest(InThread(before + {msg}, msg.threadId), KEEP, InThread(after, msg.threadId))
    && forall m: Message :: m.threadId != msg.threadId ==> (m in after <==> m in before)
  }

  // A negative SQL limit means no limit.
  function LimitCount(limit: int, n: nat): nat {
    if 0 <= limit < n then limit else n
  }

  /** What Recent may return: the newest `limit` messages of the thread, oldest first. */
  ghost predicate IsRecent(messages: set<Message>, threadId: string, limit: int, r: seq<Message>) {
    var all := InThread(messages, threadId);
    && Ascending(r)
    && IsNewest(all, LimitCount(limit, |all|), Elements(r))
  }

  predicate IsUnread(t: Tables, user: string, m: Message) {
    && m.userId != user
    && ((m.threadId, user) in t.marks ==> m.createdAt > t.marks[(m.threadId, user)])
  }

  /** The unread subquery of the thread list. */
  function ThreadUnread(t: Tables, user: string, threadId: string): set<Message> {
    set m | m in t.messages && m.threadId == threadId && IsUnread(t, user, m)
  }

  /** The separately written total. */
  function AllUnread(t: Tables, user: string): set<Message> {
    set m | m in t.messages && (m.threadId, user) in t.members && IsUnread(t, user, m)
  }

  /** The foreign key from members to threads, and the primary keys. */
  ghost predicate Sound(t: Tables) {
    && (forall k :: k in t.members ==> k.0 in t.threads)
    && (forall id :: id in t.threads ==> t.threads[id].id == id)
    && DistinctIds(t.messages)
  }

  // ---------------------------------------------------------------- picking the newest

  lemma {:induction false} NewestExists(s: set<Message>)
    requires s != {}
    ensures exists m :: m in s && forall k :: k in s ==> m.createdAt >= k.createdAt
    decreases |s|
  {
    var m :| m in s;
    var rest := s - {m};
    if rest == {} {
      assert s == {m};
    } else {
      NewestExists(rest);
      var b :| b in rest && forall k :: k in rest ==> b.createdAt >= k.createdAt;
      var best := if m.createdAt >= b.createdAt then m else b;
      assert best in s && forall k :: k in s ==> best.createdAt >= k.createdAt;
    }
  }

  ghost predicate Ascending(r: seq<Message>) {
    forall i, j :: 0 <= i < j < |r| ==> r[i] != r[j] && r[i].createdAt <= r[j].createdAt
  }

  function Elements(r: seq<Message>): set<Message> {
    set m | m in r
  }

  lemma Prepend(r: seq<Message>, m: Message)
    requires Ascending(r) && m !in r && forall k :: k in r ==> m.createdAt <= k.createdAt
    ensures Ascending([m] + r) && Elements([m] + r) == Elements(r) + {m}
  {
    var s := [m] + r;
    forall i, j | 0 <= i < j < |s| ensures s[i] != s[j] && s[i].createdAt <= s[j].createdAt {
      assert s[j] == r[j - 1] && r[j - 1] in r;
    }
  }

  /** The state of the query: rows picked so far, none older than one still to come. */
  ghost predicate Picking(all: set<Message>, picked: set<Message>, rest: set<Message>) {
    && picked + rest == all && picked !! rest
    && forall p, m :: p in picked && m in rest ==> p.createdAt >= m.createdAt
  }

  lemma PickOne(all: set<Message>, picked: set<Message>, rest: set<Message>, m: Message)
    requires Picking(all, picked, rest) && m in rest && forall k :: k in rest ==> m.createdAt >= k.createdAt
    ensures Picking(all, picked + {m}, rest - {m}) && |picked + {m}| == |picked| + 1
  {
  }

  /** Runs the descending query with a limit, and returns its rows oldest first. */
  method PickNewest(all: set<Message>, n: nat) returns (r: seq<Message>, picked: set<Message>)
    ensures IsNewest(all, n, picked)
    ensures picked == Elements(r) && Ascending(r)
  {
    r, picked := [], {};
    var rest := all;
    while |picked| < n && rest != {}
      invariant Picking(all, picked, rest) && |picked| <= n
      invariant picked == Elements(r) && Ascending(r)
      decreases |rest|
    {
      NewestExists(rest);
      var m :| m in rest && forall k :: k in rest ==> m.createdAt >= k.createdAt;
      PickOne(all, picked, rest, m);
      assert forall k :: k in r ==> k in Elements(r);
      Prepend(r, m);
      r := [m] + r;
      picked, rest := picked + {m}, rest - {m};
    }
    assert all - picked == rest;
    SubsetSize(picked, all);
  }

  lemma SubsetSize(a: set<Message>, b: set<Message>)
    requires a <= b
    ensures |a| <= |b| && (|a| == |b| ==> a == b)
  {
    assert b == a + (b - a);
  }

  // ---------------------------------------------------------------- the store

  datatype Summary = Summary(thread: Thread, unreadCount: nat)

  class Store {
    var threads: map<string, Thread>
    var members: set<(string, string)>
    var marks: map<(string, string), int>
    var messages: set<Message>

    function State(): Tables
      reads this
    {
      Tables(threads, members, marks, messages)
    }

    constructor ()
      ensures State() == Tables(map[], {}, map[], {}) && Sound(State())
    {
      threads, members, marks, messages := map[], {}, map[], {};
    }

    method CreateThread(t: Thread) returns (ok: bool)
      requires Sound(State())
      modifies this`threads
      ensures Sound(State())
      ensures ok <==> t.id !in old(threads)
      ensures threads == if ok then old(threads)[t.id := t] else old(threads)
    {
      ok := t.id !in threads;
      if ok { threads := threads[t.id := t]; }
    }

    /** INSERT OR IGNORE, under the foreign key to threads. */
    method AddMember(threadId: string, userId: string) returns (ok: bool)
      requires Sound(State())
      modifies this`members
      ensures Sound(State())
      ensures ok <==> threadId in threads
      ensures members == if ok then old(members) + {(threadId, userId)} else old(members)
    {
      ok := threadId in threads;
      if ok { members := members + {(threadId, userId)}; }
    }

    method EnsurePublicMembership(userId: string)
      requires Sound(State())
      modifies this`members
      ensures Sound(State())
      ensures forall t, u :: (t, u) in members <==>
                (t, u) in old(members) ||
                (u == userId && t in threads && threads[t].kind == "channel" && !threads[t].isPrivate)
    {
      members := members + set t | t in threads && threads[t].kind == "channel" && !threads[t].isPrivate :: (t, userId);
    }

    /** Inserts the message and trims its thread in one transaction; a duplicate id rolls back. */
    method Save(msg: Message) returns (ok: bool)
      requires Sound(State())
      modifies this`messages
      ensures Sound(State())
      ensures ok <==> forall m :: m in old(messages) ==> m.id != msg.id
      ensures !ok ==> messages == old(messages)
      ensures ok ==> Saved(old(messages), msg, messages)
    {
      ok := !HasId(messages, msg.id);
      if !ok { return; }
      var inserted := messages + {msg};
      var thread := InThread(inserted, msg.threadId);
      var rows, kept := PickNewest(thread, KEEP);
      messages := inserted - (thread - kept);
      assert InThread(messages, msg.threadId) == kept;
    }

    method Recent(threadId: string, limit: int) returns (r: seq<Message>)
      ensures IsRecent(messages, threadId, limit, r)
    {
      var all := InThread(messages, threadId);
      var picked;
      r, picked := PickNewest(all, LimitCount(limit, |all|));
    }

    method MarkRead(threadId: string, userId: string, now: int)
      requires Sound(State())
      modifies this`marks
      ensures Sound(State())
      ensures marks == old(marks)[(threadId, userId) := now]
    {
      marks := marks[(threadId, userId) := now];
    }

    method TotalUnread(userId: string) returns (count: nat)
      requires Sound(State())
      ensures count == |AllUnread(State(), userId)|
      ensures count == |set m | m in messages && (m.threadId, userId) in members && m.userId != userId
                                && ((m.threadId, userId) !in marks || marks[(m.threadId, userId)] < m.createdAt)|
    {
      var rows := set m | m in messages && (m.threadId, userId) in members && IsUnread(State(), userId, m);
      count := |rows|;
      assert rows == set m | m in messages && (m.threadId, userId) in members && m.userId != userId
                             && ((m.threadId, userId) !in marks || marks[(m.threadId, userId)] < m.createdAt);
    }

    /** One row per thread the user is a member of. */
    method ListThreadsForUser(userId: string) returns (rows: seq<Summary>)
      requires Sound(State())
      ensures IsThreadList(State(), userId, rows)
    {
      var todo := set id | id in threads && (id, userId) in members;
      rows := [];
      while todo != {}
        invariant forall id :: id in todo ==> id in threads && (id, userId) in members
        invariant forall i :: 0 <= i < |rows| ==>
                    && rows[i].thread.id in threads && threads[rows[i].thread.id] == rows[i].thread
                    && (rows[i].thread.id, userId) in members && rows[i].thread.id !in todo
                    && rows[i].unreadCount == |ThreadUnread(State(), userId, rows[i].thread.id)|
        invariant forall i, j :: 0 <= i < j < |rows| ==> rows[i].thread.id != rows[j].thread.id
        invariant forall id :: id in threads && (id, userId) in members ==>
                    id in todo || exists i :: 0 <= i < |rows| && rows[i].thread.id == id
        decreases |todo|
      {
        var id :| id in todo;
        var unread := ThreadUnread(State(), userId, id);
        ghost var before := rows;
        rows := rows + [Summary(threads[id], |unread|)];
        todo := todo - {id};
        assert rows[|before|].thread.id == id;
        assert forall i :: 0 <= i < |before| ==> rows[i] == before[i];
      }
    }
  }

  ghost predicate IsThreadList(t: Tables, user: string, rows: seq<Summary>) {
    && (forall i :: 0 <= i < |rows| ==>
          && rows[i].thread.id in t.threads && t.threads[rows[i].thread.id] == rows[i].thread
          && (rows[i].thread.id, user) in t.members
          && rows[i].unreadCount == |ThreadUnread(t, user, rows[i].thread.id)|)
    && (forall i, j :: 0 <= i < j < |rows| ==> rows[i].thread.id != rows[j].thread.id)
    && (forall id :: id in t.threads && (id, user) in t.members ==>
          exists i :: 0 <= i < |rows| && rows[i].thread.id == id)
  }

  // ---------------------------------------------------------------- the trim refines an append log

  function Last(s: seq<Message>, n: nat): seq<Message> {
    if |s| <= n then s else s[|s| - n..]
  }

  /** The messages of one thread, in the order they were saved. */
  function ThreadLog(log: seq<Message>, threadId: string): seq<Message> {
    if log == [] then []
    else
      var n := |log| - 1;
      ThreadLog(log[..n], threadId) + if log[n].threadId == threadId then [log[n]] else []
  }

  ghost predicate Increasing(s: seq<Message>) {
    forall i, j :: 0 <= i < j < |s| ==> s[i].createdAt < s[j].createdAt
  }

  lemma {:induction false} DistinctSize(s: seq<Message>)
    requires Increasing(s)
    ensures |Elements(s)| == |s|
  {
    if s != [] {
      var n := |s| - 1;
      DistinctSize(s[..n]);
      assert s == s[..n] + [s[n]];
      assert s[n] !in s[..n];
      assert Elements(s) == Elements(s[..n]) + {s[n]};
    }
  }

  lemma SuffixIncreasing(s: seq<Message>, from: nat)
    requires Increasing(s) && from <= |s|
    ensures Increasing(s[from..]) && |Elements(s[from..])| == |s| - from
  {
    DistinctSize(s[from..]);
  }

  /** Missing one message of a sequence in time order, a newest pick fits behind it. */
  lemma PickBehindMissed(s: seq<Message>, i: nat, picked: set<Message>)
    requires Increasing(s) && i < |s| && s[i] !in picked && picked <= Elements(s)
    requires forall p :: p in picked ==> p.createdAt >= s[i].createdAt
    ensures |picked| <= |s| - i - 1
  {
    var later := s[i + 1..];
    SuffixIncreasing(s, i + 1);
    forall p | p in picked ensures p in Elements(later) {
      var k :| 0 <= k < |s| && s[k] == p;
      assert k > i;
      assert later[k - (i + 1)] == p;
    }
    SubsetSize(picked, Elements(later));
  }

  lemma LateIsPicked(s: seq<Message>, n: nat, picked: set<Message>, i: nat)
    requires Increasing(s) && IsNewest(Elements(s), n, picked)
    requires i < |s| && i + n >= |s|
    ensures s[i] in picked
  {
    if s[i] !in picked {
      DistinctSize(s);
      assert s[i] in Elements(s) - picked;
      PickBehindMissed(s, i, picked);
      assert false;
    }
  }

  /** Of a sequence in time order, the newest n are its last n. */
  lemma NewestAreLast(s: seq<Message>, n: nat, picked: set<Message>)
    requires Increasing(s) && IsNewest(Elements(s), n, picked)
    ensures picked == Elements(Last(s, n))
  {
    var from := if |s| <= n then 0 else |s| - n;
    var last := s[from..];
    forall m | m in Elements(last) ensures m in picked {
      var j :| 0 <= j < |last| && last[j] == m;
      LateIsPicked(s, n, picked, from + j);
    }
    SuffixIncreasing(s, from);
    DistinctSize(s);
    SubsetSize(Elements(last), picked);
    assert last == Last(s, n);
  }

  lemma NonEmptyElements(s: seq<Message>)
    ensures Elements(s) == {} <==> s == []
  {
    if s != [] { assert s[0] in Elements(s); }
  }

  lemma SameLast(a: seq<Message>, b: seq<Message>)
    requires a != [] && Increasing(a) && Ascending(b) && Elements(a) == Elements(b)
    ensures b != [] && a[|a| - 1] == b[|b| - 1]
  {
    NonEmptyElements(a);
    NonEmptyElements(b);
    var n, k := |a| - 1, |b| - 1;
    assert a[n] in Elements(b) && b[k] in Elements(a);
    var i :| 0 <= i < |b| && b[i] == a[n];
    var j :| 0 <= j < |a| && a[j] == b[k];
  }

  /** Two listings of the same messages in increasing time order are the same listing. */
  lemma {:induction false} SameListing(a: seq<Message>, b: seq<Message>)
    requires Increasing(a) && Ascending(b) && Elements(a) == Elements(b)
    ensures a == b
    decreases |a|
  {
    if a == [] {
      NonEmptyElements(b);
    } else {
      SameLast(a, b);
      var n, k := |a| - 1, |b| - 1;
      DropLast(a);
      DropLast(b);
      SameListing(a[..n], b[..k]);
    }
  }

  lemma DropLast(s: seq<Message>)
    requires s != [] && (Increasing(s) || Ascending(s))
    ensures Elements(s[..|s| - 1]) == Elements(s) - {s[|s| - 1]}
    ensures Increasing(s) ==> Increasing(s[..|s| - 1])
    ensures Ascending(s) ==> Ascending(s[..|s| - 1])
  {
    var n := |s| - 1;
    forall m ensures m in s[..n] <==> m in s && m != s[n] {
      if m in s && m != s[n] {
        var i :| 0 <= i < |s| && s[i] == m;
        assert s[..n][i] == m;
      }
    }
  }

  /** A table that successful saves of this log, in order, can leave behind. */
  ghost predicate Reached(log: seq<Message>, table: set<Message>) {
    if log == [] then table == {}
    else
      var earlier, msg := log[..|log| - 1], log[|log| - 1];
      exists before :: Reached(earlier, before) && Saved(before, msg, table)
  }

  lemma SaveReaches(log: seq<Message>, before: set<Message>, msg: Message, after: set<Message>)
    requires Reached(log, before) && Saved(before, msg, after)
    ensures Reached(log + [msg], after)
  {
    assert (log + [msg])[..|log|] == log;
  }

  /** Every thread's timestamps strictly increase in save order. */
  ghost predicate ClockedPerThread(log: seq<Message>) {
    forall i, j :: 0 <= i < j < |log| && log[i].threadId == log[j].threadId ==> log[i].createdAt < log[j].createdAt
  }

  lemma {:induction false} ThreadLogFacts(log: seq<Message>, threadId: string)
    requires ClockedPerThread(log)
    ensures Increasing(ThreadLog(log, threadId))
    ensures forall m :: m in ThreadLog(log, threadId) <==> m in log && m.threadId == threadId
  {
    if log != [] {
      var n := |log| - 1;
      ThreadLogFacts(log[..n], threadId);
      assert log == log[..n] + [log[n]];
      forall k | 0 <= k < |ThreadLog(log[..n], threadId)| && log[n].threadId == threadId
        ensures ThreadLog(log[..n], threadId)[k].createdAt < log[n].createdAt
      {
        var m := ThreadLog(log[..n], threadId)[k];
        assert m in log[..n];
      }
    }
  }

  lemma LastOfAppend(s: seq<Message>, m: Message)
    ensures Last(Last(s, KEEP) + [m], KEEP) == Last(s + [m], KEEP)
  {
  }

  lemma PrefixClocked(log: seq<Message>)
    requires ClockedPerThread(log) && log != []
    ensures ClockedPerThread(log[..|log| - 1])
  {
  }

  /** The trimmed table refines a plain append log: after any interleaving of saves to many threads,
      each thread holds exactly the last 50 messages saved to it. */
  lemma {:induction false} TableIsLastFifty(log: seq<Message>, table: set<Message>, threadId: string)
    requires Reached(log, table) && ClockedPerThread(log)
    ensures InThread(table, threadId) == Elements(Last(ThreadLog(log, threadId), KEEP))
  {
    if log != [] {
      var n := |log| - 1;
      var before :| Reached(log[..n], before) && Saved(before, log[n], table);
      PrefixClocked(log);
      TableIsLastFifty(log[..n], before, threadId);
      ThreadLogFacts(log, threadId);
      OneSave(before, log[n], table, ThreadLog(log[..n], threadId), threadId);
      if log[n].threadId != threadId { assert ThreadLog(log, threadId) == ThreadLog(log[..n], threadId); }
    }
  }

  lemma OneSave(table: set<Message>, msg: Message, after: set<Message>, saved: seq<Message>, threadId: string)
    requires Saved(table, msg, after) && InThread(table, threadId) == Elements(Last(saved, KEEP))
    requires msg.threadId == threadId ==> Increasing(saved + [msg])
    ensures InThread(after, threadId) ==
            Elements(Last(if msg.threadId == threadId then saved + [msg] else saved, KEEP))
  {
    if msg.threadId == threadId {
      var held := Last(saved, KEEP);
      var all := held + [msg];
      assert all == (saved + [msg])[|saved| - |held|..];
      SuffixIncreasing(saved + [msg], |saved| - |held|);
      assert InThread(table + {msg}, threadId) == InThread(table, threadId) + {msg};
      assert Elements(all) == Elements(held) + {msg};
      NewestAreLast(all, KEEP, InThread(after, threadId));
      LastOfAppend(saved, msg);
    } else {
      assert InThread(after, threadId) == InThread(table, threadId);
    }
  }

  lemma ListingOfNewest(held: seq<Message>, n: nat, r: seq<Message>)
    requires Increasing(held) && Ascending(r) && IsNewest(Elements(held), n, Elements(r))
    ensures r == Last(held, n)
  {
    NewestAreLast(held, n, Elements(r));
    if |held| > n { SuffixIncreasing(held, |held| - n); }
    SameListing(Last(held, n), r);
  }

  /** Recent(t, k) is the last min(k, 50, n) messages saved to t, in save order. */
  lemma RecentIsLogSuffix(log: seq<Message>, table: set<Message>, threadId: string, limit: int, r: seq<Message>)
    requires Reached(log, table) && ClockedPerThread(log) && IsRecent(table, threadId, limit, r)
    ensures r == Last(ThreadLog(log, threadId), if 0 <= limit < KEEP then limit else KEEP)
  {
    var saved := ThreadLog(log, threadId);
    var held := Last(saved, KEEP);
    TableIsLastFifty(log, table, threadId);
    ThreadLogFacts(log, threadId);
    HeldFacts(saved);
    ListingOfNewest(held, LimitCount(limit, |held|), r);
    LastOfLast(saved, limit);
  }

  lemma HeldFacts(saved: seq<Message>)
    requires Increasing(saved)
    ensures Increasing(Last(saved, KEEP)) && |Elements(Last(saved, KEEP))| == |Last(saved, KEEP)|
  {
    var from := if |saved| <= KEEP then 0 else |saved| - KEEP;
    assert Last(saved, KEEP) == saved[from..];
    SuffixIncreasing(saved, from);
  }

  lemma LastOfLast(saved: seq<Message>, limit: int)
    ensures Last(Last(saved, KEEP), LimitCount(limit, |Last(saved, KEEP)|))
            == Last(saved, if 0 <= limit < KEEP then limit else KEEP)
  {
  }

  /** Without any assumption on clocks: no thread ever exceeds 50 messages, and the message just saved
      is kept whenever fewer than 50 messages of its thread are as new, and dropped at once when
      50 are newer. */
  lemma SaveKeepsOrDrops(before: set<Message>, msg: Message, after: set<Message>)
    requires Saved(before, msg, after) && msg !in before
    ensures |InThread(after, msg.threadId)| <= 50
    ensures |set m | m in InThread(before, msg.threadId) && m.createdAt >= msg.createdAt| < 50 ==> msg in after
    ensures |set m | m in InThread(before, msg.threadId) && m.createdAt > msg.createdAt| >= 50 ==> msg !in after
  {
    var all, kept := InThread(before + {msg}, msg.threadId), InThread(after, msg.threadId);
    var asNew := set m | m in InThread(before, msg.threadId) && m.createdAt >= msg.createdAt;
    var newer := set m | m in InThread(before, msg.threadId) && m.createdAt > msg.createdAt;
    assert msg in all;
    if msg !in after {
      assert msg in all - kept;
      assert kept <= asNew;
      SubsetSize(kept, asNew);
      if |kept| == |all| { SubsetSize(kept, all); }
    } else {
      assert msg in kept;
      forall m | m in newer ensures m in kept - {msg} {
        assert m in all;
      }
      SubsetSize(newer, kept - {msg});
    }
  }

  // ---------------------------------------------------------------- what counts as unread

  /** In a thread the user has never opened everything others wrote is unread; in one opened before,
      what they wrote after the last time. */
  lemma UnreadIsOthersSinceMark(t: Tables, user: string, threadId: string)
    ensures (threadId, user) !in t.marks ==>
              ThreadUnread(t, user, threadId) == set m | m in t.messages && m.threadId == threadId && m.userId != user
    ensures (threadId, user) in t.marks ==>
              ThreadUnread(t, user, threadId)
              == set m | m in t.messages && m.threadId == threadId && m.userId != user
                         && t.marks[(threadId, user)] < m.createdAt
    ensures (threadId, user) in t.members ==> ThreadUnread(t, user, threadId) == InThread(AllUnread(t, user), threadId)
    ensures (threadId, user) !in t.members ==> InThread(AllUnread(t, user), threadId) == {}
  {
  }

  /** With room in its thread a new message is added and none is dropped. */
  lemma SaveWithRoom(before: set<Message>, msg: Message, after: set<Message>)
    requires Saved(before, msg, after) && msg !in before && |InThread(before, msg.threadId)| < 50
    ensures after == before + {msg}
  {
    var all := InThread(before + {msg}, msg.threadId);
    assert all == InThread(before, msg.threadId) + {msg};
    SubsetSize(InThread(after, msg.threadId), all);
    forall m ensures m in after <==> m in before + {msg} {
      assert m.threadId == msg.threadId ==> (m in after <==> m in all);
    }
  }

  /** Saving a message into a thread with fewer than 50 raises the unread total of a user by one exactly
      when someone else wrote it, the user is a member of the thread, and has not marked it read since. */
  lemma SaveRaisesUnread(t: Tables, msg: Message, after: set<Message>, user: string)
    requires Saved(t.messages, msg, after) && (forall m :: m in t.messages ==> m.id != msg.id)
    requires |InThread(t.messages, msg.threadId)| < 50
    ensures |AllUnread(t.(messages := after), user)|
            == |AllUnread(t, user)|
               + if && msg.userId != user && (msg.threadId, user) in t.members
                    && ((msg.threadId, user) !in t.marks || t.marks[(msg.threadId, user)] < msg.createdAt)
                 then 1 else 0
  {
    assert msg !in t.messages;
    SaveWithRoom(t.messages, msg, after);
    UnreadOfMore(t, msg, user);
    DisjointSize(AllUnread(t, user), {msg});
  }

  lemma UnreadOfMore(t: Tables, msg: Message, user: string)
    requires msg !in t.messages
    ensures AllUnread(t.(messages := t.messages + {msg}), user)
            == if && msg.userId != user && (msg.threadId, user) in t.members
                  && ((msg.threadId, user) !in t.marks || t.marks[(msg.threadId, user)] < msg.createdAt)
               then AllUnread(t, user) + {msg} else AllUnread(t, user)
    ensures AllUnread(t, user) !! {msg}
  {
  }

  // ---------------------------------------------------------------- unread counts agree

  function SumUnread(rows: seq<Summary>): nat {
    if rows == [] then 0 else SumUnread(rows[..|rows| - 1]) + rows[|rows| - 1].unreadCount
  }

  function UnreadOf(t: Tables, user: string, rows: seq<Summary>): set<Message> {
    set m, s | s in rows && m in ThreadUnread(t, user, s.thread.id) :: m
  }

  lemma DisjointSize(a: set<Message>, b: set<Message>)
    requires a !! b
    ensures |a + b| == |a| + |b|
  {
  }

  lemma {:induction false} SumIsUnion(t: Tables, user: string, rows: seq<Summary>)
    requires forall i :: 0 <= i < |rows| ==> rows[i].unreadCount == |ThreadUnread(t, user, rows[i].thread.id)|
    requires forall i, j :: 0 <= i < j < |rows| ==> rows[i].thread.id != rows[j].thread.id
    ensures SumUnread(rows) == |UnreadOf(t, user, rows)|
  {
    if rows != [] {
      var n := |rows| - 1;
      var init, last := rows[..n], ThreadUnread(t, user, rows[n].thread.id);
      SumIsUnion(t, user, init);
      LastSummary(t, user, rows);
      DisjointSize(UnreadOf(t, user, init), last);
    }
  }

  lemma LastSummary(t: Tables, user: string, rows: seq<Summary>)
    requires rows != []
    requires forall i, j :: 0 <= i < j < |rows| ==> rows[i].thread.id != rows[j].thread.id
    ensures var n := |rows| - 1;
            && UnreadOf(t, user, rows) == UnreadOf(t, user, rows[..n]) + ThreadUnread(t, user, rows[n].thread.id)
            && UnreadOf(t, user, rows[..n]) !! ThreadUnread(t, user, rows[n].thread.id)
  {
    var n := |rows| - 1;
    assert rows == rows[..n] + [rows[n]];
  }

  /** The two separately written unread queries agree on every reachable store: the total is the sum of
      the per-thread counts in the user's thread list. */
  lemma TotalIsSumOfThreads(t: Tables, user: string, rows: seq<Summary>)
    requires Sound(t) && IsThreadList(t, user, rows)
    ensures |AllUnread(t, user)| == SumUnread(rows)
  {
    SumIsUnion(t, user, rows);
    forall m | m in AllUnread(t, user) ensures m in UnreadOf(t, user, rows) {
      var k := (m.threadId, user);
      assert k in t.members && k.0 in t.threads;
      var i :| 0 <= i < |rows| && rows[i].thread.id == m.threadId;
      assert rows[i] in rows && m in ThreadUnread(t, user, rows[i].thread.id);
    }
    forall m | m in UnreadOf(t, user, rows) ensures m in AllUnread(t, user) {
      var s :| s in rows && m in ThreadUnread(t, user, s.thread.id);
      assert (s.thread.id, user) in t.members;
    }
    assert AllUnread(t, user) == UnreadOf(t, user, rows);
  }

  function Marked(t: Tables, user: string, threadId: string, now: int): Tables {
    t.(marks := t.marks[(threadId, user) := now])
  }

  /** Messages of others in the thread that are later than a given time. */
  function LaterThan(t: Tables, user: string, threadId: string, now: int): set<Message> {
    set m | m in t.messages && m.threadId == threadId && m.userId != user && m.createdAt > now
  }

  lemma MarkedMember(t: Tables, user: string, threadId: string, now: int, m: Message)
    requires (threadId, user) in t.members
    ensures m in AllUnread(Marked(t, user, threadId, now), user) <==>
            m in AllUnread(t, user) - ThreadUnread(t, user, threadId) || m in LaterThan(t, user, threadId, now)
  {
  }

  /** Marking a thread read replaces its unread messages by those of others that are later still: with
      a clock not behind the thread's messages the total falls by exactly that thread's count. For a
      thread the user is no member of, nothing changes. */
  lemma MarkReadEffect(t: Tables, user: string, threadId: string, now: int)
    ensures (threadId, user) in t.members ==>
              |AllUnread(Marked(t, user, threadId, now), user)| + |ThreadUnread(t, user, threadId)|
              == |AllUnread(t, user)| + |LaterThan(t, user, threadId, now)|
    ensures (threadId, user) !in t.members ==>
              AllUnread(Marked(t, user, threadId, now), user) == AllUnread(t, user)
    ensures (forall m :: m in t.messages && m.threadId == threadId ==> m.createdAt <= now) ==>
              LaterThan(t, user, threadId, now) == {}
  {
    if (threadId, user) in t.members { MemberMarksRead(t, user, threadId, now); }
  }

  lemma MemberMarksRead(t: Tables, user: string, threadId: string, now: int)
    requires (threadId, user) in t.members
    ensures |AllUnread(Marked(t, user, threadId, now), user)| + |ThreadUnread(t, user, threadId)|
            == |AllUnread(t, user)| + |LaterThan(t, user, threadId, now)|
  {
    var mine := ThreadUnread(t, user, threadId);
    var rest := AllUnread(t, user) - mine;
    var later := LaterThan(t, user, threadId, now);
    forall m ensures m in AllUnread(Marked(t, user, threadId, now), user) <==> m in rest + later {
      MarkedMember(t, user, threadId, now, m);
    }
    assert AllUnread(Marked(t, user, threadId, now), user) == rest + later;
    assert AllUnread(t, user) == rest + mine;
    DisjointSize(rest, mine);
    DisjointSize(rest, later);
  }

  lemma MarkReadIsPrivate(t: Tables, user: string, threadId: string, now: int, other: string)
    requires other != user
    ensures AllUnread(Marked(t, user, threadId, now), other) == AllUnread(t, other)
  {
    forall m ensures m in AllUnread(Marked(t, user, threadId, now), other) <==> m in AllUnread(t, other) {
      assert (m.threadId, other) != (threadId, user);
    }
  }
}
