/** The in-process scheduler's reconcile loop (cmd/server/cron_daemon.go). The cron library is its
    entry table: adding a function parses the schedule, hands out a fresh id and fails without
    effect when the text does not parse. */
module CronDaemon {
  import opened Options
  import opened CronJob

  /** A scheduler entry: the periodic reload itself, or a job captured when it was scheduled. */
  datatype Callback = ReloadSelf | RunCaptured(job: Record)

  type Parses = string -> bool

  /** The active jobs by id; for a repeated id the last one wins. */
  function ActiveIndex(jobs: seq<Record>): map<string, Record> {
    if jobs == [] then map[]
    else
      var n := |jobs| - 1;
      var before := ActiveIndex(jobs[..n]);
      if jobs[n].status.Active? then before[jobs[n].id := jobs[n]] else before
  }

  /** What an index of active jobs satisfies. */
  ghost predicate WellIndexed(active: map<string, Record>) {
    forall id :: id in active ==> active[id].id == id && active[id].status.Active?
  }

  /** The daemon's table and the scheduler's, as values. */
  datatype State = State(entries: map<string, nat>, scheduled: map<nat, Callback>, nextId: nat)

  /** The table and the scheduler's job entries correspond one to one. */
  ghost predicate Consistent(s: State) {
    && (forall id :: id in s.entries ==>
          && s.entries[id] in s.scheduled
          && s.scheduled[s.entries[id]].RunCaptured?
          && s.scheduled[s.entries[id]].job.id == id)
    && (forall e :: e in s.scheduled && s.scheduled[e].RunCaptured? ==>
          s.scheduled[e].job.id in s.entries && s.entries[s.scheduled[e].job.id] == e)
    && (forall e :: e in s.scheduled ==> e < s.nextId)
  }

  /** Afterwards the table holds the active jobs that it held before or whose schedule parses. */
  ghost predicate HoldsActive(s: State, active: map<string, Record>, parses: Parses, t: State) {
    && (forall id :: id in t.entries <==> id in active && (id in s.entries || parses(active[id].schedule)))
    && s.nextId <= t.nextId && ((forall id :: id in t.entries ==> id in s.entries) ==> t.nextId == s.nextId)
  }

  /** Jobs scheduled before keep their entry and the copy it captured. */
  ghost predicate KeepsOld(s: State, t: State) {
    forall id :: id in t.entries && id in s.entries ==>
      && t.entries[id] == s.entries[id]
      && t.entries[id] in t.scheduled && s.entries[id] in s.scheduled
      && t.scheduled[t.entries[id]] == s.scheduled[s.entries[id]]
  }

  /** New ones get a fresh entry that captures the row just read. */
  ghost predicate CapturesNew(s: State, active: map<string, Record>, t: State) {
    forall id :: id in t.entries && id !in s.entries ==>
      && id in active && s.nextId <= t.entries[id]
      && t.entries[id] in t.scheduled && t.scheduled[t.entries[id]] == RunCaptured(active[id])
  }

  /** The scheduler's other entries are left alone. */
  ghost predicate KeepsSelf(s: State, t: State) {
    forall e :: e in t.scheduled && t.scheduled[e].ReloadSelf? <==> e in s.scheduled && s.scheduled[e].ReloadSelf?
  }

  /** Every job entry is in the table. */
  ghost predicate NoLeak(t: State) {
    && (forall e :: e in t.scheduled && t.scheduled[e].RunCaptured? ==>
          t.scheduled[e].job.id in t.entries && t.entries[t.scheduled[e].job.id] == e)
    && (forall e :: e in t.scheduled ==> e < t.nextId)
  }

  /** One reload, as a relation: the order in which the loops visit the maps is not determined. */
  ghost predicate Reloaded(s: State, active: map<string, Record>, parses: Parses, t: State) {
    HoldsActive(s, active, parses, t) && KeepsOld(s, t) && CapturesNew(s, active, t) && KeepsSelf(s, t) && NoLeak(t)
  }

  lemma {:induction false} ActiveIndexIsActive(jobs: seq<Record>)
    ensures WellIndexed(ActiveIndex(jobs))
    ensures forall id :: id in ActiveIndex(jobs) ==> ActiveIndex(jobs)[id] in jobs
    ensures forall j :: j in jobs && j.status.Active? ==> j.id in ActiveIndex(jobs)
  {
    if jobs != [] {
      ActiveIndexIsActive(jobs[..|jobs| - 1]);
      assert jobs == jobs[..|jobs| - 1] + [jobs[|jobs| - 1]];
    }
  }

  /** The last active row of an id. */
  ghost predicate IsLastActive(jobs: seq<Record>, id: string, k: int) {
    && 0 <= k < |jobs| && jobs[k].status == Active && jobs[k].id == id
    && forall j :: k < j < |jobs| && jobs[j].status == Active ==> jobs[j].id != id
  }

  /** An id is indexed exactly when it has an active row, and then with the last of them. */
  lemma {:induction false} LastActiveWins(jobs: seq<Record>)
    ensures forall id, k :: IsLastActive(jobs, id, k) ==> id in ActiveIndex(jobs) && ActiveIndex(jobs)[id] == jobs[k]
    ensures forall id :: id in ActiveIndex(jobs) ==> exists k :: IsLastActive(jobs, id, k)
  {
    if jobs != [] {
      var n := |jobs| - 1;
      LastActiveWins(jobs[..n]);
      forall id, k | IsLastActive(jobs, id, k) ensures id in ActiveIndex(jobs) && ActiveIndex(jobs)[id] == jobs[k] {
        if k < n { assert IsLastActive(jobs[..n], id, k); }
      }
      forall id | id in ActiveIndex(jobs) ensures exists k :: IsLastActive(jobs, id, k) {
        if jobs[n].status.Active? && jobs[n].id == id {
          assert IsLastActive(jobs, id, n);
        } else {
          var k :| IsLastActive(jobs[..n], id, k);
          assert IsLastActive(jobs, id, k);
        }
      }
    }
  }

  function WithoutJob(s: State, id: string): State
    requires id in s.entries
  {
    s.(entries := s.entries - {id}, scheduled := s.scheduled - {s.entries[id]})
  }

  function WithJob(s: State, job: Record): State {
    s.(entries := s.entries[job.id := s.nextId], scheduled := s.scheduled[s.nextId := RunCaptured(job)],
       nextId := s.nextId + 1)
  }

  lemma AddingKeepsConsistent(s: State, job: Record)
    requires Consistent(s) && job.id !in s.entries
    ensures Consistent(WithJob(s, job))
  {
  }

  /** t differs from s only in job entries, and any entry t has beyond s is newer than all of s. */
  ghost predicate Extends(s: State, t: State) {
    && s.nextId <= t.nextId && ((forall id :: id in t.entries ==> id in s.entries) ==> t.nextId == s.nextId)
    && (forall id :: id in s.entries ==> id in t.entries && t.entries[id] == s.entries[id])
    && (forall e :: e in s.scheduled ==> e in t.scheduled && t.scheduled[e] == s.scheduled[e])
    && (forall e :: e in t.scheduled && e !in s.scheduled ==> e >= s.nextId && t.scheduled[e].RunCaptured?)
  }

  /** Only the given jobs keep their entries. */
  function Unscheduled(s: State, keep: set<string>): State {
    State(map id | id in s.entries && id in keep :: s.entries[id],
          map e | e in s.scheduled && (s.scheduled[e].RunCaptured? ==> s.scheduled[e].job.id in keep) :: s.scheduled[e],
          s.nextId)
  }

  lemma UnschedulingKeepsConsistent(s: State, keep: set<string>)
    requires Consistent(s)
    ensures Consistent(Unscheduled(s, keep))
    ensures s.entries.Keys <= keep ==> Unscheduled(s, keep) == s
  {
    if s.entries.Keys <= keep {
      assert Unscheduled(s, keep).entries == s.entries;
      assert Unscheduled(s, keep).scheduled == s.scheduled;
    }
  }

  lemma UnscheduleOneMore(s: State, keep: set<string>, id: string)
    requires Consistent(s) && id in s.entries && id in keep
    ensures WithoutJob(Unscheduled(s, keep), id) == Unscheduled(s, keep - {id})
  {
    var t, u := WithoutJob(Unscheduled(s, keep), id), Unscheduled(s, keep - {id});
    assert t.entries == u.entries;
    assert t.scheduled == u.scheduled;
  }

  lemma AddingExtends(s: State, t: State, job: Record)
    requires Consistent(s) && Extends(s, t) && job.id !in t.entries
    ensures Extends(s, WithJob(t, job))
  {
    assert job.id in WithJob(t, job).entries && job.id !in s.entries;
  }

  /** A job added to s since: a fresh entry that captured its row. */
  ghost predicate AddedNew(s: State, active: map<string, Record>, id: string, t: State) {
    && id in active && id in t.entries && s.nextId <= t.entries[id] && t.entries[id] in t.scheduled
    && t.scheduled[t.entries[id]] == RunCaptured(active[id])
  }

  /** Where the scheduling loop stands when the jobs in `todo` are still to come. */
  ghost predicate Added(s: State, active: map<string, Record>, parses: Parses, todo: set<string>, t: State) {
    && Consistent(t) && Extends(s, t)
    && (forall id :: id in t.entries <==>
          id in s.entries || (id in active && id !in todo && parses(active[id].schedule)))
    && (forall id :: id in t.entries && id !in s.entries ==> AddedNew(s, active, id, t))
  }

  lemma AddedStays(s: State, active: map<string, Record>, id: string, u: State, job: Record)
    requires Consistent(u) && AddedNew(s, active, id, u) && job.id !in u.entries
    ensures AddedNew(s, active, id, WithJob(u, job))
  {
    assert u.entries[id] < u.nextId;
  }

  function OneScheduled(u: State, job: Record, parses: Parses): State {
    if job.id !in u.entries && parses(job.schedule) then WithJob(u, job) else u
  }

  lemma AddedOneMore(s: State, active: map<string, Record>, parses: Parses, todo: set<string>, u: State, id: string)
    requires Consistent(s) && Added(s, active, parses, todo, u) && id in todo && id in active && active[id].id == id
    ensures Added(s, active, parses, todo - {id}, OneScheduled(u, active[id], parses))
  {
    var t := OneScheduled(u, active[id], parses);
    if t != u {
      AddingKeepsConsistent(u, active[id]);
      AddingExtends(s, u, active[id]);
      assert AddedNew(s, active, id, t);
      forall other | other in u.entries && other !in s.entries ensures AddedNew(s, active, other, t) {
        AddedStays(s, active, other, u, active[id]);
      }
    }
  }

  class Daemon {
    var entries: map<string, nat>
    var scheduled: map<nat, Callback>
    var nextId: nat

    function Now(): State
      reads this
    {
      State(entries, scheduled, nextId)
    }

    constructor ()
      ensures Now() == State(map[], map[], 1) && Consistent(Now())
    {
      entries, scheduled, nextId := map[], map[], 1;
    }

    /** cron.AddFunc. */
    method AddFunc(schedule: string, run: Callback, parses: Parses) returns (entry: nat, ok: bool)
      modifies this`scheduled, this`nextId
      ensures ok <==> parses(schedule)
      ensures ok ==> entry == old(nextId) && scheduled == old(scheduled)[entry := run] && nextId == old(nextId) + 1
      ensures !ok ==> scheduled == old(scheduled) && nextId == old(nextId)
    {
      ok := parses(schedule);
      entry := 0;
      if ok {
        entry := nextId;
        scheduled, nextId := scheduled[entry := run], nextId + 1;
      }
    }

    method Remove(entry: nat)
      modifies this`scheduled
      ensures scheduled == old(scheduled) - {entry}
    {
      scheduled := scheduled - {entry};
    }

    method IndexActive(jobs: seq<Record>) returns (active: map<string, Record>)
      ensures active == ActiveIndex(jobs)
      ensures forall id, k :: IsLastActive(jobs, id, k) ==> id in active && active[id] == jobs[k]
      ensures forall id :: id in active ==> exists k :: IsLastActive(jobs, id, k)
    {
      LastActiveWins(jobs);
      active := map[];
      for i := 0 to |jobs|
        invariant active == ActiveIndex(jobs[..i])
      {
        if jobs[i].status == Active {
          active := active[jobs[i].id := jobs[i]];
        }
        assert jobs[..i + 1][..i] == jobs[..i];
      }
      assert jobs[..|jobs|] == jobs;
    }

    method UnscheduleInactive(active: map<string, Record>)
      requires Consistent(Now())
      modifies this`entries, this`scheduled
      ensures Now() == Unscheduled(old(Now()), active.Keys)
    {
      var todo := entries.Keys;
      UnschedulingKeepsConsistent(Now(), active.Keys + todo);
      while todo != {}
        invariant todo <= old(entries).Keys
        invariant Now() == Unscheduled(old(Now()), active.Keys + todo)
        decreases todo
      {
        var id :| id in todo;
        if id in active {
          assert active.Keys + (todo - {id}) == active.Keys + todo;
        } else {
          UnscheduleOneMore(old(Now()), active.Keys + todo, id);
          assert active.Keys + (todo - {id}) == active.Keys + todo - {id};
          Unschedule(id);
        }
        todo := todo - {id};
      }
      assert active.Keys + todo == active.Keys;
    }

    method Unschedule(id: string)
      requires id in entries
      modifies this`entries, this`scheduled
      ensures Now() == WithoutJob(old(Now()), id)
    {
      Remove(entries[id]);
      entries := entries - {id};
    }

    method ScheduleOne(job: Record, parses: Parses)
      modifies this
      ensures Now() == OneScheduled(old(Now()), job, parses)
    {
      if job.id in entries { return; }
      var entry, ok := AddFunc(job.schedule, RunCaptured(job), parses);
      if ok {
        entries := entries[job.id := entry];
      }
    }

    method ScheduleNew(active: map<string, Record>, parses: Parses)
      requires Consistent(Now()) && WellIndexed(active)
      modifies this
      ensures Added(old(Now()), active, parses, {}, Now())
    {
      var todo := active.Keys;
      while todo != {}
        invariant todo <= active.Keys
        invariant Added(old(Now()), active, parses, todo, Now())
        decreases todo
      {
        var id :| id in todo;
        AddedOneMore(old(Now()), active, parses, todo, Now(), id);
        ScheduleOne(active[id], parses);
        todo := todo - {id};
      }
    }

    /** Reconciles the table with the jobs just read; a failed read changes nothing. */
    method Reload(jobs: seq<Record>, listOk: bool, parses: Parses)
      requires Consistent(Now())
      modifies this
      ensures Consistent(Now())
      ensures !listOk ==> Now() == old(Now())
      ensures listOk ==> Reloaded(old(Now()), ActiveIndex(jobs), parses, Now())
    {
      if !listOk { return; }
      var active := IndexActive(jobs);
      ActiveIndexIsActive(jobs);
      UnschedulingKeepsConsistent(Now(), active.Keys);
      UnscheduleInactive(active);
      ghost var kept := Now();
      ScheduleNew(active, parses);
      ReloadInParts(old(Now()), active, parses, kept, Now());
    }

    /** Start: a first reload, then the reload is scheduled as an entry of its own. */
    method Start(jobs: seq<Record>, listOk: bool, parses: Parses)
      requires Consistent(Now()) && parses("* * * * *")
      modifies this
      ensures Consistent(Now()) && exists e :: e in scheduled && scheduled[e].ReloadSelf?
      ensures entries.Keys == if listOk then set id | id in ActiveIndex(jobs) &&
                                (id in old(entries) || parses(ActiveIndex(jobs)[id].schedule))
                              else old(entries).Keys
    {
      Reload(jobs, listOk, parses);
      var entry, ok := AddFunc("* * * * *", ReloadSelf, parses);
      assert scheduled[entry].ReloadSelf?;
    }
  }

  /** A reload leaves no leak and no dangling id, whatever order its loops visit the maps in. */
  lemma ReloadKeepsConsistent(s: State, active: map<string, Record>, parses: Parses, t: State)
    requires Consistent(s) && WellIndexed(active) && Reloaded(s, active, parses, t)
    ensures Consistent(t)
  {
    forall id | id in t.entries
      ensures t.entries[id] in t.scheduled && t.scheduled[t.entries[id]].RunCaptured?
      ensures t.scheduled[t.entries[id]].job.id == id
    {
      assert id in t.entries.Keys;
    }
  }

  lemma SameEntriesSameSchedule(t: State, u: State)
    requires Consistent(t) && Consistent(u) && t.entries == u.entries
    requires forall id :: id in t.entries ==> t.scheduled[t.entries[id]] == u.scheduled[t.entries[id]]
    requires forall e :: e in t.scheduled && t.scheduled[e].ReloadSelf? <==> e in u.scheduled && u.scheduled[e].ReloadSelf?
    ensures t.scheduled == u.scheduled
  {
    forall e ensures e in t.scheduled <==> e in u.scheduled
             ensures e in t.scheduled && e in u.scheduled ==> t.scheduled[e] == u.scheduled[e]
    {
      if e in t.scheduled && t.scheduled[e].RunCaptured? {
        assert t.entries[t.scheduled[e].job.id] == e;
      }
      if e in u.scheduled && u.scheduled[e].RunCaptured? {
        assert u.entries[u.scheduled[e].job.id] == e;
      }
    }
  }

  lemma ScheduledAfter(s: State, active: map<string, Record>, parses: Parses, t: State, id: string)
    requires Reloaded(s, active, parses, t)
    ensures id in t.entries <==>
            id in active && (id in s.entries || parses(active[id].schedule))
  {
    assert id in t.entries <==> id in t.entries.Keys;
  }

  lemma SecondReloadKeepsEntries(s: State, active: map<string, Record>, parses: Parses, t: State, u: State)
    requires Reloaded(s, active, parses, t) && Reloaded(t, active, parses, u)
    ensures u.entries == t.entries && u.nextId == t.nextId
  {
    forall id ensures id in u.entries <==> id in t.entries {
      ScheduledAfter(s, active, parses, t, id);
      ScheduledAfter(t, active, parses, u, id);
    }
  }

  /** A second reload on unchanged data changes nothing. */
  lemma SecondReloadIsIdle(s: State, active: map<string, Record>, parses: Parses, t: State, u: State)
    requires Consistent(s) && WellIndexed(active)
    requires Reloaded(s, active, parses, t) && Reloaded(t, active, parses, u)
    ensures u == t
  {
    ReloadKeepsConsistent(s, active, parses, t);
    ReloadKeepsConsistent(t, active, parses, u);
    SecondReloadKeepsEntries(s, active, parses, t, u);
    SameEntriesSameSchedule(t, u);
  }

  function JobEntries(s: State): set<nat> {
    set e | e in s.scheduled && s.scheduled[e].RunCaptured?
  }

  /** No leak and no duplicate: as many scheduler entries run jobs as jobs are in the table, and every
      one of them is some job's entry. */
  lemma OneEntryPerJob(s: State)
    requires Consistent(s)
    ensures JobEntries(s) == s.entries.Values
    ensures |JobEntries(s)| == |s.entries|
  {
    forall e ensures e in JobEntries(s) <==> e in s.entries.Values {
      if e in JobEntries(s) {
        assert s.scheduled[e].job.id in s.entries;
      }
    }
    SameCount(s.entries);
  }

  lemma {:induction false} SameCount(m: map<string, nat>)
    requires forall a, b :: a in m && b in m && m[a] == m[b] ==> a == b
    ensures |m.Values| == |m|
    decreases |m|
  {
    if m.Keys == {} {
      assert m == map[];
      assert m.Values == {};
    } else {
      var a :| a in m;
      var rest := m - {a};
      assert m == rest[a := m[a]];
      SameCount(rest);
      assert m.Values == rest.Values + {m[a]};
      assert m[a] !in rest.Values;
    }
  }

  /** In a sequence of reads: the job was active in all from the j-th on, and its schedule parsed then. */
  ghost predicate ActiveSince(actives: seq<map<string, Record>>, parses: Parses, id: string, j: nat) {
    && j < |actives|
    && (forall i :: j <= i < |actives| ==> id in actives[i])
    && parses(actives[j][id].schedule)
  }

  ghost predicate ActiveThroughout(actives: seq<map<string, Record>>, parses: Parses, id: string) {
    exists j: nat :: ActiveSince(actives, parses, id, j)
  }

  lemma ActiveOneMore(actives: seq<map<string, Record>>, active: map<string, Record>, parses: Parses, id: string)
    ensures ActiveThroughout(actives + [active], parses, id) <==>
            id in active && (ActiveThroughout(actives, parses, id) || parses(active[id].schedule))
  {
    var more := actives + [active];
    assert more[|actives|] == active;
    forall j: nat | j < |actives| ensures ActiveSince(more, parses, id, j) <==> id in active && ActiveSince(actives, parses, id, j) {
      assert more[j] == actives[j];
      assert forall i :: j <= i < |actives| ==> more[i] == actives[i];
    }
    if id in active && ActiveThroughout(actives, parses, id) {
      var j: nat :| ActiveSince(actives, parses, id, j);
      assert ActiveSince(more, parses, id, j);
    } else if id in active && parses(active[id].schedule) {
      assert ActiveSince(more, parses, id, |actives|);
    }
  }

  // ---------------------------------------------------------------- a reload can always finish

  lemma {:induction false} AddingAll(s: State, active: map<string, Record>, parses: Parses, todo: set<string>, u: State)
    returns (t: State)
    requires Consistent(s) && WellIndexed(active) && todo <= active.Keys && Added(s, active, parses, todo, u)
    ensures Added(s, active, parses, {}, t)
    decreases todo
  {
    t := u;
    if todo != {} {
      var id :| id in todo;
      AddedOneMore(s, active, parses, todo, u, id);
      t := AddingAll(s, active, parses, todo - {id}, OneScheduled(u, active[id], parses));
    }
  }

  lemma OldEntryKept(s: State, active: map<string, Record>, u: State, t: State, id: string)
    requires Consistent(s) && u == Unscheduled(s, active.Keys) && Extends(u, t) && id in s.entries && id in active
    ensures id in t.entries && t.entries[id] == s.entries[id]
    ensures t.entries[id] in t.scheduled && s.entries[id] in s.scheduled && t.scheduled[t.entries[id]] == s.scheduled[s.entries[id]]
  {
    assert id in u.entries && s.entries[id] in u.scheduled;
  }

  lemma SelfEntriesKept(s: State, active: map<string, Record>, u: State, t: State, e: nat)
    requires u == Unscheduled(s, active.Keys) && Extends(u, t)
    ensures e in t.scheduled && t.scheduled[e].ReloadSelf? <==> e in s.scheduled && s.scheduled[e].ReloadSelf?
  {
    if e in s.scheduled && s.scheduled[e].ReloadSelf? { assert e in u.scheduled; }
  }

  lemma ReloadInParts(s: State, active: map<string, Record>, parses: Parses, u: State, t: State)
    requires Consistent(s) && u == Unscheduled(s, active.Keys) && Added(u, active, parses, {}, t)
    ensures Reloaded(s, active, parses, t)
  {
    assert HoldsActive(s, active, parses, t);
    assert KeepsOld(s, t) by {
      forall id | id in t.entries && id in s.entries
        ensures t.entries[id] == s.entries[id] && t.entries[id] in t.scheduled && s.entries[id] in s.scheduled
        ensures t.scheduled[t.entries[id]] == s.scheduled[s.entries[id]]
      {
        OldEntryKept(s, active, u, t, id);
      }
    }
    assert KeepsSelf(s, t) by {
      forall e ensures e in t.scheduled && t.scheduled[e].ReloadSelf? <==> e in s.scheduled && s.scheduled[e].ReloadSelf? {
        SelfEntriesKept(s, active, u, t, e);
      }
    }
    assert CapturesNew(s, active, t) by {
      forall id | id in t.entries && id !in s.entries ensures AddedNew(u, active, id, t) {
        assert id !in u.entries;
      }
    }
  }

  /** Whatever was read, some reload of it is possible. */
  lemma ReloadExists(s: State, active: map<string, Record>, parses: Parses) returns (t: State)
    requires Consistent(s) && WellIndexed(active)
    ensures Reloaded(s, active, parses, t)
  {
    var u := Unscheduled(s, active.Keys);
    UnschedulingKeepsConsistent(s, active.Keys);
    t := AddingAll(u, active, parses, active.Keys, u);
    ReloadInParts(s, active, parses, u, t);
  }
}
