/** One run over the due jobs (cmd/server/cron_runner.go, with the table queries of
    internal/modules/cron/adapters/persistence/gorm_repository.go). */
module CronRunner {
  import opened Options
  import opened CronJob

  type Table = map<string, Record>

  ghost predicate WellKeyed(rows: Table) {
    forall id :: id in rows ==> rows[id].id == id
  }

  predicate IsDue(j: Record, now: int) {
    j.status.Active? && j.nextRun <= now
  }

  /** What the due query returns: every due row once, earliest next run first. */
  ghost predicate DueListing(rows: Table, now: int, due: seq<Record>) {
    && (forall i, j :: 0 <= i < j < |due| ==> due[i].id != due[j].id && due[i].nextRun <= due[j].nextRun)
    && (forall i :: 0 <= i < |due| ==> due[i].id in rows && rows[due[i].id] == due[i] && IsDue(due[i], now))
    && (forall id :: id in rows && IsDue(rows[id], now) ==> rows[id] in due)
  }

  /** What happens around the i-th job of a run: the error text of its body (empty if none), the
      clock when it finishes, and whether its row is saved. */
  datatype Env = Env(bodyError: string, finished: int, saved: bool)

  type Envs = nat -> Env

  /** Whether the body runs at all, and the error text recorded for the job. */
  function Dispatch(j: Record, demoMode: bool, bodyError: string): (bool, string) {
    if j.jobType == "action" || j.jobType == "rpc" then (true, bodyError)
    else if j.jobType == "shell" then
      if demoMode then (false, "demo mode: shell jobs are disabled") else (true, bodyError)
    else if j.jobType == "url" then
      if demoMode then (false, "demo mode: url jobs are disabled") else (true, bodyError)
    else (false, "unknown job type: " + j.jobType)
  }

  function Ran(j: Record, demoMode: bool, env: Env, next: NextTime): Record {
    Apply(j, Advance(env.finished, Dispatch(j, demoMode, env.bodyError).1), env.finished, next).0
  }

  /** The table after the first n jobs of a run. */
  function AfterJobs(rows: Table, due: seq<Record>, n: nat, demoMode: bool, envs: Envs, next: NextTime): Table
    requires n <= |due|
  {
    if n == 0 then rows
    else
      var before := AfterJobs(rows, due, n - 1, demoMode, envs, next);
      if envs(n - 1).saved then before[due[n - 1].id := Ran(due[n - 1], demoMode, envs(n - 1), next)] else before
  }

  function BodiesRun(due: seq<Record>, demoMode: bool): seq<string> {
    if due == [] then []
    else
      var n := |due| - 1;
      BodiesRun(due[..n], demoMode) + if Dispatch(due[n], demoMode, "").0 then [due[n].id] else []
  }

  // ---------------------------------------------------------------- which bodies run, described without the switch

  /** Actions and RPCs always run, shell commands and URLs outside demo mode only, anything else never. */
  predicate IsRunnable(j: Record, demoMode: bool) {
    j.jobType in {"action", "rpc"} || (!demoMode && j.jobType in {"shell", "url"})
  }

  /** What a job that is not run leaves as its error. */
  predicate IsRefusal(jobType: string, text: string) {
    && text != ""
    && text == if jobType in {"shell", "url"} then "demo mode: " + jobType + " jobs are disabled"
               else "unknown job type: " + jobType
  }

  lemma DispatchDecides(j: Record, demoMode: bool, bodyError: string)
    ensures Dispatch(j, demoMode, bodyError).0 <==> IsRunnable(j, demoMode)
    ensures IsRunnable(j, demoMode) ==> Dispatch(j, demoMode, bodyError).1 == bodyError
    ensures !IsRunnable(j, demoMode) ==> IsRefusal(j.jobType, Dispatch(j, demoMode, bodyError).1)
  {
    if j.jobType == "shell" && demoMode {
      assert "demo mode: " + "shell" + " jobs are disabled" == "demo mode: shell jobs are disabled";
    }
    if j.jobType == "url" && demoMode {
      assert "demo mode: " + "url" + " jobs are disabled" == "demo mode: url jobs are disabled";
    }
  }

  /** The positions of the listed jobs whose bodies run. */
  function RunnableAt(due: seq<Record>, demoMode: bool): seq<nat> {
    if due == [] then []
    else
      var n := |due| - 1;
      RunnableAt(due[..n], demoMode) + if IsRunnable(due[n], demoMode) then [n] else []
  }

  lemma {:induction false} EarliestExists(rows: Table, ids: set<string>)
    requires ids != {} && ids <= rows.Keys
    ensures exists id :: id in ids && forall other :: other in ids ==> rows[id].nextRun <= rows[other].nextRun
    decreases |ids|
  {
    var id :| id in ids;
    var rest := ids - {id};
    if rest == {} {
      assert ids == {id};
    } else {
      EarliestExists(rows, rest);
      var e :| e in rest && forall other :: other in rest ==> rows[e].nextRun <= rows[other].nextRun;
      var best := if rows[id].nextRun <= rows[e].nextRun then id else e;
      assert best in ids && forall other :: other in ids ==> rows[best].nextRun <= rows[other].nextRun;
    }
  }

  /** The state of the query: due rows listed so far, none later than one still pending. */
  ghost predicate Listing(rows: Table, now: int, pending: set<string>, due: seq<Record>) {
    && (forall id :: id in pending ==> id in rows && IsDue(rows[id], now))
    && (forall i :: 0 <= i < |due| ==>
          due[i].id in rows && rows[due[i].id] == due[i] && IsDue(due[i], now) && due[i].id !in pending)
    && (forall i, j :: 0 <= i < j < |due| ==> due[i].id != due[j].id && due[i].nextRun <= due[j].nextRun)
    && (forall i, id :: 0 <= i < |due| && id in pending ==> due[i].nextRun <= rows[id].nextRun)
    && (forall id :: id in rows && IsDue(rows[id], now) ==> id in pending || rows[id] in due)
  }

  lemma ListEarliest(rows: Table, now: int, pending: set<string>, due: seq<Record>, id: string)
    requires WellKeyed(rows) && Listing(rows, now, pending, due) && id in pending
    requires forall other :: other in pending ==> rows[id].nextRun <= rows[other].nextRun
    ensures Listing(rows, now, pending - {id}, due + [rows[id]])
  {
  }

  class Repository {
    var rows: Table

    constructor (rows: Table)
      ensures this.rows == rows
    {
      this.rows := rows;
    }

    method ListDue(now: int) returns (due: seq<Record>)
      requires WellKeyed(rows)
      ensures DueListing(rows, now, due)
      ensures forall id :: id in rows ==> (rows[id] in due <==> rows[id].status == Active && rows[id].nextRun <= now)
    {
      var pending := set id | id in rows && IsDue(rows[id], now);
      due := [];
      while pending != {}
        invariant Listing(rows, now, pending, due)
        decreases pending
      {
        EarliestExists(rows, pending);
        var id :| id in pending && forall other :: other in pending ==> rows[id].nextRun <= rows[other].nextRun;
        ListEarliest(rows, now, pending, due, id);
        due := due + [rows[id]];
        pending := pending - {id};
      }
    }

    method Save(job: Job, ok: bool)
      modifies this
      ensures rows == if ok then old(rows)[job.id := job.State()] else old(rows)
    {
      if ok {
        rows := rows[job.id := job.State()];
      }
    }
  }

  class Runner {
    const repo: Repository
    const demoMode: bool
    /** Ids of the jobs whose bodies were started, in order. */
    var started: seq<string>

    constructor (repo: Repository, demoMode: bool)
      ensures this.repo == repo && this.demoMode == demoMode && started == []
    {
      this.repo, this.demoMode, started := repo, demoMode, [];
    }

    method RunJob(job: Job, env: Env, next: NextTime)
      modifies this`started, job`lastRun, job`lastError, job`nextRun, job`updatedAt, repo
      ensures job.State() == Ran(old(job.State()), demoMode, env, next)
      ensures repo.rows == if env.saved then old(repo.rows)[old(job.id) := job.State()] else old(repo.rows)
      ensures started == old(started) + if Dispatch(old(job.State()), demoMode, "").0 then [old(job.id)] else []
      ensures started == old(started) + if IsRunnable(old(job.State()), demoMode) then [job.id] else []
      ensures RanAndRecorded(old(job.State()), job.State(), IsRunnable(old(job.State()), demoMode), env, next)
    {
      DispatchDecides(job.State(), demoMode, "");
      RanIsRecorded(job.State(), demoMode, env, next);
      var runErr := "";
      match job.jobType {
        case "action" => started, runErr := started + [job.id], env.bodyError;
        case "shell" =>
          if demoMode { runErr := "demo mode: shell jobs are disabled"; }
          else { started, runErr := started + [job.id], env.bodyError; }
        case "rpc" => started, runErr := started + [job.id], env.bodyError;
        case "url" =>
          if demoMode { runErr := "demo mode: url jobs are disabled"; }
          else { started, runErr := started + [job.id], env.bodyError; }
        case _ => runErr := "unknown job type: " + job.jobType;
      }
      job.AdvanceNextRun(env.finished, runErr, env.finished, next);
      repo.Save(job, env.saved);
    }

    /** Every due job is attempted exactly once, in listing order, each on a freshly loaded copy. */
    method RunDueJobs(now: int, listOk: bool, envs: Envs, next: NextTime) returns (due: seq<Record>)
      requires WellKeyed(repo.rows) && started == []
      modifies this`started, repo
      ensures !listOk ==> due == [] && repo.rows == old(repo.rows)
      ensures listOk ==> DueListing(old(repo.rows), now, due)
      ensures repo.rows == AfterJobs(old(repo.rows), due, |due|, demoMode, envs, next)
      ensures started == BodiesRun(due, demoMode)
      ensures RunIsRecorded(due, demoMode, envs, next, started, repo.rows)
    {
      due := [];
      if !listOk { return; }
      due := repo.ListDue(now);
      RunListed(due, envs, next);
      RunRecords(old(repo.rows), now, due, demoMode, envs, next);
    }

    /** The loop over the listed jobs. */
    method RunListed(due: seq<Record>, envs: Envs, next: NextTime)
      requires started == []
      modifies this`started, repo
      ensures repo.rows == AfterJobs(old(repo.rows), due, |due|, demoMode, envs, next)
      ensures started == BodiesRun(due, demoMode)
    {
      for i := 0 to |due|
        invariant repo.rows == AfterJobs(old(repo.rows), due, i, demoMode, envs, next)
        invariant started == BodiesRun(due[..i], demoMode)
      {
        var job := new Job.FromRow(due[i]);
        RunJob(job, envs(i), next);
        assert due[..i + 1][..i] == due[..i];
      }
      assert due[..|due|] == due;
    }
  }

  /** What a run leaves in a saved row: the error of its body if that ran and a refusal otherwise, the time
      it finished, the next run moved on, and everything else as it was. */
  predicate RanAndRecorded(before: Record, after: Record, ran: bool, env: Env, next: NextTime) {
    && (if ran then after.lastError == env.bodyError else IsRefusal(before.jobType, after.lastError))
    && after.lastRun == Some(env.finished) && after.updatedAt == env.finished
    && AdvancedFrom(before.schedule, before.nextRun, env.finished, after.nextRun, next)
    && after == before.(lastRun := after.lastRun, lastError := after.lastError, nextRun := after.nextRun,
                        updatedAt := after.updatedAt)
  }

  lemma {:induction false} RunnableAtRises(due: seq<Record>, demoMode: bool)
    ensures var at := RunnableAt(due, demoMode);
            && (forall j, k :: 0 <= j < k < |at| ==> at[j] < at[k])
            && (forall i: nat :: i in at <==> i < |due| && IsRunnable(due[i], demoMode))
  {
    if due != [] {
      var n := |due| - 1;
      RunnableAtRises(due[..n], demoMode);
      var at := RunnableAt(due[..n], demoMode);
      assert forall k :: 0 <= k < |at| ==> at[k] in at;
    }
  }

  lemma {:induction false} BodiesAreRunnable(due: seq<Record>, demoMode: bool)
    ensures var at, ran := RunnableAt(due, demoMode), BodiesRun(due, demoMode);
            |ran| == |at| && forall k :: 0 <= k < |at| ==> at[k] < |due| && ran[k] == due[at[k]].id
  {
    if due != [] {
      var n := |due| - 1;
      BodiesAreRunnable(due[..n], demoMode);
      DispatchDecides(due[n], demoMode, "");
      var at := RunnableAt(due[..n], demoMode);
      assert forall k :: 0 <= k < |at| ==> due[..n][at[k]] == due[at[k]];
    }
  }

  /** The bodies run are those of the runnable jobs, in the order listed. */
  lemma BodiesRunInOrder(due: seq<Record>, demoMode: bool)
    ensures var at, ran := RunnableAt(due, demoMode), BodiesRun(due, demoMode);
            && |ran| == |at| && (forall k :: 0 <= k < |at| ==> at[k] < |due| && ran[k] == due[at[k]].id)
            && (forall j, k :: 0 <= j < k < |at| ==> at[j] < at[k])
            && (forall i: nat :: i in at <==> i < |due| && IsRunnable(due[i], demoMode))
  {
    RunnableAtRises(due, demoMode);
    BodiesAreRunnable(due, demoMode);
  }

  lemma RanIsRecorded(j: Record, demoMode: bool, env: Env, next: NextTime)
    ensures RanAndRecorded(j, Ran(j, demoMode, env, next), IsRunnable(j, demoMode), env, next)
  {
    DispatchDecides(j, demoMode, env.bodyError);
    var base := if env.finished > j.nextRun then env.finished else j.nextRun;
    assert base in {j.nextRun, env.finished};
  }

  lemma StartedIffRunnable(due: seq<Record>, demoMode: bool)
    requires DistinctIds(due)
    ensures forall i :: 0 <= i < |due| ==> (due[i].id in BodiesRun(due, demoMode) <==> IsRunnable(due[i], demoMode))
  {
    var started, at := BodiesRun(due, demoMode), RunnableAt(due, demoMode);
    BodiesRunInOrder(due, demoMode);
    forall i | 0 <= i < |due| ensures due[i].id in started <==> IsRunnable(due[i], demoMode) {
      if due[i].id in started {
        var k :| 0 <= k < |started| && started[k] == due[i].id;
        assert at[k] == i;
      }
      if IsRunnable(due[i], demoMode) {
        assert i in at;
        var k :| 0 <= k < |at| && at[k] == i;
        assert started[k] == due[i].id;
      }
    }
  }

  /** Exactly the runnable jobs were started, and every saved row records its own run. */
  ghost predicate RunIsRecorded(due: seq<Record>, demoMode: bool, envs: Envs, next: NextTime, started: seq<string>, after: Table) {
    && (forall i :: 0 <= i < |due| ==> (due[i].id in started <==> IsRunnable(due[i], demoMode)))
    && (forall i: nat :: i < |due| && envs(i).saved ==>
          due[i].id in after && RanAndRecorded(due[i], after[due[i].id], due[i].id in started, envs(i), next))
  }

  /** A whole run starts exactly the runnable jobs, so in demo mode no shell command and no URL, and every
      row it saves records the error of its own body, or why that was not run. */
  lemma RunRecords(rows: Table, now: int, due: seq<Record>, demoMode: bool, envs: Envs, next: NextTime)
    requires WellKeyed(rows) && DueListing(rows, now, due)
    ensures RunIsRecorded(due, demoMode, envs, next, BodiesRun(due, demoMode),
                          AfterJobs(rows, due, |due|, demoMode, envs, next))
  {
    StartedIffRunnable(due, demoMode);
    forall i: nat | i < |due| && envs(i).saved
      ensures var after := AfterJobs(rows, due, |due|, demoMode, envs, next);
              due[i].id in after &&
              RanAndRecorded(due[i], after[due[i].id], due[i].id in BodiesRun(due, demoMode), envs(i), next)
    {
      DueRowAfter(rows, due, |due|, i, demoMode, envs, next);
      RanIsRecorded(due[i], demoMode, envs(i), next);
    }
  }

  ghost predicate DistinctIds(due: seq<Record>) {
    forall i, j :: 0 <= i < j < |due| ==> due[i].id != due[j].id
  }

  /** A due row ends as its advanced copy if it was saved, and untouched otherwise. */
  lemma {:induction false} DueRowAfter(rows: Table, due: seq<Record>, n: nat, i: nat, demoMode: bool,
                                       envs: Envs, next: NextTime)
    requires DistinctIds(due) && n <= |due| && i < |due| && due[i].id in rows && rows[due[i].id] == due[i]
    ensures var after := AfterJobs(rows, due, n, demoMode, envs, next);
            && due[i].id in after
            && after[due[i].id] == if i < n && envs(i).saved then Ran(due[i], demoMode, envs(i), next) else due[i]
  {
    if n > 0 {
      DueRowAfter(rows, due, n - 1, i, demoMode, envs, next);
    }
  }

  /** A row that was not due is untouched, and no row appears. */
  lemma {:induction false} OtherRowAfter(rows: Table, due: seq<Record>, n: nat, id: string, demoMode: bool,
                                         envs: Envs, next: NextTime)
    requires n <= |due| && forall i :: 0 <= i < |due| ==> due[i].id != id
    ensures var after := AfterJobs(rows, due, n, demoMode, envs, next);
            (id in after <==> id in rows) && (id in rows ==> after[id] == rows[id])
  {
    if n > 0 {
      OtherRowAfter(rows, due, n - 1, id, demoMode, envs, next);
    }
  }

  lemma DueRowProgress(j: Record, demoMode: bool, env: Env, now: int, next: NextTime)
    requires StrictlyLater(next) && ParsesByText(next) && IsDue(j, now) && env.finished >= now
    ensures var k := Ran(j, demoMode, env, next);
            if next(j.schedule, now).Some? then !IsDue(k, now) && k.nextRun > j.nextRun
            else IsDue(k, now) && k.nextRun == j.nextRun
  {
    var base := if env.finished > j.nextRun then env.finished else j.nextRun;
    assert next(j.schedule, base).Some? <==> next(j.schedule, now).Some?;
  }

  /** Progress: whatever the job bodies return, a job is still due at the run's start time afterwards
      exactly when its row was not saved or its schedule does not parse; every saved job that parses
      has a strictly later next run. */
  lemma DueRunMakesProgress(rows: Table, now: int, due: seq<Record>, demoMode: bool, envs: Envs, next: NextTime)
    requires WellKeyed(rows) && DueListing(rows, now, due)
    requires StrictlyLater(next) && ParsesByText(next)
    requires forall i: nat :: i < |due| ==> envs(i).finished >= now
    ensures var after := AfterJobs(rows, due, |due|, demoMode, envs, next);
            forall i :: 0 <= i < |due| ==>
              && due[i].id in after
              && (IsDue(after[due[i].id], now) <==> !envs(i).saved || next(due[i].schedule, now).None?)
              && (envs(i).saved && next(due[i].schedule, now).Some? ==> after[due[i].id].nextRun > due[i].nextRun)
    ensures var after := AfterJobs(rows, due, |due|, demoMode, envs, next);
            forall id :: !(id in rows && IsDue(rows[id], now)) ==>
              (id in after <==> id in rows) && (id in rows ==> after[id] == rows[id])
  {
    var after := AfterJobs(rows, due, |due|, demoMode, envs, next);
    forall i | 0 <= i < |due|
      ensures due[i].id in after
      ensures IsDue(after[due[i].id], now) <==> !envs(i).saved || next(due[i].schedule, now).None?
      ensures envs(i).saved && next(due[i].schedule, now).Some? ==> after[due[i].id].nextRun > due[i].nextRun
    {
      DueRowAfter(rows, due, |due|, i, demoMode, envs, next);
      DueRowProgress(due[i], demoMode, envs(i), now, next);
    }
    forall id | !(id in rows && IsDue(rows[id], now))
      ensures (id in after <==> id in rows) && (id in rows ==> after[id] == rows[id])
    {
      OtherRowAfter(rows, due, |due|, id, demoMode, envs, next);
    }
  }

  /** Two listings of one table name the same jobs, so which jobs a run attempts is determined. */
  lemma ListingIsDetermined(rows: Table, now: int, due: seq<Record>, other: seq<Record>)
    requires WellKeyed(rows) && DueListing(rows, now, due) && DueListing(rows, now, other)
    ensures |due| == |other| && forall j :: j in due <==> j in other
  {
    forall j ensures j in due <==> j in other {
      if j in due { assert rows[j.id] in other; }
      if j in other { assert rows[j.id] in due; }
    }
    DistinctCount(due);
    DistinctCount(other);
    assert (set j | j in due) == (set j | j in other);
  }

  lemma {:induction false} DistinctCount(s: seq<Record>)
    requires forall i, j :: 0 <= i < j < |s| ==> s[i].id != s[j].id
    ensures |set j | j in s| == |s|
  {
    if s != [] {
      var n := |s| - 1;
      DistinctCount(s[..n]);
      assert s == s[..n] + [s[n]];
      assert s[n] !in s[..n];
      assert (set j | j in s) == (set j | j in s[..n]) + {s[n]};
    }
  }
}
