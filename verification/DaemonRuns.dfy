/** Runs of the cron daemon beside everybody else who writes the job table (cmd/server/cron_daemon.go,
    cmd/server/cron_runner.go): rows are edited, reloads read the table and later reconcile, entries
    fire, and a body that ends advances the job captured for its entry and saves it over the row. */
module DaemonRuns {
  import opened Options
  import opened CronJob
  import opened CronDaemon
  import CronRunner

  /** `copies` holds the captured job of every entry ever made, which its firings share; `listings` the
      listings that reloads have read and not yet reconciled; `running` the entries of the firings
      whose bodies have not ended. */
  datatype World = World(rows: CronRunner.Table, daemon: State, copies: map<nat, Record>,
                         listings: seq<seq<Record>>, running: seq<nat>)

  datatype Action =
    | Edit(row: Record)
    | Read(jobs: seq<Record>)
    | ReadFails
    | Reconcile(k: nat)
    | Register
    | Fire(e: nat)
    | Finish(k: nat, env: CronRunner.Env)

  datatype Setting = Setting(parses: Parses, next: NextTime, demoMode: bool)

  ghost predicate Lists(rows: CronRunner.Table, jobs: seq<Record>) {
    forall j :: j in jobs <==> j.id in rows && rows[j.id] == j
  }

  /** The captured jobs once new entries have been made. */
  function Captured(copies: map<nat, Record>, s: State): map<nat, Record> {
    map e | e in copies.Keys + JobEntries(s) :: if e in copies then copies[e] else s.scheduled[e].job
  }

  function Without<T>(s: seq<T>, k: nat): seq<T>
    requires k < |s|
  {
    s[..k] + s[k + 1..]
  }

  function Registered(s: State): State {
    s.(scheduled := s.scheduled[s.nextId := ReloadSelf], nextId := s.nextId + 1)
  }

  /** What the end of the k-th running body leaves behind. */
  function Finished(w: World, k: nat, env: CronRunner.Env, setting: Setting): World
    requires k < |w.running| && w.running[k] in w.copies
  {
    var e := w.running[k];
    var job := CronRunner.Ran(w.copies[e], setting.demoMode, env, setting.next);
    w.(copies := w.copies[e := job], rows := if env.saved then w.rows[job.id := job] else w.rows,
       running := Without(w.running, k))
  }

  ghost predicate Next(w: World, a: Action, setting: Setting, u: World) {
    match a
    case Edit(row) => u == w.(rows := w.rows[row.id := row])
    case Read(jobs) => Lists(w.rows, jobs) && u == w.(listings := w.listings + [jobs])
    case ReadFails => u == w
    case Reconcile(k) =>
      && k < |w.listings|
      && Reloaded(w.daemon, ActiveIndex(w.listings[k]), setting.parses, u.daemon)
      && u == w.(daemon := u.daemon, copies := Captured(w.copies, u.daemon), listings := Without(w.listings, k))
    case Register => u == w.(daemon := Registered(w.daemon))
    case Fire(e) => e in JobEntries(w.daemon) && u == w.(running := w.running + [e])
    case Finish(k, env) => k < |w.running| && w.running[k] in w.copies && u == Finished(w, k, env, setting)
  }

  // ---------------------------------------------------------------- the invariant

  /** What no firing changes about a job. */
  predicate SameJob(j: Record, k: Record) {
    && j.id == k.id && j.name == k.name && j.schedule == k.schedule && j.jobType == k.jobType
    && j.payload == k.payload && j.status == k.status
  }

  ghost predicate Inv(w: World) {
    && Consistent(w.daemon) && CronRunner.WellKeyed(w.rows)
    && (forall e :: e in JobEntries(w.daemon) ==> e in w.copies && SameJob(w.copies[e], w.daemon.scheduled[e].job))
    && (forall e :: e in w.copies ==> e < w.daemon.nextId && w.copies[e].status.Active?)
    && (forall k :: 0 <= k < |w.running| ==> w.running[k] in w.copies)
  }

  /** A job entry after a reload is one from before, or a new one that captured a row just read. */
  lemma EntryOldOrNew(s: State, active: map<string, Record>, parses: Parses, t: State, e: nat)
    requires Consistent(s) && WellIndexed(active) && Reloaded(s, active, parses, t) && e in JobEntries(t)
    ensures var id := t.scheduled[e].job.id;
            if id in s.entries then e in JobEntries(s) && t.scheduled[e] == s.scheduled[e] && s.entries[id] == e
            else s.nextId <= e && id in active && t.scheduled[e] == RunCaptured(active[id])
  {
    var id := t.scheduled[e].job.id;
    assert id in t.entries && t.entries[id] == e;
  }

  lemma CopyOfEntry(w: World, active: map<string, Record>, parses: Parses, t: State, e: nat)
    requires Inv(w) && WellIndexed(active) && Reloaded(w.daemon, active, parses, t) && e in JobEntries(t)
    ensures var copies := Captured(w.copies, t);
            e in copies && SameJob(copies[e], t.scheduled[e].job) && copies[e].status.Active?
  {
    EntryOldOrNew(w.daemon, active, parses, t, e);
  }

  lemma ReconcileKeepsInv(w: World, k: nat, setting: Setting, u: World)
    requires Inv(w) && Next(w, Reconcile(k), setting, u)
    ensures Inv(u)
  {
    var active := ActiveIndex(w.listings[k]);
    ActiveIndexIsActive(w.listings[k]);
    ReloadKeepsConsistent(w.daemon, active, setting.parses, u.daemon);
    CopiesAfter(w, active, setting.parses, u.daemon);
  }

  lemma CopiesAfter(w: World, active: map<string, Record>, parses: Parses, t: State)
    requires Inv(w) && WellIndexed(active) && Reloaded(w.daemon, active, parses, t)
    ensures var copies := Captured(w.copies, t);
            && (forall e :: e in JobEntries(t) ==> e in copies && SameJob(copies[e], t.scheduled[e].job))
            && (forall e :: e in copies ==> e < t.nextId && copies[e].status.Active?)
  {
    var copies := Captured(w.copies, t);
    forall e | e in JobEntries(t) ensures e in copies && SameJob(copies[e], t.scheduled[e].job) && copies[e].status.Active? {
      CopyOfEntry(w, active, parses, t, e);
    }
  }

  lemma RegisterKeepsEntries(s: State)
    requires Consistent(s)
    ensures Consistent(Registered(s)) && JobEntries(Registered(s)) == JobEntries(s)
    ensures forall e :: e in JobEntries(s) ==> Registered(s).scheduled[e] == s.scheduled[e]
  {
  }

  lemma StepKeepsInv(w: World, a: Action, setting: Setting, u: World)
    requires Inv(w) && Next(w, a, setting, u)
    ensures Inv(u)
  {
    match a
    case Reconcile(k) => ReconcileKeepsInv(w, k, setting, u);
    case Register => RegisterKeepsEntries(w.daemon);
    case _ =>
  }

  // ---------------------------------------------------------------- runs

  ghost predicate StepAt(ws: seq<World>, acts: seq<Action>, setting: Setting, k: nat) {
    k < |acts| && k + 1 < |ws| && Next(ws[k], acts[k], setting, ws[k + 1])
  }

  ghost predicate IsRun(ws: seq<World>, acts: seq<Action>, setting: Setting) {
    |ws| == |acts| + 1 && forall k: nat :: k < |acts| ==> StepAt(ws, acts, setting, k)
  }

  /** A daemon that has just been made, beside any job table. */
  ghost predicate Initial(w: World) {
    CronRunner.WellKeyed(w.rows) && w == World(w.rows, State(map[], map[], 1), map[], [], [])
  }

  lemma ShorterRun(ws: seq<World>, acts: seq<Action>, setting: Setting)
    requires IsRun(ws, acts, setting) && acts != []
    ensures var n := |acts| - 1; IsRun(ws[..n + 1], acts[..n], setting) && Next(ws[n], acts[n], setting, ws[n + 1])
  {
    var n := |acts| - 1;
    var fewer, before := acts[..n], ws[..n + 1];
    assert StepAt(ws, acts, setting, n);
    forall k: nat | k < n ensures StepAt(before, fewer, setting, k) {
      assert StepAt(ws, acts, setting, k);
    }
  }

  lemma {:induction false} RunKeepsInv(ws: seq<World>, acts: seq<Action>, setting: Setting)
    requires IsRun(ws, acts, setting) && Inv(ws[0])
    ensures Inv(ws[|acts|])
  {
    if acts != [] {
      var n := |acts| - 1;
      ShorterRun(ws, acts, setting);
      RunKeepsInv(ws[..n + 1], acts[..n], setting);
      StepKeepsInv(ws[n], acts[n], setting, ws[n + 1]);
    }
  }

  /** The active jobs of each listing reconciled so far, in order. */
  function Reconciled(ws: seq<World>, acts: seq<Action>): seq<map<string, Record>>
    requires |ws| == |acts| + 1
  {
    if acts == [] then []
    else
      var n := |acts| - 1;
      Reconciled(ws[..n + 1], acts[..n]) + ReconciledBy(ws[n], acts[n])
  }

  /** What a step adds to the listings reconciled. */
  function ReconciledBy(w: World, a: Action): seq<map<string, Record>> {
    if a.Reconcile? && a.k < |w.listings| then [ActiveIndex(w.listings[a.k])] else []
  }

  lemma ScheduledStep(w: World, a: Action, setting: Setting, u: World, id: string, actives: seq<map<string, Record>>)
    requires Next(w, a, setting, u) && (id in w.daemon.entries <==> ActiveThroughout(actives, setting.parses, id))
    ensures id in u.daemon.entries <==> ActiveThroughout(actives + ReconciledBy(w, a), setting.parses, id)
  {
    if a.Reconcile? {
      ActiveOneMore(actives, ActiveIndex(w.listings[a.k]), setting.parses, id);
    } else {
      assert actives + [] == actives;
    }
  }

  lemma {:induction false} ScheduledAfterRun(ws: seq<World>, acts: seq<Action>, setting: Setting, id: string)
    requires IsRun(ws, acts, setting) && Initial(ws[0])
    ensures id in ws[|acts|].daemon.entries <==> ActiveThroughout(Reconciled(ws, acts), setting.parses, id)
  {
    if acts != [] {
      var n := |acts| - 1;
      ShorterRun(ws, acts, setting);
      ScheduledAfterRun(ws[..n + 1], acts[..n], setting, id);
      ScheduledStep(ws[n], acts[n], setting, ws[n + 1], id, Reconciled(ws[..n + 1], acts[..n]));
    }
  }

  /** After every run of the daemon, with failed reads, edits, firings and its own entry anywhere in
      between, the table and the scheduler's job entries correspond one to one, and a job is scheduled
      exactly when it has been active without interruption since some reload at which its schedule
      parsed. */
  lemma ScheduledIffActiveSince(ws: seq<World>, acts: seq<Action>, setting: Setting, id: string)
    requires IsRun(ws, acts, setting) && Initial(ws[0])
    ensures Consistent(ws[|acts|].daemon)
    ensures JobEntries(ws[|acts|].daemon) == ws[|acts|].daemon.entries.Values
    ensures id in ws[|acts|].daemon.entries <==> ActiveThroughout(Reconciled(ws, acts), setting.parses, id)
  {
    RunKeepsInv(ws, acts, setting);
    OneEntryPerJob(ws[|acts|].daemon);
    ScheduledAfterRun(ws, acts, setting, id);
  }

  // ---------------------------------------------------------------- what becomes of an edit

  ghost predicate Unedited(acts: seq<Action>, id: string) {
    forall k :: 0 <= k < |acts| && acts[k].Edit? ==> acts[k].row.id != id
  }

  /** Step k is the end of a firing of the job, and its save succeeds. */
  ghost predicate SavesAt(ws: seq<World>, acts: seq<Action>, id: string, k: nat) {
    && k < |acts| && k < |ws| && Saves(ws[k], acts[k], id)
  }

  ghost predicate Saves(w: World, a: Action, id: string) {
    && a.Finish? && a.env.saved && a.k < |w.running| && w.running[a.k] in w.copies
    && w.copies[w.running[a.k]].id == id
  }

  /** The captured job of the firing that ends. */
  function SavedCopy(w: World, a: Action): Record
    requires a.Finish? && a.k < |w.running| && w.running[a.k] in w.copies
  {
    w.copies[w.running[a.k]]
  }

  lemma RowStep(w: World, a: Action, setting: Setting, u: World, id: string)
    requires Inv(w) && Next(w, a, setting, u) && id in w.rows && (a.Edit? ==> a.row.id != id)
    ensures id in u.rows
    ensures if Saves(w, a, id) then SameJob(u.rows[id], SavedCopy(w, a)) && u.rows[id].status.Active?
            else u.rows[id] == w.rows[id]
  {
  }

  /** Step k is the last saved firing of the job. */
  ghost predicate LastSave(ws: seq<World>, acts: seq<Action>, id: string, k: nat) {
    SavesAt(ws, acts, id, k) && forall i: nat :: k < i ==> !SavesAt(ws, acts, id, i)
  }

  lemma SavesOneMore(ws: seq<World>, acts: seq<Action>, id: string)
    requires |ws| == |acts| + 1 && acts != []
    ensures var n := |acts| - 1;
            forall k: nat :: SavesAt(ws, acts, id, k) <==>
                             SavesAt(ws[..n + 1], acts[..n], id, k) || (k == n && Saves(ws[n], acts[n], id))
  {
    var n := |acts| - 1;
    forall k: nat
      ensures SavesAt(ws, acts, id, k) <==> SavesAt(ws[..n + 1], acts[..n], id, k) || (k == n && Saves(ws[n], acts[n], id))
    {
      if k < n { assert ws[..n + 1][k] == ws[k] && acts[..n][k] == acts[k]; }
    }
  }

  /** What becomes of any row that is not edited again, after an edit, a pause or a deletion: it is exactly
      as it was left if no firing of the job was saved, and otherwise holds the name, schedule, type,
      payload and active status captured by the last firing saved. */
  lemma {:induction false} EditUndoneIffSaved(ws: seq<World>, acts: seq<Action>, setting: Setting, id: string)
    requires IsRun(ws, acts, setting) && Inv(ws[0]) && Unedited(acts, id) && id in ws[0].rows
    ensures id in ws[|acts|].rows
    ensures !(exists k: nat :: SavesAt(ws, acts, id, k)) ==> ws[|acts|].rows[id] == ws[0].rows[id]
    ensures (exists k: nat :: SavesAt(ws, acts, id, k)) ==>
              ws[|acts|].rows[id].status.Active?
              && exists k: nat :: LastSave(ws, acts, id, k) && SameJob(ws[|acts|].rows[id], SavedCopy(ws[k], acts[k]))
  {
    if acts != [] {
      var n := |acts| - 1;
      var fewer, before := acts[..n], ws[..n + 1];
      ShorterRun(ws, acts, setting);
      RunKeepsInv(before, fewer, setting);
      EditUndoneIffSaved(before, fewer, setting, id);
      RowStep(ws[n], acts[n], setting, ws[n + 1], id);
      SavesOneMore(ws, acts, id);
      if Saves(ws[n], acts[n], id) {
        assert LastSave(ws, acts, id, n);
      } else if exists k: nat :: SavesAt(before, fewer, id, k) {
        var k: nat :| LastSave(before, fewer, id, k) && SameJob(before[n].rows[id], SavedCopy(before[k], fewer[k]));
        assert LastSave(ws, acts, id, k) && ws[k] == before[k] && acts[k] == fewer[k];
      }
    }
  }

  // ---------------------------------------------------------------- when a pause is safe

  /** Nothing of the daemon can write the job's row any more: the job is not scheduled, none of its
      firings is still running, and no listing waiting to be reconciled would schedule it. */
  ghost predicate Quiet(w: World, parses: Parses, id: string) {
    id !in w.daemon.entries && NothingUnderWay(w, parses, id)
  }

  /** No firing of the job is running, and nothing read but not yet reconciled would schedule it. */
  ghost predicate NothingUnderWay(w: World, parses: Parses, id: string) {
    && (forall k :: 0 <= k < |w.running| && w.running[k] in w.copies ==> w.copies[w.running[k]].id != id)
    && (forall k :: 0 <= k < |w.listings| ==> !Schedules(ActiveIndex(w.listings[k]), parses, id))
  }

  predicate Schedules(active: map<string, Record>, parses: Parses, id: string) {
    id in active && parses(active[id].schedule)
  }

  lemma InactiveIsNotListed(rows: CronRunner.Table, jobs: seq<Record>, id: string)
    requires Lists(rows, jobs) && CronRunner.WellKeyed(rows) && id in rows && !rows[id].status.Active?
    ensures id !in ActiveIndex(jobs)
  {
    ActiveIndexIsActive(jobs);
  }

  lemma QuietStep(w: World, a: Action, setting: Setting, u: World, id: string)
    requires Inv(w) && Next(w, a, setting, u) && (a.Edit? ==> a.row.id != id)
    requires id in w.rows && !w.rows[id].status.Active? && Quiet(w, setting.parses, id)
    ensures Quiet(u, setting.parses, id) && !Saves(w, a, id)
  {
    match a
    case Read(jobs) => InactiveIsNotListed(w.rows, jobs, id);
    case Reconcile(k) => QuietReconcile(w, k, setting, u, id);
    case Fire(e) => assert w.daemon.scheduled[e].job.id in w.daemon.entries;
    case _ =>
  }

  lemma QuietReconcile(w: World, k: nat, setting: Setting, u: World, id: string)
    requires Inv(w) && Next(w, Reconcile(k), setting, u) && Quiet(w, setting.parses, id)
    ensures Quiet(u, setting.parses, id)
  {
    assert !Schedules(ActiveIndex(w.listings[k]), setting.parses, id);
    assert forall i :: 0 <= i < |u.listings| ==> u.listings[i] in w.listings;
  }

  lemma {:induction false} QuietRunKeepsRow(ws: seq<World>, acts: seq<Action>, setting: Setting, id: string)
    requires IsRun(ws, acts, setting) && Inv(ws[0]) && Unedited(acts, id)
    requires id in ws[0].rows && !ws[0].rows[id].status.Active? && Quiet(ws[0], setting.parses, id)
    ensures id in ws[|acts|].rows && ws[|acts|].rows[id] == ws[0].rows[id] && Quiet(ws[|acts|], setting.parses, id)
  {
    if acts != [] {
      var n := |acts| - 1;
      ShorterRun(ws, acts, setting);
      RunKeepsInv(ws[..n + 1], acts[..n], setting);
      QuietRunKeepsRow(ws[..n + 1], acts[..n], setting, id);
      QuietStep(ws[n], acts[n], setting, ws[n + 1], id);
      RowStep(ws[n], acts[n], setting, ws[n + 1], id);
    }
  }

  const SAVED := CronRunner.Env("", 0, true)

  /** A continuation that goes one step further in front. */
  lemma StepThenRun(w: World, a: Action, ws: seq<World>, acts: seq<Action>, setting: Setting)
    requires IsRun(ws, acts, setting) && Next(w, a, setting, ws[0])
    ensures IsRun([w] + ws, [a] + acts, setting)
  {
    forall k: nat | k < |acts| + 1 ensures StepAt([w] + ws, [a] + acts, setting, k) {
      if k > 0 { assert StepAt(ws, acts, setting, k - 1); }
    }
  }

  /** From here a run without edits of the job ends with its row active. */
  ghost predicate CanRevive(w: World, setting: Setting, id: string) {
    exists ws: seq<World>, acts: seq<Action> :: IsRun(ws, acts, setting) && ws[0] == w && Unedited(acts, id)
                       && id in ws[|acts|].rows && ws[|acts|].rows[id].status.Active?
  }

  lemma ReviveAfter(w: World, a: Action, u: World, setting: Setting, id: string)
    requires Next(w, a, setting, u) && !a.Edit? && CanRevive(u, setting, id)
    ensures CanRevive(w, setting, id)
  {
    var ws: seq<World>, acts: seq<Action> :| IsRun(ws, acts, setting) && ws[0] == u && Unedited(acts, id)
                    && id in ws[|acts|].rows && ws[|acts|].rows[id].status.Active?;
    StepThenRun(w, a, ws, acts, setting);
    assert ([w] + ws)[|[a] + acts|] == ws[|acts|];
  }

  lemma ActiveNow(w: World, setting: Setting, id: string)
    requires id in w.rows && w.rows[id].status.Active?
    ensures CanRevive(w, setting, id)
  {
    assert IsRun([w], [], setting) && Unedited([], id);
  }

  lemma RunningRevives(w: World, setting: Setting, id: string, k: nat)
    requires Inv(w) && k < |w.running| && w.running[k] in w.copies && w.copies[w.running[k]].id == id
    ensures CanRevive(w, setting, id)
  {
    var u := Finished(w, k, SAVED, setting);
    ActiveNow(u, setting, id);
    ReviveAfter(w, Finish(k, SAVED), u, setting, id);
  }

  lemma ScheduledRevives(w: World, setting: Setting, id: string)
    requires Inv(w) && id in w.daemon.entries
    ensures CanRevive(w, setting, id)
  {
    var e := w.daemon.entries[id];
    var u := w.(running := w.running + [e]);
    assert e in JobEntries(w.daemon);
    RunningRevives(u, setting, id, |w.running|);
    ReviveAfter(w, Fire(e), u, setting, id);
  }

  lemma ListedRevives(w: World, setting: Setting, id: string, k: nat)
    requires Inv(w) && k < |w.listings| && Schedules(ActiveIndex(w.listings[k]), setting.parses, id)
    ensures CanRevive(w, setting, id)
  {
    ActiveIndexIsActive(w.listings[k]);
    var t := ReloadExists(w.daemon, ActiveIndex(w.listings[k]), setting.parses);
    var u := w.(daemon := t, copies := Captured(w.copies, t), listings := Without(w.listings, k));
    assert Next(w, Reconcile(k), setting, u);
    StepKeepsInv(w, Reconcile(k), setting, u);
    ScheduledRevives(u, setting, id);
    ReviveAfter(w, Reconcile(k), u, setting, id);
  }

  /** A pause or deletion stands for good, over every continuation without another edit of the job,
      exactly when the daemon is done with the job. */
  lemma PauseStandsForGoodIff(w: World, setting: Setting, id: string)
    requires Inv(w) && id in w.rows && !w.rows[id].status.Active?
    ensures Quiet(w, setting.parses, id) <==>
            forall ws: seq<World>, acts: seq<Action> :: IsRun(ws, acts, setting) && ws[0] == w && Unedited(acts, id) ==>
              id in ws[|acts|].rows && ws[|acts|].rows[id] == w.rows[id]
  {
    if Quiet(w, setting.parses, id) {
      forall ws: seq<World>, acts: seq<Action> | IsRun(ws, acts, setting) && ws[0] == w && Unedited(acts, id)
        ensures id in ws[|acts|].rows && ws[|acts|].rows[id] == w.rows[id]
      {
        QuietRunKeepsRow(ws, acts, setting, id);
      }
    } else {
      if id in w.daemon.entries {
        ScheduledRevives(w, setting, id);
      } else if k: nat :| k < |w.running| && w.running[k] in w.copies && w.copies[w.running[k]].id == id {
        RunningRevives(w, setting, id, k);
      } else {
        var k: nat :| k < |w.listings| && Schedules(ActiveIndex(w.listings[k]), setting.parses, id);
        ListedRevives(w, setting, id, k);
      }
    }
  }

  /** Once no firing of an inactive job is running and nothing read earlier would schedule it, the next
      reload that reads and reconciles makes its pause or deletion final. */
  lemma ReloadMakesPauseFinal(w: World, jobs: seq<Record>, setting: Setting, u: World, v: World, id: string)
    requires Inv(w) && id in w.rows && !w.rows[id].status.Active?
    requires NothingUnderWay(w, setting.parses, id)
    requires Next(w, Read(jobs), setting, u) && Next(u, Reconcile(|w.listings|), setting, v)
    ensures Quiet(v, setting.parses, id) && v.rows == w.rows
  {
    InactiveIsNotListed(w.rows, jobs, id);
    assert u.listings[|w.listings|] == jobs;
    assert v.listings == w.listings;
  }

  /** A run from a pause or deletion up to and including the next reload that reads and reconciles after
      it: the row is as it was left, and stays so for good, exactly when no firing of the job was saved
      on the way, none was still running at that reload, and nothing read before it was still waiting to
      schedule the job. */
  lemma PauseStandsIffNoSave(ws: seq<World>, acts: seq<Action>, jobs: seq<Record>, setting: Setting, id: string)
    requires IsRun(ws, acts, setting) && Inv(ws[0]) && Unedited(acts, id)
    requires id in ws[0].rows && !ws[0].rows[id].status.Active?
    requires |acts| >= 2 && acts[|acts| - 2] == Read(jobs) && acts[|acts| - 1] == Reconcile(|ws[|acts| - 2].listings|)
    ensures (id in ws[|acts|].rows && ws[|acts|].rows[id] == ws[0].rows[id] && Quiet(ws[|acts|], setting.parses, id)) <==>
            (!exists k: nat :: SavesAt(ws, acts, id, k)) && NothingUnderWay(ws[|acts| - 2], setting.parses, id)
  {
    var n := |acts|;
    EditUndoneIffSaved(ws, acts, setting, id);
    if !exists k: nat :: SavesAt(ws, acts, id, k) {
      ShorterRun(ws, acts, setting);
      ShorterRun(ws[..n], acts[..n - 1], setting);
      assert ws[..n][..n - 1] == ws[..n - 1] && acts[..n - 1][..n - 2] == acts[..n - 2];
      RunKeepsInv(ws[..n - 1], acts[..n - 2], setting);
      RowsBeforeReload(ws[n - 2], jobs, setting, ws[n - 1], ws[n]);
      if NothingUnderWay(ws[n - 2], setting.parses, id) {
        ReloadMakesPauseFinal(ws[n - 2], jobs, setting, ws[n - 1], ws[n], id);
      } else {
        UnderWayStays(ws[n - 2], jobs, setting, ws[n - 1], ws[n], id);
      }
    }
  }

  lemma UnderWayStays(w: World, jobs: seq<Record>, setting: Setting, u: World, v: World, id: string)
    requires Inv(w) && Next(w, Read(jobs), setting, u) && Next(u, Reconcile(|w.listings|), setting, v)
    ensures NothingUnderWay(v, setting.parses, id) ==> NothingUnderWay(w, setting.parses, id)
  {
    assert v.listings == w.listings && v.running == w.running;
    forall e | e in w.copies ensures e in v.copies && v.copies[e] == w.copies[e] {}
  }

  lemma RowsBeforeReload(w: World, jobs: seq<Record>, setting: Setting, u: World, v: World)
    requires Next(w, Read(jobs), setting, u) && Next(u, Reconcile(|w.listings|), setting, v)
    ensures v.rows == w.rows
  {
  }

  // ---------------------------------------------------------------- a job that comes back

  lemma {:induction false} ListingExists(rows: CronRunner.Table) returns (jobs: seq<Record>)
    requires CronRunner.WellKeyed(rows)
    ensures Lists(rows, jobs)
    decreases rows.Keys
  {
    if rows.Keys == {} {
      jobs := [];
    } else {
      var id :| id in rows;
      var rest := rows - {id};
      assert rest.Keys == rows.Keys - {id};
      var more := ListingExists(rest);
      jobs := more + [rows[id]];
    }
  }

  lemma ActiveIsIndexed(rows: CronRunner.Table, jobs: seq<Record>, id: string)
    requires Lists(rows, jobs) && CronRunner.WellKeyed(rows) && id in rows && rows[id].status.Active?
    ensures id in ActiveIndex(jobs)
  {
    ActiveIndexIsActive(jobs);
    assert rows[id] in jobs;
  }

  lemma TwoSteps(w: World, a: Action, u: World, b: Action, v: World, setting: Setting)
    requires Next(w, a, setting, u) && Next(u, b, setting, v)
    ensures IsRun([w, u, v], [a, b], setting)
  {
    forall k: nat | k < 2 ensures StepAt([w, u, v], [a, b], setting, k) {}
  }

  lemma ReloadKeepsScheduled(w: World, setting: Setting, id: string) returns (jobs: seq<Record>, u: World, v: World)
    requires Inv(w) && id in w.rows && w.rows[id].status.Active? && id in w.daemon.entries
    ensures IsRun([w, u, v], [Read(jobs), Reconcile(|w.listings|)], setting)
    ensures v.rows == w.rows && id in v.daemon.entries
  {
    jobs := ListingExists(w.rows);
    ActiveIsIndexed(w.rows, jobs, id);
    ActiveIndexIsActive(jobs);
    u := w.(listings := w.listings + [jobs]);
    var t := ReloadExists(w.daemon, ActiveIndex(jobs), setting.parses);
    v := u.(daemon := t, copies := Captured(u.copies, t), listings := Without(u.listings, |w.listings|));
    assert u.listings[|w.listings|] == jobs;
    TwoSteps(w, Read(jobs), u, Reconcile(|w.listings|), v, setting);
  }

  lemma RunsJoin(ws: seq<World>, acts: seq<Action>, more: seq<World>, moreActs: seq<Action>, setting: Setting)
    requires IsRun(ws, acts, setting) && IsRun(more, moreActs, setting) && more[0] == ws[|acts|]
    ensures IsRun(ws + more[1..], acts + moreActs, setting)
  {
    var n, all, allActs := |acts|, ws + more[1..], acts + moreActs;
    forall k: nat | k < |allActs| ensures StepAt(all, allActs, setting, k) {
      if k < n {
        assert StepAt(ws, acts, setting, k);
      } else {
        assert StepAt(more, moreActs, setting, k - n);
        assert all[k] == more[k - n] && all[k + 1] == more[k - n + 1];
      }
    }
  }

  /** The entry of a paused job fires, and its save brings the row back. */
  lemma FiringRevives(w: World, setting: Setting, id: string) returns (u: World, v: World)
    requires Inv(w) && id in w.daemon.entries
    ensures IsRun([w, u, v], [Fire(w.daemon.entries[id]), Finish(|w.running|, SAVED)], setting)
    ensures Inv(v) && v.daemon == w.daemon && v.listings == w.listings
    ensures id in v.rows && v.rows[id].status.Active?
  {
    var e := w.daemon.entries[id];
    assert e in JobEntries(w.daemon);
    u := w.(running := w.running + [e]);
    StepKeepsInv(w, Fire(e), setting, u);
    v := Finished(u, |w.running|, SAVED, setting);
    StepKeepsInv(u, Finish(|w.running|, SAVED), setting, v);
    TwoSteps(w, Fire(e), u, Finish(|w.running|, SAVED), v, setting);
  }

  /** A pause that comes to nothing: a scheduled job is paused or deleted, its entry fires before the next
      reload and is saved, and after that reload the job is active and still scheduled. */
  lemma PauseComesUndone(w: World, setting: Setting, id: string)
    returns (ws: seq<World>, acts: seq<Action>, jobs: seq<Record>)
    requires Inv(w) && id in w.daemon.entries && id in w.rows && !w.rows[id].status.Active?
    ensures acts == [Fire(w.daemon.entries[id]), Finish(|w.running|, SAVED)] + [Read(jobs), Reconcile(|w.listings|)]
    ensures IsRun(ws, acts, setting) && ws[0] == w
    ensures id in ws[4].rows && ws[4].rows[id].status.Active? && id in ws[4].daemon.entries
  {
    var w1, w2 := FiringRevives(w, setting, id);
    var w3, w4;
    jobs, w3, w4 := ReloadKeepsScheduled(w2, setting, id);
    acts := [Fire(w.daemon.entries[id]), Finish(|w.running|, SAVED)] + [Read(jobs), Reconcile(|w.listings|)];
    ws := [w, w1, w2] + [w2, w3, w4][1..];
    RunsJoin([w, w1, w2], [Fire(w.daemon.entries[id]), Finish(|w.running|, SAVED)],
             [w2, w3, w4], [Read(jobs), Reconcile(|w.listings|)], setting);
    assert ws[4] == w4;
  }

  // ---------------------------------------------------------------- edits of a scheduled job

  lemma CopyStep(w: World, a: Action, setting: Setting, u: World, e: nat)
    requires Next(w, a, setting, u) && e in w.copies
    ensures e in u.copies && SameJob(u.copies[e], w.copies[e])
  {
  }

  lemma EntryStep(w: World, a: Action, setting: Setting, u: World, id: string)
    requires Next(w, a, setting, u) && id in w.daemon.entries && id in u.daemon.entries
    ensures u.daemon.entries[id] == w.daemon.entries[id]
  {
  }

  /** While a job stays scheduled, what it runs is what was captured when it was scheduled, whatever is
      done to its row: an edit is picked up exactly when it changes nothing about the captured job. */
  lemma {:induction false} EditPickedUpIffNone(ws: seq<World>, acts: seq<Action>, setting: Setting, id: string)
    requires IsRun(ws, acts, setting) && Inv(ws[0])
    requires forall k :: 0 <= k < |ws| ==> id in ws[k].daemon.entries
    ensures var e := ws[0].daemon.entries[id];
            && ws[|acts|].daemon.entries[id] == e && e in ws[0].copies && e in ws[|acts|].copies
            && SameJob(ws[|acts|].copies[e], ws[0].copies[e])
    ensures var e, end := ws[0].daemon.entries[id], ws[|acts|];
            id in end.rows ==> (SameJob(end.copies[e], end.rows[id]) <==> SameJob(ws[0].copies[e], end.rows[id]))
  {
    var e := ws[0].daemon.entries[id];
    assert e in JobEntries(ws[0].daemon);
    if acts != [] {
      var n := |acts| - 1;
      ShorterRun(ws, acts, setting);
      EditPickedUpIffNone(ws[..n + 1], acts[..n], setting, id);
      CopyStep(ws[n], acts[n], setting, ws[n + 1], e);
      EntryStep(ws[n], acts[n], setting, ws[n + 1], id);
    }
  }

  // ---------------------------------------------------------------- what a firing leaves behind

  /** When a body ends, the captured job of its entry records the run and moves on, and that copy is what
      is saved; the other rows, captured jobs and firings stay as they were. */
  lemma FiringIsRecorded(w: World, k: nat, env: CronRunner.Env, setting: Setting, u: World)
    requires Inv(w) && Next(w, Finish(k, env), setting, u)
    ensures var e, id := w.running[k], w.copies[w.running[k]].id;
            && e in u.copies
            && CronRunner.RanAndRecorded(w.copies[e], u.copies[e], CronRunner.IsRunnable(w.copies[e], setting.demoMode),
                                         env, setting.next)
            && (forall f :: f in w.copies && f != e ==> f in u.copies && u.copies[f] == w.copies[f])
            && u.rows == (if env.saved then w.rows[id := u.copies[e]] else w.rows)
            && u.running == w.running[..k] + w.running[k + 1..]
            && u.daemon == w.daemon && u.listings == w.listings
  {
    CronRunner.RanIsRecorded(w.copies[w.running[k]], setting.demoMode, env, setting.next);
  }

  /** Step k is the end of a firing of entry e. */
  ghost predicate EndsAt(ws: seq<World>, acts: seq<Action>, e: nat, k: nat) {
    && k < |acts| && k < |ws| && Ends(ws[k], acts[k], e)
  }

  ghost predicate Ends(w: World, a: Action, e: nat) {
    a.Finish? && a.k < |w.running| && w.running[a.k] == e
  }

  ghost predicate ParsesFor(next: NextTime, schedule: string) {
    forall t :: next(schedule, t).Some?
  }

  lemma CopyForwardStep(w: World, a: Action, setting: Setting, u: World, e: nat)
    requires Inv(w) && Next(w, a, setting, u) && e in w.copies && StrictlyLater(setting.next)
    ensures e in u.copies && u.copies[e].nextRun >= w.copies[e].nextRun && u.copies[e].schedule == w.copies[e].schedule
    ensures Ends(w, a, e) && ParsesFor(setting.next, w.copies[e].schedule) ==>
              u.copies[e].nextRun > w.copies[e].nextRun && u.copies[e].nextRun > a.env.finished
    ensures !Ends(w, a, e) ==> u.copies[e] == w.copies[e]
  {
    if a.Finish? { FiringIsRecorded(w, a.k, a.env, setting, u); }
  }

  lemma EndsOneMore(ws: seq<World>, acts: seq<Action>, e: nat)
    requires |ws| == |acts| + 1 && acts != []
    ensures var n := |acts| - 1;
            forall k: nat :: EndsAt(ws, acts, e, k) <==>
                             EndsAt(ws[..n + 1], acts[..n], e, k) || (k == n && Ends(ws[n], acts[n], e))
  {
    var n := |acts| - 1;
    forall k: nat
      ensures EndsAt(ws, acts, e, k) <==> EndsAt(ws[..n + 1], acts[..n], e, k) || (k == n && Ends(ws[n], acts[n], e))
    {
      if k < n { assert ws[..n + 1][k] == ws[k] && acts[..n][k] == acts[k]; }
    }
  }

  /** A captured job changes only when a firing of its own ends. */
  lemma {:induction false} UnfiredStays(ws: seq<World>, acts: seq<Action>, setting: Setting, e: nat)
    requires IsRun(ws, acts, setting) && Inv(ws[0]) && e in ws[0].copies && StrictlyLater(setting.next)
    requires forall k: nat :: !EndsAt(ws, acts, e, k)
    ensures e in ws[|acts|].copies && ws[|acts|].copies[e] == ws[0].copies[e]
  {
    if acts != [] {
      var n := |acts| - 1;
      var fewer, before := acts[..n], ws[..n + 1];
      ShorterRun(ws, acts, setting);
      RunKeepsInv(before, fewer, setting);
      EndsOneMore(ws, acts, e);
      forall k: nat ensures !EndsAt(before, fewer, e, k) {
        assert !EndsAt(ws, acts, e, k);
      }
      UnfiredStays(before, fewer, setting, e);
      CopyForwardStep(ws[n], acts[n], setting, ws[n + 1], e);
      assert EndsAt(ws, acts, e, n) <==> Ends(ws[n], acts[n], e);
    }
  }

  /** Over every run, with reloads, edits and failed saves in between, the next run of a captured job never
      goes back, and if its schedule parses it is past every firing that has ended. */
  lemma {:induction false} FiringsMoveForward(ws: seq<World>, acts: seq<Action>, setting: Setting, e: nat)
    requires IsRun(ws, acts, setting) && Inv(ws[0]) && e in ws[0].copies && StrictlyLater(setting.next)
    ensures e in ws[|acts|].copies && ws[|acts|].copies[e].nextRun >= ws[0].copies[e].nextRun
    ensures ws[|acts|].copies[e].schedule == ws[0].copies[e].schedule
    ensures ParsesFor(setting.next, ws[0].copies[e].schedule) ==>
              forall k: nat :: EndsAt(ws, acts, e, k) ==> ws[|acts|].copies[e].nextRun > acts[k].env.finished
                                                          && ws[|acts|].copies[e].nextRun > ws[0].copies[e].nextRun
  {
    if acts != [] {
      var n := |acts| - 1;
      ShorterRun(ws, acts, setting);
      RunKeepsInv(ws[..n + 1], acts[..n], setting);
      EndsOneMore(ws, acts, e);
      FiringsMoveForward(ws[..n + 1], acts[..n], setting, e);
      CopyForwardStep(ws[n], acts[n], setting, ws[n + 1], e);
    }
  }

  /** A job that a reload schedules runs as the row that was read, from then on; jobs scheduled before keep
      the copy their entry has by then. */
  lemma NewEntryCapturesRow(w: World, k: nat, setting: Setting, u: World, id: string)
    requires Inv(w) && Next(w, Reconcile(k), setting, u) && id in u.daemon.entries
    ensures u.daemon.entries[id] in u.copies
    ensures if id in w.daemon.entries
            then w.daemon.entries[id] in w.copies && u.copies[u.daemon.entries[id]] == w.copies[w.daemon.entries[id]]
            else id in ActiveIndex(w.listings[k]) && u.copies[u.daemon.entries[id]] == ActiveIndex(w.listings[k])[id]
  {
    var e := u.daemon.entries[id];
    ReconcileKeepsInv(w, k, setting, u);
    assert e in JobEntries(u.daemon);
    if id in w.daemon.entries { assert w.daemon.entries[id] in JobEntries(w.daemon); }
  }
}
