/** The scheduled job (internal/modules/cron/domain/job.go). The cron expression library is a
    parameter: `next(schedule, t)` is the first match after t, or None when the text does not parse. */
module CronJob {
  import opened Options

  type NextTime = (string, int) -> Option<int>

  datatype Status = Active | Paused | Deleted

  datatype Error = NameRequired | InvalidSchedule | InvalidTransition

  datatype Outcome = Ok | Err(error: Error)

  datatype Record = Record(id: string, name: string, schedule: string, jobType: string, payload: string,
                           status: Status, lastRun: Option<int>, lastError: string, nextRun: int, updatedAt: int)

  /** A match is later than the time it was asked for (schedules that never match again excluded). */
  ghost predicate StrictlyLater(next: NextTime) {
    forall s, t :: next(s, t).Some? ==> next(s, t).value > t
  }

  datatype Op =
    | Advance(lastRun: int, lastError: string)
    | Pause
    | Resume
    | Update(name: string, schedule: string, jobType: string, payload: string)
    | Delete

  function Apply(j: Record, op: Op, now: int, next: NextTime): (Record, Outcome) {
    match op
    case Advance(lastRun, lastError) =>
      var base := if lastRun > j.nextRun then lastRun else j.nextRun;
      var at := next(j.schedule, base);
      (j.(lastRun := Some(lastRun), lastError := lastError,
          nextRun := if at.Some? then at.value else j.nextRun, updatedAt := now), Ok)
    case Pause =>
      if !j.status.Active? then (j, Err(InvalidTransition)) else (j.(status := Paused, updatedAt := now), Ok)
    case Resume =>
      var at := next(j.schedule, now);
      if !j.status.Paused? then (j, Err(InvalidTransition))
      else (j.(status := Active, nextRun := if at.Some? then at.value else j.nextRun, updatedAt := now), Ok)
    case Update(name, schedule, jobType, payload) =>
      var at := next(schedule, now);
      if name == "" then (j, Err(NameRequired))
      else if at.None? then (j, Err(InvalidSchedule))
      else (j.(name := name, schedule := schedule, jobType := jobType, payload := payload,
               nextRun := at.value, updatedAt := now), Ok)
    case Delete =>
      if j.status.Deleted? then (j, Err(InvalidTransition)) else (j.(status := Deleted, updatedAt := now), Ok)
  }

  function NewRecord(id: string, name: string, schedule: string, jobType: string, payload: string,
                     now: int, next: NextTime): (Option<Record>, Outcome) {
    var at := next(schedule, now);
    if name == "" then (None, Err(NameRequired))
    else if at.None? then (None, Err(InvalidSchedule))
    else (Some(Record(id, name, schedule, jobType, payload, Active, None, "", at.value, now)), Ok)
  }

  /** The first match after the later of the old next run and the end of the run; the old one stays when
      the schedule does not parse. */
  predicate AdvancedFrom(schedule: string, nextRun: int, finished: int, advanced: int, next: NextTime) {
    exists base :: base in {nextRun, finished} && base >= nextRun && base >= finished
                   && advanced == (match next(schedule, base) case Some(at) => at case None => nextRun)
  }

  class Job {
    var id: string
    var name: string
    var schedule: string
    var jobType: string
    var payload: string
    var status: Status
    var lastRun: Option<int>
    var lastError: string
    var nextRun: int
    var updatedAt: int

    function State(): Record
      reads this
    {
      Record(id, name, schedule, jobType, payload, status, lastRun, lastError, nextRun, updatedAt)
    }

    /** A job loaded from its table row. */
    constructor FromRow(row: Record)
      ensures State() == row
    {
      id, name, schedule, jobType, payload := row.id, row.name, row.schedule, row.jobType, row.payload;
      status, lastRun, lastError, nextRun, updatedAt := row.status, row.lastRun, row.lastError, row.nextRun, row.updatedAt;
    }

    method AdvanceNextRun(finished: int, err: string, now: int, next: NextTime)
      modifies this`lastRun, this`lastError, this`nextRun, this`updatedAt
      ensures State() == Apply(old(State()), Advance(finished, err), now, next).0
      ensures lastRun == Some(finished) && lastError == err && updatedAt == now
      ensures AdvancedFrom(schedule, old(nextRun), finished, nextRun, next)
    {
      lastRun, lastError := Some(finished), err;
      var base := nextRun;
      if finished > base {
        base := finished;
      }
      var at := next(schedule, base);
      if at.Some? {
        nextRun := at.value;
      }
      updatedAt := now;
    }

    method PauseJob(now: int, next: NextTime) returns (outcome: Outcome)
      modifies this`status, this`updatedAt
      ensures (State(), outcome) == Apply(old(State()), Pause, now, next)
      ensures outcome == if old(status).Active? then Ok else Err(InvalidTransition)
      ensures status == if outcome.Ok? then Paused else old(status)
      ensures updatedAt == if outcome.Ok? then now else old(updatedAt)
    {
      if status != Active { return Err(InvalidTransition); }
      status, updatedAt := Paused, now;
      outcome := Ok;
    }

    method ResumeJob(now: int, next: NextTime) returns (outcome: Outcome)
      modifies this`status, this`nextRun, this`updatedAt
      ensures (State(), outcome) == Apply(old(State()), Resume, now, next)
      ensures outcome == if old(status).Paused? then Ok else Err(InvalidTransition)
      ensures status == if outcome.Ok? then Active else old(status)
      ensures outcome.Ok? && next(schedule, now).Some? ==> Some(nextRun) == next(schedule, now)
      ensures outcome.Err? || next(schedule, now).None? ==> nextRun == old(nextRun)
      ensures updatedAt == if outcome.Ok? then now else old(updatedAt)
    {
      if status != Paused { return Err(InvalidTransition); }
      status := Active;
      var at := next(schedule, now);
      if at.Some? { nextRun := at.value; }
      updatedAt := now;
      outcome := Ok;
    }

    method UpdateJob(newName: string, newSchedule: string, newType: string, newPayload: string,
                     now: int, next: NextTime) returns (outcome: Outcome)
      modifies this`name, this`schedule, this`jobType, this`payload, this`nextRun, this`updatedAt
      ensures (State(), outcome) == Apply(old(State()), Update(newName, newSchedule, newType, newPayload), now, next)
      ensures outcome == if newName == "" then Err(NameRequired)
                         else if next(newSchedule, now).None? then Err(InvalidSchedule) else Ok
      ensures outcome.Err? ==> State() == old(State())
      ensures outcome.Ok? ==>
                && name == newName && schedule == newSchedule && jobType == newType && payload == newPayload
                && Some(nextRun) == next(newSchedule, now) && updatedAt == now
    {
      if newName == "" { return Err(NameRequired); }
      var at := next(newSchedule, now);
      if at.None? { return Err(InvalidSchedule); }
      name, schedule, jobType, payload, nextRun, updatedAt := newName, newSchedule, newType, newPayload, at.value, now;
      outcome := Ok;
    }

    method DeleteJob(now: int, next: NextTime) returns (outcome: Outcome)
      modifies this`status, this`updatedAt
      ensures (State(), outcome) == Apply(old(State()), Delete, now, next)
      ensures outcome == if old(status).Deleted? then Err(InvalidTransition) else Ok
      ensures status.Deleted? && updatedAt == if outcome.Ok? then now else old(updatedAt)
    {
      if status == Deleted { return Err(InvalidTransition); }
      status, updatedAt := Deleted, now;
      outcome := Ok;
    }
  }

  // ---------------------------------------------------------------- whole lives

  datatype Call = Call(op: Op, now: int)

  function Run(j: Record, calls: seq<Call>, next: NextTime): Record {
    if calls == [] then j
    else Apply(Run(j, calls[..|calls| - 1], next), calls[|calls| - 1].op, calls[|calls| - 1].now, next).0
  }

  /** Whether a schedule parses does not depend on the time asked about. */
  ghost predicate ParsesByText(next: NextTime) {
    forall s, t, u :: next(s, t).Some? <==> next(s, u).Some?
  }

  /** A job created with a valid schedule keeps one for life, so advancing it always moves its next
      run past both its old next run and the run just finished; and deletion is final. */
  lemma {:induction false} EveryJobCanAdvance(id: string, name: string, schedule: string, jobType: string,
                                              payload: string, created: int, next: NextTime,
                                              calls: seq<Call>, finished: int, err: string, now: int)
    requires StrictlyLater(next) && ParsesByText(next)
    requires NewRecord(id, name, schedule, jobType, payload, created, next).0.Some?
    ensures var j := Run(NewRecord(id, name, schedule, jobType, payload, created, next).0.value, calls, next);
            var k := Apply(j, Advance(finished, err), now, next).0;
            k.nextRun > j.nextRun && k.nextRun > finished
    ensures var start := NewRecord(id, name, schedule, jobType, payload, created, next).0.value;
            var j := Run(start, calls, next);
            next(j.schedule, j.nextRun).Some? && j.name != "" && j.id == id
  {
    if calls != [] {
      EveryJobCanAdvance(id, name, schedule, jobType, payload, created, next,
                         calls[..|calls| - 1], finished, err, now);
    }
  }

  /** A new job starts active and unrun, with what it was created with and its first match after the
      creation as next run; it needs a name and a schedule that parses. */
  lemma NewJobWaitsForFirstMatch(id: string, name: string, schedule: string, jobType: string, payload: string,
                                 created: int, next: NextTime)
    ensures var (made, outcome) := NewRecord(id, name, schedule, jobType, payload, created, next);
            && (made.Some? <==> outcome.Ok?)
            && (outcome.Ok? <==> name != "" && next(schedule, created).Some?)
            && (outcome == Err(NameRequired) <==> name == "")
            && (made.Some? ==>
                  made.value == Record(id, name, schedule, jobType, payload, Active, None, "",
                                       next(schedule, created).value, created))
  {
  }

  /** A paused job never becomes active while nobody resumes it, whatever else is done to it. */
  lemma {:induction false} PausedUntilResumed(j: Record, calls: seq<Call>, next: NextTime)
    requires !j.status.Active? && forall k :: 0 <= k < |calls| ==> !calls[k].op.Resume?
    ensures !Run(j, calls, next).status.Active?
    ensures (forall k :: 0 <= k < |calls| ==> !calls[k].op.Delete?) ==> Run(j, calls, next).status == j.status
  {
    if calls != [] {
      var n := |calls| - 1;
      assert forall k :: 0 <= k < n ==> calls[..n][k] == calls[k];
      PausedUntilResumed(j, calls[..n], next);
    }
  }

  lemma {:induction false} DeletedStaysDeleted(j: Record, calls: seq<Call>, next: NextTime)
    requires j.status.Deleted?
    ensures Run(j, calls, next).status.Deleted?
  {
    if calls != [] {
      DeletedStaysDeleted(j, calls[..|calls| - 1], next);
    }
  }
}
