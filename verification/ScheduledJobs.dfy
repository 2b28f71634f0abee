/** Scheduled jobs: creating and editing them, and storing a run for every due occurrence. */
module ScheduledJobs {
  import opened Options
  import opened ScheduleTiming

  type JobId = nat

  datatype JobStatus = Active | Paused | Completed | Deleted

  datatype MissedRunPolicy = CatchUp | RunLatest

  datatype Job = Job(
    policy: MissedRunPolicy,
    status: JobStatus,
    timing: Timing,
    nextRunAt: Option<Time>,
    lastRunAt: Option<Time>,
    revision: nat,
    prompt: string)

  /** A job with the occurrences stored for it so far, in the order of their insertion. */
  datatype Line = Line(job: Job, stored: seq<Time>)

  datatype Patch = Patch(prompt: Option<string>, status: Option<JobStatus>, timing: Option<Timing>)

  ghost predicate ValidPatch(patch: Patch) {
    && (patch.timing.Some? ==> Valid(patch.timing.value))
    && (patch.status.Some? ==> patch.status.value != Completed)
  }

  /** An active job knows its next occurrence. */
  ghost predicate Scheduled(job: Job) {
    && Valid(job.timing)
    && (job.status == Active ==> job.nextRunAt.Some? && IsOccurrence(job.timing, job.nextRunAt.value))
  }

  ghost predicate NoneTwice(stored: seq<Time>) {
    forall i, j :: 0 <= i < j < |stored| ==> stored[i] != stored[j]
  }

  ghost predicate Increasing(stored: seq<Time>) {
    forall i, j :: 0 <= i < j < |stored| ==> stored[i] < stored[j]
  }

  /** The occurrences stored so far stand in order, and an active job's next one lies behind them. */
  ghost predicate Orderly(line: Line) {
    && Scheduled(line.job)
    && Increasing(line.stored)
    && (line.job.status == Active ==> forall o <- line.stored :: o < line.job.nextRunAt.value)
  }

  /** Every occurrence of the schedule after `now` lies behind all that is stored. */
  ghost predicate Ahead(t: Timing, now: Time, stored: seq<Time>) {
    forall o <- stored, at :: IsOccurrence(t, at) && now < at ==> o < at
  }

  ghost predicate Until(stored: seq<Time>, now: Time) {
    forall o <- stored :: o <= now
  }

  /** A clock that is not behind the stored occurrences has all others ahead, and no other clock has when these are
    * occurrences of the same schedule.
    */
  lemma AheadExactly(t: Timing, now: Time, stored: seq<Time>)
    ensures Until(stored, now) ==> Ahead(t, now, stored)
    ensures (forall o <- stored :: o <= now || IsOccurrence(t, o)) ==> (Ahead(t, now, stored) <==> Until(stored, now))
  {
  }

  // ---- editing ----

  /** What an edit computes from the row it read: the columns it will write. */
  datatype Plan = Plan(nextRunAt: Option<Time>, timing: Timing)

  predicate Recomputes(seen: Job, patch: Patch) {
    patch.timing.Some? || (patch.status == Some(Active) && seen.status != Active)
  }

  function PlannedTiming(seen: Job, patch: Patch): Timing {
    if patch.timing.Some? then patch.timing.value else seen.timing
  }

  function Planned(seen: Job, patch: Patch, now: Time): (plan: Option<Plan>)
    requires Valid(seen.timing) && ValidPatch(patch)
  {
    var timing := PlannedTiming(seen, patch);
    var status := if patch.status.Some? then patch.status.value else seen.status;
    var next := if status != Active then None else if Recomputes(seen, patch) then NextRun(timing, now)
        else seen.nextRunAt;
    if status == Active && next.None? then None else Some(Plan(next, timing))
  }

  /** The edit's UPDATE: it writes the plan and the patch into the row as it is now. */
  function Edited(row: Job, patch: Patch, plan: Plan): Job {
    row.(nextRunAt := plan.nextRunAt, timing := plan.timing, revision := row.revision + 1,
         status := if patch.status.Some? then patch.status.value else row.status,
         prompt := if patch.prompt.Some? then patch.prompt.value else row.prompt)
  }

  /** An edit that nothing disturbs keeps the job scheduled and otherwise writes just what the patch says. */
  lemma UndisturbedEditKeepsSchedule(row: Job, patch: Patch, now: Time)
    requires Scheduled(row) && ValidPatch(patch)
    requires Planned(row, patch, now).Some?
    ensures Scheduled(Edited(row, patch, Planned(row, patch, now).value))
  {
    NextRunIsEarliest(PlannedTiming(row, patch), now);
  }

  /** The read and the write of an edit are separate statements. When the row changed in between, the edit leaves it
    * scheduled exactly if the patch sets the status, or the row was active when it was read, or is not active now.
    */
  lemma DisturbedEditKeepsScheduleExactly(seen: Job, row: Job, patch: Patch, now: Time)
    requires Scheduled(seen) && Scheduled(row) && ValidPatch(patch)
    requires Planned(seen, patch, now).Some?
    ensures Scheduled(Edited(row, patch, Planned(seen, patch, now).value))
            <==> patch.status.Some? || seen.status == Active || row.status != Active
  {
    NextRunIsEarliest(PlannedTiming(seen, patch), now);
  }

  /** A change of the prompt alone, planned while the job was paused and written after it was resumed, leaves an active
    * job without a next run, which no tick ever finds due.
    */
  lemma EditAcrossResumeUnschedules(paused: Job, prompt: string, now: Time, resumedAt: Time)
    requires Scheduled(paused) && paused.status == Paused && NextRun(paused.timing, resumedAt).Some?
    ensures var resume, patch := Patch(None, Some(Active), None), Patch(Some(prompt), None, None);
            && Planned(paused, resume, resumedAt).Some? && Planned(paused, patch, now).Some?
            && var row := Edited(paused, resume, Planned(paused, resume, resumedAt).value);
               var after := Edited(row, patch, Planned(paused, patch, now).value);
               && Scheduled(row) && row.status == Active
               && after.status == Active && after.nextRunAt.None? && !Scheduled(after)
               && forall tick :: !Due(after, tick)
  {
    NextRunIsEarliest(paused.timing, resumedAt);
  }

  /** The edited job is active, by the patch or because it is active now. */
  predicate EndsActive(row: Job, patch: Patch) {
    if patch.status.Some? then patch.status.value == Active else row.status == Active
  }

  /** The line when an edit that read it as `seen` writes into it as it is now. */
  function EditedLine(seen: Line, row: Line, patch: Patch, now: Time): Line
    requires Valid(seen.job.timing) && ValidPatch(patch) && Planned(seen.job, patch, now).Some?
  {
    row.(job := Edited(row.job, patch, Planned(seen.job, patch, now).value))
  }

  /** The edit was planned for an active job, and either it computed the next occurrence anew, on a clock after which
    * the schedule has no occurrence before a stored one, or nothing was stored since its read from the next
    * occurrence on that it had read.
    */
  ghost predicate FitsIn(seen: Line, row: Line, patch: Patch, now: Time)
    requires seen.stored <= row.stored
  {
    && (patch.status.Some? || seen.job.status == Active)
    && if Recomputes(seen.job, patch) then Ahead(PlannedTiming(seen.job, patch), now, row.stored)
       else
         && seen.job.nextRunAt.Some?
         && forall o <- row.stored[|seen.stored|..] :: o < seen.job.nextRunAt.value
  }

  /** Whatever was stored between its read and its write, and however old its clock is: an edit leaves the line in order
    * exactly if the job does not end active or the edit fits in.
    */
  lemma DisturbedEditKeepsOrderExactly(seen: Line, row: Line, patch: Patch, now: Time)
    requires Orderly(seen) && Orderly(row) && seen.stored <= row.stored
    requires ValidPatch(patch) && Planned(seen.job, patch, now).Some?
    ensures Orderly(EditedLine(seen, row, patch, now)) <==>
        (EndsActive(row.job, patch) ==> FitsIn(seen, row, patch, now))
  {
    var plan := Planned(seen.job, patch, now).value;
    var added := row.stored[|seen.stored|..];
    DisturbedEditKeepsScheduleExactly(seen.job, row.job, patch, now);
    if EndsActive(row.job, patch) && (patch.status.Some? || seen.job.status == Active) {
      NextRunIsEarliest(plan.timing, now);
      assert row.stored == seen.stored + added;
      assert plan.nextRunAt.Some?;
      if Recomputes(seen.job, patch) {
        RecomputedIsBehindExactly(plan.timing, now, row.stored);
      } else {
        assert plan.nextRunAt == seen.job.nextRunAt;
        assert forall o :: o in row.stored <==> o in seen.stored || o in added;
      }
    }
  }

  lemma RecomputedIsBehindExactly(t: Timing, now: Time, stored: seq<Time>)
    requires Valid(t) && NextRun(t, now).Some?
    ensures (forall o <- stored :: o < NextRun(t, now).value) <==> Ahead(t, now, stored)
  {
    NextRunIsEarliest(t, now);
  }

  /** With nothing between its read and its write only the clock matters: it can have been read before an occurrence
    * that was stored when the edit read the row.
    */
  lemma UndisturbedEditKeepsOrderExactly(line: Line, patch: Patch, now: Time)
    requires Orderly(line) && ValidPatch(patch) && Planned(line.job, patch, now).Some?
    ensures Orderly(EditedLine(line, line, patch, now))
            <==> (EndsActive(line.job, patch) && Recomputes(line.job, patch) ==>
                    Ahead(PlannedTiming(line.job, patch), now, line.stored))
  {
    DisturbedEditKeepsOrderExactly(line, line, patch, now);
    assert line.stored[|line.stored|..] == [];
  }

  // ---- materialising ----

  predicate Due(job: Job, now: Time) {
    job.status == Active && job.nextRunAt.Some? && job.nextRunAt.value <= now
  }

  function ScheduledFor(job: Job, now: Time): Time
    requires Valid(job.timing) && Due(job, now)
  {
    if job.policy == CatchUp then job.nextRunAt.value
    else if LatestRun(job.timing, now).Some? then LatestRun(job.timing, now).value
    else job.nextRunAt.value
  }

  /** Inserting a pair that the unique index already holds does nothing. */
  function Stored(stored: seq<Time>, at: Time): seq<Time> {
    if at in stored then stored else stored + [at]
  }

  function Ticked(line: Line, now: Time): Line
    requires Valid(line.job.timing) && Due(line.job, now)
  {
    var at := ScheduledFor(line.job, now);
    var next := NextRun(line.job.timing, at);
    Line(line.job.(lastRunAt := Some(at), nextRunAt := next, status := if next.Some? then Active else Completed),
         Stored(line.stored, at))
  }

  class JobTable {
    var lines: map<JobId, Line>

    ghost predicate Valid()
      reads this
    {
      forall id <- lines :: Scheduled(lines[id].job) && NoneTwice(lines[id].stored)
    }

    constructor ()
      ensures Valid() && lines == map[]
    {
      lines := map[];
    }

    /** Refused when the schedule has no future occurrence. */
    method Create(id: JobId, policy: MissedRunPolicy, timing: Timing, prompt: string, now: Time) returns (ok: bool)
      requires Valid() && id !in lines && ScheduleTiming.Valid(timing)
      modifies this
      ensures Valid()
      ensures ok <==> exists o :: IsOccurrence(timing, o) && now < o
      ensures lines == if ok then
          old(lines)[id := Line(Job(policy, Active, timing, NextRun(timing, now), None, 0, prompt), [])]
                       else old(lines)
      ensures ok ==> Beginning(lines[id])
    {
      NextRunIsEarliest(timing, now);
      var next := NextRun(timing, now);
      ok := next.Some?;
      if ok {
        lines := lines[id := Line(Job(policy, Active, timing, next, None, 0, prompt), [])];
      }
    }

    /** An edit that nothing disturbs between its two statements. */
    method Update(id: JobId, visible: bool, patch: Patch, now: Time) returns (answer: Result<Option<Job>, string>)
      requires Valid() && ValidPatch(patch)
      modifies this
      ensures Valid()
      ensures var found := id in old(lines) && visible && old(lines)[id].job.status != Deleted;
              var plan := if found then Planned(old(lines)[id].job, patch, now) else None;
              && (!found ==> answer == Ok(None) && lines == old(lines))
              && (found && plan.None? ==> answer.Err? && lines == old(lines))
              && (found && plan.Some? ==>
                    && lines == old(lines)[id := old(lines)[id].(job := Edited(old(lines)[id].job, patch, plan.value))]
                    && answer == Ok(Some(lines[id].job)))
      ensures answer.Ok? && answer.value.Some? ==>
                var was, job := old(lines)[id].job, lines[id].job;
                && lines[id].stored == old(lines)[id].stored
                && job.prompt == (if patch.prompt.Some? then patch.prompt.value else was.prompt)
                && job.status == (if patch.status.Some? then patch.status.value else was.status)
                && job.timing == (if patch.timing.Some? then patch.timing.value else was.timing)
                && job.revision == was.revision + 1 && job.policy == was.policy && job.lastRunAt == was.lastRunAt
                && (job.status != Active ==> job.nextRunAt.None?)
                && (job.status == Active && patch.timing.None? && was.status == Active ==>
                   job.nextRunAt == was.nextRunAt)
                && (job.status == Active && (patch.timing.Some? || was.status != Active) ==>
                      job.nextRunAt == NextRun(job.timing, now))
      ensures answer.Err? ==>
                && (if patch.status.Some? then patch.status.value else old(lines)[id].job.status) == Active
                && forall o :: IsOccurrence(PlannedTiming(old(lines)[id].job, patch), o) ==> o <= now
    {
      if id !in lines || !visible || lines[id].job.status == Deleted {
        return Ok(None);
      }
      var current := lines[id].job;
      var plan := Planned(current, patch, now);
      if plan.None? {
        NextRunIsEarliest(PlannedTiming(current, patch), now);
        return Err("That schedule has no future occurrence.");
      }
      UndisturbedEditKeepsSchedule(current, patch, now);
      lines := lines[id := lines[id].(job := Edited(current, patch, plan.value))];
      answer := Ok(Some(lines[id].job));
    }

    /** Stores the run of one due job and moves the job on; answers whether the run was new. */
    method MaterializeOne(id: JobId, now: Time) returns (created: bool)
      requires Valid() && id in lines && Due(lines[id].job, now)
      modifies this
      ensures Valid() && lines == old(lines)[id := Ticked(old(lines)[id], now)]
      ensures created <==> lines[id].stored != old(lines)[id].stored
      ensures lines[id].job.lastRunAt.Some? && lines[id].job.lastRunAt.value in lines[id].stored
      ensures lines[id].job.status == if lines[id].job.nextRunAt.Some? then Active else Completed
    {
      var line := lines[id];
      var latest := ComputeLatestRun(line.job.timing, now);
      var at := if line.job.policy == CatchUp || latest.None? then line.job.nextRunAt.value else latest.value;
      var next := ComputeNextRun(line.job.timing, at);
      created := at !in line.stored;
      var stored := if created then line.stored + [at] else line.stored;
      var status := if next.Some? then Active else Completed;
      TickedIsValid(line, now);
      TickedExactly(line, now);
      lines := lines[id := Line(line.job.(lastRunAt := Some(at), nextRunAt := next, status := status), stored)];
      assert lines[id] == Ticked(line, now);
    }

    /** `due` is what the locking query answered. The result names the jobs for which a run was inserted. */
    method Materialize(due: seq<JobId>, now: Time) returns (created: seq<JobId>)
      requires Valid()
      requires forall i :: 0 <= i < |due| ==> due[i] in lines && Due(lines[due[i]].job, now)
      requires forall i, j :: 0 <= i < j < |due| ==> due[i] != due[j]
      modifies this
      ensures Valid()
      ensures lines.Keys == old(lines).Keys
      ensures forall id <- lines :: lines[id] == if id in due then Ticked(old(lines)[id], now) else old(lines)[id]
      ensures forall id :: id in created <==> id in due && lines[id].stored != old(lines)[id].stored
    {
      created := [];
      for k := 0 to |due|
        invariant Valid()
        invariant lines.Keys == old(lines).Keys
        invariant forall id <- lines ::
            lines[id] == if id in due[..k] then Ticked(old(lines)[id], now) else old(lines)[id]
        invariant forall id :: id in created <==> id in due[..k] && lines[id].stored != old(lines)[id].stored
      {
        assert due[k] !in due[..k] && due[..k + 1] == due[..k] + [due[k]];
        var isNew := MaterializeOne(due[k], now);
        if isNew {
          created := created + [due[k]];
        }
      }
      assert due[..|due|] == due;
    }
  }

  /** What one tick writes. */
  lemma TickedExactly(line: Line, now: Time)
    requires Scheduled(line.job) && Due(line.job, now)
    ensures var was, job := line.job, Ticked(line, now).job;
            && job == was.(lastRunAt := job.lastRunAt, nextRunAt := job.nextRunAt, status := job.status)
            && job.lastRunAt.Some? && job.lastRunAt.value in Ticked(line, now).stored && job.lastRunAt.value <= now
            && (was.policy == CatchUp ==> job.lastRunAt == was.nextRunAt)
            && (was.policy == RunLatest ==> job.lastRunAt == LatestRun(was.timing, now))
            && job.nextRunAt == NextRun(was.timing, job.lastRunAt.value)
            && job.status == if job.nextRunAt.Some? then Active else Completed
  {
    TickAdvances(line, now);
  }

  lemma TickedIsValid(line: Line, now: Time)
    requires Scheduled(line.job) && NoneTwice(line.stored) && Due(line.job, now)
    ensures Scheduled(Ticked(line, now).job) && NoneTwice(Ticked(line, now).stored)
    ensures Ticked(line, now).stored == line.stored <==> ScheduledFor(line.job, now) in line.stored
  {
    NextRunIsEarliest(line.job.timing, ScheduledFor(line.job, now));
  }

  // ---- ticks ----

  /** The line after ticks at the given times; a tick at which the job is not due passes it by. */
  function After(line: Line, ticks: seq<Time>): (after: Line)
    requires Valid(line.job.timing)
    ensures after.job.timing == line.job.timing && after.job.policy == line.job.policy
    decreases |ticks|
  {
    if ticks == [] then line
    else
      var before := After(line, ticks[..|ticks| - 1]);
      var now := ticks[|ticks| - 1];
      if Due(before.job, now) then Ticked(before, now) else before
  }

  /** A job as creation or an edit leaves it: active, with the next occurrence behind all that is stored. */
  ghost predicate Beginning(line: Line) {
    Orderly(line) && line.job.status == Active
  }

  /** What every tick keeps under either policy. */
  ghost predicate Progress(line: Line, first: Time) {
    && Scheduled(line.job)
    && Increasing(line.stored)
    && (forall o <- line.stored :: first <= o ==> IsOccurrence(line.job.timing, o))
    && (line.job.nextRunAt.Some? <==> line.job.status == Active)
    && (line.job.nextRunAt.Some? ==>
          && first <= line.job.nextRunAt.value
          && (forall o <- line.stored :: o < line.job.nextRunAt.value))
  }

  /** A tick picks an occurrence that is due and that the job has not reached yet. */
  lemma TickAdvances(line: Line, now: Time)
    requires Scheduled(line.job) && Due(line.job, now)
    ensures var t, at := line.job.timing, ScheduledFor(line.job, now);
            && line.job.nextRunAt.value <= at <= now
            && IsOccurrence(t, at)
            && (line.job.policy == RunLatest ==> LatestRun(t, now) == Some(at) && !Due(Ticked(line, now).job, now))
            && (NextRun(t, at).Some? ==> at < NextRun(t, at).value && IsOccurrence(t, NextRun(t, at).value))
  {
    var t, at := line.job.timing, ScheduledFor(line.job, now);
    LatestRunIsLatest(t, now);
    NextRunIsEarliest(t, at);
  }

  lemma TickProgress(line: Line, first: Time, now: Time)
    requires Progress(line, first) && Due(line.job, now)
    ensures Progress(Ticked(line, now), first)
    ensures Ticked(line, now).stored == line.stored + [ScheduledFor(line.job, now)]
  {
    TickAdvances(line, now);
    assert forall i :: 0 <= i < |line.stored| ==> line.stored[i] in line.stored;
  }

  /** Between two edits, at whatever times the ticks come: stored occurrences strictly increase, so none is stored twice
    * and the unique index never has to intervene; under `run_latest` a tick stores the latest occurrence and leaves
    * the job not due.
    */
  lemma {:induction false} TicksOnlyAdvance(line: Line, ticks: seq<Time>)
    requires Beginning(line)
    ensures Progress(After(line, ticks), line.job.nextRunAt.value)
    ensures ticks != [] ==>
              var before, now := After(line, ticks[..|ticks| - 1]), ticks[|ticks| - 1];
              Due(before.job, now) ==>
                && After(line, ticks).stored == before.stored + [ScheduledFor(before.job, now)]
                && (line.job.policy == RunLatest ==>
                      Some(ScheduledFor(before.job, now)) == LatestRun(line.job.timing, now)
                          && !Due(After(line, ticks).job, now))
    decreases |ticks|
  {
    if ticks != [] {
      var before, now := After(line, ticks[..|ticks| - 1]), ticks[|ticks| - 1];
      TicksOnlyAdvance(line, ticks[..|ticks| - 1]);
      if Due(before.job, now) {
        TickAdvances(before, now);
        TickProgress(before, line.job.nextRunAt.value, now);
      }
    }
  }

  /** Under `catch_up` the stored occurrences are all occurrences from the first up to the next one: none is skipped. */
  lemma {:induction false} CatchUpSkipsNothing(line: Line, ticks: seq<Time>, o: Time)
    requires Beginning(line) && line.job.policy == CatchUp
    requires IsOccurrence(line.job.timing, o)
    ensures var next := After(line, ticks).job.nextRunAt;
            o in After(line, ticks).stored <==>
              o in line.stored || (line.job.nextRunAt.value <= o && (next.Some? ==> o < next.value))
    decreases |ticks|
  {
    if ticks != [] {
      var before, now := After(line, ticks[..|ticks| - 1]), ticks[|ticks| - 1];
      CatchUpSkipsNothing(line, ticks[..|ticks| - 1], o);
      TicksOnlyAdvance(line, ticks);
      TicksOnlyAdvance(line, ticks[..|ticks| - 1]);
      if Due(before.job, now) {
        NextRunIsEarliest(line.job.timing, before.job.nextRunAt.value);
      }
    }
  }

  // ---- ticks and edits ----

  lemma {:induction false} TicksAppend(line: Line, ticks: seq<Time>)
    requires Beginning(line)
    ensures line.stored <= After(line, ticks).stored
    ensures forall o <- After(line, ticks).stored[|line.stored|..] :: line.job.nextRunAt.value <= o
    decreases |ticks|
  {
    if ticks != [] {
      var before, now := After(line, ticks[..|ticks| - 1]), ticks[|ticks| - 1];
      TicksAppend(line, ticks[..|ticks| - 1]);
      TicksOnlyAdvance(line, ticks[..|ticks| - 1]);
      if Due(before.job, now) {
        var at := ScheduledFor(before.job, now);
        TickAdvances(before, now);
        TickProgress(before, line.job.nextRunAt.value, now);
        assert (before.stored + [at])[|line.stored|..] == before.stored[|line.stored|..] + [at];
      }
    }
  }

  /** When only ticks came between the read and the write of an edit, on whatever clocks: the line is in order and
    * active exactly if the edit ends active and either computed the next occurrence anew with none ahead of a stored
    * one, or no tick stored anything.
    */
  lemma EditAcrossTicksKeepsOrderExactly(seen: Line, ticks: seq<Time>, patch: Patch, now: Time)
    requires Beginning(seen) && ValidPatch(patch) && Planned(seen.job, patch, now).Some?
    ensures var row := After(seen, ticks);
            Beginning(EditedLine(seen, row, patch, now)) <==>
              && EndsActive(row.job, patch)
              && if Recomputes(seen.job, patch) then Ahead(PlannedTiming(seen.job, patch), now, row.stored)
                 else row.stored == seen.stored
  {
    var row := After(seen, ticks);
    TicksOnlyAdvance(seen, ticks);
    TicksAppend(seen, ticks);
    DisturbedEditKeepsOrderExactly(seen, row, patch, now);
    var added := row.stored[|seen.stored|..];
    assert row.stored == seen.stored + added;
    assert added != [] ==> added[0] in added;
  }

  /** If the schedule itself stays and all stored occurrences ahead of the edit's clock are its own, computing the
    * next one anew is right exactly if there are none: no tick stored one that the clock had not reached.
    */
  lemma EditOfSameTimingKeepsOrderExactly(seen: Line, ticks: seq<Time>, patch: Patch, now: Time)
    requires Beginning(seen) && ValidPatch(patch) && Planned(seen.job, patch, now).Some?
    requires Recomputes(seen.job, patch) && PlannedTiming(seen.job, patch) == seen.job.timing
    requires forall o <- seen.stored :: o <= now || IsOccurrence(seen.job.timing, o)
    ensures var row := After(seen, ticks);
            Beginning(EditedLine(seen, row, patch, now)) <==> EndsActive(row.job, patch) && Until(row.stored, now)
  {
    var row := After(seen, ticks);
    EditAcrossTicksKeepsOrderExactly(seen, ticks, patch, now);
    TicksOnlyAdvance(seen, ticks);
    TicksAppend(seen, ticks);
    assert row.stored == seen.stored + row.stored[|seen.stored|..];
    forall o | o in row.stored ensures o <= now || IsOccurrence(seen.job.timing, o) {
      if o !in seen.stored {
        assert o in row.stored[|seen.stored|..];
      }
    }
    AheadExactly(seen.job.timing, now, row.stored);
  }

  function EveryMinute(prompt: string): Line {
    Line(Job(CatchUp, Active, Interval(0, 1), Some(60_000), None, 0, prompt), [])
  }

  lemma EveryMinuteTicks(prompt: string)
    ensures var seen := EveryMinute(prompt);
            && Beginning(seen) && Due(seen.job, 60_000)
            && Ticked(seen, 60_000) == Line(seen.job.(lastRunAt := Some(60_000), nextRunAt := Some(120_000)), [60_000])
            && Beginning(Ticked(seen, 60_000))
  {
    assert IsNth(Interval(0, 1), 1, 60_000) && IsNth(Interval(0, 1), 2, 120_000);
    assert NextRun(Interval(0, 1), 60_000) == Some(120_000);
  }

  /** An active catch-up job whose next run is the occurrence that it has stored last: its next tick stores nothing. */
  ghost predicate Repeats(line: Line, at: Time) {
    && Scheduled(line.job) && Due(line.job, at) && line.job.nextRunAt == Some(at) && line.stored == [at]
    && Ticked(line, at).stored == line.stored
  }

  /** A change of the prompt alone, planned before a tick and written after it, puts the next run back on the occurrence
    * that the tick has stored.
    */
  lemma StaleEditRepeatsOccurrence(prompt: string, other: string)
    ensures var seen, patch := EveryMinute(prompt), Patch(Some(other), None, None);
            Repeats(EditedLine(seen, Ticked(seen, 60_000), patch, 60_000), 60_000)
  {
    EveryMinuteTicks(prompt);
  }

  /** So does an edit that computes the next run anew when its clock was read a moment before the tick, whether it read
    * the row before the tick or after it.
    */
  lemma EarlyClockRepeatsOccurrence(prompt: string)
    ensures var seen, patch := EveryMinute(prompt), Patch(None, None, Some(Interval(0, 1)));
            var row := Ticked(seen, 60_000);
            && Repeats(EditedLine(seen, row, patch, 59_999), 60_000)
            && Repeats(EditedLine(row, row, patch, 59_999), 60_000)
  {
    EveryMinuteTicks(prompt);
    assert NextRun(Interval(0, 1), 59_999) == Some(60_000);
    assert IsNth(Interval(0, 1), 1, 60_000);
  }

  // ---- the life of a job ----

  /** `Edit` read the line as it was at moment `read` and writes now; both statements may come on any clock. */
  datatype Event = Tick(now: Time) | Edit(read: nat, patch: Patch, now: Time)

  /** The edit finds the job and has a next run to plan, or needs none. */
  ghost predicate TakesEffect(seen: Line, e: Event)
    requires Valid(seen.job.timing) && e.Edit? && ValidPatch(e.patch)
  {
    seen.job.status != Deleted && Planned(seen.job, e.patch, e.now).Some?
  }

  ghost predicate Happens(lines: seq<Line>, events: seq<Event>, i: int)
    requires 0 <= i < |events| < |lines|
  {
    && Valid(lines[i].job.timing)
    && match events[i]
       case Tick(now) => lines[i + 1] == if Due(lines[i].job, now) then Ticked(lines[i], now) else lines[i]
       case Edit(read, patch, now) =>
         && read <= i && Valid(lines[read].job.timing) && ValidPatch(patch)
         && lines[i + 1] == if TakesEffect(lines[read], events[i]) then EditedLine(lines[read], lines[i], patch, now)
                            else lines[i]
  }

  /** The life of a job from its creation: any ticks and edits, overlapping in any way, on any clocks. */
  ghost predicate Life(lines: seq<Line>, events: seq<Event>) {
    && |lines| == |events| + 1
    && Beginning(lines[0]) && lines[0].stored == []
    && forall i :: 0 <= i < |events| ==> Happens(lines, events, i)
  }

  lemma {:induction false} StoredGrows(lines: seq<Line>, events: seq<Event>, i: nat, j: nat)
    requires Life(lines, events) && i <= j < |lines|
    ensures lines[i].stored <= lines[j].stored
    decreases j
  {
    if i < j {
      assert Happens(lines, events, j - 1);
      StoredGrows(lines, events, i, j - 1);
    }
  }

  /** Whatever overlaps, the unique index keeps every pair of job and occurrence from being stored twice. */
  lemma {:induction false} LivesStoreNothingTwice(lines: seq<Line>, events: seq<Event>, k: nat)
    requires Life(lines, events) && k < |lines|
    ensures NoneTwice(lines[k].stored)
  {
    if k > 0 {
      assert Happens(lines, events, k - 1);
      LivesStoreNothingTwice(lines, events, k - 1);
    }
  }

  /** Event `i` is no edit that takes effect, leaves the job active and does not fit in. */
  ghost predicate KeepsOrder(lines: seq<Line>, events: seq<Event>, i: int)
    requires Life(lines, events) && 0 <= i < |events|
  {
    var e := events[i];
    e.Edit? ==>
      assert Happens(lines, events, i);
      TakesEffect(lines[e.read], e) && EndsActive(lines[i].job, e.patch) ==>
        lines[e.read].stored <= lines[i].stored && FitsIn(lines[e.read], lines[i], e.patch, e.now)
  }

  lemma TickKeepsOrder(line: Line, now: Time)
    requires Orderly(line) && Due(line.job, now)
    ensures Orderly(Ticked(line, now))
    ensures var at := ScheduledFor(line.job, now);
            at !in line.stored && Ticked(line, now).stored == line.stored + [at]
  {
    TickAdvances(line, now);
    assert forall i :: 0 <= i < |line.stored| ==> line.stored[i] in line.stored;
  }

  lemma EventKeepsOrderExactly(lines: seq<Line>, events: seq<Event>, i: nat)
    requires Life(lines, events) && i < |events|
    requires forall j :: 0 <= j <= i ==> Orderly(lines[j])
    ensures Orderly(lines[i + 1]) <==> KeepsOrder(lines, events, i)
  {
    assert Happens(lines, events, i);
    match events[i]
    case Tick(now) =>
      if Due(lines[i].job, now) {
        TickKeepsOrder(lines[i], now);
      }
    case Edit(read, patch, now) =>
      StoredGrows(lines, events, read, i);
      if TakesEffect(lines[read], events[i]) {
        DisturbedEditKeepsOrderExactly(lines[read], lines[i], patch, now);
      }
  }

  ghost predicate AlwaysOrderly(lines: seq<Line>, k: nat)
    requires k < |lines|
  {
    forall i :: 0 <= i <= k ==> Orderly(lines[i])
  }

  ghost predicate AllKeepOrder(lines: seq<Line>, events: seq<Event>, k: nat)
    requires Life(lines, events) && k <= |events|
  {
    forall i :: 0 <= i < k ==> KeepsOrder(lines, events, i)
  }

  /** Up to any moment of its life a job was in order - the stored occurrences increasing, an active job's next one
    * behind them - exactly if every edit that took effect and left the job active fitted in.
    */
  lemma {:induction false} LivesAreOrderlyExactly(lines: seq<Line>, events: seq<Event>, k: nat)
    requires Life(lines, events) && k < |lines|
    ensures AlwaysOrderly(lines, k) <==> AllKeepOrder(lines, events, k)
  {
    if k > 0 {
      LivesAreOrderlyExactly(lines, events, k - 1);
      if AlwaysOrderly(lines, k - 1) {
        EventKeepsOrderExactly(lines, events, k - 1);
      }
      assert AlwaysOrderly(lines, k) <==> AlwaysOrderly(lines, k - 1) && Orderly(lines[k]);
      assert AllKeepOrder(lines, events, k) <==> AllKeepOrder(lines, events, k - 1) && KeepsOrder(lines, events, k - 1);
    }
  }

  /** In such a life every due tick stores an occurrence that was never stored. */
  lemma DueTicksStoreAnew(lines: seq<Line>, events: seq<Event>, k: nat)
    requires Life(lines, events) && k < |events| && AllKeepOrder(lines, events, k)
    requires events[k].Tick? && Due(lines[k].job, events[k].now)
    ensures Valid(lines[k].job.timing)
    ensures var at := ScheduledFor(lines[k].job, events[k].now);
            at !in lines[k].stored && lines[k + 1].stored == lines[k].stored + [at]
  {
    LivesAreOrderlyExactly(lines, events, k);
    assert Orderly(lines[k]) && Happens(lines, events, k);
    TickKeepsOrder(lines[k], events[k].now);
  }

  /** A life in which every edit's read, write and clock come together, on a clock that never runs back. */
  ghost predicate Sequential(lines: seq<Line>, events: seq<Event>)
    requires Life(lines, events)
  {
    && (forall i :: 0 <= i < |events| && events[i].Edit? ==> events[i].read == i)
    && (forall i, j :: 0 <= i < j < |events| ==> events[i].now <= events[j].now)
  }

  lemma {:induction false} StoredUntilNow(lines: seq<Line>, events: seq<Event>, k: nat, now: Time)
    requires Life(lines, events) && k <= |events| && AlwaysOrderly(lines, k)
    requires forall i :: 0 <= i < k ==> events[i].now <= now
    ensures Until(lines[k].stored, now)
  {
    if k > 0 {
      assert Happens(lines, events, k - 1) && Orderly(lines[k - 1]);
      StoredUntilNow(lines, events, k - 1, now);
      if events[k - 1].Tick? && Due(lines[k - 1].job, events[k - 1].now) {
        TickAdvances(lines[k - 1], events[k - 1].now);
      }
    }
  }

  /** A sequential life is always in order. */
  lemma {:induction false} SequentialLivesAreOrderly(lines: seq<Line>, events: seq<Event>, k: nat)
    requires Life(lines, events) && k < |lines| && Sequential(lines, events)
    ensures AlwaysOrderly(lines, k) && AllKeepOrder(lines, events, k)
  {
    if k > 0 {
      SequentialLivesAreOrderly(lines, events, k - 1);
      var line, e := lines[k - 1], events[k - 1];
      StoredUntilNow(lines, events, k - 1, e.now);
      assert Happens(lines, events, k - 1) && Orderly(line);
      if e.Edit? {
        AheadExactly(PlannedTiming(line.job, e.patch), e.now, line.stored);
        assert line.stored[|line.stored|..] == [];
        assert TakesEffect(line, e) && EndsActive(line.job, e.patch) ==> FitsIn(line, line, e.patch, e.now);
      }
      assert KeepsOrder(lines, events, k - 1);
      EventKeepsOrderExactly(lines, events, k - 1);
    }
  }
}
