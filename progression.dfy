/**
  What the scheduled body of an update-job trigger does, step by step:
  the job-table writes it issues, the messages it broadcasts, and the
  state the job row is left in. The route that runs it is
  `Routes.Server.RunUpdateJob`; this module states what that method must
  produce and proves what the produced sequences guarantee.

  Loop step 0 is the `in_progress` write; loop step `i`, for `1 <= i <= n`,
  handles device `i` of `n`; the `completed` write follows step `n`.
  The clock is a parameter: `clock(i)` is the time of step `i`, and
  `clock(n + 1)` the time of the final write.
 */
module Progression {
  import opened Basics
  import opened Tables
  import opened Schema
  import opened Storage

  /** The `data` of a `job_update` message: a new status, or a progress report. */
  datatype JobUpdateData =
    | StatusChange(status: string)
    | ProgressReport(progress: int, completedDevices: int)

  /** `{ type: 'job_update', jobId, data }`, as sent to each subscriber. */
  datatype Message = JobUpdate(jobId: Id, data: JobUpdateData)

  /**
    `Math.round((i / n) * 100)` computed exactly: the nearest integer to
    `100 * i / n`, halves rounded up.
   */
  function RoundedPercent(i: nat, n: nat): (p: int)
    requires n > 0
    ensures 2 * n * p <= 200 * i + n < 2 * n * (p + 1)
  {
    (200 * i + n) / (2 * n)
  }

  /** The broadcast percentage never goes down as devices complete. */
  lemma PercentMonotone(i: nat, j: nat, n: nat)
    requires n > 0 && i <= j
    ensures RoundedPercent(i, n) <= RoundedPercent(j, n)
  {
    DivideMonotone(200 * i + n, 200 * j + n, 2 * n);
  }

  /** The last device brings the broadcast percentage to exactly 100. */
  lemma PercentAtEnd(n: nat)
    requires n > 0
    ensures RoundedPercent(n, n) == 100
  {
    DivisionUnique(200 * n + n, 2 * n, 100);
  }

  /** For the devices of the job the broadcast percentage lies in [0, 100]. */
  lemma PercentRange(i: nat, n: nat)
    requires 0 < n && i <= n
    ensures 0 <= RoundedPercent(i, n) <= 100
  {
    PercentMonotone(0, i, n);
    PercentMonotone(i, n, n);
    PercentAtEnd(n);
    DivisionUnique(n, 2 * n, 0);
  }

  // ---- the writes ----

  /** The writes issued for job `jobId` up to and including loop step `i`. */
  function StepWrites(jobId: Id, i: nat, clock: nat -> Millis): (ws: seq<JobWrite>)
    ensures |ws| == i + 1
  {
    if i == 0 then [SetStatus(jobId, IN_PROGRESS, clock(0))]
    else StepWrites(jobId, i - 1, clock) + [SetProgress(jobId, 100, i, 0, clock(i))]
  }

  /** Every write the progression of a job over `n` devices issues, in order. */
  function ProgressionWrites(jobId: Id, n: nat, clock: nat -> Millis): (ws: seq<JobWrite>)
    ensures |ws| == n + 2
  {
    StepWrites(jobId, n, clock) + [SetStatus(jobId, COMPLETED, clock(n + 1))]
  }

  lemma {:induction false} StepWritesShape(jobId: Id, i: nat, clock: nat -> Millis)
    ensures StepWrites(jobId, i, clock)[0] == SetStatus(jobId, IN_PROGRESS, clock(0))
    ensures forall k :: 1 <= k <= i ==> StepWrites(jobId, i, clock)[k] == SetProgress(jobId, 100, k, 0, clock(k))
  {
    if i > 0 {
      StepWritesShape(jobId, i - 1, clock);
    }
  }

  /**
    The order of the writes: `in_progress` first, then for device `k` the
    counters `completedDevices = k`, `failedDevices = 0` and the literal
    stored progress 100, then `completed` last. Every write is to the one
    job, and no write is `failed` or `cancelled`.
   */
  lemma ProgressionWriteOrder(jobId: Id, n: nat, clock: nat -> Millis)
    ensures var ws := ProgressionWrites(jobId, n, clock);
      && ws[0] == SetStatus(jobId, IN_PROGRESS, clock(0))
      && ws[n + 1] == SetStatus(jobId, COMPLETED, clock(n + 1))
      && (forall k :: 1 <= k <= n ==> ws[k] == SetProgress(jobId, 100, k, 0, clock(k)))
    ensures forall w :: w in ProgressionWrites(jobId, n, clock) ==>
      && w.jobId == jobId
      && (w.SetStatus? ==> w.status != FAILED && w.status != CANCELLED)
      && (w.SetProgress? ==> w.failedDevices == 0 && 1 <= w.completedDevices <= n && w.progress == 100)
  {
    StepWritesShape(jobId, n, clock);
    var ws := ProgressionWrites(jobId, n, clock);
    forall w | w in ws
      ensures w.jobId == jobId
      ensures w.SetStatus? ==> w.status != FAILED && w.status != CANCELLED
      ensures w.SetProgress? ==> w.failedDevices == 0 && 1 <= w.completedDevices <= n && w.progress == 100
    {
      var k :| 0 <= k < |ws| && ws[k] == w;
    }
  }

  // ---- the job row ----

  /** The job row after loop step `i`: the fields the writes so far have set. */
  function StepRow(j: UpdateJob, i: nat, clock: nat -> Millis): UpdateJob {
    if i == 0 then j.(status := IN_PROGRESS, updatedAt := clock(0))
    else j.(status := IN_PROGRESS, progress := 100, completedDevices := i, failedDevices := 0, updatedAt := clock(i))
  }

  lemma {:induction false} StepOutcome(jobs: map<Id, UpdateJob>, jobId: Id, i: nat, clock: nat -> Millis)
    ensures ApplyWrites(jobs, StepWrites(jobId, i, clock)) ==
      if jobId in jobs then jobs[jobId := StepRow(jobs[jobId], i, clock)] else jobs
  {
    if i == 0 {
      ApplyWritesSnoc(jobs, [], SetStatus(jobId, IN_PROGRESS, clock(0)));
      assert [] + [SetStatus(jobId, IN_PROGRESS, clock(0))] == StepWrites(jobId, 0, clock);
    } else {
      StepOutcome(jobs, jobId, i - 1, clock);
      ApplyWritesSnoc(jobs, StepWrites(jobId, i - 1, clock), SetProgress(jobId, 100, i, 0, clock(i)));
    }
  }

  /**
    After loop step `i` of a job sized for `n` devices the stored
    `completedDevices` is `i`, at most `totalDevices`; the stored progress
    is 100 whatever `i` is, and no device has failed.
   */
  lemma StepCounters(jobs: map<Id, UpdateJob>, jobId: Id, i: nat, n: nat, clock: nat -> Millis)
    requires jobId in jobs && jobs[jobId].totalDevices == n && 1 <= i <= n
    ensures var j := ApplyWrites(jobs, StepWrites(jobId, i, clock))[jobId];
      && j.status == IN_PROGRESS
      && j.completedDevices == i <= j.totalDevices
      && j.progress == 100
      && j.failedDevices == 0
  {
    StepOutcome(jobs, jobId, i, clock);
  }

  /**
    Where the progression leaves the job table: only the job's row
    changes; it ends `completed`. With devices, its counters are
    `completedDevices = n`, `failedDevices = 0` and stored progress 100;
    with none, the loop never runs and the counters keep their values
    (0 for a new job). No other column of the row changes.
   */
  lemma ProgressionOutcome(jobs: map<Id, UpdateJob>, jobId: Id, n: nat, clock: nat -> Millis)
    ensures var after := ApplyWrites(jobs, ProgressionWrites(jobId, n, clock));
      && after.Keys == jobs.Keys
      && (forall k :: k in jobs && k != jobId ==> after[k] == jobs[k])
    ensures jobId in jobs ==>
      var j, after := jobs[jobId], ApplyWrites(jobs, ProgressionWrites(jobId, n, clock))[jobId];
      && after == j.(status := COMPLETED,
                     progress := if n == 0 then j.progress else 100,
                     completedDevices := if n == 0 then j.completedDevices else n,
                     failedDevices := if n == 0 then j.failedDevices else 0,
                     updatedAt := clock(n + 1))
  {
    StepOutcome(jobs, jobId, n, clock);
    ApplyWritesSnoc(jobs, StepWrites(jobId, n, clock), SetStatus(jobId, COMPLETED, clock(n + 1)));
  }

  // ---- the broadcasts ----

  /** The messages broadcast for job `jobId` over `n` devices up to and including loop step `i`. */
  function StepEvents(jobId: Id, i: nat, n: nat): (es: seq<Message>)
    requires i <= n
    ensures |es| == i + 1
  {
    if i == 0 then [JobUpdate(jobId, StatusChange(IN_PROGRESS))]
    else StepEvents(jobId, i - 1, n) + [JobUpdate(jobId, ProgressReport(RoundedPercent(i, n), i))]
  }

  /** Every message the progression of a job over `n` devices broadcasts, in order. */
  function ProgressionEvents(jobId: Id, n: nat): (es: seq<Message>)
    ensures |es| == n + 2
  {
    StepEvents(jobId, n, n) + [JobUpdate(jobId, StatusChange(COMPLETED))]
  }

  lemma {:induction false} StepEventsShape(jobId: Id, i: nat, n: nat)
    requires i <= n
    ensures StepEvents(jobId, i, n)[0] == JobUpdate(jobId, StatusChange(IN_PROGRESS))
    ensures forall k :: 1 <= k <= i ==>
      StepEvents(jobId, i, n)[k] == JobUpdate(jobId, ProgressReport(RoundedPercent(k, n), k))
  {
    if i > 0 {
      StepEventsShape(jobId, i - 1, n);
    }
  }

  /**
    The messages subscribers see: `in_progress` first, `completed` last,
    and between them one report per device whose percentage lies in
    [0, 100], never goes down and reaches 100 at the last device.
   */
  lemma ProgressionEventOrder(jobId: Id, n: nat)
    ensures var es := ProgressionEvents(jobId, n);
      && es[0] == JobUpdate(jobId, StatusChange(IN_PROGRESS))
      && es[n + 1] == JobUpdate(jobId, StatusChange(COMPLETED))
      && (forall k :: 1 <= k <= n ==> es[k].data.ProgressReport? && es[k].data.completedDevices == k)
      && (forall k :: 1 <= k <= n ==> 0 <= es[k].data.progress <= 100)
      && (forall a, b :: 1 <= a <= b <= n ==> es[a].data.progress <= es[b].data.progress)
      && (n > 0 ==> es[n].data.progress == 100)
  {
    StepEventsShape(jobId, n, n);
    var es := ProgressionEvents(jobId, n);
    assert forall k :: 1 <= k <= n ==> es[k] == JobUpdate(jobId, ProgressReport(RoundedPercent(k, n), k));
    forall k | 1 <= k <= n
      ensures 0 <= es[k].data.progress <= 100
    {
      PercentRange(k, n);
    }
    forall a, b | 1 <= a <= b <= n
      ensures es[a].data.progress <= es[b].data.progress
    {
      PercentMonotone(a, b, n);
    }
    if n > 0 {
      PercentAtEnd(n);
    }
  }
}
