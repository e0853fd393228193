/** The jobs table: queued work with an attempt counter and the time of the next attempt. */
module Jobs {
  import opened ByteStrings
  import Runs

  datatype JobState = QueuedJob | DoneJob

  datatype Job = Job(jobId: int, kind: Text, payload: Bytes, state: JobState, attemptCount: int, nextAttemptMs: int)

  /** The rows in insertion order, and the next automatic id. */
  datatype Table = Table(rows: seq<Job>, nextId: int)

  function Enqueue(t: Table, kind: Text, payload: Bytes, nextAttemptMs: int): Table {
    Table(t.rows + [Job(t.nextId, kind, payload, QueuedJob, 0, nextAttemptMs)], t.nextId + 1)
  }

  function Marked(job: Job, success: bool, nextAttemptMs: int): Job {
    job.(state := if success then DoneJob else QueuedJob,
         attemptCount := job.attemptCount + 1,
         nextAttemptMs := nextAttemptMs)
  }

  function MarkAttempt(t: Table, jobId: int, success: bool, nextAttemptMs: int): (t': Table)
    ensures |t'.rows| == |t.rows|
  {
    t.(rows := seq(|t.rows|, i requires 0 <= i < |t.rows| =>
         if t.rows[i].jobId == jobId then Marked(t.rows[i], success, nextAttemptMs) else t.rows[i]))
  }

  predicate Due(job: Job, nowMs: int) {
    job.nextAttemptMs <= nowMs && job.state != DoneJob
  }

  /** Insertion behind the jobs that come first or at the same time. */
  function InsertByTime(sorted: seq<Job>, job: Job): seq<Job> {
    if sorted == [] || job.nextAttemptMs < sorted[0].nextAttemptMs then [job] + sorted
    else [sorted[0]] + InsertByTime(sorted[1..], job)
  }

  /** WHERE next_attempt_ms <= ? AND state != 'done' ORDER BY next_attempt_ms ASC */
  function DueJobs(rows: seq<Job>, nowMs: int): seq<Job> {
    if rows == [] then []
    else
      var before, job := DueJobs(rows[..|rows| - 1], nowMs), rows[|rows| - 1];
      if Due(job, nowMs) then InsertByTime(before, job) else before
  }

  predicate SortedByTime(jobs: seq<Job>) {
    forall i, j :: 0 <= i < j < |jobs| ==> jobs[i].nextAttemptMs <= jobs[j].nextAttemptMs
  }

  lemma {:induction false} InsertPermutes(sorted: seq<Job>, job: Job)
    ensures multiset(InsertByTime(sorted, job)) == multiset(sorted) + multiset{job}
  {
    if sorted != [] && sorted[0].nextAttemptMs <= job.nextAttemptMs {
      InsertPermutes(sorted[1..], job);
      assert sorted == [sorted[0]] + sorted[1..];
    }
  }

  lemma SortedCons(first: Job, rest: seq<Job>)
    requires SortedByTime(rest) && forall x :: x in rest ==> first.nextAttemptMs <= x.nextAttemptMs
    ensures SortedByTime([first] + rest)
  {
  }

  lemma {:induction false} InsertSorts(sorted: seq<Job>, job: Job)
    requires SortedByTime(sorted)
    ensures SortedByTime(InsertByTime(sorted, job))
    ensures forall x :: x in InsertByTime(sorted, job) ==> x == job || x in sorted
  {
    if sorted == [] || job.nextAttemptMs < sorted[0].nextAttemptMs {
      SortedCons(job, sorted);
    } else {
      InsertSorts(sorted[1..], job);
      SortedCons(sorted[0], InsertByTime(sorted[1..], job));
    }
  }

  /** The due jobs are exactly the undone jobs whose time has come, each as often as the table
      holds it, in order of their time. */
  lemma {:induction false} DueJobsExact(rows: seq<Job>, nowMs: int)
    ensures SortedByTime(DueJobs(rows, nowMs))
    ensures forall job :: multiset(DueJobs(rows, nowMs))[job] == if Due(job, nowMs) then multiset(rows)[job] else 0
  {
    if rows != [] {
      var init, last := rows[..|rows| - 1], rows[|rows| - 1];
      DueJobsExact(init, nowMs);
      InsertPermutes(DueJobs(init, nowMs), last);
      InsertSorts(DueJobs(init, nowMs), last);
      assert rows == init + [last];
    }
  }

  /** A new job is queued under the next id and is due from its time on. */
  lemma EnqueuedDue(t: Table, kind: Text, payload: Bytes, nextAttemptMs: int, nowMs: int)
    ensures
      var t' := Enqueue(t, kind, payload, nextAttemptMs);
      && |t'.rows| == |t.rows| + 1 && t'.rows[..|t.rows|] == t.rows && t'.nextId == t.nextId + 1
      && var job := t'.rows[|t.rows|];
         && job.jobId == t.nextId && job.kind == kind && job.payload == payload && job.attemptCount == 0
         && (Due(job, nowMs) <==> nextAttemptMs <= nowMs)
  {
  }

  /** After an attempt a job is due again exactly from the next attempt's time on, and after a
      successful one never; other jobs stay as they are. */
  lemma AttemptReschedules(t: Table, jobId: int, success: bool, nextAttemptMs: int, i: nat, nowMs: int)
    requires i < |t.rows|
    ensures
      var t' := MarkAttempt(t, jobId, success, nextAttemptMs);
      && t'.nextId == t.nextId
      && if t.rows[i].jobId == jobId then Due(t'.rows[i], nowMs) <==> !success && nextAttemptMs <= nowMs
         else t'.rows[i] == t.rows[i]
  {
  }

  // ---- attempts ----

  datatype Mark = Mark(jobId: int, success: bool, nextAttemptMs: int)

  function Next(): (Table, Mark) -> Table {
    (t: Table, m: Mark) => MarkAttempt(t, m.jobId, m.success, m.nextAttemptMs)
  }

  function CountFor(marks: seq<Mark>, jobId: int): nat {
    if marks == [] then 0
    else CountFor(marks[..|marks| - 1], jobId) + if marks[|marks| - 1].jobId == jobId then 1 else 0
  }

  /** Over any run of updates, a job's attempt count grows by the number of attempts marked for
      it, and its id, kind and payload stay. */
  lemma {:induction false} AttemptsCounted(t: Table, marks: seq<Mark>, i: nat)
    requires i < |t.rows|
    ensures |Runs.Run(Next(), t, marks).rows| == |t.rows|
    ensures
      var was, now := t.rows[i], Runs.Run(Next(), t, marks).rows[i];
      && now.attemptCount == was.attemptCount + CountFor(marks, was.jobId)
      && now.jobId == was.jobId && now.kind == was.kind && now.payload == was.payload
  {
    if marks != [] {
      AttemptsCounted(t, marks[..|marks| - 1], i);
    }
  }
}
