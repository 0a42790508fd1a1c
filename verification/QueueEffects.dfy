/** What each transaction on the jobs table does, said of the rows themselves: when it applies, what the job's row
    becomes, and that no other row changes. */
module QueueEffects {
  import opened JobQueue
  import opened Prelude

  /** Every row but one is as it was. */
  predicate OthersStay(jobs: seq<Job>, jobs1: seq<Job>, id: nat) {
    |jobs1| == |jobs| && forall k :: 0 <= k < |jobs| && k != id ==> jobs1[k] == jobs[k]
  }

  predicate Flagged(jobs: seq<Job>, id: nat) {
    id < |jobs| && jobs[id].status == Processing && jobs[id].cancel
  }

  /** A stored reason: the given one up to its first 500 characters, or the standing phrase for none. */
  predicate KeptReason(given: string, kept: Option<string>) {
    && kept.Some? && kept.value != "" && |kept.value| <= 500
    && (given == "" ==> kept.value == BY_USER)
    && (given != "" ==> kept.value <= given && (|kept.value| == |given| || |kept.value| == 500))
  }

  lemma ReasonIsKept(given: string)
    ensures KeptReason(given, Some(ReasonText(given)))
  {
    if given != "" {
      assert given[..Min(500, |given|)] <= given;
    }
  }

  // ---- cancelling ------------------------------------------------------------------------

  /** The row after a cancellation of an active job: what runs is only flagged. */
  predicate CancelledBy(job: Job, row: Job, reason: string) {
    && row.status == (if job.status == Pending then Cancelled else Processing)
    && row.cancel && KeptReason(reason, row.reason)
    && (row.valid, row.attempts, row.worker, row.result, row.error)
       == (job.valid, job.attempts, job.worker, job.result, job.error)
    && row.progress == job.progress + 1
  }

  lemma CancelIsExact(jobs: seq<Job>, id: nat, reason: string)
    ensures var (jobs1, changed) := Cancel(jobs, id, reason);
            && (changed <==> id < |jobs| && jobs[id].status in {Pending, Processing})
            && (!changed ==> jobs1 == jobs)
            && (changed ==> OthersStay(jobs, jobs1, id) && CancelledBy(jobs[id], jobs1[id], reason))
  {
    ReasonIsKept(reason);
  }

  /** The row of a job closed as cancelled, with what its finish brought along. */
  predicate MarkedBy(job: Job, row: Job, reason: string, result: Option<string>) {
    && row.status == Cancelled && row.cancel && KeptReason(reason, row.reason)
    && row.result == result && row.error == None
    && (row.valid, row.attempts, row.worker) == (job.valid, job.attempts, job.worker)
    && row.progress == job.progress + 1
  }

  /** Marking succeeds exactly on an active job, which is then cancelled. */
  lemma MarkIsExact(jobs: seq<Job>, id: nat, reason: string, result: Option<string>)
    ensures var (jobs1, marked) := MarkCancelled(jobs, id, reason, result);
            && (marked <==> id < |jobs| && jobs[id].status in {Pending, Processing})
            && (!marked ==> jobs1 == jobs)
            && (marked ==> OthersStay(jobs, jobs1, id) && MarkedBy(jobs[id], jobs1[id], reason, result))
  {
    ReasonIsKept(reason);
  }

  /** A job is asked to stop exactly when it is flagged or cancelled already, for its stored reason if it has one. */
  predicate AskedFor(job: Job, reason: string) {
    && (job.cancel || job.status == Cancelled)
    && (job.reason.Some? && job.reason.value != "" ==> reason == job.reason.value)
    && (job.reason.None? || job.reason.value == "" ==> reason == BY_USER)
  }

  lemma AskedIsExact(jobs: seq<Job>, id: nat, reason: string)
    ensures CancelRequested(jobs, id) == Some(reason) <==> id < |jobs| && AskedFor(jobs[id], reason)
  {
  }

  // ---- reserving -------------------------------------------------------------------------

  /** The row of a job a worker has just taken: one attempt more and no trace of an earlier cancellation. */
  predicate TakenBy(job: Job, row: Job, worker: Option<string>) {
    && row.status == Processing && row.attempts == job.attempts + 1 && row.worker == worker
    && !row.cancel && row.reason == None && row.error == None
    && (row.valid, row.result) == (job.valid, job.result) && row.progress == job.progress + 1
  }

  /** The row of a job that was refused for its payload. */
  predicate RefusedRow(job: Job, row: Job) {
    && row.status == Failed && row.error == Some("payload")
    && (row.valid, row.attempts, row.worker, row.cancel, row.reason, row.result, row.progress)
       == (job.valid, job.attempts, job.worker, job.cancel, job.reason, job.result, job.progress)
  }

  /** The first pending job is taken, or refused for its payload; without one nothing happens. */
  lemma ReserveIsExact(jobs: seq<Job>, worker: Option<string>)
    ensures var (jobs1, reserved) := ReserveOnce(jobs, worker);
            && (reserved.Nothing? ==> jobs1 == jobs && forall k :: 0 <= k < |jobs| ==> jobs[k].status != Pending)
            && (!reserved.Nothing? ==>
                  && reserved.id < |jobs| && jobs[reserved.id].status == Pending
                  && (forall k :: 0 <= k < reserved.id ==> jobs[k].status != Pending)
                  && (reserved.Got? <==> jobs[reserved.id].valid)
                  && OthersStay(jobs, jobs1, reserved.id)
                  && if reserved.Got? then TakenBy(jobs[reserved.id], jobs1[reserved.id], worker)
                     else RefusedRow(jobs[reserved.id], jobs1[reserved.id]))
  {
  }

  // ---- finishing -------------------------------------------------------------------------

  /** The result a finish brings along when it is told the job was cancelled: only a failing one has any. */
  predicate BringsAlong(finish: Finish, result: Option<string>) {
    match finish
    case Completes(_) => result == None
    case Fails(_, kept) => result == kept
  }

  /** The row shows what this finish wrote. */
  predicate Shows(row: Job, finish: Finish) {
    match finish
    case Completes(answer) => row.status == Completed && row.result == Some(answer) && row.error == None
    case Fails(error, result) => row.status == Failed && row.result == result && row.error == Some(error)
  }

  /** The row of a job that this finish closed. */
  predicate FinishedBy(job: Job, row: Job, finish: Finish) {
    && Shows(row, finish)
    && (row.valid, row.attempts, row.worker, row.cancel, row.reason)
       == (job.valid, job.attempts, job.worker, job.cancel, job.reason)
  }

  /** Finishing a job closes it exactly when it is processing and not asked to stop; one that was asked to stop
      becomes cancelled instead, and keeps what a failing finish brought along. */
  lemma FinishIsExact(jobs: seq<Job>, id: nat, finish: Finish)
    ensures var (jobs1, closed) := FinishAlone(jobs, id, finish);
            && (closed <==> id < |jobs| && jobs[id].status == Processing && !jobs[id].cancel)
            && OthersStay(jobs, jobs1, id)
            && (closed ==> FinishedBy(jobs[id], jobs1[id], finish) && jobs1[id].progress == jobs[id].progress + 1)
            && (id < |jobs| && jobs[id].status in {Pending, Processing} && jobs[id].cancel
                ==> exists reason, result ::
                      && BringsAlong(finish, result) && AskedFor(jobs[id], reason)
                      && MarkedBy(jobs[id], jobs1[id], reason, result))
            && (id < |jobs| && jobs[id].status == Pending && !jobs[id].cancel
                ==> jobs1[id] == jobs[id].(progress := jobs[id].progress + 1))
            && (id < |jobs| && jobs[id].status !in {Pending, Processing} ==> jobs1[id] == jobs[id])
  {
    if id < |jobs| && Active(jobs[id]) && jobs[id].cancel {
      var reason := CancelRequested(jobs, id).value;
      MarkIsExact(jobs, id, reason, KeptResult(finish));
      assert BringsAlong(finish, KeptResult(finish)) && AskedFor(jobs[id], reason);
    }
  }

  /** A flagged job that is finished ends cancelled, whatever its worker reports. */
  lemma FlaggedEndsCancelled(jobs: seq<Job>, id: nat, finish: Finish)
    requires Flagged(jobs, id)
    ensures var (jobs1, closed) := FinishAlone(jobs, id, finish);
            !closed && |jobs1| == |jobs| && jobs1[id].status == Cancelled && BringsAlong(finish, jobs1[id].result)
  {
    FinishIsExact(jobs, id, finish);
  }

  /** Progress is published exactly for an active job nobody asked to stop, and changes nothing else. */
  lemma PublishIsExact(jobs: seq<Job>, id: nat)
    ensures var (jobs1, published) := Publish(jobs, id);
            && (published <==> id < |jobs| && jobs[id].status in {Pending, Processing} && !jobs[id].cancel)
            && (!published ==> jobs1 == jobs)
            && (published ==> OthersStay(jobs, jobs1, id)
                              && jobs1[id] == jobs[id].(progress := jobs[id].progress + 1))
  {
  }
}
