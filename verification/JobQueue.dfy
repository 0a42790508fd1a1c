/** The persistent job queue: each function is one transaction on the jobs table, whose rows are never deleted.
    Job ids are positions, counted from zero. */
module JobQueue {
  import opened Prelude

  datatype Status = Pending | Processing | Completed | Failed | Cancelled

  datatype Job = Job(valid: bool, status: Status, attempts: nat, worker: Option<string>, cancel: bool,
                     reason: Option<string>,
                     result: Option<string>, error: Option<string>, progress: nat)

  /** How a worker wants to finish a job. */
  datatype Finish = Completes(answer: string) | Fails(error: string, result: Option<string>)

  datatype Reserved = Nothing | Skipped(id: nat) | Got(id: nat)

  const BY_USER := "user"
  const INTERRUPTED := "interrupted"

  predicate Active(job: Job) {
    job.status == Pending || job.status == Processing
  }

  predicate Terminal(job: Job) {
    !Active(job)
  }

  /** A reason is never empty and at most 500 characters long. */
  function ReasonText(reason: string): string {
    if reason == "" then BY_USER else reason[..Min(500, |reason|)]
  }

  // ---- transactions ----------------------------------------------------------------------

  function Add(jobs: seq<Job>, valid: bool): seq<Job> {
    jobs + [Job(valid, Pending, 0, None, false, None, None, None, 0)]
  }

  /** The least pending id at or after a position, or the length of the table. */
  function FirstPending(jobs: seq<Job>, from: nat): (id: nat)
    requires from <= |jobs|
    ensures from <= id <= |jobs|
    ensures id < |jobs| ==> jobs[id].status == Pending
    ensures forall k :: from <= k < id ==> jobs[k].status != Pending
    decreases |jobs| - from
  {
    if from == |jobs| || jobs[from].status == Pending then from else FirstPending(jobs, from + 1)
  }

  function Reservation(job: Job, worker: Option<string>): Job {
    job.(status := Processing, attempts := job.attempts + 1, worker := worker, error := None,
         progress := job.progress + 1,
         cancel := false, reason := None)
  }

  /** The oldest pending job is reserved, or closed when its payload is not an object. */
  function ReserveOnce(jobs: seq<Job>, worker: Option<string>): (seq<Job>, Reserved) {
    var id := FirstPending(jobs, 0);
    if id == |jobs| then (jobs, Nothing)
    else if !jobs[id].valid then (jobs[id := jobs[id].(status := Failed, error := Some("payload"))], Skipped(id))
    else (jobs[id := Reservation(jobs[id], worker)], Got(id))
  }

  /** Publishing progress is refused once the job is closed or flagged. */
  function Publish(jobs: seq<Job>, id: nat): (seq<Job>, bool) {
    if id < |jobs| && Active(jobs[id]) && !jobs[id].cancel
    then (jobs[id := jobs[id].(progress := jobs[id].progress + 1)], true)
    else (jobs, false)
  }

  function CancelRequested(jobs: seq<Job>, id: nat): Option<string> {
    if id < |jobs| && (jobs[id].status == Cancelled || jobs[id].cancel) then
      Some(if jobs[id].reason.Some? && jobs[id].reason.value != "" then jobs[id].reason.value else BY_USER)
    else None
  }

  /** A pending job is cancelled at once; a processing one is flagged. */
  function Cancel(jobs: seq<Job>, id: nat, reason: string): (seq<Job>, bool) {
    if id >= |jobs| || Terminal(jobs[id]) then (jobs, false)
    else
      var job := jobs[id].(cancel := true, reason := Some(ReasonText(reason)), progress := jobs[id].progress + 1);
      (jobs[id := if jobs[id].status == Pending then job.(status := Cancelled) else job], true)
  }

  function MarkCancelled(jobs: seq<Job>, id: nat, reason: string, result: Option<string>): (seq<Job>, bool) {
    if id < |jobs| && Active(jobs[id]) then
      (jobs[id := jobs[id].(status := Cancelled, cancel := true, reason := Some(ReasonText(reason)), result := result,
                            error := None,
                            progress := jobs[id].progress + 1)], true)
    else (jobs, false)
  }

  function Closed(job: Job, finish: Finish): Job {
    match finish
    case Completes(answer) => job.(status := Completed, result := Some(answer), error := None)
    case Fails(error, result) => job.(status := Failed, result := result, error := Some(error))
  }

  /** The guarded update that closes a job: only while it is processing and not flagged. */
  function Close(jobs: seq<Job>, id: nat, finish: Finish): (seq<Job>, bool) {
    if id < |jobs| && jobs[id].status == Processing && !jobs[id].cancel
    then (jobs[id := Closed(jobs[id], finish)], true)
    else (jobs, false)
  }

  /** What a cancelled finish keeps: a failing one brings its result along. */
  function KeptResult(finish: Finish): Option<string> {
    match finish
    case Completes(_) => None
    case Fails(_, result) => result
  }

  /** Finishing a job with nothing else in between. */
  function FinishAlone(jobs: seq<Job>, id: nat, finish: Finish): (seq<Job>, bool) {
    var asked := CancelRequested(jobs, id);
    if asked.Some? then (MarkCancelled(jobs, id, asked.value, KeptResult(finish)).0, false)
    else Close(Publish(jobs, id).0, id, finish)
  }

  // ---- recovery --------------------------------------------------------------------------

  /** What the recovery reads first: flagged processing jobs with their reasons, and dead unflagged ones. */
  datatype Plan = Plan(flagged: seq<(nat, string)>, stale: seq<nat>)

  function PlanFrom(jobs: seq<Job>, dead: set<nat>, from: nat): Plan
    requires from <= |jobs|
    decreases |jobs| - from
  {
    if from == |jobs| then Plan([], [])
    else
      var rest := PlanFrom(jobs, dead, from + 1);
      if jobs[from].status != Processing then rest
      else if jobs[from].cancel then rest.(flagged := [(from, CancelRequested(jobs, from).value)] + rest.flagged)
      else if from in dead then rest.(stale := [from] + rest.stale)
      else rest
  }

  /** The flagged job is closed as cancelled; its flag stays as it is. */
  function CloseFlagged(jobs: seq<Job>, id: nat, reason: string): seq<Job> {
    if id < |jobs| && jobs[id].status == Processing then
      jobs[id := jobs[id].(status := Cancelled, reason := Some(reason), worker := None)]
    else jobs
  }

  /** The stale job goes back to pending. The update does not look at the cancel flag. */
  function Requeue(jobs: seq<Job>, id: nat): seq<Job> {
    if id < |jobs| && jobs[id].status == Processing then
      jobs[id := jobs[id].(status := Pending, worker := None, error := Some(INTERRUPTED))]
    else jobs
  }

  function Recovered(jobs: seq<Job>, plan: Plan): seq<Job>
    decreases |plan.flagged| + |plan.stale|
  {
    if plan.flagged != [] then
      Recovered(CloseFlagged(jobs, plan.flagged[0].0, plan.flagged[0].1), plan.(flagged := plan.flagged[1..]))
    else if plan.stale != [] then Recovered(Requeue(jobs, plan.stale[0]), plan.(stale := plan.stale[1..]))
    else jobs
  }

  /** The whole recovery as one step. */
  function RecoverAtOnce(jobs: seq<Job>, dead: set<nat>): seq<Job> {
    Recovered(jobs, PlanFrom(jobs, dead, 0))
  }

  // ---- the queue object ------------------------------------------------------------------

  /** The reservation loop: at most `left` unusable payloads are closed on the way. */
  function ReserveUpTo(jobs: seq<Job>, worker: Option<string>, left: nat): (seq<Job>, Option<nat>)
    decreases left
  {
    var (jobs1, reserved) := ReserveOnce(jobs, worker);
    match reserved
    case Nothing => (jobs1, None)
    case Got(id) => (jobs1, Some(id))
    case Skipped(_) => if left <= 1 then (jobs1, None) else ReserveUpTo(jobs1, worker, left - 1)
  }

  class Queue {
    var jobs: seq<Job>

    constructor ()
      ensures jobs == []
    {
      jobs := [];
    }

    method AddJob(valid: bool) returns (id: nat)
      modifies this
      ensures jobs == Add(old(jobs), valid) && id == |old(jobs)|
      ensures |jobs| == id + 1 && jobs[..id] == old(jobs) && jobs[id].valid == valid && jobs[id].status == Pending
      ensures !jobs[id].cancel && jobs[id].attempts == 0 && jobs[id].worker == jobs[id].result == jobs[id].error == None
    {
      id := |jobs|;
      jobs := jobs + [Job(valid, Pending, 0, None, false, None, None, None, 0)];
    }

    /** Reserves the oldest usable pending job. The bound on the cycles is never what ends the loop. */
    method ReserveNext(maxInvalid: int, worker: Option<string>) returns (id: Option<nat>)
      modifies this
      ensures (jobs, id) == ReserveUpTo(old(jobs), worker, Max(1, maxInvalid))
    {
      var most := Max(1, maxInvalid);
      var bound := Max(4, most * 2 + 2);
      var invalid, cycles := 0, 0;
      while cycles < bound
        invariant 0 <= invalid == cycles < most
        invariant ReserveUpTo(jobs, worker, most - invalid) == ReserveUpTo(old(jobs), worker, most)
        decreases bound - cycles
      {
        cycles := cycles + 1;
        var next := 0;
        while next < |jobs| && jobs[next].status != Pending
          invariant next <= |jobs| && FirstPending(jobs, next) == FirstPending(jobs, 0)
        {
          next := next + 1;
        }
        if next == |jobs| {
          return None;
        }
        var job := jobs[next];
        if !job.valid {
          jobs := jobs[next := job.(status := Failed, error := Some("payload"))];
          invalid := invalid + 1;
          if invalid >= most {
            return None;
          }
        } else {
          jobs := jobs[next := Reservation(job, worker)];
          return Some(next);
        }
      }
      assert false;
      return None;
    }

    method UpdateProgress(id: nat) returns (published: bool)
      modifies this
      ensures (jobs, published) == Publish(old(jobs), id)
    {
      if id >= |jobs| || Terminal(jobs[id]) || jobs[id].cancel {
        return false;
      }
      jobs := jobs[id := jobs[id].(progress := jobs[id].progress + 1)];
      return true;
    }

    method CancelJob(id: nat, reason: string) returns (changed: bool)
      modifies this
      ensures (jobs, changed) == Cancel(old(jobs), id, reason)
    {
      if id >= |jobs| || Terminal(jobs[id]) {
        return false;
      }
      var job := jobs[id].(cancel := true, reason := Some(ReasonText(reason)), progress := jobs[id].progress + 1);
      if job.status == Pending {
        job := job.(status := Cancelled);
      }
      jobs := jobs[id := job];
      return true;
    }

    method MarkJobCancelled(id: nat, reason: string, result: Option<string>) returns (marked: bool)
      modifies this
      ensures (jobs, marked) == MarkCancelled(old(jobs), id, reason, result)
    {
      if id >= |jobs| || Terminal(jobs[id]) {
        return false;
      }
      jobs := jobs[id := jobs[id].(status := Cancelled, cancel := true, reason := Some(ReasonText(reason)),
                                   result := result,
                                   error := None, progress := jobs[id].progress + 1)];
      return true;
    }

    /** `concluir` and `falhar`, run without anyone else in between. */
    method FinishJob(id: nat, finish: Finish) returns (closed: bool)
      modifies this
      ensures (jobs, closed) == FinishAlone(old(jobs), id, finish)
    {
      var asked := CancelRequested(jobs, id);
      if asked.Some? {
        var _ := MarkJobCancelled(id, asked.value, KeptResult(finish));
        return false;
      }
      var _ := UpdateProgress(id);
      if id < |jobs| && jobs[id].status == Processing && !jobs[id].cancel {
        jobs := jobs[id := Closed(jobs[id], finish)];
        return true;
      }
      return false;
    }

    method RecoverInterrupted(dead: set<nat>)
      modifies this
      ensures jobs == RecoverAtOnce(old(jobs), dead)
    {
      var plan := PlanFrom(jobs, dead, 0);
      for i := 0 to |plan.flagged|
        invariant Recovered(jobs, plan.(flagged := plan.flagged[i..])) == RecoverAtOnce(old(jobs), dead)
      {
        assert plan.flagged[i..][1..] == plan.flagged[i + 1..];
        jobs := CloseFlagged(jobs, plan.flagged[i].0, plan.flagged[i].1);
      }
      assert plan.flagged[|plan.flagged|..] == [];
      for i := 0 to |plan.stale|
        invariant Recovered(jobs, Plan([], plan.stale[i..])) == RecoverAtOnce(old(jobs), dead)
      {
        assert plan.stale[i..][1..] == plan.stale[i + 1..];
        jobs := Requeue(jobs, plan.stale[i]);
      }
    }
  }
}
