/** Several workers, cancellations and recoveries interleaved transaction by transaction over the job queue. */
module QueueProtocol {
  import opened JobQueue
  import opened Prelude
  import opened QueueEffects

  // ---- the interleaved system ------------------------------------------------------------

  /** Where a call that takes several transactions stands. */
  datatype Task =
    | Checking(job: nat, finish: Finish)
    | Marking(job: nat, finish: Finish, reason: string)
    | Publishing(job: nat, finish: Finish)
    | Closing(job: nat, finish: Finish)
    | Returned(job: nat, finish: Finish, closed: bool)
    | Recovering(plan: Plan)

  datatype System = System(jobs: seq<Job>, tasks: seq<Task>)

  datatype Event =
    | Adds(valid: bool)
    | Reserves(worker: Option<string>)
    | Publishes(job: nat)
    | Cancels(job: nat, reason: string)
    | Marks(job: nat, reason: string, result: Option<string>)
    | BeginsFinish(job: nat, finish: Finish)
    | BeginsRecovery(dead: set<nat>)
    | Recovers(dead: set<nat>)
    | Advances(task: nat)

  /** The next transaction of a call. */
  function StepTask(jobs: seq<Job>, task: Task): (seq<Job>, Task) {
    match task
    case Checking(job, finish) =>
      var asked := CancelRequested(jobs, job);
      (jobs, if asked.Some? then Marking(job, finish, asked.value) else Publishing(job, finish))
    case Marking(job, finish, reason) => (MarkCancelled(jobs, job, reason, KeptResult(finish)).0,
                                          Returned(job, finish, false))
    case Publishing(job, finish) => (Publish(jobs, job).0, Closing(job, finish))
    case Closing(job, finish) =>
      var (jobs1, closed) := Close(jobs, job, finish);
      (jobs1, Returned(job, finish, closed))
    case Returned(_, _, _) => (jobs, task)
    case Recovering(plan) =>
      if plan.flagged != [] then
        (CloseFlagged(jobs, plan.flagged[0].0, plan.flagged[0].1), Recovering(plan.(flagged := plan.flagged[1..])))
      else if plan.stale != [] then (Requeue(jobs, plan.stale[0]), Recovering(plan.(stale := plan.stale[1..])))
      else (jobs, task)
  }

  function Perform(s: System, e: Event): System {
    match e
    case Adds(valid) => s.(jobs := Add(s.jobs, valid))
    case Reserves(worker) => s.(jobs := ReserveOnce(s.jobs, worker).0)
    case Publishes(job) => s.(jobs := Publish(s.jobs, job).0)
    case Cancels(job, reason) => s.(jobs := Cancel(s.jobs, job, reason).0)
    case Marks(job, reason, result) => s.(jobs := MarkCancelled(s.jobs, job, reason, result).0)
    case BeginsFinish(job, finish) => s.(tasks := s.tasks + [Checking(job, finish)])
    case BeginsRecovery(dead) => s.(tasks := s.tasks + [Recovering(PlanFrom(s.jobs, dead, 0))])
    case Recovers(dead) => s.(jobs := RecoverAtOnce(s.jobs, dead))
    case Advances(k) =>
      if k >= |s.tasks| then s
      else
        var (jobs, task) := StepTask(s.jobs, s.tasks[k]);
        System(jobs, s.tasks[k := task])
  }

  predicate IsRun(states: seq<System>, events: seq<Event>) {
    && |states| == |events| + 1
    && forall i :: 0 <= i < |events| ==> states[i + 1] == Perform(states[i], events[i])
  }

  // ---- closed rows -----------------------------------------------------------------------

  lemma TerminalStays(s: System, e: Event, j: nat)
    requires j < |s.jobs| && Terminal(s.jobs[j])
    ensures j < |Perform(s, e).jobs| && Perform(s, e).jobs[j] == s.jobs[j]
  {
    if e.Recovers? {
      RecoverAtOnceIsExact(s.jobs, e.dead, j);
    }
  }

  /** Once closed, a job's row never changes again, whoever still works on it: each job makes at most one terminal
      transition. */
  lemma {:induction false} ClosedForever(states: seq<System>, events: seq<Event>, j: nat, m: nat, n: nat)
    requires IsRun(states, events) && m <= n < |states| && j < |states[m].jobs| && Terminal(states[m].jobs[j])
    ensures j < |states[n].jobs| && states[n].jobs[j] == states[m].jobs[j]
    decreases n
  {
    if m < n {
      ClosedForever(states, events, j, m, n - 1);
      TerminalStays(states[n - 1], events[n - 1], j);
    }
  }

  predicate Succeeded(s: System, k: nat, job: nat) {
    k < |s.tasks| && s.tasks[k].Returned? && s.tasks[k].closed && s.tasks[k].job == job
  }

  /** A finish that reported success wrote the row as it stands, and only one finish of a job did. */
  ghost predicate OneWinner(s: System) {
    && (forall k: nat, job: nat :: Succeeded(s, k, job)
         ==> job < |s.jobs| && Terminal(s.jobs[job]) && Shows(s.jobs[job], s.tasks[k].finish))
    && (forall k: nat, m: nat, job: nat :: Succeeded(s, k, job) && Succeeded(s, m, job) ==> k == m)
  }

  lemma OneWinnerStep(s: System, e: Event)
    requires OneWinner(s)
    ensures OneWinner(Perform(s, e))
  {
    var s1 := Perform(s, e);
    forall k: nat, job: nat | Succeeded(s1, k, job)
      ensures job < |s1.jobs| && Terminal(s1.jobs[job]) && Shows(s1.jobs[job], s1.tasks[k].finish)
      ensures Succeeded(s, k, job) || (job < |s.jobs| && Active(s.jobs[job]) && e == Advances(k))
    {
      if Succeeded(s, k, job) {
        TerminalStays(s, e, job);
      }
    }
    forall k: nat, m: nat, job: nat | Succeeded(s1, k, job) && Succeeded(s1, m, job)
      ensures k == m
    {
      assert Succeeded(s, k, job) ==> Terminal(s.jobs[job]);
      assert Succeeded(s, m, job) ==> Terminal(s.jobs[job]);
    }
  }

  /** Of all the workers that finish a job, including stale ones, at most one is told it succeeded, and the row is
      what that one wrote. */
  lemma {:induction false} OneWinnerAlways(states: seq<System>, events: seq<Event>, n: nat)
    requires IsRun(states, events) && OneWinner(states[0]) && n < |states|
    ensures OneWinner(states[n])
  {
    if n > 0 {
      OneWinnerAlways(states, events, n - 1);
      OneWinnerStep(states[n - 1], events[n - 1]);
    }
  }

  // ---- cancellation ----------------------------------------------------------------------

  /** The cancellation stands: the job is cancelled, or still processing with the flag raised. */
  predicate Honoured(jobs: seq<Job>, j: nat) {
    j < |jobs| && (jobs[j].status == Cancelled || (jobs[j].status == Processing && jobs[j].cancel))
  }

  /** An accepted cancellation stands at once. */
  lemma CancelHonours(jobs: seq<Job>, j: nat, reason: string)
    ensures Cancel(jobs, j, reason).1 ==> Honoured(Cancel(jobs, j, reason).0, j)
    ensures Cancel(jobs, j, reason).1 <==> j < |jobs| && Active(jobs[j])
  {
  }

  /** The next transaction is a recovery putting this processing job back to pending. */
  predicate Requeues(s: System, e: Event, j: nat) {
    && e.Advances? && e.task < |s.tasks| && s.tasks[e.task].Recovering?
    && s.tasks[e.task].plan.flagged == [] && s.tasks[e.task].plan.stale != [] && s.tasks[e.task].plan.stale[0] == j
    && j < |s.jobs| && s.jobs[j].status == Processing
  }

  lemma HonouredStep(s: System, e: Event, j: nat)
    requires Honoured(s.jobs, j)
    ensures Honoured(Perform(s, e).jobs, j) <==> !Requeues(s, e, j)
  {
    if Terminal(s.jobs[j]) {
      TerminalStays(s, e, j);
    } else if e.Recovers? {
      RecoverAtOnceIsExact(s.jobs, e.dead, j);
    }
  }

  /** A cancellation that stands keeps standing through a run exactly when no recovery requeues the job in it. That
      can happen only to a job flagged after the recovery read its rows, since the update does not look at the flag. */
  lemma {:induction false} CancelStandsIff(states: seq<System>, events: seq<Event>, j: nat, m: nat, n: nat)
    requires IsRun(states, events) && m <= n < |states| && Honoured(states[m].jobs, j)
    ensures (forall i :: m <= i <= n ==> Honoured(states[i].jobs, j))
            <==> forall i :: m <= i < n ==> !Requeues(states[i], events[i], j)
    decreases n - m
  {
    if m < n {
      HonouredStep(states[m], events[m], j);
      if Honoured(states[m + 1].jobs, j) {
        CancelStandsIff(states, events, j, m + 1, n);
      }
    }
  }

  /** With every recovery taken as one step an accepted cancellation always stands: the job stays flagged while it is
      processing, or becomes cancelled. */
  lemma {:induction false} AtomicRecoveryHonours(states: seq<System>, events: seq<Event>, j: nat, m: nat, n: nat)
    requires IsRun(states, events) && m <= n < |states| && Honoured(states[m].jobs, j)
    requires forall k :: 0 <= k < |states[m].tasks| ==> !states[m].tasks[k].Recovering?
    requires forall i :: m <= i < n ==> !events[i].BeginsRecovery?
    ensures Honoured(states[n].jobs, j) && forall k :: 0 <= k < |states[n].tasks| ==> !states[n].tasks[k].Recovering?
    decreases n
  {
    if m < n {
      AtomicRecoveryHonours(states, events, j, m, n - 1);
      HonouredStep(states[n - 1], events[n - 1], j);
    }
  }

  /** While its cancellation stands no finish of the job succeeds. */
  lemma HonouredNeverCloses(jobs: seq<Job>, j: nat, finish: Finish)
    requires Honoured(jobs, j)
    ensures !Close(jobs, j, finish).1 && Close(jobs, j, finish).0 == jobs
    ensures CancelRequested(jobs, j).Some?
  {
  }

  // ---- finishing a job among others ------------------------------------------------------

  /** The cancellation of the job stands from one state to another. */
  predicate StandsThrough(states: seq<System>, j: nat, m: nat, n: nat) {
    m <= n < |states| && forall i :: m <= i <= n ==> Honoured(states[i].jobs, j)
  }

  predicate AtTask(s: System, k: nat, task: Task) {
    k < |s.tasks| && s.tasks[k] == task
  }

  /** A finish that was told of the cancellation, or has already closed the job as cancelled. */
  predicate ToldToStop(s: System, k: nat, j: nat, finish: Finish) {
    || (k < |s.tasks| && s.tasks[k].Marking? && s.tasks[k].job == j && s.tasks[k].finish == finish)
    || StoppedJob(s, k, j, finish)
  }

  predicate StoppedJob(s: System, k: nat, j: nat, finish: Finish) {
    AtTask(s, k, Returned(j, finish, false)) && j < |s.jobs| && s.jobs[j].status == Cancelled
  }

  /** The second one closes the job as cancelled, for that reason and with what a failing finish brought along. */
  lemma ToldStep(s: System, e: Event, k: nat, j: nat, finish: Finish)
    requires Honoured(s.jobs, j) && ToldToStop(s, k, j, finish)
    ensures ToldToStop(Perform(s, e), k, j, finish)
    ensures StoppedJob(s, k, j, finish) || e == Advances(k) ==> StoppedJob(Perform(s, e), k, j, finish)
    ensures e == Advances(k) && s.tasks[k].Marking? && Active(s.jobs[j])
            ==> exists result :: BringsAlong(finish, result)
                                 && MarkedBy(s.jobs[j], Perform(s, e).jobs[j], s.tasks[k].reason, result)
  {
    if Terminal(s.jobs[j]) {
      TerminalStays(s, e, j);
    }
    if e == Advances(k) && s.tasks[k].Marking? {
      MarkIsExact(s.jobs, j, s.tasks[k].reason, KeptResult(finish));
      assert BringsAlong(finish, KeptResult(finish));
    }
  }

  /** The first transaction of such a finish learns the reason the job should stop. */
  lemma CheckStep(s: System, e: Event, k: nat, j: nat, finish: Finish)
    requires Honoured(s.jobs, j) && AtTask(s, k, Checking(j, finish))
    ensures AtTask(Perform(s, e), k, Checking(j, finish)) || ToldToStop(Perform(s, e), k, j, finish)
    ensures e == Advances(k) ==> ToldToStop(Perform(s, e), k, j, finish)
                                 && Perform(s, e).tasks[k].Marking?
                                 && AskedFor(s.jobs[j], Perform(s, e).tasks[k].reason)
  {
  }

  lemma {:induction false} ToldRuns(states: seq<System>, events: seq<Event>, k: nat, j: nat, finish: Finish, m: nat,
                                    n: nat)
    requires IsRun(states, events) && StandsThrough(states, j, m, n) && ToldToStop(states[m], k, j, finish)
    ensures ToldToStop(states[n], k, j, finish)
    ensures StoppedJob(states[m], k, j, finish) ==> StoppedJob(states[n], k, j, finish)
    decreases n - m
  {
    if m < n {
      ToldStep(states[m], events[m], k, j, finish);
      ToldRuns(states, events, k, j, finish, m + 1, n);
    }
  }

  lemma {:induction false} CheckRuns(states: seq<System>, events: seq<Event>, k: nat, j: nat, finish: Finish, m: nat,
                                     n: nat)
    requires IsRun(states, events) && StandsThrough(states, j, m, n) && AtTask(states[m], k, Checking(j, finish))
    ensures AtTask(states[n], k, Checking(j, finish)) || ToldToStop(states[n], k, j, finish)
    decreases n - m
  {
    if m < n {
      CheckStep(states[m], events[m], k, j, finish);
      if AtTask(states[m + 1], k, Checking(j, finish)) {
        CheckRuns(states, events, k, j, finish, m + 1, n);
      } else {
        ToldRuns(states, events, k, j, finish, m + 1, n);
      }
    }
  }

  /** A finish of a job whose cancellation stands ends with the job cancelled, and is told it did not close it, once
      two transactions of its own have run, whatever the others do in between. */
  lemma FinishEndsCancelled(states: seq<System>, events: seq<Event>, k: nat, j: nat, finish: Finish, m: nat, first: nat,
                            second: nat, n: nat)
    requires IsRun(states, events) && StandsThrough(states, j, m, n) && AtTask(states[m], k, Checking(j, finish))
    requires m <= first < second < n && events[first] == events[second] == Advances(k)
    ensures AtTask(states[n], k, Returned(j, finish, false)) && states[n].jobs[j].status == Cancelled
  {
    CheckRuns(states, events, k, j, finish, m, first);
    if AtTask(states[first], k, Checking(j, finish)) {
      CheckStep(states[first], events[first], k, j, finish);
    } else {
      ToldStep(states[first], events[first], k, j, finish);
    }
    ToldRuns(states, events, k, j, finish, first + 1, second);
    ToldStep(states[second], events[second], k, j, finish);
    ToldRuns(states, events, k, j, finish, second + 1, n);
  }

  /** The job is processing and nobody asked it to stop. */
  predicate Undisturbed(jobs: seq<Job>, j: nat) {
    j < |jobs| && jobs[j].status == Processing && !jobs[j].cancel
  }

  /** One transaction of a finish that is not disturbed brings it one stage on, and the last one closes the job. */
  function NextStage(task: Task): Task {
    match task
    case Checking(job, finish) => Publishing(job, finish)
    case Publishing(job, finish) => Closing(job, finish)
    case Closing(job, finish) => Returned(job, finish, true)
    case _ => task
  }

  predicate Underway(task: Task, j: nat, finish: Finish) {
    task == Checking(j, finish) || task == Publishing(j, finish) || task == Closing(j, finish)
  }

  lemma UndisturbedStep(s: System, e: Event, k: nat, j: nat, finish: Finish)
    requires Undisturbed(s.jobs, j) && k < |s.tasks| && Underway(s.tasks[k], j, finish)
    ensures k < |Perform(s, e).tasks|
    ensures Perform(s, e).tasks[k] == if e == Advances(k) then NextStage(s.tasks[k]) else s.tasks[k]
    ensures e == Advances(k) && s.tasks[k].Closing?
            ==> j < |Perform(s, e).jobs| && FinishedBy(s.jobs[j], Perform(s, e).jobs[j], finish)
  {
  }

  lemma {:induction false} UndisturbedRuns(states: seq<System>, events: seq<Event>, k: nat, j: nat, finish: Finish,
                                           m: nat, n: nat)
    requires IsRun(states, events) && m <= n < |states| && k < |states[m].tasks|
    requires Underway(states[m].tasks[k], j, finish)
    requires forall i :: m <= i < n ==> Undisturbed(states[i].jobs, j) && events[i] != Advances(k)
    ensures k < |states[n].tasks| && states[n].tasks[k] == states[m].tasks[k]
    decreases n - m
  {
    if m < n {
      UndisturbedStep(states[m], events[m], k, j, finish);
      UndisturbedRuns(states, events, k, j, finish, m + 1, n);
    }
  }

  /** The other way round: a finish of a processing job that nobody cancels or recovers before it is through closes
      the job as it says, with its third transaction. */
  lemma UndisturbedFinishCloses(states: seq<System>, events: seq<Event>, k: nat, j: nat, finish: Finish, m: nat,
                                first: nat, second: nat, third: nat)
    requires IsRun(states, events) && m <= first < second < third < |events|
    requires AtTask(states[m], k, Checking(j, finish))
    requires forall i :: m <= i <= third ==> Undisturbed(states[i].jobs, j)
    requires forall i :: m <= i <= third ==> (events[i] == Advances(k) <==> i in {first, second, third})
    ensures AtTask(states[third + 1], k, Returned(j, finish, true))
    ensures j < |states[third + 1].jobs| && FinishedBy(states[third].jobs[j], states[third + 1].jobs[j], finish)
  {
    UndisturbedRuns(states, events, k, j, finish, m, first);
    UndisturbedStep(states[first], events[first], k, j, finish);
    UndisturbedRuns(states, events, k, j, finish, first + 1, second);
    UndisturbedStep(states[second], events[second], k, j, finish);
    UndisturbedRuns(states, events, k, j, finish, second + 1, third);
    UndisturbedStep(states[third], events[third], k, j, finish);
  }

  // ---- recovery as one step --------------------------------------------------------------

  /** What the recovery plans to do is true of the rows it read. */
  ghost predicate PlanFits(jobs: seq<Job>, dead: set<nat>, plan: Plan) {
    && (forall i :: 0 <= i < |plan.flagged| ==> FlaggedFits(jobs, plan.flagged[i]))
    && (forall i :: 0 <= i < |plan.stale| ==> StaleFits(jobs, dead, plan.stale[i]))
  }

  predicate FlaggedFits(jobs: seq<Job>, item: (nat, string)) {
    item.0 < |jobs| && jobs[item.0].status == Processing && jobs[item.0].cancel
    && CancelRequested(jobs, item.0) == Some(item.1)
  }

  predicate StaleFits(jobs: seq<Job>, dead: set<nat>, id: nat) {
    id < |jobs| && jobs[id].status == Processing && !jobs[id].cancel && id in dead
  }

  lemma {:induction false} PlanIsFitting(jobs: seq<Job>, dead: set<nat>, from: nat)
    requires from <= |jobs|
    ensures PlanFits(jobs, dead, PlanFrom(jobs, dead, from))
    decreases |jobs| - from
  {
    if from < |jobs| {
      PlanIsFitting(jobs, dead, from + 1);
    }
  }

  lemma {:induction false} PlanIsComplete(jobs: seq<Job>, dead: set<nat>, from: nat, j: nat)
    requires from <= j < |jobs| && jobs[j].status == Processing
    ensures jobs[j].cancel ==> Flags(PlanFrom(jobs, dead, from), j)
    ensures !jobs[j].cancel && j in dead ==> j in PlanFrom(jobs, dead, from).stale
    decreases |jobs| - from
  {
    var plan := PlanFrom(jobs, dead, from);
    if from < j {
      PlanIsComplete(jobs, dead, from + 1, j);
      var rest := PlanFrom(jobs, dead, from + 1);
      if jobs[j].cancel {
        var i :| 0 <= i < |rest.flagged| && rest.flagged[i].0 == j;
        assert plan.flagged == rest.flagged || plan.flagged[i + 1] == rest.flagged[i];
      }
    } else if jobs[j].cancel {
      assert plan.flagged[0].0 == j;
    }
  }

  predicate Flags(plan: Plan, j: nat) {
    exists i :: 0 <= i < |plan.flagged| && plan.flagged[i].0 == j
  }

  lemma FlagsRest(plan: Plan, j: nat)
    requires plan.flagged != []
    ensures Flags(plan, j) <==> plan.flagged[0].0 == j || Flags(plan.(flagged := plan.flagged[1..]), j)
  {
    var rest := plan.(flagged := plan.flagged[1..]);
    if Flags(plan, j) {
      var i :| 0 <= i < |plan.flagged| && plan.flagged[i].0 == j;
      assert i > 0 ==> rest.flagged[i - 1] == plan.flagged[i];
    }
    if Flags(rest, j) {
      var i :| 0 <= i < |rest.flagged| && rest.flagged[i].0 == j;
      assert plan.flagged[i + 1] == rest.flagged[i];
    }
  }

  /** What the remaining updates of a recovery make of one row, when nothing comes in between. */
  lemma {:induction false} RecoveredRow(jobs: seq<Job>, plan: Plan, j: nat)
    requires j < |jobs|
    ensures |Recovered(jobs, plan)| == |jobs|
    ensures jobs[j].status != Processing ==> Recovered(jobs, plan)[j] == jobs[j]
    ensures jobs[j].status == Processing && !Flags(plan, j) && j !in plan.stale ==> Recovered(jobs, plan)[j] == jobs[j]
    ensures jobs[j].status == Processing && Flags(plan, j) ==>
              exists i :: 0 <= i < |plan.flagged| && plan.flagged[i].0 == j
                          && Recovered(jobs, plan)[j]
                             == jobs[j].(status := Cancelled, reason := Some(plan.flagged[i].1), worker := None)
    ensures jobs[j].status == Processing && !Flags(plan, j) && j in plan.stale ==>
              Recovered(jobs, plan)[j] == jobs[j].(status := Pending, worker := None, error := Some(INTERRUPTED))
    decreases |plan.flagged| + |plan.stale|
  {
    if plan.flagged != [] {
      var id, reason := plan.flagged[0].0, plan.flagged[0].1;
      var rest := plan.(flagged := plan.flagged[1..]);
      var next := CloseFlagged(jobs, id, reason);
      RecoveredRow(next, rest, j);
      FlagsRest(plan, j);
      if jobs[j].status == Processing && j != id && Flags(rest, j) {
        var i :| 0 <= i < |rest.flagged| && rest.flagged[i].0 == j
                 && Recovered(next, rest)[j] == next[j].(status := Cancelled, reason := Some(rest.flagged[i].1),
                                                         worker := None);
        assert plan.flagged[i + 1] == rest.flagged[i];
      }
    } else if plan.stale != [] {
      RecoveredRow(Requeue(jobs, plan.stale[0]), plan.(stale := plan.stale[1..]), j);
    }
  }

  lemma PlanSays(jobs: seq<Job>, dead: set<nat>, plan: Plan, j: nat)
    requires j < |jobs| && PlanFits(jobs, dead, plan)
    ensures forall i :: 0 <= i < |plan.flagged| && plan.flagged[i].0 == j
             ==> Some(plan.flagged[i].1) == CancelRequested(jobs, j)
    ensures Flags(plan, j) ==> jobs[j].status == Processing && jobs[j].cancel
    ensures j in plan.stale ==> jobs[j].status == Processing && !jobs[j].cancel && j in dead
  {
    forall i | 0 <= i < |plan.flagged| && plan.flagged[i].0 == j
      ensures Some(plan.flagged[i].1) == CancelRequested(jobs, j) && jobs[j].status == Processing && jobs[j].cancel
    {
      assert FlaggedFits(jobs, plan.flagged[i]);
    }
  }

  /** Taken as one step, recovery cancels exactly the flagged processing jobs, requeues exactly the dead unflagged
      ones, and leaves every other row alone. */
  lemma RecoverAtOnceIsExact(jobs: seq<Job>, dead: set<nat>, j: nat)
    requires j < |jobs|
    ensures |RecoverAtOnce(jobs, dead)| == |jobs|
    ensures RecoverAtOnce(jobs, dead)[j] ==
            if jobs[j].status != Processing then jobs[j]
            else if jobs[j].cancel then jobs[j].(status := Cancelled, reason := CancelRequested(jobs, j),
                                                 worker := None)
            else if j in dead then jobs[j].(status := Pending, worker := None, error := Some(INTERRUPTED))
            else jobs[j]
    ensures Honoured(jobs, j) ==> Honoured(RecoverAtOnce(jobs, dead), j)
  {
    PlanIsFitting(jobs, dead, 0);
    if jobs[j].status == Processing {
      PlanIsComplete(jobs, dead, 0, j);
    }
    PlanSays(jobs, dead, PlanFrom(jobs, dead, 0), j);
    RecoveredRow(jobs, PlanFrom(jobs, dead, 0), j);
  }

  /** The transactions of one call with nobody else's in between. */
  function Alone(jobs: seq<Job>, task: Task, steps: nat): (seq<Job>, Task)
    decreases steps
  {
    if steps == 0 then (jobs, task)
    else
      var (jobs1, task1) := StepTask(jobs, task);
      Alone(jobs1, task1, steps - 1)
  }

  /** Left alone, the transactions of a recovery are the recovery as one step, one for each row it planned to change. */
  lemma {:induction false} RecoveryAlone(jobs: seq<Job>, plan: Plan)
    ensures Alone(jobs, Recovering(plan), |plan.flagged| + |plan.stale|)
            == (Recovered(jobs, plan), Recovering(Plan([], [])))
    decreases |plan.flagged| + |plan.stale|
  {
    if plan.flagged != [] {
      RecoveryAlone(CloseFlagged(jobs, plan.flagged[0].0, plan.flagged[0].1), plan.(flagged := plan.flagged[1..]));
    } else if plan.stale != [] {
      RecoveryAlone(Requeue(jobs, plan.stale[0]), plan.(stale := plan.stale[1..]));
    }
  }

  /** Left alone, the transactions of a finish are the finish as one step. */
  lemma FinishAsOne(jobs: seq<Job>, id: nat, finish: Finish)
    ensures Alone(jobs, Checking(id, finish), 3)
            == (FinishAlone(jobs, id, finish).0, Returned(id, finish, FinishAlone(jobs, id, finish).1))
  {
    var (jobs1, task1) := StepTask(jobs, Checking(id, finish));
    var (jobs2, task2) := StepTask(jobs1, task1);
    assert Alone(jobs, Checking(id, finish), 3) == Alone(jobs1, task1, 2) == Alone(jobs2, task2, 1)
           == StepTask(jobs2, task2) by {
      assert Alone(StepTask(jobs2, task2).0, StepTask(jobs2, task2).1, 0) == StepTask(jobs2, task2);
    }
  }

  // ---- when an accepted cancellation can still be lost -----------------------------------

  /** A recovery on its way read the job as one to requeue, and has not come to it yet. */
  predicate HoldsStale(task: Task, j: nat) {
    task.Recovering? && j in task.plan.stale && !Flags(task.plan, j)
  }

  predicate HeldStale(s: System, j: nat) {
    exists k :: 0 <= k < |s.tasks| && HoldsStale(s.tasks[k], j)
  }

  /** The job is still processing, and a recovery on its way will requeue it. */
  predicate InDanger(s: System, j: nat) {
    j < |s.jobs| && s.jobs[j].status == Processing && HeldStale(s, j)
  }

  /** One transaction of a recovery holds the job only if the recovery did before. */
  lemma StepHolds(jobs: seq<Job>, task: Task, j: nat)
    requires Honoured(jobs, j)
    requires HoldsStale(StepTask(jobs, task).1, j) && StepTask(jobs, task).0[j].status == Processing
    ensures HoldsStale(task, j)
  {
    if task.Recovering? && task.plan.flagged != [] {
      FlagsRest(task.plan, j);
    }
  }

  /** No transaction but the first read of a recovery brings danger, and that reads no flagged job as stale. */
  lemma DangerWasThere(s: System, e: Event, j: nat)
    requires Honoured(s.jobs, j) && InDanger(Perform(s, e), j)
    ensures InDanger(s, j)
  {
    if Terminal(s.jobs[j]) {
      TerminalStays(s, e, j);
    }
    var s1 := Perform(s, e);
    var k :| 0 <= k < |s1.tasks| && HoldsStale(s1.tasks[k], j);
    if k == |s.tasks| {
      PlanIsFitting(s.jobs, e.dead, 0);
      PlanSays(s.jobs, e.dead, PlanFrom(s.jobs, e.dead, 0), j);
      assert false;
    } else {
      if e.Advances? && e.task == k {
        StepHolds(s.jobs, s.tasks[k], j);
      }
      assert HoldsStale(s.tasks[k], j);
    }
  }

  lemma RequeueIsDanger(s: System, e: Event, j: nat)
    requires Requeues(s, e, j)
    ensures InDanger(s, j)
  {
    assert HoldsStale(s.tasks[e.task], j);
  }

  /** A cancellation that stands out of danger stays so. */
  lemma SafeStep(s: System, e: Event, j: nat)
    requires Honoured(s.jobs, j) && !InDanger(s, j)
    ensures Honoured(Perform(s, e).jobs, j) && !InDanger(Perform(s, e), j)
  {
    HonouredStep(s, e, j);
    if Requeues(s, e, j) {
      RequeueIsDanger(s, e, j);
    }
    if InDanger(Perform(s, e), j) {
      DangerWasThere(s, e, j);
    }
  }

  lemma {:induction false} SafeForever(states: seq<System>, events: seq<Event>, j: nat, n: nat)
    requires IsRun(states, events) && Honoured(states[0].jobs, j) && !InDanger(states[0], j) && n < |states|
    ensures Honoured(states[n].jobs, j) && !InDanger(states[n], j)
  {
    if n > 0 {
      SafeForever(states, events, j, n - 1);
      SafeStep(states[n - 1], events[n - 1], j);
    }
  }

  lemma RunCons(s: System, e: Event, states: seq<System>, events: seq<Event>)
    requires IsRun(states, events) && states[0] == Perform(s, e)
    ensures IsRun([s] + states, [e] + events)
  {
    var ss, es := [s] + states, [e] + events;
    forall i | 0 <= i < |es|
      ensures ss[i + 1] == Perform(ss[i], es[i])
    {
      assert i > 0 ==> ss[i] == states[i - 1] && es[i] == events[i - 1];
    }
  }

  /** The recovery, left to itself, comes to the job and requeues it. */
  lemma {:induction false} RecoveryLoses(s: System, k: nat, j: nat) returns (states: seq<System>, events: seq<Event>)
    requires k < |s.tasks| && HoldsStale(s.tasks[k], j) && j < |s.jobs| && s.jobs[j].status == Processing
    ensures IsRun(states, events) && states[0] == s && !Honoured(states[|events|].jobs, j)
    decreases |s.tasks[k].plan.flagged| + |s.tasks[k].plan.stale|
  {
    var plan := s.tasks[k].plan;
    var s1 := Perform(s, Advances(k));
    if plan.flagged == [] && plan.stale[0] == j {
      states, events := [s1], [];
    } else {
      if plan.flagged != [] {
        FlagsRest(plan, j);
      }
      states, events := RecoveryLoses(s1, k, j);
    }
    RunCons(s, Advances(k), states, events);
    states, events := [s] + states, [Advances(k)] + events;
  }

  ghost predicate CanBeLost(s: System, j: nat) {
    exists states: seq<System>, events: seq<Event> ::
      IsRun(states, events) && states[0] == s && !Honoured(states[|events|].jobs, j)
  }

  /** A cancellation that stands can still be lost, in some continuation, if and only if the job is processing and a
      recovery on its way already holds it as one to requeue. */
  lemma CancelCanBeLostIff(s: System, j: nat)
    requires Honoured(s.jobs, j)
    ensures CanBeLost(s, j) <==> InDanger(s, j)
  {
    if InDanger(s, j) {
      var k :| 0 <= k < |s.tasks| && HoldsStale(s.tasks[k], j);
      var states, events := RecoveryLoses(s, k, j);
    }
    if CanBeLost(s, j) {
      var states: seq<System>, events: seq<Event> :|
        IsRun(states, events) && states[0] == s && !Honoured(states[|events|].jobs, j);
      if !InDanger(s, j) {
        SafeForever(states, events, j, |events|);
      }
    }
  }

  /** A run from the empty queue in which a cancellation of job 0 is accepted and the job is completed later. */
  predicate LosesCancel(states: seq<System>, events: seq<Event>, m: nat, n: nat) {
    && IsRun(states, events) && states[0] == System([], []) && m < n < |states|
    && events[m] == Cancels(0, "stop") && Cancel(states[m].jobs, 0, "stop").1
    && 0 < |states[n].jobs| && states[n].jobs[0].status == Completed
  }

  /** Split into its statements, recovery can lose an accepted cancellation: the job is flagged after the read,
      requeued by the unguarded update, reserved again with its flag cleared, and completed. */
  lemma CancelCanBeLost()
    ensures exists states: seq<System>, events: seq<Event>, m: nat, n: nat :: LosesCancel(states, events, m, n)
  {
    var first, begun := LostBeginning();
    var second, ended := LostEnding(first[5]);
    var states, events := first + second[1..], begun + ended;
    forall i | 0 <= i < |events|
      ensures states[i + 1] == Perform(states[i], events[i])
    {
      if i < 5 {
        assert states[i] == first[i] && states[i + 1] == first[i + 1] && events[i] == begun[i];
      } else {
        assert states[i] == second[i - 5] && states[i + 1] == second[i - 4] && events[i] == ended[i - 5];
      }
    }
    assert events[3] == begun[3] && states[3] == first[3] && states[10] == second[5];
    assert LosesCancel(states, events, 3, 10);
  }

  function Row(status: Status, attempts: nat, cancel: bool, reason: Option<string>, error: Option<string>,
               progress: nat): Job {
    Job(true, status, attempts, None, cancel, reason, None, error, progress)
  }

  lemma RecoveryPlans(jobs: seq<Job>)
    requires |jobs| == 1 && jobs[0].status == Processing && !jobs[0].cancel
    ensures PlanFrom(jobs, {0}, 0) == Plan([], [0])
  {
    assert PlanFrom(jobs, {0}, 1) == Plan([], []);
  }

  /** The job is reserved, read by the recovery, flagged, and requeued with its flag. */
  lemma LostBeginning() returns (states: seq<System>, events: seq<Event>)
    ensures IsRun(states, events) && |events| == 5 && states[0] == System([], [])
    ensures events[3] == Cancels(0, "stop") && Cancel(states[3].jobs, 0, "stop").1
    ensures states[5] == System([Row(Pending, 1, true, Some("stop"), Some(INTERRUPTED), 2)], [Recovering(Plan([], []))])
  {
    var s0 := System([], []);
    var s1 := System([Row(Pending, 0, false, None, None, 0)], []);
    var s2 := System([Row(Processing, 1, false, None, None, 1)], []);
    var s3 := s2.(tasks := [Recovering(Plan([], [0]))]);
    var s4 := s3.(jobs := [Row(Processing, 1, true, Some("stop"), None, 2)]);
    var s5 := System([Row(Pending, 1, true, Some("stop"), Some(INTERRUPTED), 2)], [Recovering(Plan([], []))]);
    RecoveryPlans(s2.jobs);
    states := [s0, s1, s2, s3, s4, s5];
    events := [Adds(true), Reserves(None), BeginsRecovery({0}), Cancels(0, "stop"), Advances(0)];
    assert Perform(s0, events[0]) == s1 && Perform(s1, events[1]) == s2;
    assert Perform(s2, events[2]) == s3;
    assert "stop"[..Min(500, 4)] == "stop" && Perform(s3, events[3]) == s4;
    assert [0][1..] == [] && Perform(s4, events[4]) == s5;
  }

  /** The requeued job is reserved again and completed. */
  lemma LostEnding(s: System) returns (states: seq<System>, events: seq<Event>)
    requires s == System([Row(Pending, 1, true, Some("stop"), Some(INTERRUPTED), 2)], [Recovering(Plan([], []))])
    ensures IsRun(states, events) && |events| == 5 && states[0] == s
    ensures |states[5].jobs| == 1 && states[5].jobs[0].status == Completed
  {
    var done := Completes("done");
    var idle := s.tasks[0];
    var s6 := s.(jobs := [Row(Processing, 2, false, None, None, 3)]);
    var s7 := s6.(tasks := [idle, Checking(0, done)]);
    var s8 := s6.(tasks := [idle, Publishing(0, done)]);
    var s9 := System([Row(Processing, 2, false, None, None, 4)], [idle, Closing(0, done)]);
    var s10 := System([Closed(s9.jobs[0], done)], [idle, Returned(0, done, true)]);
    states := [s, s6, s7, s8, s9, s10];
    events := [Reserves(None), BeginsFinish(0, done), Advances(1), Advances(1), Advances(1)];
    assert IsRun(states, events);
  }

  // ---- reservation -----------------------------------------------------------------------

  /** The reservation loop takes the oldest usable pending job: everything pending before it was unusable and is
      closed as failed, nothing else changes, and the reserved row starts without a cancel flag. */
  lemma {:induction false} ReservesOldest(jobs: seq<Job>, worker: Option<string>, left: nat)
    requires left >= 1
    ensures var (jobs1, got) := ReserveUpTo(jobs, worker, left);
            && |jobs1| == |jobs|
            && (got.Some? ==>
                  && got.value < |jobs| && jobs[got.value].status == Pending && jobs[got.value].valid
                  && TakenBy(jobs[got.value], jobs1[got.value], worker)
                  && (forall k :: 0 <= k < got.value && jobs[k].status == Pending ==> !jobs[k].valid)
                  && (forall k :: got.value < k < |jobs| ==> jobs1[k] == jobs[k]))
            && (forall k :: 0 <= k < |jobs| && Some(k) != got ==>
                  jobs1[k] == jobs[k]
                  || (jobs[k].status == Pending && !jobs[k].valid && RefusedRow(jobs[k], jobs1[k])))
            && (forall k :: 0 <= k < |jobs| && got.Some? && k < got.value && jobs[k].status == Pending
                 ==> RefusedRow(jobs[k], jobs1[k]))
    decreases left
  {
    var id := FirstPending(jobs, 0);
    var next := ReserveOnce(jobs, worker).0;
    assert forall k :: 0 <= k < |jobs| && k != id ==> next[k] == jobs[k];
    if id < |jobs| && !jobs[id].valid && left > 1 {
      assert RefusedRow(jobs[id], next[id]);
      ReservesOldest(next, worker, left - 1);
      var got := ReserveUpTo(next, worker, left - 1).1;
      assert ReserveUpTo(jobs, worker, left) == ReserveUpTo(next, worker, left - 1);
      assert got.Some? ==> got.value != id && next[got.value] == jobs[got.value];
      assert got != Some(id);
    }
  }

  /** A pending usable job is found unless too many unusable ones stand before it. */
  lemma {:induction false} ReserveFinds(jobs: seq<Job>, worker: Option<string>, left: nat, j: nat)
    requires j < |jobs| && jobs[j].status == Pending && jobs[j].valid && Unusable(jobs[..j]) < left
    ensures ReserveUpTo(jobs, worker, left).1.Some?
    decreases left
  {
    var id := FirstPending(jobs, 0);
    assert id <= j;
    if !jobs[id].valid {
      var jobs1 := ReserveOnce(jobs, worker).0;
      OneFewer(jobs[..j], id);
      assert jobs1[..j] == jobs[..j][id := jobs1[id]];
      ReserveFinds(jobs1, worker, left - 1, j);
    }
  }

  function Unusable(jobs: seq<Job>): nat {
    if jobs == [] then 0
    else
      var n := |jobs| - 1;
      Unusable(jobs[..n]) + if jobs[n].status == Pending && !jobs[n].valid then 1 else 0
  }

  lemma {:induction false} OneFewer(jobs: seq<Job>, id: nat)
    requires id < |jobs| && jobs[id].status == Pending && !jobs[id].valid
    ensures Unusable(jobs) >= 1
    ensures forall job: Job :: job.status != Pending ==> Unusable(jobs[id := job]) == Unusable(jobs) - 1
  {
    var n := |jobs| - 1;
    forall job: Job | job.status != Pending
      ensures Unusable(jobs[id := job]) == Unusable(jobs) - 1 && Unusable(jobs) >= 1
    {
      if id < n {
        OneFewer(jobs[..n], id);
        assert jobs[id := job][..n] == jobs[..n][id := job];
      } else {
        assert jobs[id := job][..n] == jobs[..n];
      }
    }
    if id < n {
      OneFewer(jobs[..n], id);
    }
  }
}
