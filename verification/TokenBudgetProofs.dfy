/** What every run of calls, retries and resumes keeps of the token account, and what its budget guarantees. */
module TokenBudgetProofs {
  import opened Prelude
  import opened TokenBudget

  // ---- conservation ----------------------------------------------------------------------

  function BudgetedIn(held: seq<Held>): nat {
    if held == [] then 0 else BudgetedIn(held[..|held| - 1]) + held[|held| - 1].budgeted
  }

  function EstimatedIn(held: seq<Held>): nat {
    if held == [] then 0 else EstimatedIn(held[..|held| - 1]) + held[|held| - 1].estimate
  }

  /** Budgeted tokens are reported tokens plus the reservations neither released nor replaced; the cache split is
      exact. */
  predicate Conserved(a: Account) {
    && a.budgeted == a.actual + BudgetedIn(a.held)
    && a.effective == a.actual + EstimatedIn(a.held)
    && a.raw >= EstimatedIn(a.held)
    && a.cached + a.uncached == a.actual && a.cached >= 0 && a.uncached >= 0
    && a.total >= 0 && a.limit >= 1 && a.resumes >= 0
  }

  lemma ReserveConserves(a: Account, h: Held)
    requires Conserved(a)
    ensures Conserved(Reserve(a, h)) && Reserve(a, h).budgeted == a.budgeted + h.budgeted
  {
    assert (a.held + [h])[..|a.held|] == a.held;
  }

  /** Reserving and releasing is no change at all. */
  lemma ReleaseUndoesReserve(a: Account, h: Held)
    requires Conserved(a)
    ensures ReleaseLatest(Reserve(a, h)) == a
  {
    ReserveConserves(a, h);
    assert (a.held + [h])[..|a.held|] == a.held;
  }

  lemma ReplaceConserves(a: Account, prompt: int, cached: Option<int>)
    requires Conserved(a) && a.held != []
    ensures Conserved(ReplaceLatest(a, prompt, cached))
  {
  }

  lemma FinalizeConserves(a: Account, u: Usage)
    requires Conserved(a) && a.held != []
    ensures var r := FinalizeLatest(a, u);
            && Conserved(r) && r.limit == a.limit
            && r.total == a.total + (if TotalOf(u).Some? then TotalOf(u).value else 0)
            && r.unknown == (a.unknown || TotalOf(u).None?)
            && r.completion == a.completion && r.reasoning == a.reasoning
  {
    if u.prompt.Some? {
      ReplaceConserves(a, u.prompt.value, u.cached);
    }
  }

  /** In a conserved account no clamp to zero ever changes a counter: what is taken off is always there. */
  lemma ClampsNeverBite(a: Account, prompt: int, cached: Option<int>)
    requires Conserved(a)
    ensures Max(a.budgeted, a.actual) == a.budgeted
    ensures a.held != [] ==>
              var h := a.held[|a.held| - 1];
              && a.budgeted - h.budgeted >= 0 && a.raw - h.estimate >= 0 && a.effective - h.estimate >= 0
              && ReplaceLatest(a, prompt, cached).budgeted == a.budgeted - h.budgeted + Max(0, prompt)
              && ReplaceLatest(a, prompt, cached).effective == a.effective - h.estimate + Max(0, prompt)
  {
  }

  // ---- what the provider reports ---------------------------------------------------------

  /** What a usage says a request cost: its total, or else the figures that are there. */
  function Reported(u: Usage): nat {
    if u.total.Some? then Max(0, u.total.value) else Max(0, ValueOr(u.prompt, 0) + ValueOr(u.completion, 0))
  }

  predicate SaysNothing(u: Usage) {
    u.total.None? && u.prompt.None? && u.completion.None?
  }

  /** What the provider reported for a request: its answer's usage; else what the error says; else, when that says
      nothing, the usage of a response that had already arrived. */
  function ReportedBy(outcome: Outcome): nat {
    match outcome
    case Answered(u, _, _, _, _) => Reported(u)
    case Failed(_, report, seen, _) =>
      if !SaysNothing(report) then Reported(report)
      else if seen.Some? then Reported(seen.value)
      else 0
  }

  /** No total, and only one of the two figures, which is positive: the code cannot tell the total. */
  predicate OneFigure(u: Usage) {
    u.total.None? && (u.prompt.None? != u.completion.None?) && Positive(u.prompt) + Positive(u.completion) > 0
  }

  predicate CarriesTokens(u: Usage) {
    if u.total.Some? then u.total.value > 0 else ValueOr(u.prompt, 0) + ValueOr(u.completion, 0) > 0
  }

  /** The outcomes whose report is not counted: a single figure without a total; an error with a positive total and no
      figures; a failure after a response with tokens had arrived, when the error itself says nothing. */
  predicate Drops(outcome: Outcome) {
    match outcome
    case Answered(u, _, _, _, _) => OneFigure(u)
    case Failed(_, report, seen, _) =>
      if Reports(report) then OneFigure(report)
      else if report.total.Some? then report.total.value > 0
      else seen.Some? && CarriesTokens(seen.value)
  }

  /** Settling counts what the provider reported exactly when the outcome is not one of those, and never more. A
      dropped report stops later requests exactly when it stood in an answer, or when the failed request was billed
      and its error reported no figure. */
  lemma SettleCountsIff(a: Account, outcome: Outcome, answered: seq<Usage>, estimate: nat, structured: bool)
    requires a.held != []
    ensures var a1 := Settle(a, outcome, answered, estimate, structured).0;
            && a.total <= a1.total <= a.total + ReportedBy(outcome)
            && (a1.total == a.total + ReportedBy(outcome) <==> !Drops(outcome))
            && (Drops(outcome) ==>
                  (a1.unknown <==> a.unknown || outcome.Answered? || (outcome.billed && !Reports(outcome.report))))
  {
    match outcome
    case Answered(u, _, _, _, _) => CountsTotal(a, u);
    case Failed(_, report, _, _) => CountsTotal(a, ErrorUsage(report));
  }

  lemma CountsTotal(a: Account, u: Usage)
    requires a.held != []
    ensures FinalizeLatest(a, u).total == a.total + (if TotalOf(u).Some? then TotalOf(u).value else 0)
    ensures FinalizeLatest(a, u).unknown == (a.unknown || TotalOf(u).None?)
  {
  }

  // ---- the log of requests ---------------------------------------------------------------

  /** The counted tokens lead from one total to another, request by request. */
  predicate Chained(start: int, sent: seq<Request>, end: int) {
    if sent == [] then start == end
    else
      var n := |sent| - 1;
      Chained(start, sent[..n], sent[n].before) && end == sent[n].before + sent[n].counted
  }

  /** Each request had room: what was spent before, what it reserved and its ceiling fit the limit. */
  predicate Guarded(sent: seq<Request>, limit: int) {
    forall k :: 0 <= k < |sent| ==> sent[k].ceiling >= 1 && sent[k].before + sent[k].reserved + sent[k].ceiling <= limit
  }

  /** Only after the last request can usage be unknown. */
  predicate KnownButLast(sent: seq<Request>) {
    forall k :: 0 <= k < |sent| - 1 ==> sent[k].known
  }

  /** Never more is counted than was reported, and all of it exactly when the outcome does not drop its report. */
  predicate Genuine(q: Request) {
    q.counted <= ReportedBy(q.outcome) && (q.counted == ReportedBy(q.outcome) <==> !Drops(q.outcome))
  }

  predicate LogOk(start: int, sent: seq<Request>, a: Account) {
    && Chained(start, sent, a.total) && Guarded(sent, a.limit) && KnownButLast(sent)
    && (forall k :: 0 <= k < |sent| ==> Genuine(sent[k]))
    && (sent != [] && !sent[|sent| - 1].known ==> a.unknown)
  }

  lemma {:induction false} ChainedConcat(start: int, x: seq<Request>, middle: int, y: seq<Request>, end: int)
    requires Chained(start, x, middle) && Chained(middle, y, end)
    ensures Chained(start, x + y, end)
    decreases |y|
  {
    if y != [] {
      var n := |y| - 1;
      ChainedConcat(start, x, middle, y[..n], y[n].before);
      assert (x + y)[..|x + y| - 1] == x + y[..n];
    } else {
      assert x + y == x;
    }
  }

  lemma LogConcat(start: int, x: seq<Request>, a: Account, y: seq<Request>, b: Account)
    requires LogOk(start, x, a) && LogOk(a.total, y, b) && a.limit == b.limit
    requires a.unknown ==> y == [] && b.unknown
    ensures LogOk(start, x + y, b)
  {
    ChainedConcat(start, x, a.total, y, b.total);
    var all := x + y;
    forall k | 0 <= k < |all|
      ensures all[k].ceiling >= 1 && all[k].before + all[k].reserved + all[k].ceiling <= b.limit
      ensures k < |all| - 1 ==> all[k].known
      ensures Genuine(all[k])
    {
      assert all[k] == if k < |x| then x[k] else y[k - |x|];
    }
  }

  lemma PrepareKeeps(a: Account, t: Attempt)
    requires Conserved(a)
    ensures var (a1, refused) := Prepare(a, t);
            && Conserved(a1) && a1.limit == a.limit && a1.total == a.total && a1.unknown == a.unknown
            && (refused.None? ==> a1.held != [] && !a.unknown && Ceiling(a1, t) >= 1
                                  && a.total + t.budgeted + Ceiling(a1, t) <= a.limit)
            && (refused == Some(BudgetReached) && !a.unknown && a.total < a.limit ==> a1 == a)
  {
    ReserveConserves(a, Held(t.estimate, t.budgeted));
    ReleaseUndoesReserve(a, Held(t.estimate, t.budgeted));
  }

  lemma SettleKeeps(a: Account, outcome: Outcome, answered: seq<Usage>, estimate: nat, structured: bool)
    requires Conserved(a) && a.held != []
    ensures var a1 := Settle(a, outcome, answered, estimate, structured).0;
            Conserved(a1) && a1.limit == a.limit && a1.total >= a.total && (a.unknown ==> a1.unknown)
  {
    match outcome
    case Answered(u, _, _, _, _) => FinalizeConserves(a, u);
    case Failed(_, report, _, _) => FinalizeConserves(a, ErrorUsage(report));
  }

  lemma AttemptKeeps(start: int, a: Account, t: Attempt, sent: seq<Request>, answered: seq<Usage>, estimate: nat,
                     structured: bool)
    requires Conserved(a) && LogOk(start, sent, a) && Prepare(a, t).1.None?
    ensures var a1 := Prepare(a, t).0;
            && a1.held != []
            && var a2 := Settle(a1, t.outcome, answered, estimate, structured).0;
               && Conserved(a2) && a2.limit == a.limit && (a.unknown ==> a2.unknown)
               && LogOk(start, sent + [RequestOf(a1, t, a2)], a2)
  {
    PrepareKeeps(a, t);
    var a1 := Prepare(a, t).0;
    SettleKeeps(a1, t.outcome, answered, estimate, structured);
    SettleCountsIff(a1, t.outcome, answered, estimate, structured);
    RequestLogged(start, a, sent, a1, t, Settle(a1, t.outcome, answered, estimate, structured).0);
  }

  lemma ConcludeKeeps(start: int, a: Account, sent: seq<Request>, answered: seq<Usage>, estimate: nat)
    requires Conserved(a) && LogOk(start, sent, a)
    ensures var r := Conclude(a, sent, answered, estimate);
            Conserved(r.account) && LogOk(start, r.sent, r.account) && r.account.limit == a.limit
            && r.account.unknown == a.unknown
  {
  }

  lemma {:induction false} AttemptsKeep(start: int, a: Account, attempts: seq<Attempt>, sent: seq<Request>,
                                        answered: seq<Usage>, estimate: nat, structured: bool, last: BudgetError)
    requires Conserved(a) && LogOk(start, sent, a)
    ensures var r := Attempts(a, attempts, sent, answered, estimate, structured, last);
            Conserved(r.account) && LogOk(start, r.sent, r.account) && r.account.limit == a.limit
            && (a.unknown ==> r.account.unknown)
    decreases |attempts|
  {
    if attempts != [] {
      var t := attempts[0];
      PrepareKeeps(a, t);
      var (a1, refused) := Prepare(a, t);
      if refused.None? {
        AttemptKeeps(start, a, t, sent, answered, estimate, structured);
        var (a2, verdict) := Settle(a1, t.outcome, answered, estimate, structured);
        var sent1 := sent + [RequestOf(a1, t, a2)];
        var answered1 := if t.outcome.Answered? then answered + [t.outcome.usage] else answered;
        if verdict.Again? {
          AttemptsKeep(start, a2, attempts[1..], sent1, answered1, estimate, structured,
                       if t.outcome.Answered? then EmptyResponse else ProviderFailed);
        } else if verdict.Done? {
          ConcludeKeeps(start, a2, sent1, answered1, estimate);
        }
      }
    }
  }

  lemma RequestLogged(start: int, a: Account, sent: seq<Request>, a1: Account, t: Attempt, a2: Account)
    requires LogOk(start, sent, a) && !a.unknown && a1.total == a.total && a1.limit == a.limit == a2.limit
    requires a2.total >= a1.total
    requires Ceiling(a1, t) >= 1 && a.total + t.budgeted + Ceiling(a1, t) <= a.limit
    requires Genuine(RequestOf(a1, t, a2))
    ensures LogOk(start, sent + [RequestOf(a1, t, a2)], a2)
  {
    var request := RequestOf(a1, t, a2);
    assert ([request])[..0] == [];
    assert Chained(a.total, [request], a2.total);
    LogConcat(start, sent, a, [request], a2);
  }

  lemma CallKeeps(a: Account, attempts: seq<Attempt>, estimate: nat, structured: bool)
    requires Conserved(a) && attempts != []
    ensures var r := Call(a, attempts, estimate, structured);
            && Conserved(r.account) && LogOk(a.total, r.sent, r.account) && r.account.limit == a.limit
            && (a.unknown ==> r.sent == [] && r.account == a)
  {
    AttemptsKeep(a.total, a, attempts, [], [], estimate, structured, ProviderFailed);
  }

  // ---- every run -------------------------------------------------------------------------

  datatype Happening = Calls(attempts: seq<Attempt>, estimate: nat, structured: bool) | Resumes

  /** A run of calls and resumes; it ends where a pause is refused. */
  function RunAll(a: Account, hs: seq<Happening>): (Account, seq<Request>)
    decreases |hs|
  {
    if hs == [] then (a, [])
    else
      match hs[0]
      case Calls(attempts, estimate, structured) =>
        if attempts == [] then RunAll(a, hs[1..])
        else
          var r := Call(a, attempts, estimate, structured);
          var (b, sent) := RunAll(r.account, hs[1..]);
          (b, r.sent + sent)
      case Resumes => if Validates(Saved(a)) then RunAll(Restored(Saved(a), a.held), hs[1..]) else (a, [])
  }

  /** Pausing and resuming keeps every counter. */
  lemma ResumeKeepsCounters(a: Account)
    ensures Restored(Saved(a), a.held) == a.(resumes := a.resumes + 1)
    ensures Conserved(a) ==> Conserved(Restored(Saved(a), a.held))
  {
  }

  /** Over every run the account stays conserved, every request had room for what it could cost, the counted totals
      add up, and nothing is sent once usage is unknown. */
  lemma {:induction false} RunKeeps(a: Account, hs: seq<Happening>)
    requires Conserved(a)
    ensures var (b, sent) := RunAll(a, hs);
            && Conserved(b) && LogOk(a.total, sent, b) && b.limit == a.limit
            && (a.unknown ==> sent == [] && b.unknown)
    decreases |hs|
  {
    if hs != [] {
      match hs[0]
      case Calls(attempts, estimate, structured) =>
        if attempts == [] {
          RunKeeps(a, hs[1..]);
        } else {
          var r := Call(a, attempts, estimate, structured);
          CallKeeps(a, attempts, estimate, structured);
          RunKeeps(r.account, hs[1..]);
          LogConcat(a.total, r.sent, r.account, RunAll(r.account, hs[1..]).1, RunAll(r.account, hs[1..]).0);
        }
      case Resumes =>
        if Validates(Saved(a)) {
          ResumeKeepsCounters(a);
          RunKeeps(Restored(Saved(a), a.held), hs[1..]);
        }
    }
  }

  /** A request cost no more than it reserved and was allowed. */
  predicate KeptWithin(q: Request) {
    q.counted <= q.reserved + q.ceiling
  }

  /** Everything the provider reported for these requests. */
  function Spent(sent: seq<Request>): nat {
    if sent == [] then 0 else Spent(sent[..|sent| - 1]) + ReportedBy(sent[|sent| - 1].outcome)
  }

  /** Before every request but the first, the budget was not reached: at most the last request can overshoot. */
  lemma AtMostOneOvershoot(limit: int, hs: seq<Happening>, k: nat)
    requires k + 1 < |RunAll(Fresh(limit), hs).1|
    ensures var sent := RunAll(Fresh(limit), hs).1;
            sent[k].known && sent[k].before + sent[k].counted < Max(1, limit)
  {
    RunKeeps(Fresh(limit), hs);
    var (b, sent) := RunAll(Fresh(limit), hs);
    ChainedLink(0, sent, b.total, k);
  }

  lemma {:induction false} ChainedLink(start: int, sent: seq<Request>, end: int, k: nat)
    requires Chained(start, sent, end) && k + 1 < |sent|
    ensures sent[k].before + sent[k].counted == sent[k + 1].before
    decreases |sent|
  {
    var n := |sent| - 1;
    if k + 1 < n {
      ChainedLink(start, sent[..n], sent[n].before, k);
    }
  }

  /** The budget holds: when the last request keeps within what it reserved and was allowed, the total stays within
      the limit, however many calls, retries and resumes came before. */
  lemma BudgetHolds(limit: int, hs: seq<Happening>)
    requires var sent := RunAll(Fresh(limit), hs).1; sent != [] ==> KeptWithin(sent[|sent| - 1])
    ensures RunAll(Fresh(limit), hs).0.total <= Max(1, limit)
  {
    RunKeeps(Fresh(limit), hs);
  }

  lemma {:induction false} CountedIsSpentIff(start: int, sent: seq<Request>, end: int)
    requires Chained(start, sent, end) && forall k :: 0 <= k < |sent| ==> Genuine(sent[k])
    ensures end <= start + Spent(sent)
    ensures end == start + Spent(sent) <==> forall k :: 0 <= k < |sent| ==> !Drops(sent[k].outcome)
  {
    if sent != [] {
      var n := |sent| - 1;
      CountedIsSpentIff(start, sent[..n], sent[n].before);
      assert Genuine(sent[n]);
      assert (forall k :: 0 <= k < |sent| ==> !Drops(sent[k].outcome))
             <==> !Drops(sent[n].outcome) && forall k :: 0 <= k < n ==> !Drops(sent[..n][k].outcome);
    }
  }

  /** Over every run the counted total never exceeds what the provider reported, and is exactly that if and only if no
      request ended in an outcome that drops its report. */
  lemma TotalIsSpentIff(limit: int, hs: seq<Happening>)
    ensures var (b, sent) := RunAll(Fresh(limit), hs);
            && b.total <= Spent(sent)
            && (b.total == Spent(sent) <==> forall k :: 0 <= k < |sent| ==> !Drops(sent[k].outcome))
  {
    RunKeeps(Fresh(limit), hs);
    var (b, sent) := RunAll(Fresh(limit), hs);
    CountedIsSpentIff(0, sent, b.total);
  }

  // ---- pausing ---------------------------------------------------------------------------

  /** A conserved account can always be written and resumed, except for generated or reasoning tokens: those are
      added as reported, unclamped, so a negative report can make them negative. */
  lemma ValidatesIff(a: Account)
    requires Conserved(a)
    ensures Validates(Saved(a)) <==> a.completion >= 0 && a.reasoning >= 0
  {
  }

  predicate NonNegative(u: Usage) {
    (u.completion.Some? ==> u.completion.value >= 0) && (u.reasoning.Some? ==> u.reasoning.value >= 0)
  }

  /** Every answer reports non-negative generated tokens. */
  predicate AllNonNegative(attempts: seq<Attempt>) {
    forall i :: 0 <= i < |attempts| && attempts[i].outcome.Answered? ==> NonNegative(attempts[i].outcome.usage)
  }

  lemma {:induction false} SumsNonNegative(answered: seq<Usage>)
    requires forall i :: 0 <= i < |answered| ==> NonNegative(answered[i])
    ensures CompletionSum(answered) >= 0 && ReasoningSum(answered) >= 0
  {
    if answered != [] {
      SumsNonNegative(answered[..|answered| - 1]);
    }
  }

  predicate Grown(a: Account, b: Account) {
    b.completion >= a.completion && b.reasoning >= a.reasoning
  }

  lemma RegisterGrows(a: Account, answered: seq<Usage>, estimate: nat)
    requires forall i :: 0 <= i < |answered| ==> NonNegative(answered[i])
    ensures Grown(a, Register(a, answered, estimate))
  {
    SumsNonNegative(answered);
  }

  lemma SettleGrows(a: Account, outcome: Outcome, answered: seq<Usage>, estimate: nat, structured: bool)
    requires a.held != [] && forall i :: 0 <= i < |answered| ==> NonNegative(answered[i])
    requires outcome.Answered? ==> NonNegative(outcome.usage)
    ensures Grown(a, Settle(a, outcome, answered, estimate, structured).0)
  {
    if outcome.Answered? {
      RegisterGrows(FinalizeLatest(a, outcome.usage), answered + [outcome.usage], estimate);
    }
  }

  lemma {:induction false} AttemptsGrow(a: Account, attempts: seq<Attempt>, sent: seq<Request>, answered: seq<Usage>,
                                        estimate: nat, structured: bool, last: BudgetError)
    requires AllNonNegative(attempts) && forall i :: 0 <= i < |answered| ==> NonNegative(answered[i])
    ensures Grown(a, Attempts(a, attempts, sent, answered, estimate, structured, last).account)
    decreases |attempts|
  {
    if attempts != [] {
      var t := attempts[0];
      var (a1, refused) := Prepare(a, t);
      if refused.None? {
        SettleGrows(a1, t.outcome, answered, estimate, structured);
        var (a2, verdict) := Settle(a1, t.outcome, answered, estimate, structured);
        var answered1 := if t.outcome.Answered? then answered + [t.outcome.usage] else answered;
        if verdict.Again? {
          AttemptsGrow(a2, attempts[1..], sent + [RequestOf(a1, t, a2)], answered1, estimate, structured,
                       if t.outcome.Answered? then EmptyResponse else ProviderFailed);
        } else if verdict.Done? {
          RegisterGrows(a2, answered1, estimate);
        }
      }
    }
  }

  /** When no answer reports negative generated tokens, every run can be paused at its end, and was resumed at every
      pause on the way. */
  lemma {:induction false} RunsStayResumable(a: Account, hs: seq<Happening>)
    requires Conserved(a) && a.completion >= 0 && a.reasoning >= 0
    requires forall i :: 0 <= i < |hs| && hs[i].Calls? ==> AllNonNegative(hs[i].attempts)
    ensures Validates(Saved(RunAll(a, hs).0))
    decreases |hs|
  {
    ValidatesIff(a);
    if hs != [] {
      match hs[0]
      case Calls(attempts, estimate, structured) =>
        if attempts == [] {
          RunsStayResumable(a, hs[1..]);
        } else {
          CallKeeps(a, attempts, estimate, structured);
          AttemptsGrow(a, attempts, [], [], estimate, structured, ProviderFailed);
          RunsStayResumable(Call(a, attempts, estimate, structured).account, hs[1..]);
        }
      case Resumes =>
        RunsStayResumable(Restored(Saved(a), a.held), hs[1..]);
    }
  }

  /** A call that goes through one attempt only. */
  lemma OneAttempt(a: Account, t: Attempt, estimate: nat, structured: bool)
    requires Remaining(a).Ok? && Prepare(a, t).1.None? && Prepare(a, t).0.held != []
    ensures var a1 := Prepare(a, t).0;
            var (a2, verdict) := Settle(a1, t.outcome, [], estimate, structured);
            var sent := [RequestOf(a1, t, a2)];
            && (verdict.Done? && t.outcome.Answered?
                ==> Call(a, [t], estimate, structured) == Conclude(a2, sent, [t.outcome.usage], estimate))
            && (verdict.Stop? ==> Call(a, [t], estimate, structured) == CallResult(a2, sent, Some(verdict.error)))
  {
    var a1 := Prepare(a, t).0;
    var a2 := Settle(a1, t.outcome, [], estimate, structured).0;
    assert [t][0] == t;
    assert [] + [RequestOf(a1, t, a2)] == [RequestOf(a1, t, a2)];
    assert t.outcome.Answered? ==> [] + [t.outcome.usage] == [t.outcome.usage];
  }

  function NegativeUsage(): Usage {
    Usage(Some(0), None, Some(-1), Some(0), None)
  }

  lemma NegativeRegisters(a: Account)
    ensures Register(a, [NegativeUsage()], 0).completion == a.completion - 1
  {
    var u := NegativeUsage();
    assert [u][0].completion.Some?;
    assert [u][..0] == [];
  }

  /** One answer reporting -1 generated tokens leaves an account that cannot be paused. */
  lemma NegativeReportCannotPause(limit: int)
    requires limit > 1
    ensures var answer := Answered(NegativeUsage(), false, false, false, false);
            var r := Call(Fresh(limit), [Attempt(0, 0, None, answer)], 0, true);
            r.error.None? && !Validates(Saved(r.account))
  {
    var t := Attempt(0, 0, None, Answered(NegativeUsage(), false, false, false, false));
    var a := Fresh(limit);
    PrepareKeeps(a, t);
    OneAttempt(a, t, 0, true);
    var a1 := Prepare(a, t).0;
    FinalizeConserves(a1, NegativeUsage());
    NegativeRegisters(Settle(a1, t.outcome, [], 0, true).0);
  }

  function Nothing(): Usage {
    Usage(None, None, None, None, None)
  }

  /** The error says nothing, but a response with this usage had already arrived. */
  function FailedAfter(u: Usage): Outcome {
    Failed(false, Nothing(), Some(u), false)
  }

  lemma DroppedLeavesBudget(limit: int, u: Usage)
    requires limit >= 3 && CarriesTokens(u)
    ensures var r := Call(Fresh(limit), [Attempt(1, 1, None, FailedAfter(u))], 0, true);
            r.error == Some(ProviderFailed) && Spent(r.sent) == Reported(u) > 0 && Remaining(r.account) == Ok(limit)
  {
    var t := Attempt(1, 1, None, FailedAfter(u));
    var a := Fresh(limit);
    var a1 := Reserve(a, Held(1, 1));
    assert Prepare(a, t) == (a1, None);
    assert |a1.held| == 1;
    assert Settle(a1, FailedAfter(u), [], 0, true) == (a1, Stop(ProviderFailed));
    OneAttempt(a, t, 0, true);
    SpentOnce(RequestOf(a1, t, a1));
  }

  /** A request that fails after its usage arrived is not counted: with a limit of 10, and 20 tokens reported, the
      whole limit is still free. */
  lemma LostReportLeavesBudget()
    ensures var seen := Usage(Some(15), None, Some(5), Some(20), None);
            var r := Call(Fresh(10), [Attempt(1, 1, None, FailedAfter(seen))], 0, true);
            r.error == Some(ProviderFailed) && Spent(r.sent) == 20 && Remaining(r.account) == Ok(10)
  {
    DroppedLeavesBudget(10, Usage(Some(15), None, Some(5), Some(20), None));
  }

  /** So it is with 15 prompt tokens and no other figure. */
  lemma PartialReportLeavesBudget()
    ensures var seen := Usage(Some(15), None, None, None, None);
            var r := Call(Fresh(10), [Attempt(1, 1, None, FailedAfter(seen))], 0, true);
            r.error == Some(ProviderFailed) && Spent(r.sent) == 15 && Remaining(r.account) == Ok(10)
  {
    DroppedLeavesBudget(10, Usage(Some(15), None, None, None, None));
  }

  /** An answer with a single figure is not counted either, but it stops every later request. */
  lemma PartialAnswerStops()
    ensures var answer := Answered(Usage(Some(15), None, None, None, None), false, false, false, false);
            var r := Call(Fresh(10), [Attempt(1, 1, None, answer)], 0, true);
            r.error.None? && Spent(r.sent) == 15 && r.account.total == 0 && Remaining(r.account) == Err(UsageUnknown)
  {
    var u := Usage(Some(15), None, None, None, None);
    var t := Attempt(1, 1, None, Answered(u, false, false, false, false));
    var a := Fresh(10);
    var a1 := Reserve(a, Held(1, 1));
    assert Prepare(a, t) == (a1, None);
    assert |a1.held| == 1;
    CountsTotal(a1, u);
    var a2 := Settle(a1, t.outcome, [], 0, true).0;
    OneAttempt(a, t, 0, true);
    SpentOnce(RequestOf(a1, t, a2));
  }

  lemma SpentOnce(q: Request)
    ensures Spent([q]) == ReportedBy(q.outcome)
  {
    assert [q][..0] == [];
  }
}
