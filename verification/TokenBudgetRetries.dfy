/** When a call of the model asks again, how it ends, and what each request does to the counters, said of the outcomes
    themselves. */
module TokenBudgetRetries {
  import opened Prelude
  import opened TokenBudget
  import opened TokenBudgetProofs

  // ---- asking again ----------------------------------------------------------------------

  predicate NoFigure(u: Usage) {
    (u.prompt.Some? ==> u.prompt.value <= 0) && (u.completion.Some? ==> u.completion.value <= 0)
  }

  /** Nothing suggests that the provider charged for the request, and it may go better the next time: a passing
      failure, or an empty answer where text was expected. */
  predicate CostFree(outcome: Outcome, structured: bool) {
    match outcome
    case Failed(transient, report, seen, billed) =>
      transient && !billed && NoFigure(report) && (seen.Some? ==> NoFigure(seen.value))
    case Answered(usage, truncated, blank, billed, risky) =>
      blank && !structured && !truncated && !billed && !risky && NoFigure(usage)
  }

  /** The request was sent for this attempt, with the whole room the limit and the context window left. */
  predicate SentFor(q: Request, t: Attempt, limit: int) {
    && q.outcome == t.outcome && q.reserved == t.budgeted && q.ceiling >= 1
    && q.ceiling <= limit - q.before - q.reserved && (t.room.Some? ==> q.ceiling <= t.room.value)
    && (q.ceiling == limit - q.before - q.reserved || t.room == Some(q.ceiling))
  }

  predicate TellsTotal(u: Usage) {
    u.total.Some? || (u.prompt.Some? && u.completion.Some?)
  }

  /** The outcome leaves open what was spent, which stops every later request: an answer whose total cannot be told, or
      a charge for a useless answer or for a failure that reports no figure. */
  predicate LosesTrack(outcome: Outcome, structured: bool) {
    match outcome
    case Failed(_, report, _, billed) => billed && report.prompt.None? && report.completion.None?
    case Answered(usage, truncated, blank, billed, _) =>
      !TellsTotal(usage) || (billed && (truncated || (blank && !structured)))
  }

  /** The error that ends a call at an outcome after which nothing more is sent. */
  predicate EndsAt(outcome: Outcome, structured: bool, account: Account, error: Option<BudgetError>) {
    match outcome
    case Failed(_, _, _, _) => error == Some(ProviderFailed)
    case Answered(usage, truncated, blank, _, _) =>
      if blank && !structured && !truncated then error == Some(EmptyResponse)
      else if TellsTotal(usage) && account.total > account.limit then error == Some(BudgetExceeded)
      else error == if truncated then Some(Truncated) else None
  }

  /** The attempt cannot be sent: no room in the context window, usage unknown, or the budget cannot bear it. */
  predicate CannotSend(account: Account, t: Attempt, error: Option<BudgetError>) {
    if t.room.Some? && t.room.value <= 0 then error == Some(ContextExceeded)
    else if account.unknown then error == Some(UsageUnknown)
    else account.total + t.budgeted >= account.limit && error == Some(BudgetReached)
  }

  /** How a call ends once its first `n` attempts were sent. */
  predicate EndsAfter(r: CallResult, attempts: seq<Attempt>, n: nat, structured: bool)
    requires n <= |attempts|
  {
    if n > 0 && !CostFree(attempts[n - 1].outcome, structured)
    then EndsAt(attempts[n - 1].outcome, structured, r.account, r.error)
    else if n < |attempts| then CannotSend(r.account, attempts[n], r.error)
    else n > 0 && r.error == Some(if attempts[n - 1].outcome.Answered? then EmptyResponse else ProviderFailed)
  }

  /** The requests are those of the first attempts, in order, and only an outcome without cost is followed by
      another. */
  predicate SentInTurn(sent: seq<Request>, attempts: seq<Attempt>, limit: int, structured: bool) {
    && |sent| <= |attempts|
    && (forall k :: 0 <= k < |sent| ==> SentFor(sent[k], attempts[k], limit))
    && (forall k :: 0 <= k < |sent| - 1 ==> CostFree(sent[k].outcome, structured))
  }

  lemma PrepareIsExact(a: Account, t: Attempt)
    ensures var (a1, refused) := Prepare(a, t);
            && a1.total == a.total && a1.limit == a.limit && a1.unknown == a.unknown
            && (refused.Some? ==> CannotSend(a1, t, refused))
            && (refused.None? ==>
                  && a1.held != [] && !a1.unknown
                  && forall after :: SentFor(RequestOf(a1, t, after), t, a.limit))
  {
  }

  /** The verdict is to ask again exactly after an outcome without cost, and usage becomes unknown exactly when the
      outcome leaves open what was spent. */
  lemma SettleAsksIff(a: Account, outcome: Outcome, answered: seq<Usage>, estimate: nat, structured: bool)
    requires a.held != []
    ensures var (a1, verdict) := Settle(a, outcome, answered, estimate, structured);
            && a1.limit == a.limit
            && (verdict.Again? <==> CostFree(outcome, structured))
            && (verdict.Done? ==> outcome.Answered? && !outcome.truncated && !(outcome.blank && !structured))
            && (a1.unknown <==> a.unknown || LosesTrack(outcome, structured))
            && (verdict.Stop? && !a.unknown ==> EndsAt(outcome, structured, a1, Some(verdict.error)))
  {
    match outcome
    case Answered(u, _, _, _, _) => CountsTotal(a, u);
    case Failed(_, report, _, _) => CountsTotal(a, ErrorUsage(report));
  }

  /** The requests after `sent` are those of the attempts, and the call ends as it should. */
  predicate EndsWell(sent: seq<Request>, r: CallResult, attempts: seq<Attempt>, limit: int, structured: bool) {
    && |sent| <= |r.sent| && r.sent[..|sent|] == sent && r.account.limit == limit
    && SentInTurn(r.sent[|sent|..], attempts, limit, structured)
    && (attempts != [] ==> EndsAfter(r, attempts, |r.sent| - |sent|, structured))
  }

  lemma {:induction false} AttemptsEnd(a: Account, attempts: seq<Attempt>, sent: seq<Request>, answered: seq<Usage>,
                                       estimate: nat, structured: bool, last: BudgetError)
    ensures EndsWell(sent, Attempts(a, attempts, sent, answered, estimate, structured, last), attempts, a.limit,
                     structured)
    decreases |attempts|
  {
    if attempts != [] {
      var t := attempts[0];
      var (a1, refused) := Prepare(a, t);
      PrepareIsExact(a, t);
      if refused.None? {
        SettleAsksIff(a1, t.outcome, answered, estimate, structured);
        var (a2, verdict) := Settle(a1, t.outcome, answered, estimate, structured);
        var q := RequestOf(a1, t, a2);
        var answered1 := if t.outcome.Answered? then answered + [t.outcome.usage] else answered;
        var r := Attempts(a, attempts, sent, answered, estimate, structured, last);
        if verdict.Again? {
          var next := if t.outcome.Answered? then EmptyResponse else ProviderFailed;
          AttemptsEnd(a2, attempts[1..], sent + [q], answered1, estimate, structured, next);
          assert r == Attempts(a2, attempts[1..], sent + [q], answered1, estimate, structured, next);
          OneMore(sent, q, r, attempts, a.limit, structured);
        } else {
          assert r.sent == sent + [q];
          assert r.sent[|sent|..] == [q];
        }
      }
    }
  }

  lemma OneMore(sent: seq<Request>, q: Request, r: CallResult, attempts: seq<Attempt>, limit: int, structured: bool)
    requires attempts != [] && SentFor(q, attempts[0], limit) && CostFree(q.outcome, structured)
    requires EndsWell(sent + [q], r, attempts[1..], limit, structured)
    requires |attempts| == 1
             ==> r.error == Some(if attempts[0].outcome.Answered? then EmptyResponse else ProviderFailed)
    ensures EndsWell(sent, r, attempts, limit, structured)
  {
    var rest, all := r.sent[|sent| + 1..], r.sent[|sent|..];
    assert all[0] == r.sent[..|sent| + 1][|sent|] == q;
    assert r.sent[..|sent|] == r.sent[..|sent| + 1][..|sent|] == sent;
    forall k | 0 <= k < |all|
      ensures SentFor(all[k], attempts[k], limit)
      ensures k < |all| - 1 ==> CostFree(all[k].outcome, structured)
    {
      assert k > 0 ==> all[k] == rest[k - 1] && attempts[k] == attempts[1..][k - 1];
    }
  }

  /** A request is followed by another of the same call only if its outcome shows no cost, and after such an outcome
      the next attempt is sent as long as the context window has room and the budget can bear it. Every call ends with
      the error that its last outcome, or the attempt that could not be sent, calls for. */
  lemma CallIsExact(a: Account, attempts: seq<Attempt>, estimate: nat, structured: bool)
    requires attempts != []
    ensures var r := Call(a, attempts, estimate, structured);
            && SentInTurn(r.sent, attempts, a.limit, structured) && r.account.limit == a.limit
            && (a.unknown ==> r == CallResult(a, [], Some(UsageUnknown)))
            && (!a.unknown && a.total >= a.limit ==> r == CallResult(a, [], Some(BudgetReached)))
            && (!a.unknown && a.total < a.limit ==> EndsAfter(r, attempts, |r.sent|, structured))
  {
    if !a.unknown && a.total < a.limit {
      AttemptsEnd(a, attempts, [], [], estimate, structured, ProviderFailed);
      var sent := Attempts(a, attempts, [], [], estimate, structured, ProviderFailed).sent;
      assert sent[0..] == sent;
    }
  }

  // ---- the counters of one request -------------------------------------------------------

  /** Refused before the budget is divided: the reservation just made is not given back. */
  predicate KeepsReservation(a: Account, t: Attempt) {
    (t.room.Some? ==> t.room.value > 0) && (a.unknown || a.total >= a.limit)
  }

  /** Preparing an attempt sets its estimates aside, or changes nothing at all. */
  lemma PrepareSetsAside(a: Account, t: Attempt)
    requires Conserved(a)
    ensures var (a1, refused) := Prepare(a, t);
            a1 == if refused.None? || KeepsReservation(a, t)
                  then a.(budgeted := a.budgeted + t.budgeted, raw := a.raw + t.estimate,
                          effective := a.effective + t.estimate, held := a.held + [Held(t.estimate, t.budgeted)])
                  else a
  {
    ReleaseUndoesReserve(a, Held(t.estimate, t.budgeted));
  }

  /** The part of a prompt that was served from the cache: what is reported, within the prompt. */
  predicate CachedPart(prompt: nat, cached: Option<int>, hit: int) {
    && (cached.None? ==> hit == 0)
    && (cached.Some? ==> (cached.value < 0 ==> hit == 0)
                         && (0 <= cached.value <= prompt ==> hit == cached.value)
                         && (cached.value > prompt ==> hit == prompt))
  }

  /** The reported prompt takes the place of the latest reservation, split into its cached and uncached part. */
  predicate PromptCounted(a: Account, a1: Account, prompt: nat, cached: Option<int>)
    requires a.held != []
  {
    var n := |a.held| - 1;
    && a1.held == a.held[..n] && a1.actual == a.actual + prompt && a1.raw == a.raw
    && a1.budgeted == a.budgeted - a.held[n].budgeted + prompt
    && a1.effective == a.effective - a.held[n].estimate + prompt
    && CachedPart(prompt, cached, a1.cached - a.cached)
    && a1.uncached - a.uncached == prompt - (a1.cached - a.cached)
  }

  /** No prompt is counted, and the reservation stays. */
  predicate PromptUncounted(a: Account, a1: Account) {
    && a1.held == a.held && a1.actual == a.actual && a1.raw == a.raw && a1.budgeted == a.budgeted
    && a1.effective == a.effective && a1.cached == a.cached && a1.uncached == a.uncached
  }

  /** An answer counts its prompt when it reports one; a failure counts its prompt, or none, as soon as its error
      reports any figure. Anything else leaves the reservation in place. */
  lemma SettleCountsPrompt(a: Account, outcome: Outcome, answered: seq<Usage>, estimate: nat, structured: bool)
    requires Conserved(a) && a.held != []
    ensures var a1 := Settle(a, outcome, answered, estimate, structured).0;
            match outcome
            case Answered(u, _, _, _, _) =>
              if u.prompt.Some? then PromptCounted(a, a1, Max(0, u.prompt.value), u.cached) else PromptUncounted(a, a1)
            case Failed(_, report, _, _) =>
              if report.prompt.Some? then PromptCounted(a, a1, Max(0, report.prompt.value), report.cached)
              else if report.completion.Some? then PromptCounted(a, a1, 0, report.cached)
              else PromptUncounted(a, a1)
  {
    match outcome
    case Answered(u, _, _, _, _) =>
      FinalizeCountsPrompt(a, u);
    case Failed(_, report, _, _) =>
      FinalizeCountsPrompt(a, ErrorUsage(report));
  }

  lemma FinalizeCountsPrompt(a: Account, u: Usage)
    requires Conserved(a) && a.held != []
    ensures var a1 := FinalizeLatest(a, u);
            if u.prompt.Some? then PromptCounted(a, a1, Max(0, u.prompt.value), u.cached) else PromptUncounted(a, a1)
  {
    if u.prompt.Some? {
      ClampsNeverBite(a, u.prompt.value, u.cached);
    }
  }

  // ---- the generated tokens of a call ----------------------------------------------------

  datatype Figure = Completion | Reasoning

  function FigureOf(u: Usage, figure: Figure): Option<int> {
    match figure
    case Completion => u.completion
    case Reasoning => u.reasoning
  }

  /** Tokens reported with failures whose error reports a prompt or a completion; a negative figure counts as none. */
  function FailedTokens(sent: seq<Request>, figure: Figure): nat {
    if sent == [] then 0
    else FailedTokens(sent[..|sent| - 1], figure) + FailureAdds(sent[|sent| - 1].outcome, figure)
  }

  function FailureAdds(outcome: Outcome, figure: Figure): nat {
    if outcome.Failed? && (outcome.report.prompt.Some? || outcome.report.completion.Some?)
       && FigureOf(outcome.report, figure).Some?
    then Max(0, FigureOf(outcome.report, figure).value)
    else 0
  }

  /** Tokens reported with answers, as they are. */
  function AnsweredTokens(sent: seq<Request>, figure: Figure): int {
    if sent == [] then 0
    else
      var last := sent[|sent| - 1].outcome;
      AnsweredTokens(sent[..|sent| - 1], figure)
      + if last.Answered? && FigureOf(last.usage, figure).Some? then FigureOf(last.usage, figure).value else 0
  }

  predicate SomeReported(sent: seq<Request>) {
    exists k :: 0 <= k < |sent| && sent[k].outcome.Answered? && sent[k].outcome.usage.completion.Some?
  }

  /** A whole answer, a truncated one, or an empty one where structure was expected. */
  predicate IsText(outcome: Outcome, structured: bool) {
    outcome.Answered? && (outcome.blank && !structured ==> outcome.truncated)
  }

  predicate EndsWithText(sent: seq<Request>, structured: bool) {
    sent != [] && IsText(sent[|sent| - 1].outcome, structured)
  }

  /** The tokens of a call: those of its failures; and, when it ends with text, those of all its answers, or for the
      completion the estimate where no answer reports any. */
  function Generated(sent: seq<Request>, estimate: nat, structured: bool, figure: Figure): int {
    FailedTokens(sent, figure)
    + if !EndsWithText(sent, structured) then 0
      else if figure.Completion? && !SomeReported(sent) then estimate
      else AnsweredTokens(sent, figure)
  }

  function CountOf(a: Account, figure: Figure): int {
    match figure
    case Completion => a.completion
    case Reasoning => a.reasoning
  }

  function SumOf(answered: seq<Usage>, figure: Figure): int {
    match figure
    case Completion => CompletionSum(answered)
    case Reasoning => ReasoningSum(answered)
  }

  /** The usages collected so far are those of the answered requests. */
  ghost predicate Collected(answered: seq<Usage>, sent: seq<Request>, figure: Figure) {
    SumOf(answered, figure) == AnsweredTokens(sent, figure) && (AnyCompletion(answered) <==> SomeReported(sent))
  }

  lemma AnyOneMore(answered: seq<Usage>, u: Usage)
    ensures AnyCompletion(answered + [u]) <==> AnyCompletion(answered) || u.completion.Some?
  {
    var more := answered + [u];
    assert forall k :: 0 <= k < |answered| ==> more[k] == answered[k];
    assert more[|answered|] == u;
  }

  lemma SomeOneMore(sent: seq<Request>, q: Request)
    ensures SomeReported(sent + [q])
            <==> SomeReported(sent) || (q.outcome.Answered? && q.outcome.usage.completion.Some?)
  {
    var more := sent + [q];
    assert forall k :: 0 <= k < |sent| ==> more[k] == sent[k];
    assert more[|sent|] == q;
  }

  lemma CollectedOneMore(answered: seq<Usage>, sent: seq<Request>, q: Request, figure: Figure)
    requires Collected(answered, sent, figure)
    ensures q.outcome.Answered? ==> Collected(answered + [q.outcome.usage], sent + [q], figure)
    ensures q.outcome.Failed? ==> Collected(answered, sent + [q], figure)
  {
    SomeOneMore(sent, q);
    assert (sent + [q])[..|sent|] == sent;
    if q.outcome.Answered? {
      AnyOneMore(answered, q.outcome.usage);
      assert (answered + [q.outcome.usage])[..|answered|] == answered;
    }
  }

  /** What one request adds, given the usages of the answers before it. */
  function Adds(outcome: Outcome, answered: seq<Usage>, estimate: nat, structured: bool, figure: Figure): int {
    if outcome.Failed? then FailureAdds(outcome, figure)
    else if !IsText(outcome, structured) then 0
    else if figure.Completion? && !AnyCompletion(answered + [outcome.usage]) then estimate
    else SumOf(answered + [outcome.usage], figure)
  }

  lemma OneMoreGenerates(sent: seq<Request>, q: Request, answered: seq<Usage>, estimate: nat, structured: bool,
                         figure: Figure)
    requires Collected(answered, sent, figure)
    ensures var (sent1, adds) := (sent + [q], Adds(q.outcome, answered, estimate, structured, figure));
            && (EndsWithText(sent1, structured) <==> IsText(q.outcome, structured))
            && Generated(sent1, estimate, structured, figure) == FailedTokens(sent, figure) + adds
            && (!IsText(q.outcome, structured) ==> FailedTokens(sent1, figure) == FailedTokens(sent, figure) + adds)
  {
    CollectedOneMore(answered, sent, q, figure);
    assert (sent + [q])[..|sent|] == sent;
  }

  /** Settling a request adds its tokens, except that those of a whole answer are added when the call concludes. */
  lemma SettleGenerates(a: Account, outcome: Outcome, answered: seq<Usage>, estimate: nat, structured: bool,
                        figure: Figure)
    requires Conserved(a) && a.held != []
    ensures var (a1, verdict) := Settle(a, outcome, answered, estimate, structured);
            && (verdict.Done? ==> IsText(outcome, structured))
            && (verdict.Again? ==> !IsText(outcome, structured))
            && CountOf(a1, figure) - CountOf(a, figure)
               == if verdict.Done? then 0 else Adds(outcome, answered, estimate, structured, figure)
  {
    match outcome
    case Answered(u, _, _, _, _) => FinalizeConserves(a, u);
    case Failed(_, report, _, _) => FinalizeConserves(a, ErrorUsage(report));
  }

  /** From `a` on, with `sent` behind it, the call added exactly the tokens its requests say. */
  predicate AddedBy(a: Account, r: CallResult, sent: seq<Request>, estimate: nat, structured: bool, figure: Figure) {
    CountOf(r.account, figure) - CountOf(a, figure)
    == Generated(r.sent, estimate, structured, figure) - FailedTokens(sent, figure)
  }

  /** The last request of a call. */
  lemma LastGenerates(a: Account, a1: Account, t: Attempt, sent: seq<Request>, answered: seq<Usage>, estimate: nat,
                      structured: bool, figure: Figure)
    requires Conserved(a1) && a1.held != [] && CountOf(a1, figure) == CountOf(a, figure)
    requires Collected(answered, sent, figure)
    ensures var (a2, verdict) := Settle(a1, t.outcome, answered, estimate, structured);
            var sent1 := sent + [RequestOf(a1, t, a2)];
            && (forall error :: verdict.Stop? ==>
                  AddedBy(a, CallResult(a2, sent1, error), sent, estimate, structured, figure))
            && (verdict.Done? && t.outcome.Answered? ==>
                  AddedBy(a, Conclude(a2, sent1, answered + [t.outcome.usage], estimate), sent, estimate, structured,
                          figure))
  {
    SettleGenerates(a1, t.outcome, answered, estimate, structured, figure);
    var a2 := Settle(a1, t.outcome, answered, estimate, structured).0;
    OneMoreGenerates(sent, RequestOf(a1, t, a2), answered, estimate, structured, figure);
  }

  /** A request after which the call goes on. */
  lemma EarlierGenerates(a: Account, a1: Account, t: Attempt, sent: seq<Request>, answered: seq<Usage>, estimate: nat,
                         structured: bool, r: CallResult, figure: Figure)
    requires Conserved(a1) && a1.held != [] && CountOf(a1, figure) == CountOf(a, figure)
    requires Collected(answered, sent, figure) && Settle(a1, t.outcome, answered, estimate, structured).1.Again?
    ensures var a2 := Settle(a1, t.outcome, answered, estimate, structured).0;
            var sent1 := sent + [RequestOf(a1, t, a2)];
            && !EndsWithText(sent1, structured)
            && Collected(if t.outcome.Answered? then answered + [t.outcome.usage] else answered, sent1, figure)
            && (AddedBy(a2, r, sent1, estimate, structured, figure)
                ==> AddedBy(a, r, sent, estimate, structured, figure))
  {
    SettleGenerates(a1, t.outcome, answered, estimate, structured, figure);
    var q := RequestOf(a1, t, Settle(a1, t.outcome, answered, estimate, structured).0);
    OneMoreGenerates(sent, q, answered, estimate, structured, figure);
    CollectedOneMore(answered, sent, q, figure);
  }

  lemma {:induction false} AttemptsGenerate(a: Account, attempts: seq<Attempt>, sent: seq<Request>,
                                            answered: seq<Usage>, estimate: nat, structured: bool, last: BudgetError,
                                            figure: Figure, r: CallResult)
    requires Conserved(a) && Collected(answered, sent, figure) && !EndsWithText(sent, structured)
    requires r == Attempts(a, attempts, sent, answered, estimate, structured, last)
    ensures AddedBy(a, r, sent, estimate, structured, figure)
    decreases |attempts|
  {
    if attempts != [] {
      var t := attempts[0];
      PrepareKeeps(a, t);
      var (a1, refused) := Prepare(a, t);
      if refused.None? {
        var (a2, verdict) := Settle(a1, t.outcome, answered, estimate, structured);
        var sent1 := sent + [RequestOf(a1, t, a2)];
        if verdict.Again? {
          SettleKeeps(a1, t.outcome, answered, estimate, structured);
          EarlierGenerates(a, a1, t, sent, answered, estimate, structured, r, figure);
          AttemptsGenerate(a2, attempts[1..], sent1,
                           if t.outcome.Answered? then answered + [t.outcome.usage] else answered, estimate,
                           structured, if t.outcome.Answered? then EmptyResponse else ProviderFailed, figure, r);
        } else {
          LastGenerates(a, a1, t, sent, answered, estimate, structured, figure);
        }
      }
    }
  }

  /** A call adds exactly the generated and reasoning tokens its requests say. */
  lemma CallGenerates(a: Account, attempts: seq<Attempt>, estimate: nat, structured: bool, figure: Figure)
    requires Conserved(a) && attempts != []
    ensures var r := Call(a, attempts, estimate, structured);
            CountOf(r.account, figure) - CountOf(a, figure) == Generated(r.sent, estimate, structured, figure)
  {
    AttemptsGenerate(a, attempts, [], [], estimate, structured, ProviderFailed, figure,
                     Attempts(a, attempts, [], [], estimate, structured, ProviderFailed));
  }
}
