/** Token accounting of one logical execution: reservations before each provider request, provider truth after it,
    the budget that stops further requests, and the state carried over a pause. */
module TokenBudget {
  import opened Prelude

  // ---- accounts --------------------------------------------------------------------------

  /** What one request set aside: its raw estimate and its calibrated estimate. */
  datatype Held = Held(estimate: nat, budgeted: nat)

  /** Usage as the provider reports it; any figure may be missing. */
  datatype Usage = Usage(prompt: Option<int>, cached: Option<int>, completion: Option<int>, total: Option<int>,
                         reasoning: Option<int>)

  /** The counters of an execution; `held` remembers the reservations neither released nor replaced. */
  datatype Account = Account(budgeted: int, raw: int, actual: int, cached: int, uncached: int, effective: int,
                             completion: int, reasoning: int, limit: int, total: int, unknown: bool, resumes: int,
                             held: seq<Held>)

  datatype BudgetError =
    | ContextExceeded | UsageUnknown | BudgetReached | BudgetExceeded
    | Truncated | EmptyResponse | ProviderFailed

  function Fresh(limit: int): Account {
    Account(0, 0, 0, 0, 0, 0, 0, 0, Max(1, limit), 0, false, 0, [])
  }

  function Reserve(a: Account, h: Held): Account {
    a.(budgeted := Max(a.budgeted, a.actual) + h.budgeted, raw := a.raw + h.estimate,
       effective := a.effective + h.estimate,
       held := a.held + [h])
  }

  /** Gives the latest reservation back: nothing was sent. */
  function ReleaseLatest(a: Account): Account
    requires a.held != []
  {
    var n := |a.held| - 1;
    var h := a.held[n];
    a.(budgeted := Max(0, a.budgeted - h.budgeted), raw := Max(0, a.raw - h.estimate),
       effective := Max(0, a.effective - h.estimate),
       held := a.held[..n])
  }

  /** The total a usage amounts to, if it can be told. */
  function TotalOf(u: Usage): Option<nat> {
    if u.total.Some? then Some(Max(0, u.total.value))
    else if u.prompt.Some? && u.completion.Some? then Some(Max(0, u.prompt.value + u.completion.value))
    else None
  }

  function CountTotal(a: Account, u: Usage): Account {
    if TotalOf(u).Some? then a.(total := a.total + TotalOf(u).value) else a.(unknown := true)
  }

  /** Replaces the latest reservation by the prompt tokens the provider reports. */
  function ReplaceLatest(a: Account, prompt: int, cached: Option<int>): Account
    requires a.held != []
  {
    var n := |a.held| - 1;
    var h := a.held[n];
    var actual := Max(0, prompt);
    var hit := if cached.Some? then Min(actual, Max(0, cached.value)) else 0;
    a.(budgeted := Max(0, a.budgeted - h.budgeted + actual), actual := a.actual + actual,
       cached := a.cached + hit, uncached := a.uncached + Max(0, actual - hit),
       effective := Max(0, a.effective + actual - h.estimate), held := a.held[..n])
  }

  /** Provider truth for the latest request; without a prompt figure its reservation stays. */
  function FinalizeLatest(a: Account, u: Usage): Account
    requires a.held != []
  {
    CountTotal(if u.prompt.Some? then ReplaceLatest(a, u.prompt.value, u.cached) else a, u)
  }

  function Remaining(a: Account): Result<nat, BudgetError> {
    if a.unknown then Err(UsageUnknown)
    else if a.limit - a.total <= 0 then Err(BudgetReached)
    else Ok(a.limit - a.total)
  }

  // ---- one attempt -----------------------------------------------------------------------

  /** How one request ends. `billed` and `risky` are the Adapter's word that the provider may have charged for it.
      A failure carries what its error reported, and apart from that the usage of a response that had already
      arrived. */
  datatype Outcome =
    | Answered(usage: Usage, truncated: bool, blank: bool, billed: bool, risky: bool)
    | Failed(transient: bool, report: Usage, seen: Option<Usage>, billed: bool)

  /** One turn of the retry loop: the estimates made for it, the room the context window leaves, and its outcome. */
  datatype Attempt = Attempt(estimate: nat, budgeted: nat, room: Option<int>, outcome: Outcome)

  /** A request that was sent: the total before it, what it reserved, its output ceiling, what was counted for it,
      how it ended, and whether usage was still known afterwards. */
  datatype Request = Request(before: int, reserved: nat, ceiling: int, counted: nat, outcome: Outcome, known: bool)

  datatype Verdict = Done | Again | Stop(error: BudgetError)

  function Ceiling(a: Account, t: Attempt): int {
    var free := a.limit - a.total - t.budgeted;
    if t.room.Some? then Min(free, t.room.value) else free
  }

  /** Everything up to the request: the reservation, or the error that stops the call. */
  function Prepare(a: Account, t: Attempt): (Account, Option<BudgetError>) {
    if t.room.Some? && t.room.value <= 0 then (a, Some(ContextExceeded))
    else
      var a1 := Reserve(a, Held(t.estimate, t.budgeted));
      if Remaining(a1).Err? then (a1, Some(Remaining(a1).error))
      else if Ceiling(a1, t) <= 0 then (ReleaseLatest(a1), Some(BudgetReached))
      else (a1, None)
  }

  function Positive(x: Option<int>): nat {
    if x.Some? then Max(0, x.value) else 0
  }

  function CompletionSum(answered: seq<Usage>): int {
    if answered == [] then 0
    else CompletionSum(answered[..|answered| - 1]) + ValueOr(answered[|answered| - 1].completion, 0)
  }

  function ReasoningSum(answered: seq<Usage>): int {
    if answered == [] then 0
    else ReasoningSum(answered[..|answered| - 1]) + ValueOr(answered[|answered| - 1].reasoning, 0)
  }

  predicate AnyCompletion(answered: seq<Usage>) {
    exists i :: 0 <= i < |answered| && answered[i].completion.Some?
  }

  /** The generated tokens of a whole call: what was reported, or an estimate from the text. */
  function Register(a: Account, answered: seq<Usage>, estimate: nat): Account {
    a.(reasoning := a.reasoning + ReasoningSum(answered),
       completion := a.completion + if AnyCompletion(answered) then CompletionSum(answered) else estimate)
  }

  predicate Reports(u: Usage) {
    u.prompt.Some? || u.completion.Some?
  }

  /** The usage taken from an error: missing figures count as zero, and so does a total that cannot be told. */
  function ErrorUsage(u: Usage): Usage {
    var prompt := Positive(u.prompt);
    Usage(Some(prompt), if u.cached.Some? then Some(Min(prompt, Positive(u.cached))) else None,
          Some(Positive(u.completion)),
          Some(if TotalOf(u).Some? then TotalOf(u).value else 0), u.reasoning)
  }

  function Figures(u: Usage): nat {
    Positive(u.prompt) + Positive(u.completion)
  }

  /** The account and the verdict once the outcome is known. */
  function Settle(a: Account, outcome: Outcome, answered: seq<Usage>, estimate: nat, structured: bool)
    : (Account, Verdict)
    requires a.held != []
  {
    match outcome
    case Answered(u, truncated, blank, billed, risky) =>
      var a1 := FinalizeLatest(a, u);
      if truncated then
        var a2 := Register(a1, answered + [u], estimate);
        (a2.(unknown := a2.unknown || billed),
         Stop(if !a1.unknown && a1.total > a1.limit then BudgetExceeded else Truncated))
      else if blank && !structured then
        (a1.(unknown := a1.unknown || billed), if billed || risky || Figures(u) > 0 then Stop(EmptyResponse) else Again)
      else (a1, Done)
    case Failed(transient, report, seen, billed) =>
      var costly := billed || Figures(report) > 0 || (seen.Some? && Figures(seen.value) > 0);
      var verdict := if transient && !costly then Again else Stop(ProviderFailed);
      if Reports(report) then
        var a1 := FinalizeLatest(a, ErrorUsage(report));
        (a1.(completion := a1.completion + Positive(report.completion),
             reasoning := a1.reasoning + Positive(report.reasoning)), verdict)
      else (a.(unknown := a.unknown || billed), verdict)
  }

  // ---- one call --------------------------------------------------------------------------

  datatype CallResult = CallResult(account: Account, sent: seq<Request>, error: Option<BudgetError>)

  /** After a usable answer: count the generated tokens, then check the budget once more. */
  function Conclude(a: Account, sent: seq<Request>, answered: seq<Usage>, estimate: nat): CallResult {
    var a1 := Register(a, answered, estimate);
    CallResult(a1, sent, if !a1.unknown && a1.total > a1.limit then Some(BudgetExceeded) else None)
  }

  function RequestOf(before: Account, t: Attempt, after: Account): Request {
    Request(before.total, t.budgeted, Ceiling(before, t), Max(0, after.total - before.total), t.outcome, !after.unknown)
  }

  /** The attempts from here on, with what the earlier ones of this call sent and were answered. */
  function Attempts(a: Account, attempts: seq<Attempt>, sent: seq<Request>, answered: seq<Usage>, estimate: nat,
                    structured: bool, last: BudgetError): CallResult
    decreases |attempts|
  {
    if attempts == [] then CallResult(a, sent, Some(last))
    else
      var t := attempts[0];
      var (a1, refused) := Prepare(a, t);
      if refused.Some? then CallResult(a1, sent, refused)
      else
        var (a2, verdict) := Settle(a1, t.outcome, answered, estimate, structured);
        var sent1 := sent + [RequestOf(a1, t, a2)];
        var answered1 := if t.outcome.Answered? then answered + [t.outcome.usage] else answered;
        match verdict
        case Done => Conclude(a2, sent1, answered1, estimate)
        case Stop(error) => CallResult(a2, sent1, Some(error))
        case Again => Attempts(a2, attempts[1..], sent1, answered1, estimate, structured,
                               if t.outcome.Answered? then EmptyResponse else ProviderFailed)
  }

  /** One call of the model: the budget is checked first, then the attempts follow one another. */
  function Call(a: Account, attempts: seq<Attempt>, estimate: nat, structured: bool): CallResult
    requires attempts != []
  {
    if Remaining(a).Err? then CallResult(a, [], Some(Remaining(a).error))
    else Attempts(a, attempts, [], [], estimate, structured, ProviderFailed)
  }

  // ---- continuity ------------------------------------------------------------------------

  /** The counters as they are written for a pause. */
  datatype Continuity = Continuity(budgeted: int, raw: int, actual: int, cached: int, uncached: int, effective: int,
                                   completion: int, reasoning: int, limit: int, total: int, unknown: bool, resumes: int)

  predicate Validates(c: Continuity) {
    && c.limit >= 1 && c.total >= 0 && c.budgeted >= 0 && c.raw >= 0 && c.actual >= 0 && c.cached >= 0
       && c.uncached >= 0
    && c.effective >= 0 && c.completion >= 0 && c.reasoning >= 0 && c.resumes >= 0 && c.cached <= c.actual
  }

  function Saved(a: Account): Continuity {
    Continuity(a.budgeted, a.raw, a.actual, a.cached, a.uncached, a.effective, a.completion, a.reasoning, a.limit,
               a.total,
               a.unknown, a.resumes)
  }

  function Restored(c: Continuity, held: seq<Held>): Account {
    Account(c.budgeted, c.raw, c.actual, c.cached, c.uncached, c.effective, c.completion, c.reasoning, c.limit, c.total,
            c.unknown, c.resumes + 1, held)
  }

  // ---- the execution object --------------------------------------------------------------

  /** One reservation; it is settled once. */
  class Reservation {
    const held: Held
    var finalized: bool

    constructor (held: Held)
      ensures this.held == held && !finalized
    {
      this.held, finalized := held, false;
    }
  }

  class ExecutionContext {
    var budgeted: int
    var raw: int
    var actual: int
    var cached: int
    var uncached: int
    var effective: int
    var completion: int
    var reasoning: int
    var limit: int
    var total: int
    var unknown: bool
    var resumes: int
    ghost var held: seq<Held>

    constructor (limit: int)
      ensures State() == Fresh(limit)
    {
      budgeted, raw, actual, cached, uncached, effective := 0, 0, 0, 0, 0, 0;
      completion, reasoning, total, unknown, resumes, held := 0, 0, 0, false, 0, [];
      this.limit := Max(1, limit);
    }

    ghost function State(): Account
      reads this
    {
      Account(budgeted, raw, actual, cached, uncached, effective, completion, reasoning, limit, total, unknown,
              resumes, held)
    }

    /** Writes the counters for a pause; a state that would not validate is refused. */
    method ContinuationState() returns (r: Option<Continuity>)
      ensures r == if Validates(Saved(State())) then Some(Saved(State())) else None
    {
      var c := Continuity(budgeted, raw, actual, cached, uncached, effective, completion, reasoning, limit, total,
                          unknown, resumes);
      return if Validates(c) then Some(c) else None;
    }

    constructor FromContinuation(c: Continuity, ghost held: seq<Held>)
      requires Validates(c)
      ensures State() == Restored(c, held)
    {
      budgeted, raw, actual := c.budgeted, c.raw, c.actual;
      cached, uncached, effective := c.cached, c.uncached, c.effective;
      completion, reasoning, limit, total, unknown := c.completion, c.reasoning, c.limit, c.total, c.unknown;
      resumes := c.resumes + 1;
      this.held := held;
    }

    method EnsureBudget() returns (r: Result<nat, BudgetError>)
      ensures r == Remaining(State())
    {
      if unknown {
        return Err(UsageUnknown);
      }
      var remaining := Max(0, limit - total);
      if remaining <= 0 {
        return Err(BudgetReached);
      }
      return Ok(remaining);
    }

    method ReserveRequest(h: Held) returns (reservation: Reservation)
      modifies this
      ensures fresh(reservation) && reservation.held == h && !reservation.finalized
      ensures State() == Reserve(old(State()), h)
    {
      budgeted, raw, effective := Max(budgeted, actual) + h.budgeted, raw + h.estimate, effective + h.estimate;
      held := held + [h];
      reservation := new Reservation(h);
    }

    method ReleaseUnused(reservation: Reservation)
      requires !reservation.finalized ==> held != [] && held[|held| - 1] == reservation.held
      modifies this, reservation
      ensures reservation.finalized
      ensures State() == if old(reservation.finalized) then old(State()) else ReleaseLatest(old(State()))
    {
      if reservation.finalized {
        return;
      }
      var h := reservation.held;
      budgeted, raw := Max(0, budgeted - h.budgeted), Max(0, raw - h.estimate);
      effective := Max(0, effective - h.estimate);
      held := held[..|held| - 1];
      reservation.finalized := true;
    }

    method ReplaceReservation(h: Held, prompt: int, cachedPrompt: Option<int>)
      requires held != [] && held[|held| - 1] == h
      modifies this
      ensures State() == ReplaceLatest(old(State()), prompt, cachedPrompt)
    {
      var tokens := Max(0, prompt);
      budgeted := Max(0, budgeted - h.budgeted + tokens);
      actual := actual + tokens;
      if cachedPrompt.Some? {
        var hit := Min(tokens, Max(0, cachedPrompt.value));
        cached, uncached := cached + hit, uncached + Max(0, tokens - hit);
      } else {
        uncached := uncached + tokens;
      }
      effective := Max(0, effective + tokens - h.estimate);
      held := held[..|held| - 1];
    }

    method CountUsage(u: Usage)
      modifies this
      ensures State() == CountTotal(old(State()), u)
    {
      if u.total.Some? {
        total := total + Max(0, u.total.value);
      } else if u.prompt.Some? && u.completion.Some? {
        total := total + Max(0, u.prompt.value + u.completion.value);
      } else {
        unknown := true;
      }
    }

    /** Provider truth replaces the reservation, at most once. */
    method Finalize(reservation: Reservation, u: Usage)
      requires !reservation.finalized ==> held != [] && held[|held| - 1] == reservation.held
      modifies this, reservation
      ensures reservation.finalized
      ensures State() == if old(reservation.finalized) then old(State()) else FinalizeLatest(old(State()), u)
    {
      if !reservation.finalized {
        if u.prompt.Some? {
          ReplaceReservation(reservation.held, u.prompt.value, u.cached);
        }
        CountUsage(u);
        reservation.finalized := true;
      }
    }

    method RegisterGenerated(answered: seq<Usage>, estimate: nat)
      modifies this
      ensures State() == Register(old(State()), answered, estimate)
    {
      var reported, sum, thought := false, 0, 0;
      for i := 0 to |answered|
        invariant State() == old(State())
        invariant reported <==> exists k :: 0 <= k < i && answered[k].completion.Some?
        invariant sum == CompletionSum(answered[..i]) && thought == ReasoningSum(answered[..i])
      {
        var u := answered[i];
        assert answered[..i + 1][..i] == answered[..i];
        if u.completion.Some? {
          reported, sum := true, sum + u.completion.value;
        }
        if u.reasoning.Some? {
          thought := thought + u.reasoning.value;
        }
      }
      assert answered[..|answered|] == answered;
      reasoning := reasoning + thought;
      completion := completion + if reported then sum else estimate;
    }

    /** The preflight of one attempt: reserve, check, and give back what cannot be sent. */
    method Preflight(t: Attempt) returns (reservation: Option<Reservation>, refused: Option<BudgetError>)
      modifies this
      ensures (State(), refused) == Prepare(old(State()), t)
      ensures refused.None? ==> reservation.Some? && fresh(reservation.value) && !reservation.value.finalized
                                && held != [] && held[|held| - 1] == reservation.value.held
    {
      if t.room.Some? && t.room.value <= 0 {
        return None, Some(ContextExceeded);
      }
      var r := ReserveRequest(Held(t.estimate, t.budgeted));
      var remaining := EnsureBudget();
      if remaining.Err? {
        return Some(r), Some(remaining.error);
      }
      var ceiling := remaining.value - t.budgeted;
      if t.room.Some? {
        ceiling := Min(ceiling, t.room.value);
      }
      if ceiling <= 0 {
        ReleaseUnused(r);
        return Some(r), Some(BudgetReached);
      }
      return Some(r), None;
    }

    /** What follows the request: provider truth, generated tokens, and whether to try again. */
    method SettleRequest(reservation: Reservation, outcome: Outcome, answered: seq<Usage>, estimate: nat,
                         structured: bool)
      returns (verdict: Verdict)
      requires !reservation.finalized && held != [] && held[|held| - 1] == reservation.held
      modifies this, reservation
      ensures (State(), verdict) == Settle(old(State()), outcome, answered, estimate, structured)
    {
      match outcome
      case Answered(u, truncated, blank, billed, risky) =>
        Finalize(reservation, u);
        if truncated {
          var exceeded := !unknown && total > limit;
          RegisterGenerated(answered + [u], estimate);
          unknown := unknown || billed;
          return Stop(if exceeded then BudgetExceeded else Truncated);
        }
        if blank && !structured {
          unknown := unknown || billed;
          return if billed || risky || Figures(u) > 0 then Stop(EmptyResponse) else Again;
        }
        return Done;
      case Failed(transient, report, seen, billed) =>
        var costly := billed || Figures(report) > 0 || (seen.Some? && Figures(seen.value) > 0);
        if Reports(report) {
          Finalize(reservation, ErrorUsage(report));
          completion, reasoning := completion + Positive(report.completion), reasoning + Positive(report.reasoning);
        } else {
          unknown := unknown || billed;
        }
        return if transient && !costly then Again else Stop(ProviderFailed);
    }

    /** One call of the model with its retry loop. */
    method CallModel(attempts: seq<Attempt>, estimate: nat, structured: bool)
      returns (error: Option<BudgetError>, ghost sent: seq<Request>)
      requires attempts != []
      modifies this
      ensures CallResult(State(), sent, error) == Call(old(State()), attempts, estimate, structured)
    {
      sent := [];
      var remaining := EnsureBudget();
      if remaining.Err? {
        return Some(remaining.error), sent;
      }
      var answered: seq<Usage> := [];
      var last := ProviderFailed;
      for i := 0 to |attempts|
        invariant Attempts(State(), attempts[i..], sent, answered, estimate, structured, last)
                  == Call(old(State()), attempts, estimate, structured)
      {
        var t := attempts[i];
        assert attempts[i..][0] == t && attempts[i..][1..] == attempts[i + 1..];
        var reservation, refused := Preflight(t);
        if refused.Some? {
          return refused, sent;
        }
        ghost var before := State();
        var verdict := SettleRequest(reservation.value, t.outcome, answered, estimate, structured);
        sent := sent + [RequestOf(before, t, State())];
        if t.outcome.Answered? {
          answered, last := answered + [t.outcome.usage], EmptyResponse;
        } else {
          last := ProviderFailed;
        }
        if verdict.Stop? {
          return Some(verdict.error), sent;
        }
        if verdict.Done? {
          RegisterGenerated(answered, estimate);
          return if !unknown && total > limit then Some(BudgetExceeded) else None, sent;
        }
      }
      return Some(last), sent;
    }
  }
}
