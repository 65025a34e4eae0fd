/** Session budgets and the reset cooldown of the judge workspace. */
module JudgeQuota {
  import opened Collections

  const ANALYZE := "analyze"
  const INTERACT := "interact"
  const EXPORT := "export"
  const RESET := "reset"

  datatype Settings = Settings(maxAnalysisRuns: int, maxInteractions: int, maxExports: int, resetCooldown: int)

  datatype Usage = Usage(analysisRuns: nat, interactions: nat, exports: nat, resets: nat, lastReset: Option<real>)

  datatype Verdict =
    | Allowed
    | BudgetExhausted
    | Cooldown(retryAfter: int)
    | UnknownAction

  predicate IsBudgeted(action: string) {
    action == ANALYZE || action == INTERACT || action == EXPORT
  }

  function LimitOf(settings: Settings, action: string): int
    requires IsBudgeted(action)
  {
    if action == ANALYZE then settings.maxAnalysisRuns
    else if action == INTERACT then settings.maxInteractions
    else settings.maxExports
  }

  function UsedOf(usage: Usage, action: string): nat
    requires IsBudgeted(action)
  {
    if action == ANALYZE then usage.analysisRuns
    else if action == INTERACT then usage.interactions
    else usage.exports
  }

  function CheckReset(settings: Settings, usage: Usage, now: real): Verdict {
    var cooldown := settings.resetCooldown;
    if cooldown <= 0 || usage.lastReset.None? then Allowed
    else
      var elapsed := now - usage.lastReset.value;
      if elapsed >= cooldown as real then Allowed
      else Cooldown((cooldown as real - elapsed).Floor + 1)
  }

  function Check(settings: Settings, usage: Usage, action: string, now: real): Verdict {
    if action == RESET then CheckReset(settings, usage, now)
    else if !IsBudgeted(action) then UnknownAction
    else if UsedOf(usage, action) < LimitOf(settings, action) then Allowed
    else BudgetExhausted
  }

  function Consume(usage: Usage, action: string, now: real): Usage {
    if action == ANALYZE then usage.(analysisRuns := usage.analysisRuns + 1)
    else if action == INTERACT then usage.(interactions := usage.interactions + 1)
    else if action == EXPORT then usage.(exports := usage.exports + 1)
    else if action == RESET then usage.(resets := usage.resets + 1, lastReset := Some(now))
    else usage
  }

  class JudgeSandboxRecord {
    var analysisRuns: nat
    var interactions: nat
    var exports: nat
    var resets: nat
    var lastReset: Option<real>

    ghost function State(): Usage
      reads this
    {
      Usage(analysisRuns, interactions, exports, resets, lastReset)
    }

    constructor ()
      ensures State() == UNUSED
    {
      analysisRuns, interactions, exports, resets, lastReset := 0, 0, 0, 0, None;
    }
  }

  class JudgeQuotaService {
    const settings: Settings

    constructor (settings: Settings)
      ensures this.settings == settings
    {
      this.settings := settings;
    }

    method CheckAction(record: JudgeSandboxRecord, action: string, now: real) returns (verdict: Verdict)
      ensures verdict == Check(settings, record.State(), action, now)
    {
      if action == RESET {
        if settings.resetCooldown <= 0 || record.lastReset.None? {
          return Allowed;
        }
        var elapsed := now - record.lastReset.value;
        if elapsed >= settings.resetCooldown as real {
          return Allowed;
        }
        return Cooldown((settings.resetCooldown as real - elapsed).Floor + 1);
      }
      if !IsBudgeted(action) {
        return UnknownAction;
      }
      var used := if action == ANALYZE then record.analysisRuns else if action == INTERACT then record.interactions else record.exports;
      return if used < LimitOf(settings, action) then Allowed else BudgetExhausted;
    }

    /** Records one use without deciding again; an unknown action is refused. */
    method ConsumeAction(record: JudgeSandboxRecord, action: string, now: real) returns (known: bool)
      modifies record
      ensures known <==> IsBudgeted(action) || action == RESET
      ensures record.State() == Consume(old(record.State()), action, now)
    {
      known := true;
      if action == ANALYZE {
        record.analysisRuns := record.analysisRuns + 1;
      } else if action == INTERACT {
        record.interactions := record.interactions + 1;
      } else if action == EXPORT {
        record.exports := record.exports + 1;
      } else if action == RESET {
        record.resets := record.resets + 1;
        record.lastReset := Some(now);
      } else {
        known := false;
      }
    }

    /** What every judge endpoint does: check, and consume when allowed. */
    method Spend(record: JudgeSandboxRecord, action: string, now: real) returns (verdict: Verdict)
      modifies record
      ensures verdict == Check(settings, old(record.State()), action, now)
      ensures record.State() == Spent(settings, old(record.State()), Request(action, now))
    {
      verdict := CheckAction(record, action, now);
      if verdict == Allowed {
        var known := ConsumeAction(record, action, now);
      }
    }
  }

  const UNUSED := Usage(0, 0, 0, 0, None)

  /** Which counter is held against which limit; an action of any other name is unknown, but for a reset. */
  lemma AllowedIff(settings: Settings, usage: Usage, action: string, now: real)
    ensures Check(settings, usage, "analyze", now) == Allowed <==> usage.analysisRuns < settings.maxAnalysisRuns
    ensures Check(settings, usage, "interact", now) == Allowed <==> usage.interactions < settings.maxInteractions
    ensures Check(settings, usage, "export", now) == Allowed <==> usage.exports < settings.maxExports
    ensures Check(settings, usage, "reset", now) == Allowed <==>
      settings.resetCooldown <= 0 || usage.lastReset.None? || now - usage.lastReset.value >= settings.resetCooldown as real
    ensures Check(settings, usage, action, now) == UnknownAction <==> action !in ["analyze", "interact", "export", "reset"]
  {
    DifferentNames();
  }

  /** One use is recorded where it is checked, and nowhere else. */
  lemma ConsumesOne(usage: Usage, now: real)
    ensures Consume(usage, "analyze", now) == usage.(analysisRuns := usage.analysisRuns + 1)
    ensures Consume(usage, "interact", now) == usage.(interactions := usage.interactions + 1)
    ensures Consume(usage, "export", now) == usage.(exports := usage.exports + 1)
    ensures Consume(usage, "reset", now) == usage.(resets := usage.resets + 1, lastReset := Some(now))
  {
    DifferentNames();
  }

  lemma DifferentNames()
    ensures ANALYZE == "analyze" && INTERACT == "interact" && EXPORT == "export" && RESET == "reset"
    ensures Distinct([ANALYZE, INTERACT, EXPORT, RESET])
  {
    assert ANALYZE[0] == 'a' && INTERACT[0] == 'i' && EXPORT[0] == 'e' && RESET[0] == 'r';
  }

  // ---- runs of check-then-consume ----

  datatype Request = Request(action: string, now: real)

  function Spent(settings: Settings, usage: Usage, request: Request): Usage {
    if Check(settings, usage, request.action, request.now) == Allowed
    then Consume(usage, request.action, request.now)
    else usage
  }

  function Run(settings: Settings, requests: seq<Request>): Usage {
    if requests == [] then UNUSED
    else Spent(settings, Run(settings, requests[..|requests| - 1]), requests[|requests| - 1])
  }

  function Asked(requests: seq<Request>, action: string): nat {
    if requests == [] then 0
    else Asked(requests[..|requests| - 1], action) + (if requests[|requests| - 1].action == action then 1 else 0)
  }

  function AtLeastZero(n: int): nat {
    if n > 0 then n else 0
  }

  /** A budget is spent by exactly the requests it covers: whatever the mix of actions, resets and clock
      readings, an action has been used as often as it was asked for, up to its limit. */
  lemma {:induction false} UsedIsAskedUpToLimit(settings: Settings, requests: seq<Request>, action: string)
    requires IsBudgeted(action)
    ensures UsedOf(Run(settings, requests), action) == Min(Asked(requests, action), AtLeastZero(LimitOf(settings, action)))
  {
    if requests != [] {
      UsedIsAskedUpToLimit(settings, requests[..|requests| - 1], action);
    }
  }

  /** The moments of the resets that were carried out, in order. */
  function ResetTimes(settings: Settings, requests: seq<Request>): seq<real> {
    if requests == [] then []
    else
      var earlier, last := requests[..|requests| - 1], requests[|requests| - 1];
      ResetTimes(settings, earlier) +
      (if last.action == RESET && Check(settings, Run(settings, earlier), RESET, last.now) == Allowed then [last.now] else [])
  }

  lemma {:induction false} ResetsRecorded(settings: Settings, requests: seq<Request>)
    ensures var times := ResetTimes(settings, requests);
      && Run(settings, requests).resets == |times|
      && Run(settings, requests).lastReset == (if times == [] then None else Some(times[|times| - 1]))
  {
    if requests != [] {
      ResetsRecorded(settings, requests[..|requests| - 1]);
    }
  }

  lemma {:induction false} ResetsApart(settings: Settings, requests: seq<Request>)
    requires settings.resetCooldown > 0
    ensures var times := ResetTimes(settings, requests);
      forall i :: 0 < i < |times| ==> times[i] >= times[i - 1] + settings.resetCooldown as real
  {
    if requests != [] {
      ResetsApart(settings, requests[..|requests| - 1]);
      ResetsRecorded(settings, requests[..|requests| - 1]);
    }
  }

  /** Any k consecutive resets of a session span at least k - 1 cooldowns, on any clock. */
  lemma {:induction false} ResetsSpanCooldowns(settings: Settings, requests: seq<Request>, i: nat, j: nat)
    requires settings.resetCooldown > 0 && i <= j < |ResetTimes(settings, requests)|
    ensures ResetTimes(settings, requests)[j] - ResetTimes(settings, requests)[i] >= ((j - i) * settings.resetCooldown) as real
    decreases j
  {
    if i < j {
      ResetsSpanCooldowns(settings, requests, i, j - 1);
      ResetsApart(settings, requests);
      assert (j - i) * settings.resetCooldown == (j - 1 - i) * settings.resetCooldown + settings.resetCooldown;
    }
  }

  /** The suggested wait is the least whole number of seconds that ends past the cooldown; resetting is
      allowed from that moment on, and was not a second earlier unless the cooldown ends exactly then. */
  lemma RetryAfterClears(settings: Settings, usage: Usage, now: real, later: real)
    requires Check(settings, usage, RESET, now).Cooldown?
    ensures var wait := Check(settings, usage, RESET, now).retryAfter;
      && wait >= 1
      && (later >= now + wait as real ==> Check(settings, usage, RESET, later) == Allowed)
      && (later < now + (wait - 1) as real ==> Check(settings, usage, RESET, later).Cooldown?)
  {
  }

  /** A denial carries a wait if and only if some wait helps. */
  lemma RetryAfterIffWaitingHelps(settings: Settings, usage: Usage, action: string, now: real)
    requires Check(settings, usage, action, now) != Allowed
    ensures Check(settings, usage, action, now).Cooldown? <==>
      exists later :: later >= now && Check(settings, usage, action, later) == Allowed
  {
    if Check(settings, usage, action, now).Cooldown? {
      RetryAfterClears(settings, usage, now, now + Check(settings, usage, action, now).retryAfter as real);
      assert Check(settings, usage, action, now + Check(settings, usage, action, now).retryAfter as real) == Allowed;
    }
  }

  /** A spent budget stays spent for the rest of the session: no later request, reset or wait refills it. */
  lemma {:induction false} SpentStaysSpent(settings: Settings, usage: Usage, action: string, now: real, later: seq<Request>)
    requires Check(settings, usage, action, now).BudgetExhausted?
    ensures forall moment :: Check(settings, RunFrom(settings, usage, later), action, moment).BudgetExhausted?
  {
    if later != [] {
      SpentStaysSpent(settings, usage, action, now, later[..|later| - 1]);
      assert Check(settings, RunFrom(settings, usage, later[..|later| - 1]), action, now).BudgetExhausted?;
    }
  }

  function RunFrom(settings: Settings, usage: Usage, requests: seq<Request>): Usage {
    if requests == [] then usage
    else Spent(settings, RunFrom(settings, usage, requests[..|requests| - 1]), requests[|requests| - 1])
  }
}
