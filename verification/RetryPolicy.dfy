/** The retry wrapper of the worker task: two attempt counters carried from run to
    run, and what a chain of runs can end in. */
module RetryPolicy {
  import opened Options
  import opened SourceRuns
  import opened AnalysisTransactions

  const BUSY_RETRY_COUNTDOWN := 30 * SECOND
  const BUSY_RETRY_LIMIT := 20
  const LLM_RETRY_LIMIT := 3
  const LLM_RETRY_BACKOFF := 30 * SECOND
  const TASK_MAX_RETRIES := BUSY_RETRY_LIMIT + LLM_RETRY_LIMIT

  datatype Verdict = Return(result: Result) | Again(countdown: int, busy: nat, llm: nat)

  function Power2(n: nat): nat {
    if n == 0 then 1 else 2 * Power2(n - 1)
  }

  /** `task.retry`: the queue refuses once `retries` would pass `maxRetries`. */
  function RetryLater(
    countdown: int, busy: nat, llm: nat, fallback: Result, retries: nat, maxRetries: nat): Verdict
  {
    if retries + 1 > maxRetries then Return(fallback) else Again(countdown, busy, llm)
  }

  function AfterRun(result: Result, busy: nat, llm: nat, retries: nat, maxRetries: nat): Verdict {
    match result
    case Busy =>
      if busy >= BUSY_RETRY_LIMIT then Return(Result.Failed(SourceBusy))
      else RetryLater(BUSY_RETRY_COUNTDOWN, busy + 1, llm, Result.Failed(SourceBusy), retries, maxRetries)
    case Retryable(code) =>
      if llm >= LLM_RETRY_LIMIT then Return(Result.Failed(code))
      else RetryLater(LLM_RETRY_BACKOFF * Power2(llm), busy, llm + 1, Result.Failed(code), retries, maxRetries)
    case _ => Return(result)
  }

  predicate Conclusive(result: Result) {
    result.Ok? || result.Failed? || result.Cancelled?
  }

  lemma ReturnIsConclusive(result: Result, busy: nat, llm: nat, retries: nat, maxRetries: nat)
    ensures var v := AfterRun(result, busy, llm, retries, maxRetries);
      v.Return? ==> Conclusive(v.result) && (!v.result.Failed? ==> v.result == result)
  {
  }

  /** What one run leads to: `busy` is tried again after thirty seconds, up to twenty times,
      and then fails as such; an error of the model after thirty, sixty and then a hundred and
      twenty seconds, and then fails with its own code; and both only while the queue allows
      another retry. Each counts its own attempts, and anything else is handed on. */
  lemma AfterRunIsExact(result: Result, busy: nat, llm: nat, retries: nat, maxRetries: nat)
    ensures var v := AfterRun(result, busy, llm, retries, maxRetries);
      && (result.Busy? && busy < 20 && retries < maxRetries ==> v == Again(30_000_000, busy + 1, llm))
      && (result.Busy? && !(busy < 20 && retries < maxRetries) ==> v == Return(Result.Failed(SourceBusy)))
      && (result.Retryable? && llm < 3 && retries < maxRetries ==>
            v == Again(if llm == 0 then 30_000_000 else if llm == 1 then 60_000_000 else 120_000_000, busy, llm + 1))
      && (result.Retryable? && !(llm < 3 && retries < maxRetries) ==> v == Return(Result.Failed(result.code)))
      && (!result.Busy? && !result.Retryable? ==> v == Return(result))
  {
    assert Power2(0) == 1 && Power2(1) == 2 && Power2(2) == 4;
  }

  /** A chain of runs answering `answers` in turn: how many of them it makes, and the
      value it ends with unless the answers run out first. The two counters travel in the
      arguments of the task; `retries` is the queue's own count, one more at each retry. */
  function Chain(answers: seq<Result>, busy: nat, llm: nat, retries: nat, maxRetries: nat): (nat, Option<Result>) {
    if answers == [] then (0, None)
    else
      match AfterRun(answers[0], busy, llm, retries, maxRetries)
      case Return(r) => (1, Some(r))
      case Again(_, b, l) =>
        var (made, end) := Chain(answers[1..], b, l, retries + 1, maxRetries);
        (made + 1, end)
  }

  /** Every retry is counted by exactly one of the two counters. */
  lemma RetryIsCountedOnce(result: Result, busy: nat, llm: nat, retries: nat, maxRetries: nat)
    ensures var v := AfterRun(result, busy, llm, retries, maxRetries);
      v.Again? ==>
        && v.busy + v.llm == busy + llm + 1 && v.busy >= busy && v.llm >= llm
        && (busy <= BUSY_RETRY_LIMIT ==> v.busy <= BUSY_RETRY_LIMIT)
        && (llm <= LLM_RETRY_LIMIT ==> v.llm <= LLM_RETRY_LIMIT)
  {
  }

  /** The measure: what is left of both budgets, plus the run in progress. */
  function RunsLeft(busy: nat, llm: nat): int {
    (BUSY_RETRY_LIMIT - busy) + (LLM_RETRY_LIMIT - llm) + 1
  }

  lemma {:induction false} ChainEnds(answers: seq<Result>, busy: nat, llm: nat, retries: nat)
    requires busy <= BUSY_RETRY_LIMIT && llm <= LLM_RETRY_LIMIT
    ensures var (made, end) := Chain(answers, busy, llm, retries, TASK_MAX_RETRIES);
      && made <= RunsLeft(busy, llm)
      && (|answers| >= RunsLeft(busy, llm) ==> end.Some?)
      && (end.Some? ==> Conclusive(end.value))
  {
    if answers != [] {
      match AfterRun(answers[0], busy, llm, retries, TASK_MAX_RETRIES)
      case Return(_) =>
      case Again(_, b, l) => ChainEnds(answers[1..], b, l, retries + 1);
    }
  }

  function Busies(answers: seq<Result>): nat {
    if answers == [] then 0 else (if answers[0].Busy? then 1 else 0) + Busies(answers[1..])
  }

  function ModelErrors(answers: seq<Result>): nat {
    if answers == [] then 0 else (if answers[0].Retryable? then 1 else 0) + ModelErrors(answers[1..])
  }

  /** The answer at k ends a chain that starts with these counters: it is conclusive, or uses
      up the attempts of its kind. */
  predicate EndsAt(answers: seq<Result>, busy: nat, llm: nat, k: nat)
    requires k < |answers|
  {
    match answers[k]
    case Busy => busy + Busies(answers[..k]) >= 20
    case Retryable(_) => llm + ModelErrors(answers[..k]) >= 3
    case _ => true
  }

  lemma EndsLater(answers: seq<Result>, busy: nat, llm: nat, k: nat)
    requires 0 < k < |answers|
    ensures EndsAt(answers, busy, llm, k) <==>
      EndsAt(answers[1..], busy + (if answers[0].Busy? then 1 else 0),
             llm + (if answers[0].Retryable? then 1 else 0), k - 1)
  {
    assert answers[..k][1..] == answers[1..][..k - 1];
    assert answers[1..][k - 1] == answers[k];
  }

  /** Where a chain ends and in what: at the first answer that is conclusive or one too many
      of its kind, in that answer or in the failure that stands for it. */
  lemma {:induction false} ChainEndsExactly(answers: seq<Result>, busy: nat, llm: nat, k: nat)
    requires busy <= BUSY_RETRY_LIMIT && llm <= LLM_RETRY_LIMIT && k <= |answers|
    requires forall i :: 0 <= i < k ==> !EndsAt(answers, busy, llm, i)
    requires k < |answers| ==> EndsAt(answers, busy, llm, k)
    ensures Chain(answers, busy, llm, busy + llm, TASK_MAX_RETRIES) ==
      if k == |answers| then (k, None)
      else
        (k + 1, Some(match answers[k]
                     case Busy => Result.Failed(SourceBusy)
                     case Retryable(code) => Result.Failed(code)
                     case _ => answers[k]))
  {
    if answers != [] {
      AfterRunIsExact(answers[0], busy, llm, busy + llm, TASK_MAX_RETRIES);
      if k > 0 {
        assert !EndsAt(answers, busy, llm, 0);
        var b := busy + if answers[0].Busy? then 1 else 0;
        var l := llm + if answers[0].Retryable? then 1 else 0;
        forall i | 0 < i <= k && i < |answers|
          ensures EndsAt(answers, busy, llm, i) <==> EndsAt(answers[1..], b, l, i - 1)
        {
          EndsLater(answers, busy, llm, i);
        }
        forall i | 0 <= i < k - 1 ensures !EndsAt(answers[1..], b, l, i) {
          assert !EndsAt(answers, busy, llm, i + 1);
        }
        ChainEndsExactly(answers[1..], b, l, k - 1);
      }
    }
  }

  /** The queue counts every retry: it never lets a chain make more of them than its limit. */
  lemma {:induction false} QueueBoundsChains(answers: seq<Result>, busy: nat, llm: nat, retries: nat, maxRetries: nat)
    requires retries <= maxRetries
    ensures Chain(answers, busy, llm, retries, maxRetries).0 <= maxRetries - retries + 1
  {
    if answers != [] {
      AfterRunIsExact(answers[0], busy, llm, retries, maxRetries);
      match AfterRun(answers[0], busy, llm, retries, maxRetries)
      case Return(_) =>
      case Again(_, b, l) => QueueBoundsChains(answers[1..], b, l, retries + 1, maxRetries);
    }
  }

  /** Every chain, whatever its runs answer, is over within 24 runs and hands a
      conclusive value to finalisation. */
  lemma ChainsAreBounded(answers: seq<Result>)
    requires |answers| >= 24
    ensures var (made, end) := Chain(answers, 0, 0, 0, TASK_MAX_RETRIES);
      made <= 24 && end.Some? && Conclusive(end.value)
  {
    ChainEnds(answers, 0, 0, 0);
  }

  /** The queue's own limit never decides anything: while its count is the sum of the two
      counters, as it is from the first run on, any larger limit gives the same chain. */
  lemma {:induction false} MaxRetriesNeverBinds(answers: seq<Result>, busy: nat, llm: nat, retries: nat, other: nat)
    requires busy <= BUSY_RETRY_LIMIT && llm <= LLM_RETRY_LIMIT
    requires retries == busy + llm && other >= TASK_MAX_RETRIES
    ensures Chain(answers, busy, llm, retries, TASK_MAX_RETRIES) == Chain(answers, busy, llm, retries, other)
  {
    if answers != [] {
      RetryIsCountedOnce(answers[0], busy, llm, retries, TASK_MAX_RETRIES);
      match AfterRun(answers[0], busy, llm, retries, TASK_MAX_RETRIES)
      case Return(_) =>
      case Again(_, b, l) => MaxRetriesNeverBinds(answers[1..], b, l, retries + 1, other);
    }
  }

  function Longest(busy: nat, llm: nat): seq<Result>
    requires busy <= BUSY_RETRY_LIMIT && llm <= LLM_RETRY_LIMIT
    decreases RunsLeft(busy, llm)
  {
    if busy < BUSY_RETRY_LIMIT then [Busy] + Longest(busy + 1, llm)
    else if llm < LLM_RETRY_LIMIT then [Retryable(LlmUnavailable)] + Longest(busy, llm + 1)
    else [Busy]
  }

  lemma {:induction false} BoundIsReached(busy: nat, llm: nat)
    requires busy <= BUSY_RETRY_LIMIT && llm <= LLM_RETRY_LIMIT
    ensures Chain(Longest(busy, llm), busy, llm, busy + llm, TASK_MAX_RETRIES).0 == RunsLeft(busy, llm)
    decreases RunsLeft(busy, llm)
  {
    var all := Longest(busy, llm);
    if busy < BUSY_RETRY_LIMIT {
      assert all[1..] == Longest(busy + 1, llm);
      BoundIsReached(busy + 1, llm);
    } else if llm < LLM_RETRY_LIMIT {
      assert all[1..] == Longest(busy, llm + 1);
      BoundIsReached(busy, llm + 1);
    }
  }

  datatype Wait = ClaimedAfter(busyAnswers: nat) | GaveUp(result: Result) | StillWaiting

  /** A waiter whose successive runs read the clock at `readings`, facing a row that
      nobody else touches. */
  function WaitFor(run: Run, readings: seq<int>, busy: nat, llm: nat): Wait {
    if readings == [] then StillWaiting
    else if Claimable(run, readings[0], SOURCE_LEASE) then ClaimedAfter(busy)
    else
      match AfterRun(Busy, busy, llm, busy + llm, TASK_MAX_RETRIES)
      case Return(r) => GaveUp(r)
      case Again(_, b, l) => WaitFor(run, readings[1..], b, l)
  }

  /** The n runs after the first come at least `gap` apart. */
  ghost predicate Spaced(readings: seq<int>, gap: int, n: nat) {
    n < |readings| && forall i :: 0 < i <= n ==> readings[i] >= readings[i - 1] + gap
  }

  lemma {:induction false} SpacedFromFirst(readings: seq<int>, gap: int, n: nat)
    requires Spaced(readings, gap, n)
    ensures readings[n] >= readings[0] + gap * n
  {
    if n > 0 {
      SpacedFromFirst(readings, gap, n - 1);
    }
  }

  /** The waiter gives up exactly when its last allowed run still finds the lease alive. */
  lemma {:induction false} GivesUpExactly(run: Run, readings: seq<int>, busy: nat, llm: nat)
    requires run.status.Processing? && run.lockedAt.Some?
    requires busy <= BUSY_RETRY_LIMIT && llm <= LLM_RETRY_LIMIT && Spaced(readings, 0, BUSY_RETRY_LIMIT - busy)
    ensures var last := readings[BUSY_RETRY_LIMIT - busy];
            var w := WaitFor(run, readings, busy, llm);
      if run.lockedAt.value >= last - SOURCE_LEASE then w == GaveUp(Result.Failed(SourceBusy))
      else
        && w.ClaimedAfter? && busy <= w.busyAnswers <= BUSY_RETRY_LIMIT
        && run.lockedAt.value < readings[w.busyAnswers - busy] - SOURCE_LEASE
        && forall i :: 0 <= i < w.busyAnswers - busy ==> run.lockedAt.value >= readings[i] - SOURCE_LEASE
    decreases |readings|
  {
    var left := BUSY_RETRY_LIMIT - busy;
    SpacedFromFirst(readings, 0, left);
    if !Claimable(run, readings[0], SOURCE_LEASE) && left > 0 {
      var rest := readings[1..];
      assert rest[left - 1] == readings[left];
      assert Spaced(rest, 0, left - 1) by {
        forall i | 0 < i <= left - 1 ensures rest[i] >= rest[i - 1] {
          assert rest[i] == readings[i + 1] && rest[i - 1] == readings[i];
        }
      }
      GivesUpExactly(run, rest, busy + 1, llm);
      assert forall i :: 0 <= i < |rest| ==> rest[i] == readings[i + 1];
    }
  }

  /** No run starts before the countdown its predecessor was given is over. */
  predicate Punctual(readings: seq<int>, busy: nat, llm: nat)
    decreases readings
  {
    |readings| > 1 ==>
      match AfterRun(Busy, busy, llm, busy + llm, TASK_MAX_RETRIES)
      case Return(_) => true
      case Again(countdown, b, l) => readings[1] >= readings[0] + countdown && Punctual(readings[1..], b, l)
  }

  lemma {:induction false} PunctualIsSpaced(readings: seq<int>, busy: nat, llm: nat)
    requires busy <= BUSY_RETRY_LIMIT && llm <= LLM_RETRY_LIMIT
    requires Punctual(readings, busy, llm) && |readings| > BUSY_RETRY_LIMIT - busy
    ensures Spaced(readings, BUSY_RETRY_COUNTDOWN, BUSY_RETRY_LIMIT - busy)
    decreases |readings|
  {
    if busy < BUSY_RETRY_LIMIT {
      var rest := readings[1..];
      PunctualIsSpaced(rest, busy + 1, llm);
      forall i | 0 < i <= BUSY_RETRY_LIMIT - busy ensures readings[i] >= readings[i - 1] + BUSY_RETRY_COUNTDOWN {
        assert i > 1 ==> rest[i - 1] >= rest[i - 2] + BUSY_RETRY_COUNTDOWN;
      }
    }
  }

  /** A waiter outlasts a holder that died: locked strictly before the first busy
      answer, the source is claimed by the 21st run. */
  lemma WaiterOutlastsDeadHolder(run: Run, readings: seq<int>)
    requires run.status.Processing? && run.lockedAt.Some?
    requires Punctual(readings, 0, 0) && |readings| > BUSY_RETRY_LIMIT
    requires run.lockedAt.value < readings[0]
    ensures var w := WaitFor(run, readings, 0, 0);
      w.ClaimedAfter? && w.busyAnswers <= BUSY_RETRY_LIMIT
  {
    PunctualIsSpaced(readings, 0, 0);
    SpacedFromFirst(readings, BUSY_RETRY_COUNTDOWN, BUSY_RETRY_LIMIT);
    GivesUpExactly(run, readings, 0, 0);
  }

  /** "Strictly before" cannot be relaxed: when every retry starts exactly on its
      countdown the waiter fails if and only if the lock is not older than its first run. */
  lemma StrictlyBeforeIsNeeded(run: Run, readings: seq<int>)
    requires run.status.Processing? && run.lockedAt.Some?
    requires |readings| > BUSY_RETRY_LIMIT
    requires forall i :: 0 <= i < |readings| ==> readings[i] == readings[0] + BUSY_RETRY_COUNTDOWN * i
    ensures WaitFor(run, readings, 0, 0) == GaveUp(Result.Failed(SourceBusy))
      <==> run.lockedAt.value >= readings[0]
  {
    assert readings[BUSY_RETRY_LIMIT] == readings[0] + SOURCE_LEASE;
    GivesUpExactly(run, readings, 0, 0);
  }
}
