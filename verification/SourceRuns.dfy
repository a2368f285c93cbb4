/** One `analysis_job_sources` row per (job, source) and the conditional UPDATEs
    that move it. The repository below holds the rows of a single job. */
module SourceRuns {
  import opened Options

  type SourceId = nat
  type Token = nat

  datatype RunStatus = Pending | Processing | Completed

  datatype Run = Run(
    status: RunStatus,
    lockedAt: Option<int>,
    lockToken: Option<Token>,
    count: nat)

  const NEW_RUN := Run(RunStatus.Pending, None, None, 0)

  /** The WHERE clause of `claim`: comparing a NULL `locked_at` is not true. */
  predicate Claimable(run: Run, now: int, lease: int) {
    || run.status.Pending?
    || (run.status.Processing? && run.lockedAt.Some? && run.lockedAt.value < now - lease)
  }

  predicate HeldBy(run: Run, token: Token) {
    run.status.Processing? && run.lockToken == Some(token)
  }

  class AnalysisJobSourceRepository {
    var runs: map<SourceId, Run>

    constructor ()
      ensures runs == map[]
    {
      runs := map[];
    }

    /** Insert the row unless it is there. `jobExists` is the foreign key: without
        the job the savepoint rolls back and the second read finds nothing. */
    method Ensure(source: SourceId, jobExists: bool) returns (found: bool)
      modifies this
      ensures found <==> source in old(runs) || jobExists
      ensures runs == if found && source !in old(runs) then old(runs)[source := NEW_RUN] else old(runs)
    {
      if source in runs {
        return true;
      }
      if jobExists {
        runs := runs[source := NEW_RUN];
      }
      found := source in runs;
    }

    method Claim(source: SourceId, now: int, lease: int, newToken: Token) returns (token: Option<Token>)
      modifies this
      ensures token ==
        if source in old(runs) && Claimable(old(runs[source]), now, lease) then Some(newToken) else None
      ensures token.None? ==> runs == old(runs)
      ensures token.Some? ==>
                && source in runs && HeldBy(runs[source], newToken) && runs[source].lockedAt == Some(now)
                && runs == old(runs)[source := runs[source]]
                && runs[source].count == old(runs[source].count)
    {
      token := None;
      if source in runs {
        var run := runs[source];
        var expiredBefore := now - lease;
        if run.status.Pending? ||
           (run.status.Processing? && run.lockedAt.Some? && run.lockedAt.value < expiredBefore)
        {
          runs := runs[source := run.(status := Processing, lockedAt := Some(now), lockToken := Some(newToken))];
          token := Some(newToken);
        }
      }
    }

    method Release(source: SourceId, token: Token)
      modifies this
      ensures source in old(runs) && HeldBy(old(runs[source]), token) ==>
                runs == old(runs)[source := NEW_RUN.(count := old(runs[source].count))]
      ensures !(source in old(runs) && HeldBy(old(runs[source]), token)) ==> runs == old(runs)
    {
      if source in runs && HeldBy(runs[source], token) {
        runs := runs[source := runs[source].(status := RunStatus.Pending, lockedAt := None, lockToken := None)];
      }
    }

    method MarkCompleted(source: SourceId, token: Token, count: nat) returns (won: bool)
      modifies this
      ensures won <==> source in old(runs) && HeldBy(old(runs[source]), token)
      ensures runs == if won then old(runs)[source := Run(Completed, None, None, count)] else old(runs)
    {
      won := source in runs && HeldBy(runs[source], token);
      if won {
        runs := runs[source := runs[source].(status := Completed, count := count, lockedAt := None, lockToken := None)];
      }
    }

    method GetCompletedCount(source: SourceId) returns (count: Option<nat>)
      ensures count.Some? <==> source in runs && runs[source].status.Completed?
      ensures count.Some? ==> count.value == runs[source].count
    {
      if source !in runs || !runs[source].status.Completed? {
        return None;
      }
      return Some(runs[source].count);
    }
  }
}
