/**
 Summary rows and summary jobs as their conditional updates change them: db/pgdb/vdoc/ai_repo.go,
 db/pgdb/vdoc/summary_jobs.go and services/vdoc/ai_postgres_repository.go. Times are microseconds.
 */
module AiSummary {
  import opened Wrappers

  datatype Status = Pending | Succeeded | Failed | Skipped

  datatype Summary = Summary(status: Status, content: string, token: string, startedAt: int, updatedAt: int)

  datatype Job = Job(target: string, attempts: nat, lease: string, availableAt: int)

  /** Summary rows by target, as the owner uniqueness constraint keeps them. */
  type Summaries = map<string, Summary>

  type Jobs = map<string, Job>

  const SECOND: int := 1000000
  const LEASE: int := 180 * SECOND
  const RETRY_DELAY: int := 5 * SECOND
  const ORPHAN_GRACE: int := 300 * SECOND

  /** storePendingAISummaryLocked. */
  function PendingSummary(token: string, now: int): Summary {
    Summary(Pending, "", token, now, now)
  }

  /** storeAISummaryLocked: whatever the outcome, the token goes. */
  function EndedSummary(status: Status, content: string, now: int): Summary {
    Summary(status, content, "", 0, now)
  }

  ghost predicate Current(summaries: Summaries, target: string, token: string) {
    target in summaries && summaries[target].token == token
  }

  ghost function Completed(summaries: Summaries, target: string, token: string, ended: Summary): Summaries {
    if Current(summaries, target, token) then summaries[target := ended] else summaries
  }

  ghost predicate Holds(jobs: Jobs, id: string, lease: string, now: int) {
    id in jobs && jobs[id].lease == lease && jobs[id].availableAt > now
  }

  ghost function Renewed(jobs: Jobs, id: string, lease: string, now: int): Jobs {
    if Holds(jobs, id, lease, now) then jobs[id := jobs[id].(availableAt := now + LEASE)] else jobs
  }

  ghost function Claimed(jobs: Jobs, id: string, lease: string, now: int): Jobs
    requires id in jobs
  {
    jobs[id := jobs[id].(lease := lease, attempts := jobs[id].attempts + 1, availableAt := now + LEASE)]
  }

  ghost function Finished(jobs: Jobs, id: string, lease: string, retry: bool, now: int): Jobs {
    if id !in jobs || jobs[id].lease != lease then jobs
    else if retry then jobs[id := jobs[id].(lease := "", availableAt := now + RETRY_DELAY)]
    else jobs - {id}
  }

  ghost predicate Orphan(jobs: Jobs, row: Summary, now: int) {
    row.status == Pending && row.startedAt <= now - ORPHAN_GRACE && row.token !in jobs
  }

  ghost function Recovered(summaries: Summaries, jobs: Jobs, now: int): Summaries {
    map target | target in summaries ::
      if Orphan(jobs, summaries[target], now) then EndedSummary(Failed, "", now) else summaries[target]
  }

  class SummaryRepository {
    var summaries: Summaries
    var jobs: Jobs

    method ReserveAISummaryGeneration(target: string, token: string, now: int)
      modifies this
      ensures summaries == old(summaries)[target := PendingSummary(token, now)] && jobs == old(jobs)
    {
      summaries := summaries[target := PendingSummary(token, now)];
    }

    method CompleteAISummaryGeneration(target: string, expected: string, ended: Summary) returns (updated: bool)
      modifies this
      ensures updated <==> Current(old(summaries), target, expected)
      ensures summaries == Completed(old(summaries), target, expected, ended) && jobs == old(jobs)
    {
      updated := target in summaries && summaries[target].token == expected;
      if updated {
        summaries := summaries[target := ended];
      }
    }

    /** Saves over the row that was read, known by its update time; None stands for no row. */
    method UpsertAISummaryIfUnchanged(target: string, previous: Option<int>, row: Summary) returns (saved: bool)
      modifies this
      ensures saved <==> previous == if target in old(summaries) then Some(old(summaries)[target].updatedAt) else None
      ensures summaries == (if saved then old(summaries)[target := row] else old(summaries)) && jobs == old(jobs)
    {
      if previous.None? {
        saved := target !in summaries;
      } else {
        saved := target in summaries && summaries[target].updatedAt == previous.value;
      }
      if saved {
        summaries := summaries[target := row];
      }
    }

    /** The job that became available first; ties are broken by the database. */
    method ClaimSummaryJob(lease: string, now: int) returns (claimed: Option<string>)
      modifies this
      ensures claimed.None? ==> jobs == old(jobs) && forall id | id in jobs :: jobs[id].availableAt > now
      ensures claimed.Some? ==>
                && claimed.value in old(jobs) && old(jobs)[claimed.value].availableAt <= now
                && (forall id | id in old(jobs) :: old(jobs)[claimed.value].availableAt <= old(jobs)[id].availableAt)
                && jobs == Claimed(old(jobs), claimed.value, lease, now)
      ensures summaries == old(summaries)
    {
      claimed := None;
      var todo := jobs.Keys;
      while todo != {}
        invariant todo <= jobs.Keys && jobs == old(jobs) && summaries == old(summaries)
        invariant claimed.None? ==> forall id | id in jobs.Keys - todo :: jobs[id].availableAt > now
        invariant claimed.Some? ==>
                    && claimed.value in jobs && jobs[claimed.value].availableAt <= now
                    && forall id | id in jobs.Keys - todo :: jobs[claimed.value].availableAt <= jobs[id].availableAt
        decreases todo
      {
        var id :| id in todo;
        if jobs[id].availableAt <= now
           && (claimed.None? || jobs[id].availableAt < jobs[claimed.value].availableAt) {
          claimed := Some(id);
        }
        todo := todo - {id};
      }
      if claimed.Some? {
        var job := jobs[claimed.value];
        jobs := jobs[claimed.value := job.(lease := lease, attempts := job.attempts + 1, availableAt := now + LEASE)];
      }
    }

    method RenewSummaryJobLease(id: string, lease: string, now: int) returns (owned: bool)
      modifies this
      ensures owned <==> Holds(old(jobs), id, lease, now)
      ensures jobs == Renewed(old(jobs), id, lease, now) && summaries == old(summaries)
    {
      owned := id in jobs && jobs[id].lease == lease && jobs[id].availableAt > now;
      if owned {
        jobs := jobs[id := jobs[id].(availableAt := now + LEASE)];
      }
    }

    method FinishSummaryJob(id: string, lease: string, retry: bool, now: int)
      modifies this
      ensures jobs == Finished(old(jobs), id, lease, retry, now) && summaries == old(summaries)
    {
      if id in jobs && jobs[id].lease == lease {
        if retry {
          jobs := jobs[id := jobs[id].(lease := "", availableAt := now + RETRY_DELAY)];
        } else {
          jobs := jobs - {id};
        }
      }
    }

    method RecoverOrphanAISummaries(now: int)
      modifies this
      ensures summaries == Recovered(old(summaries), jobs, now) && jobs == old(jobs)
    {
      var todo := summaries.Keys;
      while todo != {}
        invariant jobs == old(jobs) && summaries.Keys == old(summaries).Keys && todo <= summaries.Keys
        invariant forall t | t in todo :: summaries[t] == old(summaries)[t]
        invariant forall t | t in summaries.Keys - todo :: summaries[t] == Recovered(old(summaries), jobs, now)[t]
        decreases todo
      {
        var target :| target in todo;
        var row := summaries[target];
        if row.status == Pending && row.startedAt <= now - ORPHAN_GRACE && row.token !in jobs {
          summaries := summaries[target := EndedSummary(Failed, "", now)];
        }
        todo := todo - {target};
      }
    }

    /** The transaction that ends a generation: the guard's lease is locked and renewed first. */
    method CompleteTransaction(target: string, token: string, ended: Summary, guard: Option<Lease>, holds: bool,
                               now: int)
      returns (refused: Option<Refusal>)
      modifies this
      ensures refused.None? <==>
              && (guard.Some? ==> holds && (guard.value.token != "" ==>
                                            Holds(old(jobs), guard.value.job, guard.value.token, now)))
              && Current(old(summaries), target, token)
      ensures refused == Some(LeaseLost) <==>
                guard.Some? && guard.value.token != "" && !Holds(old(jobs), guard.value.job, guard.value.token, now)
      ensures summaries == if refused.None? then Completed(old(summaries), target, token, ended) else old(summaries)
      ensures jobs == if refused.None? && guard.Some? && guard.value.token != ""
                      then Renewed(old(jobs), guard.value.job, guard.value.token, now) else old(jobs)
    {
      var rows, queue := summaries, jobs;
      if guard.Some? {
        if guard.value.token != "" {
          var owned := RenewSummaryJobLease(guard.value.job, guard.value.token, now);
          if !owned {
            summaries, jobs := rows, queue;
            return Some(LeaseLost);
          }
        }
        if !holds {
          summaries, jobs := rows, queue;
          return Some(Stale);
        }
      }
      var updated := CompleteAISummaryGeneration(target, token, ended);
      if !updated {
        summaries, jobs := rows, queue;
        return Some(Stale);
      }
      return None;
    }
  }

  datatype Lease = Lease(job: string, token: string)

  datatype Refusal = LeaseLost | Stale
}
