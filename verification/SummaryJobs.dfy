/**
 What closing a summary job means for the claims that come after it: services/vdoc/summary_worker.go
 and db/pgdb/vdoc/summary_jobs.go. A run closes the job it claimed last either for good or for another
 try, and the two are told apart here by what can be claimed later in any behaviour.
 */

module SummaryJobs {
  import opened Wrappers
  import opened AiSummary
  import opened AiSummaryRuns

  /** A behaviour together with the action of each of its steps. */
  ghost predicate Acted(trace: seq<System>, acts: seq<Action>) {
    && |trace| == |acts| + 1 && Init(trace[0])
    && forall i | 0 <= i < |acts| :: Step(trace[i], trace[i + 1], acts[i])
  }

  lemma ActedBehaves(trace: seq<System>, acts: seq<Action>)
    requires Acted(trace, acts)
    ensures Behaviour(trace)
  {
    hide Step;
    forall i | 0 <= i < |trace| - 1 ensures Next(trace[i], trace[i + 1]) {
      assert Step(trace[i], trace[i + 1], acts[i]);
    }
  }

  lemma ActedAt(trace: seq<System>, acts: seq<Action>, i: nat)
    requires Acted(trace, acts) && i < |acts|
    ensures |trace| == |acts| + 1 && Inv(trace[i]) && Step(trace[i], trace[i + 1], acts[i])
  {
    hide Inv;
    ActedBehaves(trace, acts);
    BehaviourOk(trace, i);
  }

  /** The run that claimed a job last still has it, until it has closed it. */
  ghost predicate LastHolds(s: System, key: string)
    requires key in s.runs
  {
    var r := s.runs[key];
    r.lease.Some? && !r.phase.Ended? && LastClaim(s.claims, r.token) == Some(key) ==>
      r.token in s.jobs && s.jobs[r.token].lease == key
  }

  ghost predicate AllHold(s: System) {
    forall key | key in s.runs :: LastHolds(s, key)
  }

  lemma ClaimHolds(s: System, t: System, id: string, lease: string, key: string)
    requires Inv(s) && AllHold(s) && Claim(s, t, id, lease) && key in t.runs
    ensures LastHolds(t, key)
  {
    FreshIsUnused(s, lease);
    hide Inv;
    if key != lease {
      assert LastHolds(s, key);
      ClaimAppended(s.claims, Lease(id, lease), s.runs[key].token);
    }
  }

  /** Leases of jobs are given by claims, and taken by their holders. */
  lemma LeasesKept(s: System, t: System, a: Action, job: string)
    requires Inv(s) && Step(s, t, a) && !a.DoClaim? && job in s.jobs
    ensures t.claims == s.claims
    ensures (job in t.jobs && t.jobs[job].lease == s.jobs[job].lease)
            || (a.DoClose? && a.key in s.runs && s.runs[a.key].token == job && s.jobs[job].lease == a.key)
  {
    hide LastClaim;
    if a.DoStage? {
      FreshIsUnused(s, a.id);
    } else if a.DoClose? {
      assert RunOk(s, a.key);
    }
    hide Inv;
  }

  lemma RunsStay(s: System, t: System, a: Action, key: string)
    requires Step(s, t, a) && key in t.runs && t.runs[key].lease.Some? && !a.DoClaim?
    ensures key in s.runs && t.runs[key] == s.runs[key].(phase := t.runs[key].phase)
    ensures t.claims == s.claims
    ensures a.DoClose? && a.key == key ==> t.runs[key].phase.Ended?
    ensures s.runs[key].phase.Ended? ==> t.runs[key].phase.Ended?
  {
  }

  lemma StepHolds(s: System, t: System, a: Action, key: string)
    requires Inv(s) && AllHold(s) && Step(s, t, a) && key in t.runs
    ensures LastHolds(t, key)
  {
    hide LastClaim;
    if a.DoClaim? {
      ClaimHolds(s, t, a.id, a.lease, key);
    } else if t.runs[key].lease.Some? {
      RunsStay(s, t, a, key);
      assert LastHolds(s, key);
      if s.runs[key].token in s.jobs {
        LeasesKept(s, t, a, s.runs[key].token);
      }
      hide Inv;
      hide Step;
    }
  }

  lemma {:induction false} AlwaysHolds(trace: seq<System>, acts: seq<Action>, i: nat)
    requires Acted(trace, acts) && i < |trace|
    ensures AllHold(trace[i])
    decreases i
  {
    if i > 0 {
      ActedAt(trace, acts, i - 1);
      AlwaysHolds(trace, acts, i - 1);
      hide Acted;
      hide Step;
      hide Inv;
      forall key | key in trace[i].runs ensures LastHolds(trace[i], key) {
        StepHolds(trace[i - 1], trace[i], acts[i - 1], key);
      }
    }
  }

  /** In step i the run that claimed a job last closes it. */
  ghost predicate Closes(trace: seq<System>, acts: seq<Action>, i: nat, key: string, retry: bool) {
    && Acted(trace, acts) && i < |acts| && acts[i] == DoClose(key)
    && key in trace[i].runs && trace[i].runs[key].lease.Some? && trace[i].runs[key].phase == Closing(retry)
    && LastClaim(trace[i].claims, trace[i].runs[key].token) == Some(key)
  }

  ghost predicate Claims(acts: seq<Action>, i: nat, job: string)
    requires i < |acts|
  {
    acts[i].DoClaim? && acts[i].id == job
  }

  // A job closed for good

  /** Gone, and its id is not given out again. */
  ghost predicate Gone(s: System, job: string) {
    job in s.ids && job !in s.jobs
  }

  lemma GoneStays(s: System, t: System, a: Action, job: string)
    requires Step(s, t, a) && Gone(s, job)
    ensures Gone(t, job) && !(a.DoClaim? && a.id == job)
  {
  }

  lemma CloseRemoves(trace: seq<System>, acts: seq<Action>, i: nat, key: string)
    requires Closes(trace, acts, i, key, false)
    ensures Gone(trace[i + 1], trace[i].runs[key].token)
  {
    ActedBehaves(trace, acts);
    BehaviourOk(trace, i);
    AlwaysHolds(trace, acts, i);
    assert LastHolds(trace[i], key);
    assert RunOk(trace[i], key);
    assert Step(trace[i], trace[i + 1], acts[i]);
  }

  lemma {:induction false} GoneForGood(trace: seq<System>, acts: seq<Action>, i: nat, k: nat, job: string)
    requires Acted(trace, acts) && i <= k < |acts| && Gone(trace[i], job)
    ensures Gone(trace[k], job) && !Claims(acts, k, job)
    decreases k
  {
    hide Step;
    if i < k {
      GoneForGood(trace, acts, i, k - 1, job);
      GoneStays(trace[k - 1], trace[k], acts[k - 1], job);
    }
    GoneStays(trace[k], trace[k + 1], acts[k], job);
  }

  /** Once the last claimant of a job has closed it without retry, no step ever claims it again. */
  lemma ClosedForGood(trace: seq<System>, acts: seq<Action>, i: nat, k: nat, key: string)
    requires Closes(trace, acts, i, key, false) && i < k < |acts|
    ensures !(acts[k].DoClaim? && acts[k].id == trace[i].runs[key].token)
  {
    CloseRemoves(trace, acts, i, key);
    GoneForGood(trace, acts, i + 1, k, trace[i].runs[key].token);
  }

  // A job closed for another try

  /** Queued without a holder. */
  ghost predicate Queued(s: System, job: string, at: int) {
    job in s.jobs && s.jobs[job].lease == "" && s.jobs[job].availableAt == at
  }

  lemma QueuedStays(s: System, t: System, a: Action, job: string, at: int)
    requires Inv(s) && Step(s, t, a) && Queued(s, job, at) && !(a.DoClaim? && a.id == job)
    ensures Queued(t, job, at)
  {
    hide RowOk;
    hide LastClaim;
    if a.DoStage? {
      FreshIsUnused(s, a.id);
    } else if a.DoRenew? || a.DoSaveSkipped? || a.DoFinish? || a.DoClose? {
      assert RunOk(s, a.key);
    }
    hide Inv;
  }

  lemma CloseQueues(trace: seq<System>, acts: seq<Action>, i: nat, key: string)
    requires Closes(trace, acts, i, key, true)
    ensures Queued(trace[i + 1], trace[i].runs[key].token, trace[i].now + RETRY_DELAY)
  {
    ActedBehaves(trace, acts);
    BehaviourOk(trace, i);
    AlwaysHolds(trace, acts, i);
    assert LastHolds(trace[i], key);
    assert RunOk(trace[i], key);
    assert Step(trace[i], trace[i + 1], acts[i]);
  }

  lemma {:induction false} QueuedUntilClaimed(trace: seq<System>, acts: seq<Action>, i: nat, k: nat, job: string,
                                              at: int)
    requires Acted(trace, acts) && i <= k < |trace| && Queued(trace[i], job, at)
    requires forall m | i <= m < k :: !Claims(acts, m, job)
    ensures Queued(trace[k], job, at)
    decreases k
  {
    if i < k {
      QueuedUntilClaimed(trace, acts, i, k - 1, job, at);
      ActedBehaves(trace, acts);
      BehaviourOk(trace, k - 1);
      assert Step(trace[k - 1], trace[k], acts[k - 1]) && !Claims(acts, k - 1, job);
      hide Step;
      hide Inv;
      QueuedStays(trace[k - 1], trace[k], acts[k - 1], job, at);
    }
  }

  /** Once the last claimant of a job has closed it for another try, the job stays until it is claimed,
      and it can be claimed, under any fresh lease, exactly when the delay has passed. */
  lemma ClosedForRetry(trace: seq<System>, acts: seq<Action>, i: nat, k: nat, key: string, lease: string)
    requires Closes(trace, acts, i, key, true) && i < k < |trace| && Fresh(trace[k], lease)
    requires forall m | i < m < k :: !(acts[m].DoClaim? && acts[m].id == trace[i].runs[key].token)
    ensures trace[i].runs[key].token in trace[k].jobs
    ensures (exists t :: Step(trace[k], t, DoClaim(trace[i].runs[key].token, lease))) <==>
            trace[k].now >= trace[i].now + RETRY_DELAY
  {
    var job, s := trace[i].runs[key].token, trace[k];
    CloseQueues(trace, acts, i, key);
    QueuedUntilClaimed(trace, acts, i + 1, k, job, trace[i].now + RETRY_DELAY);
    if s.now >= trace[i].now + RETRY_DELAY {
      var t := s.(jobs := Claimed(s.jobs, job, lease, s.now), ids := s.ids + {lease},
                  runs := s.runs[lease := Run(s.jobs[job].target, job, Some(Lease(job, lease)), Started)],
                  claims := s.claims + [Lease(job, lease)]);
      assert Step(s, t, DoClaim(job, lease));
    }
  }

  // A job that is being worked on

  /** Held by this claimant, at least until then. */
  ghost predicate Held(s: System, job: string, lease: string, until: int) {
    job in s.jobs && s.jobs[job].lease == lease && s.jobs[job].availableAt >= until
  }

  lemma HeldStays(s: System, t: System, a: Action, job: string, lease: string, until: int)
    requires Inv(s) && Step(s, t, a) && Held(s, job, lease, until) && s.now < until <= s.now + LEASE
    requires a != DoClose(lease)
    ensures Held(t, job, lease, until) && !(a.DoClaim? && a.id == job)
  {
    hide RowOk;
    hide LastClaim;
    if a.DoStage? {
      FreshIsUnused(s, a.id);
    } else if a.DoRenew? || a.DoSaveSkipped? || a.DoFinish? || a.DoClose? {
      assert RunOk(s, a.key);
    }
    hide Inv;
  }

  lemma {:induction false} HeldUntil(trace: seq<System>, acts: seq<Action>, i: nat, k: nat, job: string, lease: string,
                                     until: int)
    requires Acted(trace, acts) && i <= k < |trace| && Held(trace[i], job, lease, until)
    requires trace[k].now < until <= trace[i].now + LEASE
    requires forall m | i <= m < k :: acts[m] != DoClose(lease)
    ensures Held(trace[k], job, lease, until) && trace[i].now <= trace[k].now
    decreases k
  {
    if i < k {
      assert |trace| == |acts| + 1;
      hide Acted;
      hide Step;
      hide Inv;
      hide Held;
      ActedAt(trace, acts, k - 1);
      NoReturn(trace[k - 1], trace[k], acts[k - 1]);
      HeldUntil(trace, acts, i, k - 1, job, lease, until);
      HeldStays(trace[k - 1], trace[k], acts[k - 1], job, lease, until);
    }
  }

  lemma NoReturn(s: System, t: System, a: Action)
    requires Step(s, t, a)
    ensures s.now <= t.now
  {
  }

  /** A claim, and every renewal by its holder, keeps all other claims away for the time of a lease,
      unless the holder closes the job before. */
  lemma LeaseExcludes(trace: seq<System>, acts: seq<Action>, i: nat, k: nat, job: string, lease: string)
    requires Acted(trace, acts) && i < k < |acts| && trace[k].now < trace[i].now + LEASE
    requires || acts[i] == DoClaim(job, lease)
             || (acts[i].DoRenew? && acts[i].key in trace[i].runs
                 && trace[i].runs[acts[i].key].lease == Some(Lease(job, lease))
                 && Holds(trace[i].jobs, job, lease, trace[i].now))
    requires forall m | i < m <= k :: acts[m] != DoClose(lease)
    ensures !(acts[k].DoClaim? && acts[k].id == job)
  {
    ActedAt(trace, acts, i);
    assert Held(trace[i + 1], job, lease, trace[i].now + LEASE);
    NoReturn(trace[i], trace[i + 1], acts[i]);
    HeldUntil(trace, acts, i + 1, k, job, lease, trace[i].now + LEASE);
    ActedAt(trace, acts, k);
    hide Step;
    hide Inv;
    HeldStays(trace[k], trace[k + 1], acts[k], job, lease, trace[i].now + LEASE);
  }

  /** Held by this claimant, and free again from exactly then on. */
  ghost predicate Leased(s: System, job: string, lease: string, until: int) {
    Held(s, job, lease, until) && s.jobs[job].availableAt == until
  }

  lemma LeasedStays(s: System, t: System, a: Action, job: string, lease: string, until: int)
    requires Inv(s) && Step(s, t, a) && Leased(s, job, lease, until)
    requires !ActsFor(a, lease) && !(a.DoClaim? && a.id == job)
    ensures Leased(t, job, lease, until)
  {
    hide RowOk;
    hide LastClaim;
    if a.DoStage? {
      FreshIsUnused(s, a.id);
    } else if a.DoRenew? || a.DoSaveSkipped? || a.DoFinish? || a.DoClose? {
      assert RunOk(s, a.key);
    }
    hide Inv;
  }

  /** From step i up to step k neither the claimant acts nor the job is claimed. */
  ghost predicate Abandoned(acts: seq<Action>, i: nat, k: nat, job: string, lease: string)
    requires k <= |acts|
  {
    forall m | i <= m < k :: !ActsFor(acts[m], lease) && !(acts[m].DoClaim? && acts[m].id == job)
  }

  lemma {:induction false} LeasedUntil(trace: seq<System>, acts: seq<Action>, i: nat, k: nat, job: string,
                                       lease: string, until: int)
    requires Acted(trace, acts) && i <= k <= |acts| && Leased(trace[i], job, lease, until)
    requires Abandoned(acts, i, k, job, lease)
    ensures Leased(trace[k], job, lease, until)
    decreases k
  {
    hide ActsFor;
    hide Leased;
    hide Inv;
    hide Step;
    if i < k {
      ActedAt(trace, acts, k - 1);
      hide Acted;
      assert Abandoned(acts, i, k - 1, job, lease);
      assert !ActsFor(acts[k - 1], lease) && !(acts[k - 1].DoClaim? && acts[k - 1].id == job);
      hide Abandoned;
      LeasedUntil(trace, acts, i, k - 1, job, lease, until);
      LeasedStays(trace[k - 1], trace[k], acts[k - 1], job, lease, until);
    }
  }

  /** A claimant that is never heard of again loses the job: it can be claimed anew exactly when the lease
      has run out. */
  lemma CrashedJobReturns(trace: seq<System>, acts: seq<Action>, i: nat, k: nat, job: string, lease: string,
                          next: string)
    requires Acted(trace, acts) && i < k <= |acts| && acts[i] == DoClaim(job, lease)
    requires Abandoned(acts, i + 1, k, job, lease) && Fresh(trace[k], next)
    ensures (exists t :: Step(trace[k], t, DoClaim(job, next))) <==> trace[k].now >= trace[i].now + LEASE
  {
    var s := trace[k];
    assert Step(trace[i], trace[i + 1], acts[i]);
    assert Leased(trace[i + 1], job, lease, trace[i].now + LEASE);
    LeasedUntil(trace, acts, i + 1, k, job, lease, trace[i].now + LEASE);
    if s.now >= trace[i].now + LEASE {
      var t := s.(jobs := Claimed(s.jobs, job, next, s.now), ids := s.ids + {next},
                  runs := s.runs[next := Run(s.jobs[job].target, job, Some(Lease(job, next)), Started)],
                  claims := s.claims + [Lease(job, next)]);
      assert Step(s, t, DoClaim(job, next));
    }
  }

  // What ends up in the rows

  /** The holder's answer is what the row says afterwards. */
  lemma AnswerIsStored(trace: seq<System>, acts: seq<Action>, i: nat, key: string, retry: bool, content: string)
    requires Acted(trace, acts) && i < |acts| && acts[i] == DoFinish(key, true, retry) && key in trace[i].runs
    requires trace[i].runs[key].phase == Finishing(Some(content))
    requires GuardHolds(trace[i], trace[i].runs[key], trace[i + 1].now)
    requires Current(trace[i].summaries, trace[i].runs[key].target, trace[i].runs[key].token)
    ensures trace[i + 1].summaries ==
            trace[i].summaries[trace[i].runs[key].target := Summary(Succeeded, content, "", 0, trace[i + 1].now)]
    ensures trace[i + 1].runs[key].phase == Closing(retry)
  {
    assert Step(trace[i], trace[i + 1], acts[i]);
  }

  /** Recovery fails a row exactly if no job is left for it and its run began too long ago, and touches no
      other row; all rows at once come out as one by one. */
  lemma RecoveryExact(trace: seq<System>, i: nat, target: string, now: int)
    requires Behaviour(trace) && i < |trace| && target in trace[i].summaries && now > trace[i].now
    ensures var (s, row) := (trace[i], trace[i].summaries[target]);
            var recovered := Recovered(s.summaries, s.jobs, now);
            && recovered.Keys == s.summaries.Keys
            && ((exists t: System :: t.now == now && Step(s, t, DoRecover(target))) <==>
                row.token != "" && row.token !in s.jobs && now - row.startedAt >= 300 * SECOND)
            && (forall t: System | t.now == now && Step(s, t, DoRecover(target)) ::
                  t.summaries == s.summaries[target := recovered[target]] && recovered[target].status == Failed)
            && ((forall t: System | t.now == now :: !Step(s, t, DoRecover(target))) ==> recovered[target] == row)
  {
    var (s, row) := (trace[i], trace[i].summaries[target]);
    TokenMeansPending(trace, i, target);
    if Orphan(s.jobs, row, now) {
      var t := s.(summaries := s.summaries[target := EndedSummary(Failed, "", now)], now := now,
                  writes := Logged(s, row.token, Failed));
      assert Step(s, t, DoRecover(target));
    }
  }
}
