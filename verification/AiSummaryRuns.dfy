/**
 Every interleaving of summary runs and their worker: services/vdoc/ai_summary_store.go and
 services/vdoc/summary_worker.go. A job is claimed under a fresh lease, and may be claimed again once
 the lease expires, so several runs of one job can be under way in different processes.
 */
module AiSummaryRuns {
  import opened Wrappers
  import opened AiSummary

  datatype Phase =
    | Started
    | Skipping(seen: int)
    | Calling
    | Finishing(result: Option<string>)
    | Failing
    | Closing(retry: bool)
    | Ended

  /** A run by its key: the lease token of a job's run, or the generation token of a manual one. */
  datatype Run = Run(target: string, token: string, lease: Option<Lease>, phase: Phase)

  datatype Write = Write(token: string, status: Status)

  datatype System = System(summaries: Summaries, jobs: Jobs, runs: map<string, Run>,
                           issued: map<string, string>, ids: set<string>, now: int,
                           claims: seq<Lease>, writes: seq<Write>)

  ghost predicate Init(s: System) {
    && s.summaries == map[] && s.jobs == map[] && s.runs == map[] && s.issued == map[]
    && s.claims == [] && s.writes == []
  }

  ghost predicate Fresh(s: System, id: string) {
    id != "" && id !in s.ids
  }

  ghost function Moved(s: System, key: string, phase: Phase): System
    requires key in s.runs
  {
    s.(runs := s.runs[key := s.runs[key].(phase := phase)])
  }

  ghost function Logged(s: System, token: string, status: Status): seq<Write> {
    s.writes + [Write(token, status)]
  }

  /** stageSummaryJob: pending row and job in one transaction; without a provider the row is skipped at once. */
  ghost predicate Stage(s: System, t: System, target: string, id: string, provider: bool) {
    && Fresh(s, id) && t.now > s.now
    && t == s.(summaries := s.summaries[target := if provider then PendingSummary(id, t.now)
                                        else EndedSummary(Skipped, "", t.now)],
               jobs := if provider then s.jobs[id := Job(target, 0, "", t.now)] else s.jobs,
               issued := s.issued[id := target], ids := s.ids + {id}, now := t.now)
  }

  /** ClaimSummaryJob. */
  ghost predicate Claim(s: System, t: System, id: string, lease: string) {
    && Fresh(s, lease) && id in s.jobs && s.jobs[id].availableAt <= s.now
    && t == s.(jobs := Claimed(s.jobs, id, lease, s.now), ids := s.ids + {lease},
               runs := s.runs[lease := Run(s.jobs[id].target, id, Some(Lease(id, lease)), Started)],
               claims := s.claims + [Lease(id, lease)])
  }

  /** keepSummaryJobLease, while the run is under way: a lost lease cancels it. */
  ghost predicate Renew(s: System, t: System, key: string, phase: Phase) {
    && key in s.runs && s.runs[key].lease.Some? && !s.runs[key].phase.Closing? && !s.runs[key].phase.Ended?
    && var l := s.runs[key].lease.value;
       if Holds(s.jobs, l.job, l.token, s.now) then t == s.(jobs := Renewed(s.jobs, l.job, l.token, s.now))
       else GiveUp(s, t, key, phase)
  }

  /** prepareAISummaryRequest for a job, on a fresh snapshot. */
  ghost predicate Prepare(s: System, t: System, key: string, phase: Phase) {
    && key in s.runs && s.runs[key].phase.Started? && s.runs[key].lease.Some?
    && var r := s.runs[key];
       && (phase.Failing? || phase.Calling? || phase.Skipping?)
       && (phase.Calling? || phase.Skipping? ==> Current(s.summaries, r.target, r.token))
       && (phase.Skipping? ==> phase.seen == s.summaries[r.target].updatedAt)
       && t == Moved(s, key, phase)
  }

  /** reserveAISummaryLocked: a manual run makes itself the latest. */
  ghost predicate Reserve(s: System, t: System, target: string, token: string) {
    && Fresh(s, token) && t.now > s.now
    && t == s.(summaries := s.summaries[target := PendingSummary(token, t.now)],
               issued := s.issued[token := target], ids := s.ids + {token}, now := t.now,
               runs := s.runs[token := Run(target, token, None, Calling)])
  }

  /** A manual run without a provider or prompt saves its skipped row over the one it read. */
  ghost predicate SkipManually(s: System, t: System, target: string) {
    t.now > s.now && t == s.(summaries := s.summaries[target := EndedSummary(Skipped, "", t.now)], now := t.now)
  }

  /** The provider answers, or the call fails. */
  ghost predicate Answer(s: System, t: System, key: string, phase: Phase) {
    && key in s.runs && s.runs[key].phase.Calling?
    && phase.Finishing? && t == Moved(s, key, phase)
  }

  /** saveAISummaryLocked behind the lease guard, over the row that was read. */
  ghost predicate SaveSkipped(s: System, t: System, key: string, retry: bool) {
    && key in s.runs && s.runs[key].phase.Skipping? && s.runs[key].lease.Some? && t.now > s.now
    && var r := s.runs[key];
       var l := r.lease.value;
       if && Holds(s.jobs, l.job, l.token, t.now)
          && r.target in s.summaries && s.summaries[r.target].updatedAt == r.phase.seen
       then
         t == Moved(s, key, Closing(retry))
                .(summaries := s.summaries[r.target := EndedSummary(Skipped, "", t.now)],
                  jobs := Renewed(s.jobs, l.job, l.token, t.now), now := t.now, writes := Logged(s, r.token, Skipped))
       else t == Moved(s, key, Failing).(now := t.now)
  }

  ghost predicate GuardHolds(s: System, r: Run, now: int) {
    r.lease.Some? ==> Holds(s.jobs, r.lease.value.job, r.lease.value.token, now)
  }

  /** finishAISummary: the transaction of SummaryRepository.CompleteTransaction with the run's guard. */
  ghost predicate Finish(s: System, t: System, key: string, holds: bool, retry: bool) {
    && key in s.runs && s.runs[key].phase.Finishing? && t.now > s.now
    && var r := s.runs[key];
       var status := if r.phase.result.Some? then Succeeded else Failed;
       if GuardHolds(s, r, t.now) && holds && Current(s.summaries, r.target, r.token) then
         t == Moved(s, key, Closing(retry))
                .(summaries := Completed(s.summaries, r.target, r.token,
                                         EndedSummary(status, r.phase.result.GetOr(""), t.now)),
                  jobs := if r.lease.Some? then Renewed(s.jobs, r.lease.value.job, r.lease.value.token, t.now)
                    else s.jobs,
                  now := t.now, writes := Logged(s, r.token, status))
       else t == Moved(s, key, if GuardHolds(s, r, t.now) then Failing else Closing(false)).(now := t.now)
  }

  /** failStaleAISummaryLocked and failSummaryJob: no guard, only the run's own token. */
  ghost predicate Fail(s: System, t: System, key: string, retry: bool) {
    && key in s.runs && s.runs[key].phase.Failing? && t.now > s.now
    && var r := s.runs[key];
       if Current(s.summaries, r.target, r.token) then
         t == Moved(s, key, Closing(retry))
                .(summaries := Completed(s.summaries, r.target, r.token, EndedSummary(Failed, "", t.now)), now := t.now,
                  writes := Logged(s, r.token, Failed))
       else t == Moved(s, key, Closing(retry)).(now := t.now)
  }

  /** A cancelled or broken run stops where it is; the worker decides whether the job is tried again. */
  ghost predicate GiveUp(s: System, t: System, key: string, phase: Phase) {
    && key in s.runs && !s.runs[key].phase.Closing? && !s.runs[key].phase.Ended?
    && (phase.Failing? || phase.Closing?) && t == Moved(s, key, phase)
  }

  /** FinishSummaryJob; a manual run has nothing to finish. */
  ghost predicate Close(s: System, t: System, key: string) {
    && key in s.runs && s.runs[key].phase.Closing?
    && var r := s.runs[key];
       t == Moved(s, key, Ended)
              .(jobs := if r.lease.Some?
                        then Finished(s.jobs, r.lease.value.job, r.lease.value.token, r.phase.retry, s.now) else s.jobs)
  }

  /** recoverOrphanSummariesLocked, one row at a time. */
  ghost predicate Recover(s: System, t: System, target: string) {
    && target in s.summaries && t.now > s.now && Orphan(s.jobs, s.summaries[target], t.now)
    && t == s.(summaries := s.summaries[target := EndedSummary(Failed, "", t.now)], now := t.now,
               writes := Logged(s, s.summaries[target].token, Failed))
  }

  /** Time passes. */
  ghost predicate Tick(s: System, t: System) {
    t.now > s.now && t == s.(now := t.now)
  }

  datatype Action =
    | DoStage(target: string, id: string, provider: bool)
    | DoClaim(id: string, lease: string)
    | DoRenew(key: string, phase: Phase)
    | DoPrepare(key: string, phase: Phase)
    | DoReserve(target: string, token: string)
    | DoSkipManually(target: string)
    | DoAnswer(key: string, phase: Phase)
    | DoSaveSkipped(key: string, retry: bool)
    | DoFinish(key: string, holds: bool, retry: bool)
    | DoFail(key: string, retry: bool)
    | DoGiveUp(key: string, phase: Phase)
    | DoClose(key: string)
    | DoRecover(target: string)
    | DoTick

  ghost predicate Step(s: System, t: System, a: Action) {
    match a
    case DoStage(target, id, provider) => Stage(s, t, target, id, provider)
    case DoClaim(id, lease) => Claim(s, t, id, lease)
    case DoRenew(key, phase) => Renew(s, t, key, phase)
    case DoPrepare(key, phase) => Prepare(s, t, key, phase)
    case DoReserve(target, token) => Reserve(s, t, target, token)
    case DoSkipManually(target) => SkipManually(s, t, target)
    case DoAnswer(key, phase) => Answer(s, t, key, phase)
    case DoSaveSkipped(key, retry) => SaveSkipped(s, t, key, retry)
    case DoFinish(key, holds, retry) => Finish(s, t, key, holds, retry)
    case DoFail(key, retry) => Fail(s, t, key, retry)
    case DoGiveUp(key, phase) => GiveUp(s, t, key, phase)
    case DoClose(key) => Close(s, t, key)
    case DoRecover(target) => Recover(s, t, target)
    case DoTick => Tick(s, t)
  }

  ghost predicate Next(s: System, t: System) {
    exists a :: Step(s, t, a)
  }

  ghost predicate Behaviour(trace: seq<System>) {
    && trace != [] && Init(trace[0])
    && forall i | 0 <= i < |trace| - 1 :: Next(trace[i], trace[i + 1])
  }

  // The invariant

  ghost predicate Written(writes: seq<Write>, token: string) {
    exists i :: 0 <= i < |writes| && writes[i].token == token
  }

  /** A row carries a token exactly while it is pending, and a token that ended once never comes back. */
  ghost predicate RowOk(s: System, target: string)
    requires target in s.summaries
  {
    var row := s.summaries[target];
    && (row.token != "" <==> row.status == Pending)
    && row.updatedAt <= s.now
    && (row.token != "" ==>
          row.token in s.issued && s.issued[row.token] == target && !Written(s.writes, row.token))
  }

  ghost function LastClaim(claims: seq<Lease>, job: string): Option<string> {
    if claims == [] then None
    else if claims[|claims| - 1].job == job then Some(claims[|claims| - 1].token)
    else LastClaim(claims[..|claims| - 1], job)
  }

  ghost predicate JobOk(s: System, id: string)
    requires id in s.jobs
  {
    && id in s.issued && s.issued[id] == s.jobs[id].target
    && (s.jobs[id].lease != "" ==> LastClaim(s.claims, id) == Some(s.jobs[id].lease))
  }

  ghost predicate RunOk(s: System, key: string)
    requires key in s.runs
  {
    var r := s.runs[key];
    && key in s.ids && r.token != "" && r.token in s.issued && s.issued[r.token] == r.target
    && (r.lease.Some? ==> r.lease.value == Lease(r.token, key) && key != "")
    && (r.lease.None? ==> key == r.token)
    && (r.phase.Skipping? ==>
          && r.phase.seen <= s.now
          && (r.target in s.summaries && s.summaries[r.target].updatedAt == r.phase.seen ==>
                s.summaries[r.target].token == r.token))
  }

  ghost predicate Inv(s: System) {
    && (forall target | target in s.summaries :: RowOk(s, target))
    && (forall id | id in s.jobs :: JobOk(s, id))
    && (forall key | key in s.runs :: RunOk(s, key))
    && (forall token | token in s.issued :: token in s.ids && token != "")
    && (forall i | 0 <= i < |s.writes| :: s.writes[i].token in s.issued)
    && (forall i, j | 0 <= i < j < |s.writes| :: s.writes[i].token != s.writes[j].token)
  }

  // Steps keep the invariant

  /** A write to one row: it ends the row's token, or puts a new one there. */
  ghost predicate Rewrites(s: System, t: System, target: string) {
    && target in t.summaries && t.summaries == s.summaries[target := t.summaries[target]]
    && t.summaries[target].updatedAt == t.now > s.now
    && var token := t.summaries[target].token;
       && (token != "" <==> t.summaries[target].status == Pending)
       && (token != "" ==> token !in s.issued && token in t.issued && t.issued[token] == target)
  }

  ghost predicate Issues(s: System, t: System) {
    forall token | token in s.issued :: token in t.issued && t.issued[token] == s.issued[token]
  }

  /** The history gains nothing, or the end of the token on the row. */
  ghost predicate Logs(s: System, t: System, target: string) {
    || t.writes == s.writes
    || exists status ::
         target in s.summaries && s.summaries[target].token != ""
           && t.writes == Logged(s, s.summaries[target].token, status)
  }

  lemma RowsRewritten(s: System, t: System, target: string)
    requires Inv(s) && Rewrites(s, t, target) && Issues(s, t) && Logs(s, t, target)
    ensures forall x | x in t.summaries :: RowOk(t, x)
    ensures forall i, j | 0 <= i < j < |t.writes| :: t.writes[i].token != t.writes[j].token
    ensures forall i | 0 <= i < |t.writes| :: t.writes[i].token in t.issued
  {
    hide RunOk;
    hide JobOk;
    forall x | x in t.summaries ensures RowOk(t, x) {
      if x != target {
        assert RowOk(s, x);
        assert target in s.summaries ==> RowOk(s, target);
      }
    }
    if t.writes != s.writes {
      assert RowOk(s, target);
    }
  }

  lemma RowsKept(s: System, t: System)
    requires Inv(s) && t.summaries == s.summaries && t.writes == s.writes && Issues(s, t) && s.now <= t.now
    ensures forall x | x in t.summaries :: RowOk(t, x)
  {
    hide RunOk;
    hide JobOk;
    forall x | x in t.summaries ensures RowOk(t, x) {
      assert RowOk(s, x);
    }
  }

  /** Runs that were under way: at most one of them moved on, and not to a snapshot of its own. */
  lemma RunsKept(s: System, t: System, target: string)
    requires Inv(s) && Issues(s, t) && s.now <= t.now && s.ids <= t.ids
    requires t.summaries == s.summaries || Rewrites(s, t, target)
    requires forall key | key in t.runs ::
               key in s.runs && t.runs[key] == s.runs[key].(phase := t.runs[key].phase)
               && (t.runs[key].phase.Skipping? ==> t.runs[key] == s.runs[key])
    ensures forall key | key in t.runs :: RunOk(t, key)
  {
    hide RowOk;
    hide JobOk;
    forall key | key in t.runs ensures RunOk(t, key) {
      assert RunOk(s, key);
    }
  }

  lemma JobsKept(s: System, t: System)
    requires Inv(s) && Issues(s, t) && t.claims == s.claims
    requires forall id | id in t.jobs ::
               id in s.jobs && t.jobs[id].target == s.jobs[id].target && t.jobs[id].lease in {"", s.jobs[id].lease}
    ensures forall id | id in t.jobs :: JobOk(t, id)
  {
    hide RowOk;
    hide RunOk;
    hide LastClaim;
    forall id | id in t.jobs ensures JobOk(t, id) {
      assert JobOk(s, id);
    }
  }

  lemma FreshIsUnused(s: System, id: string)
    requires Inv(s) && Fresh(s, id)
    ensures id !in s.issued && id !in s.runs && id !in s.jobs && !Written(s.writes, id)
  {
    hide RowOk;
    assert id in s.runs ==> RunOk(s, id);
    assert id in s.jobs ==> JobOk(s, id);
  }

  lemma StageOk(s: System, t: System, target: string, id: string, provider: bool)
    requires Inv(s) && Stage(s, t, target, id, provider)
    ensures Inv(t)
  {
    hide RowOk;
    hide RunOk;
    hide LastClaim;
    FreshIsUnused(s, id);
    RowsRewritten(s, t, target);
    RunsKept(s, t, target);
    forall x | x in t.jobs ensures JobOk(t, x) {
      assert x != id ==> JobOk(s, x);
    }
  }

  lemma {:induction false} ClaimAppended(claims: seq<Lease>, l: Lease, job: string)
    ensures LastClaim(claims + [l], job) == if l.job == job then Some(l.token) else LastClaim(claims, job)
  {
    assert (claims + [l])[..|claims|] == claims;
  }

  lemma ClaimOk(s: System, t: System, id: string, lease: string)
    requires Inv(s) && Claim(s, t, id, lease)
    ensures Inv(t)
  {
    hide RowOk;
    FreshIsUnused(s, lease);
    RowsKept(s, t);
    forall x | x in t.jobs ensures JobOk(t, x) {
      assert JobOk(s, x);
      ClaimAppended(s.claims, Lease(id, lease), x);
    }
    forall key | key in t.runs ensures RunOk(t, key) {
      assert key != lease ==> RunOk(s, key);
      assert JobOk(s, id);
    }
  }

  lemma MoveOk(s: System, t: System, key: string)
    requires Inv(s) && key in s.runs && key in t.runs && s.now <= t.now && !t.runs[key].phase.Skipping?
    requires t == Moved(s, key, t.runs[key].phase).(now := t.now, jobs := t.jobs)
    requires forall id | id in t.jobs ::
               id in s.jobs && t.jobs[id].target == s.jobs[id].target && t.jobs[id].lease in {"", s.jobs[id].lease}
    ensures Inv(t)
  {
    hide RowOk;
    hide RunOk;
    hide JobOk;
    RowsKept(s, t);
    RunsKept(s, t, "");
    JobsKept(s, t);
  }

  lemma PrepareOk(s: System, t: System, key: string, phase: Phase)
    requires Inv(s) && Prepare(s, t, key, phase)
    ensures Inv(t)
  {
    hide RowOk;
    hide JobOk;
    RowsKept(s, t);
    JobsKept(s, t);
    forall x | x in t.runs ensures RunOk(t, x) {
      assert RunOk(s, x);
      RowTime(s, s.runs[key].target);
    }
  }

  lemma RowTime(s: System, target: string)
    requires Inv(s)
    ensures target in s.summaries ==> s.summaries[target].updatedAt <= s.now
  {
    assert target in s.summaries ==> RowOk(s, target);
  }

  /** Any step in which one run, or none, ends the row's token or issues a new one. */
  lemma WriteOk(s: System, t: System, target: string)
    requires Inv(s) && Rewrites(s, t, target) && Logs(s, t, target) && s.now <= t.now
    requires t.issued == s.issued && t.ids == s.ids && t.claims == s.claims
    requires forall key | key in t.runs ::
               key in s.runs && t.runs[key] == s.runs[key].(phase := t.runs[key].phase)
               && (t.runs[key].phase.Skipping? ==> t.runs[key] == s.runs[key])
    requires forall id | id in t.jobs ::
               id in s.jobs && t.jobs[id].target == s.jobs[id].target && t.jobs[id].lease in {"", s.jobs[id].lease}
    ensures Inv(t)
  {
    hide RowOk;
    hide RunOk;
    hide JobOk;
    hide Rewrites;
    hide Logs;
    RowsRewritten(s, t, target);
    RunsKept(s, t, target);
    JobsKept(s, t);
  }

  lemma ReserveOk(s: System, t: System, target: string, token: string)
    requires Inv(s) && Reserve(s, t, target, token)
    ensures Inv(t)
  {
    hide RowOk;
    hide JobOk;
    FreshIsUnused(s, token);
    RowsRewritten(s, t, target);
    JobsKept(s, t);
    var u := t.(runs := s.runs);
    RunsKept(s, u, target);
    forall key | key in t.runs ensures RunOk(t, key) {
      assert key != token ==> RunOk(u, key);
    }
  }

  lemma LogsOwn(s: System, t: System, key: string, status: Status)
    requires Inv(s) && key in s.runs && Current(s.summaries, s.runs[key].target, s.runs[key].token)
    requires t.writes == Logged(s, s.runs[key].token, status)
    ensures Logs(s, t, s.runs[key].target)
  {
    assert RunOk(s, key);
  }

  lemma SaveSkippedOk(s: System, t: System, key: string, retry: bool)
    requires Inv(s) && SaveSkipped(s, t, key, retry)
    ensures Inv(t)
  {
    hide RowOk;
    hide JobOk;
    var r := s.runs[key];
    assert RunOk(s, key);
    hide RunOk;
    if t.writes == s.writes {
      MoveOk(s, t, key);
    } else {
      LogsOwn(s, t, key, Skipped);
      WriteOk(s, t, r.target);
    }
  }

  lemma FinishOk(s: System, t: System, key: string, holds: bool, retry: bool)
    requires Inv(s) && Finish(s, t, key, holds, retry)
    ensures Inv(t)
  {
    hide Inv;
    var r := s.runs[key];
    if t.writes == s.writes {
      MoveOk(s, t, key);
    } else {
      LogsOwn(s, t, key, if r.phase.result.Some? then Succeeded else Failed);
      WriteOk(s, t, r.target);
    }
  }

  lemma FailOk(s: System, t: System, key: string, retry: bool)
    requires Inv(s) && Fail(s, t, key, retry)
    ensures Inv(t)
  {
    hide Inv;
    if t.writes == s.writes {
      MoveOk(s, t, key);
    } else {
      LogsOwn(s, t, key, Failed);
      WriteOk(s, t, s.runs[key].target);
    }
  }

  lemma RecoverOk(s: System, t: System, target: string)
    requires Inv(s) && Recover(s, t, target)
    ensures Inv(t)
  {
    assert RowOk(s, target);
    hide Inv;
    assert Logs(s, t, target);
    WriteOk(s, t, target);
  }

  /** Nothing changes but the clock and what a lease holder may do to its job. */
  lemma QuietOk(s: System, t: System)
    requires Inv(s) && t == s.(now := t.now, jobs := t.jobs) && s.now <= t.now
    requires forall id | id in t.jobs ::
               id in s.jobs && t.jobs[id].target == s.jobs[id].target && t.jobs[id].lease in {"", s.jobs[id].lease}
    ensures Inv(t)
  {
    hide RowOk;
    hide RunOk;
    hide JobOk;
    RowsKept(s, t);
    RunsKept(s, t, "");
    JobsKept(s, t);
  }

  lemma RenewOk(s: System, t: System, key: string, phase: Phase)
    requires Inv(s) && Renew(s, t, key, phase)
    ensures Inv(t)
  {
    hide Inv;
    if t.jobs == s.jobs && t.runs != s.runs {
      MoveOk(s, t, key);
    } else {
      QuietOk(s, t);
    }
  }

  lemma CloseOk(s: System, t: System, key: string)
    requires Inv(s) && Close(s, t, key)
    ensures Inv(t)
  {
    hide Inv;
    MoveOk(s, t, key);
  }

  lemma SkipManuallyOk(s: System, t: System, target: string)
    requires Inv(s) && SkipManually(s, t, target)
    ensures Inv(t)
  {
    hide Inv;
    WriteOk(s, t, target);
  }

  lemma StepOk(s: System, t: System)
    requires Inv(s) && Next(s, t)
    ensures Inv(t)
  {
    hide Inv;
    hide Stage;
    hide Claim;
    hide Renew;
    hide Prepare;
    hide Reserve;
    hide SkipManually;
    hide SaveSkipped;
    hide Finish;
    hide Fail;
    hide Close;
    hide Recover;
    var a :| Step(s, t, a);
    match a
    case DoStage(target, id, provider) => StageOk(s, t, target, id, provider);
    case DoClaim(id, lease) => ClaimOk(s, t, id, lease);
    case DoRenew(key, phase) => RenewOk(s, t, key, phase);
    case DoPrepare(key, phase) => PrepareOk(s, t, key, phase);
    case DoReserve(target, token) => ReserveOk(s, t, target, token);
    case DoSkipManually(target) => SkipManuallyOk(s, t, target);
    case DoAnswer(key, phase) => MoveOk(s, t, key);
    case DoSaveSkipped(key, retry) => SaveSkippedOk(s, t, key, retry);
    case DoFinish(key, holds, retry) => FinishOk(s, t, key, holds, retry);
    case DoFail(key, retry) => FailOk(s, t, key, retry);
    case DoGiveUp(key, phase) => MoveOk(s, t, key);
    case DoClose(key) => CloseOk(s, t, key);
    case DoRecover(target) => RecoverOk(s, t, target);
    case DoTick => QuietOk(s, t);
  }

  lemma {:induction false} BehaviourOk(trace: seq<System>, i: nat)
    requires Behaviour(trace) && i < |trace|
    ensures Inv(trace[i])
    decreases i
  {
    hide Inv;
    hide Next;
    if i == 0 {
      InitOk(trace[0]);
    } else {
      BehaviourOk(trace, i - 1);
      StepOk(trace[i - 1], trace[i]);
    }
  }

  lemma InitOk(s: System)
    requires Init(s)
    ensures Inv(s)
  {
  }

  // The theorems

  /** In every behaviour a row carries a token exactly while it is pending. */
  lemma TokenMeansPending(trace: seq<System>, i: nat, target: string)
    requires Behaviour(trace) && i < |trace| && target in trace[i].summaries
    ensures trace[i].summaries[target].token != "" <==> trace[i].summaries[target].status == Pending
  {
    BehaviourOk(trace, i);
    assert RowOk(trace[i], target);
  }

  /** Each job and each manual run ends at most once, however often its job is claimed. */
  lemma TokensEndOnce(trace: seq<System>, i: nat, j: nat, k: nat)
    requires Behaviour(trace) && i < |trace| && j < k < |trace[i].writes|
    ensures trace[i].writes[j].token != trace[i].writes[k].token
  {
    BehaviourOk(trace, i);
    hide RowOk;
    hide RunOk;
    hide JobOk;
  }

  /** A run acts in the step, and its token is no longer on its row. */
  ghost predicate ActsFor(a: Action, key: string) {
    match a
    case DoRenew(x, _) => x == key
    case DoPrepare(x, _) => x == key
    case DoAnswer(x, _) => x == key
    case DoSaveSkipped(x, _) => x == key
    case DoFinish(x, _, _) => x == key
    case DoFail(x, _) => x == key
    case DoGiveUp(x, _) => x == key
    case DoClose(x) => x == key
    case _ => false
  }

  /** A superseded run leaves every summary as it is, whatever it still does. */
  lemma SupersededLeavesSummaries(trace: seq<System>, i: nat, a: Action, key: string)
    requires Behaviour(trace) && i + 1 < |trace| && Step(trace[i], trace[i + 1], a) && ActsFor(a, key)
    requires key in trace[i].runs && !Current(trace[i].summaries, trace[i].runs[key].target, trace[i].runs[key].token)
    ensures trace[i + 1].summaries == trace[i].summaries
  {
    BehaviourOk(trace, i);
    assert RunOk(trace[i], key);
    hide Inv;
  }

  /** A run that saves a success held its row's token and, for a job, the job's lease, as its last claimant. */
  lemma SuccessNeedsLease(trace: seq<System>, i: nat, target: string)
    returns (key: string)
    requires Behaviour(trace) && i + 1 < |trace| && target in trace[i + 1].summaries
    requires trace[i + 1].summaries[target].status == Succeeded
    requires target in trace[i].summaries ==> trace[i].summaries[target] != trace[i + 1].summaries[target]
    ensures key in trace[i].runs
    ensures var (s, t, r) := (trace[i], trace[i + 1], trace[i].runs[key]);
            && r.target == target && Current(s.summaries, target, r.token)
            && r.phase.Finishing? && r.phase.result == Some(t.summaries[target].content)
            && t.writes == Logged(s, r.token, Succeeded)
            && (r.lease.Some? ==>
                  && Holds(s.jobs, r.token, key, t.now) && LastClaim(s.claims, r.token) == Some(key))
  {
    var s, t := trace[i], trace[i + 1];
    BehaviourOk(trace, i);
    assert Next(s, t);
    var a :| Step(s, t, a);
    SuccessByFinish(s, t, a, target);
    key := a.key;
    if s.runs[key].lease.Some? {
      HolderIsLast(s, key, t.now);
    }
    hide Inv;
  }

  lemma SuccessByFinish(s: System, t: System, a: Action, target: string)
    requires Step(s, t, a) && target in t.summaries && t.summaries[target].status == Succeeded
    requires target in s.summaries ==> s.summaries[target] != t.summaries[target]
    ensures a.DoFinish?
  {
  }

  lemma HolderIsLast(s: System, key: string, now: int)
    requires Inv(s) && key in s.runs && s.runs[key].lease.Some?
    ensures s.runs[key].lease.value == Lease(s.runs[key].token, key)
    ensures Holds(s.jobs, s.runs[key].token, key, now) ==> LastClaim(s.claims, s.runs[key].token) == Some(key)
  {
    assert RunOk(s, key);
    var job := s.runs[key].token;
    if Holds(s.jobs, job, key, now) {
      assert JobOk(s, job);
    }
  }

  /** Once a newer claim holds the job, an older run can neither renew, save a result, retry nor delete
      it. It can still fail the row: that write asks for the job's token only, which all claims share. */
  lemma OldLeaseCanOnlyFail(trace: seq<System>, i: nat, a: Action, key: string)
    requires Behaviour(trace) && i + 1 < |trace| && Step(trace[i], trace[i + 1], a) && ActsFor(a, key)
    requires key in trace[i].runs && trace[i].runs[key].lease.Some?
    requires LastClaim(trace[i].claims, trace[i].runs[key].token) != Some(key)
    ensures trace[i + 1].jobs == trace[i].jobs
    ensures var (s, t, r) := (trace[i], trace[i + 1], trace[i].runs[key]);
            if a.DoFail? && Current(s.summaries, r.target, r.token)
            then t.summaries == s.summaries[r.target := EndedSummary(Failed, "", t.now)] != s.summaries
            else t.summaries == s.summaries
  {
    var s := trace[i];
    BehaviourOk(trace, i);
    assert RunOk(s, key);
    var job, target := s.runs[key].token, s.runs[key].target;
    if job in s.jobs {
      assert JobOk(s, job);
      assert s.jobs[job].lease != key;
    }
    if Current(s.summaries, target, job) {
      assert s.summaries[target].token != EndedSummary(Failed, "", trace[i + 1].now).token;
    }
    hide Inv;
  }

  /** A step that makes another run, or the absence of one, the latest word on a row. */
  predicate Supersedes(a: Action) {
    a.DoStage? || a.DoReserve? || a.DoSkipManually?
  }

  /** The history is complete: unless it is superseded, a token leaves its row exactly when its end is
      recorded. */
  lemma EndsAreLogged(trace: seq<System>, i: nat, a: Action, target: string)
    requires Behaviour(trace) && i + 1 < |trace| && Step(trace[i], trace[i + 1], a)
    requires target in trace[i].summaries && trace[i].summaries[target].token != ""
    ensures target in trace[i + 1].summaries
    ensures var (s, t, token) := (trace[i], trace[i + 1], trace[i].summaries[target].token);
            !Supersedes(a) && t.summaries[target].token != token <==>
            exists status :: t.writes == Logged(s, token, status)
  {
    var (s, t, token) := (trace[i], trace[i + 1], trace[i].summaries[target].token);
    BehaviourOk(trace, i);
    assert RowOk(s, target);
    assert |t.writes| == |s.writes| || t.writes == Logged(s, t.writes[|s.writes|].token, t.writes[|s.writes|].status);
    match a
    case DoSaveSkipped(key, _) => assert RunOk(s, key);
    case DoFinish(key, _, _) => assert RunOk(s, key);
    case DoFail(key, _) => assert RunOk(s, key);
    case DoRecover(other) => assert RowOk(s, other);
    case _ =>
  }

  lemma OneMoreStep(trace: seq<System>, t: System, a: Action)
    requires Behaviour(trace) && Step(trace[|trace| - 1], t, a)
    ensures Behaviour(trace + [t])
  {
    hide Step;
    var longer := trace + [t];
    forall i | 0 <= i < |longer| - 1 ensures Next(longer[i], longer[i + 1]) {
      if i < |trace| - 1 {
        assert Next(trace[i], trace[i + 1]);
      }
    }
  }

  function TwoRuns(a: Phase, b: Phase): map<string, Run> {
    map["a" := Run("target", "job", Some(Lease("job", "a")), a),
        "b" := Run("target", "job", Some(Lease("job", "b")), b)]
  }

  /** A job claimed by "a", and again by "b" once that lease has run out. */
  function ClaimedTwice(a: Phase, b: Phase): System {
    System(map["target" := PendingSummary("job", 1)], map["job" := Job("target", 2, "b", 1 + 2 * LEASE)], TwoRuns(a, b),
           map["job" := "target"], {"job", "a", "b"}, 1 + LEASE, [Lease("job", "a"), Lease("job", "b")], [])
  }

  /** A job claimed by "a". */
  function ClaimedOnce(phase: Phase, now: int): System {
    System(map["target" := PendingSummary("job", 1)], map["job" := Job("target", 1, "a", 1 + LEASE)],
           map["a" := Run("target", "job", Some(Lease("job", "a")), phase)],
           map["job" := "target"], {"job", "a"}, now, [Lease("job", "a")], [])
  }

  lemma ReachClaimedOnce() returns (trace: seq<System>)
    ensures |trace| == 3 && Behaviour(trace) && trace[2] == ClaimedOnce(Started, 1)
  {
    var s0 := System(map[], map[], map[], map[], {}, 0, [], []);
    var s1 := s0.(summaries := map["target" := PendingSummary("job", 1)], jobs := map["job" := Job("target", 0, "", 1)],
                  issued := map["job" := "target"], ids := {"job"}, now := 1);
    OneMoreStep([s0], s1, DoStage("target", "job", true));
    OneMoreStep([s0, s1], ClaimedOnce(Started, 1), DoClaim("job", "a"));
    trace := [s0, s1] + [ClaimedOnce(Started, 1)];
  }

  lemma ReachClaimedTwice() returns (trace: seq<System>)
    ensures |trace| == 7 && Behaviour(trace) && trace[6] == ClaimedTwice(Finishing(Some("old answer")), Started)
  {
    hide Stage;
    var first := Finishing(Some("old answer"));
    trace := ReachClaimedOnce();
    OneMoreStep(trace, ClaimedOnce(Calling, 1), DoPrepare("a", Calling));
    trace := trace + [ClaimedOnce(Calling, 1)];
    OneMoreStep(trace, ClaimedOnce(first, 1), DoAnswer("a", first));
    trace := trace + [ClaimedOnce(first, 1)];
    OneMoreStep(trace, ClaimedOnce(first, 1 + LEASE), DoTick);
    trace := trace + [ClaimedOnce(first, 1 + LEASE)];
    ClaimAgain(first);
    OneMoreStep(trace, ClaimedTwice(first, Started), DoClaim("job", "b"));
    trace := trace + [ClaimedTwice(first, Started)];
  }

  lemma ClaimAgain(first: Phase)
    ensures Step(ClaimedOnce(first, 1 + LEASE), ClaimedTwice(first, Started), DoClaim("job", "b"))
  {
    var s, t := ClaimedOnce(first, 1 + LEASE), ClaimedTwice(first, Started);
    assert s.claims + [Lease("job", "b")] == t.claims;
  }

  lemma FailThenRefuse() returns (failed: System, refused: System)
    ensures var s, answer := ClaimedTwice(Failing, Finishing(Some("answer"))), Finishing(Some("answer"));
            && LastClaim(s.claims, "job") == Some("b") && Holds(s.jobs, "job", "b", refused.now)
            && Step(s, failed, DoFail("a", false)) && Step(failed, refused, DoFinish("b", true, false))
            && Current(failed.summaries, "target", "") && failed.summaries["target"].status == Failed
            && failed.runs == TwoRuns(Closing(false), answer) && refused.summaries == failed.summaries
  {
    var s, answer := ClaimedTwice(Failing, Finishing(Some("answer"))), Finishing(Some("answer"));
    failed := s.(summaries := map["target" := EndedSummary(Failed, "", 2 + LEASE)],
                 runs := TwoRuns(Closing(false), answer),
                 now := 2 + LEASE, writes := [Write("job", Failed)]);
    refused := failed.(runs := TwoRuns(Closing(false), Failing), now := 3 + LEASE);
    ClaimAppended([Lease("job", "a")], Lease("job", "b"), "job");
  }

  lemma AnswersOfBoth()
    ensures var first, answer := Finishing(Some("old answer")), Finishing(Some("answer"));
            && Step(ClaimedTwice(first, Started), ClaimedTwice(first, Calling), DoPrepare("b", Calling))
            && Step(ClaimedTwice(first, Calling), ClaimedTwice(first, answer), DoAnswer("b", answer))
            && Step(ClaimedTwice(first, answer), ClaimedTwice(Failing, answer), DoGiveUp("a", Failing))
  {
  }

  lemma ReachBothAnswered() returns (trace: seq<System>)
    ensures |trace| == 10 && Behaviour(trace) && trace[9] == ClaimedTwice(Failing, Finishing(Some("answer")))
  {
    hide Step;
    hide ClaimedTwice;
    var first, answer := Finishing(Some("old answer")), Finishing(Some("answer"));
    AnswersOfBoth();
    trace := ReachClaimedTwice();
    OneMoreStep(trace, ClaimedTwice(first, Calling), DoPrepare("b", Calling));
    trace := trace + [ClaimedTwice(first, Calling)];
    OneMoreStep(trace, ClaimedTwice(first, answer), DoAnswer("b", answer));
    trace := trace + [ClaimedTwice(first, answer)];
    OneMoreStep(trace, ClaimedTwice(Failing, answer), DoGiveUp("a", Failing));
    trace := trace + [ClaimedTwice(Failing, answer)];
  }

  /** Such a failure happens: "a" fails the row, and the answer of "b", who holds the lease, is refused. */
  lemma OldLeaseFails() returns (trace: seq<System>)
    ensures |trace| == 12 && Behaviour(trace)
    ensures var s := trace[9];
            && Step(s, trace[10], DoFail("a", false)) && "a" in s.runs && s.runs["a"].lease == Some(Lease("job", "a"))
            && LastClaim(s.claims, "job") == Some("b") && Holds(s.jobs, "job", "b", trace[11].now)
            && Current(s.summaries, "target", "job")
    ensures Current(trace[10].summaries, "target", "") && trace[10].summaries["target"].status == Failed
    ensures Step(trace[10], trace[11], DoFinish("b", true, false)) && trace[11].summaries == trace[10].summaries
    ensures "b" in trace[10].runs && trace[10].runs["b"].phase == Finishing(Some("answer"))
  {
    hide Step;
    hide LastClaim;
    var s := ClaimedTwice(Failing, Finishing(Some("answer")));
    trace := ReachBothAnswered();
    var failed, refused := FailThenRefuse();
    OneMoreStep(trace, failed, DoFail("a", false));
    trace := trace + [failed];
    OneMoreStep(trace, refused, DoFinish("b", true, false));
    trace := trace + [refused];
  }
}
