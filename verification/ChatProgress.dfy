/**
 What the latest chat request of a session achieves: services/vdoc/ai_chat_store.go,
 reserveAIChatRequestLocked, completeAIChatRequestLocked and releaseAIChatRequestLocked. Whatever other
 requests do, a request that nobody has overtaken can go on, and its commit is the one that counts.
 */

module ChatProgress {
  import opened Wrappers
  import opened ChatHistory
  import opened AiChat
  import opened AiChatRuns

  predicate UnderWay(phase: Phase) {
    phase.Waiting? || phase.Calling? || phase.Answered?
  }

  /** The request reserved its session last and is still under way. */
  ghost predicate Latest(s: System, token: string) {
    token in s.requests && UnderWay(s.requests[token].phase)
    && Last(s.reservations, s.requests[token].session) == Some(token)
  }

  ghost predicate LatestOwns(s: System) {
    forall token | Latest(s, token) :: Owns(s.rows, s.requests[token].session, token)
  }

  lemma ReserveOwns(model: Model, s: System, t: System, session: string, token: string)
    requires Inv(model, s) && LatestOwns(s) && Reserve(s, t, session, token)
    ensures LatestOwns(t)
  {
    forall x | Latest(t, x) ensures Owns(t.rows, t.requests[x].session, x) {
      LastReserved(s.reservations, session, token, t.requests[x].session);
      if x != token {
        assert RequestOk(model, s, x);
        assert Latest(s, x);
      }
    }
  }

  lemma StepOwns(model: Model, s: System, t: System, a: Action)
    requires Inv(model, s) && LatestOwns(s) && Step(model, s, t, a)
    ensures LatestOwns(t)
  {
    if a.DoReserve? {
      ReserveOwns(model, s, t, a.session, a.token);
    } else {
      hide Inv;
      forall x | Latest(t, x) ensures Owns(t.rows, t.requests[x].session, x) {
        LatestBefore(model, s, t, a, x);
        hide Step;
        OwnerKeeps(model, s, t, a, x);
      }
    }
  }

  lemma LatestBefore(model: Model, s: System, t: System, a: Action, x: string)
    requires Step(model, s, t, a) && !a.DoReserve? && Latest(t, x)
    ensures Latest(s, x)
  {
    hide Last;
  }

  lemma OwnerKeeps(model: Model, s: System, t: System, a: Action, x: string)
    requires Step(model, s, t, a) && !a.DoReserve? && x in s.requests && x in t.requests
             && UnderWay(t.requests[x].phase)
    requires Owns(s.rows, s.requests[x].session, x)
    ensures Owns(t.rows, t.requests[x].session, x)
  {
  }

  lemma {:induction false} AlwaysOwns(model: Model, trace: seq<System>, i: nat)
    requires Run(model, trace) && i < |trace|
    ensures LatestOwns(trace[i])
    decreases i
  {
    if i > 0 {
      RunOk(model, trace, i - 1);
      AlwaysOwns(model, trace, i - 1);
      assert Next(model, trace[i - 1], trace[i]);
      hide Inv;
      hide Step;
      hide LatestOwns;
      var a :| Step(model, trace[i - 1], trace[i], a);
      StepOwns(model, trace[i - 1], trace[i], a);
    }
  }

  /** A request that nobody has overtaken can prepare its question. */
  lemma LatestCanBuild(model: Model, trace: seq<System>, i: nat, token: string, question: Message)
    requires Run(model, trace) && i < |trace| && Latest(trace[i], token) && trace[i].requests[token].phase.Waiting?
    requires question.role == User && question.id !in trace[i].ids && question.createdAt > trace[i].now
    ensures exists t :: Step(model, trace[i], t, DoBuild(token, question))
  {
    var s := trace[i];
    AlwaysOwns(model, trace, i);
    assert Owns(s.rows, s.requests[token].session, token);
    var t := Advanced(s, token, Calling(s.rows[s.requests[token].session].messages, question))
               .(ids := s.ids + {question.id}, now := question.createdAt);
    assert Step(model, s, t, DoBuild(token, question));
  }

  /** Once it is answered its commit succeeds, and leaves the question and the answer behind. */
  lemma LatestCommits(model: Model, trace: seq<System>, i: nat, token: string, t: System)
    requires Run(model, trace) && i < |trace| && Latest(trace[i], token) && trace[i].requests[token].phase.Answered?
    requires Step(model, trace[i], t, DoCommit(token))
    ensures var (s, r) := (trace[i], trace[i].requests[token]);
            && r.session in s.rows && r.session in t.rows && token in t.requests
            && t.commits == s.commits + [token] && t.requests[token].phase.Done?
            && t.rows[r.session].messages == s.rows[r.session].messages + [r.phase.question, r.phase.answer]
            && t.rows[r.session].updatedAt == r.phase.answer.createdAt && t.rows[r.session].token == ""
  {
    var s := trace[i];
    AlwaysOwns(model, trace, i);
    RunOk(model, trace, i);
    PendingAbsent(model, s, token);
    CommitStep(model, s, t, token);
    LatestOwner(s, token);
    hide *;
    CommitDone(s, t, token);
  }

  lemma CommitStep(model: Model, s: System, t: System, token: string)
    requires Step(model, s, t, DoCommit(token))
    ensures Commit(s, t, token)
  {
  }

  lemma LatestOwner(s: System, token: string)
    requires LatestOwns(s) && Latest(s, token)
    ensures token in s.requests && s.requests[token].session in s.rows
    ensures Owns(s.rows, s.requests[token].session, token)
  {
    hide Last;
  }

  lemma CommitDone(s: System, t: System, token: string)
    requires Commit(s, t, token) && Owns(s.rows, s.requests[token].session, token)
    requires var p := s.requests[token].phase; Absent(s.rows, p.question.id) && Absent(s.rows, p.answer.id)
    ensures var r := s.requests[token];
            && r.session in t.rows && token in t.requests
            && t.commits == s.commits + [token] && t.requests[token].phase.Done?
            && t.rows[r.session].messages == s.rows[r.session].messages + [r.phase.question, r.phase.answer]
            && t.rows[r.session].updatedAt == r.phase.answer.createdAt && t.rows[r.session].token == ""
  {
    hide Absent;
  }

  lemma PendingAbsent(model: Model, s: System, token: string)
    requires Inv(model, s) && token in s.requests && s.requests[token].phase.Answered?
    ensures var p := s.requests[token].phase; Absent(s.rows, p.question.id) && Absent(s.rows, p.answer.id)
  {
    assert RequestOk(model, s, token);
    var p := s.requests[token].phase;
    assert p.question.id in Pending(p) && p.answer.id in Pending(p);
  }

  /** A request that failed before it was overtaken frees its session and leaves the conversation as it was. */
  lemma FailureFrees(model: Model, s: System, t: System, token: string)
    requires Step(model, s, t, DoRelease(token))
    ensures var session := s.requests[token].session;
            && t.rows.Keys == s.rows.Keys && !(token != "" && Owns(t.rows, session, token))
            && (forall id | id in s.rows :: t.rows[id].messages == s.rows[id].messages
                                            && t.rows[id].updatedAt == s.rows[id].updatedAt)
            && (forall id | id in s.rows && !(id == session && s.rows[id].token == token) :: t.rows[id] == s.rows[id])
  {
  }
}
