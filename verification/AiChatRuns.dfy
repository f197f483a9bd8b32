/**
 Every interleaving of chat requests from several processes: services/vdoc/ai_chat_store.go,
 prepareAIChatRequest and finishAIChatMessage. One step is one database transaction, or work of one
 process between two of them; the clock advances and never stands still between two readings.
 */
module AiChatRuns {
  import opened Wrappers
  import opened ChatHistory
  import opened AiChat

  /** Which answers the provider may give to a history and a question. */
  type Model = (seq<Payload>, Message, string) -> bool

  datatype Phase =
    | Waiting
    | Calling(basis: seq<Message>, question: Message)
    | Answered(basis: seq<Message>, question: Message, answer: Message)
    | Failing
    | Done

  datatype Request = Request(session: string, phase: Phase)

  datatype Reservation = Reservation(session: string, token: string)

  /** The rows, the requests by token, and what has happened so far. */
  datatype System = System(rows: Rows, requests: map<string, Request>, ids: set<string>, now: int,
                           reservations: seq<Reservation>, commits: seq<string>)

  ghost predicate Init(s: System) {
    s.rows == map[] && s.requests == map[] && s.reservations == [] && s.commits == []
  }

  ghost function Advanced(s: System, token: string, phase: Phase): System
    requires token in s.requests
  {
    s.(requests := s.requests[token := s.requests[token].(phase := phase)])
  }

  ghost predicate At(s: System, token: string) {
    token in s.requests
  }

  /** CreateAIChatSession. */
  ghost predicate Create(s: System, t: System, id: string) {
    && id !in s.ids && id !in s.rows && t.now > s.now
    && t == s.(rows := s.rows[id := Session("", t.now, [])], ids := s.ids + {id}, now := t.now)
  }

  /** reserveAIChatRequestLocked: latest request wins. */
  ghost predicate Reserve(s: System, t: System, session: string, token: string) {
    && session in s.rows && token != "" && token !in s.ids
    && t == s.(rows := Reserved(s.rows, session, token), ids := s.ids + {token},
               requests := s.requests[token := Request(session, Waiting)],
               reservations := s.reservations + [Reservation(session, token)])
  }

  /** buildAIChatRequestLocked on a fresh snapshot: only the current token goes on. */
  ghost predicate Build(s: System, t: System, token: string, question: Message) {
    && At(s, token) && s.requests[token].phase.Waiting?
    && Owns(s.rows, s.requests[token].session, token)
    && question.role == User && question.id !in s.ids && question.createdAt == t.now > s.now
    && t == Advanced(s, token, Calling(s.rows[s.requests[token].session].messages, question))
              .(ids := s.ids + {question.id}, now := t.now)
  }

  /** The provider answers and the finishing process stamps the message. */
  ghost predicate Answer(model: Model, s: System, t: System, token: string, answer: Message) {
    && At(s, token) && s.requests[token].phase.Calling?
    && var p := s.requests[token].phase;
       && model(LimitedHistory(p.basis), p.question, answer.content)
       && answer.role == Assistant && answer.id !in s.ids && answer.createdAt == t.now > s.now
       && t == Advanced(s, token, Answered(p.basis, p.question, answer)).(ids := s.ids + {answer.id}, now := t.now)
  }

  /** Any failure on the way: no permission, a changed target, a provider error, a cancelled request. */
  ghost predicate GiveUp(s: System, t: System, token: string) {
    && At(s, token)
    && (s.requests[token].phase.Waiting? || s.requests[token].phase.Calling? || s.requests[token].phase.Answered?)
    && t == Advanced(s, token, Failing)
  }

  /** completeAIChatRequestLocked with both messages, as ChatRepository.CompleteTransaction does it. */
  ghost predicate Commit(s: System, t: System, token: string) {
    && At(s, token) && s.requests[token].phase.Answered?
    && var (r, p) := (s.requests[token], s.requests[token].phase);
       if Owns(s.rows, r.session, token) && Absent(s.rows, p.question.id) && Absent(s.rows, p.answer.id) then
         t == Advanced(s, token, Done)
                .(rows := Completed(s.rows, r.session, token, Some(p.answer.createdAt), [p.question, p.answer]),
                  commits := s.commits + [token])
       else t == Advanced(s, token, Failing)
  }

  /** releaseAIChatRequestLocked: clears the token only while it is still its own. */
  ghost predicate Release(s: System, t: System, token: string) {
    && At(s, token) && s.requests[token].phase.Failing?
    && t == Advanced(s, token, Done).(rows := Cleared(s.rows, s.requests[token].session, token, None))
  }

  datatype Action =
    | DoCreate(id: string)
    | DoReserve(session: string, token: string)
    | DoBuild(token: string, question: Message)
    | DoAnswer(token: string, answer: Message)
    | DoGiveUp(token: string)
    | DoCommit(token: string)
    | DoRelease(token: string)

  ghost predicate Step(model: Model, s: System, t: System, a: Action) {
    match a
    case DoCreate(id) => Create(s, t, id)
    case DoReserve(session, token) => Reserve(s, t, session, token)
    case DoBuild(token, question) => Build(s, t, token, question)
    case DoAnswer(token, answer) => Answer(model, s, t, token, answer)
    case DoGiveUp(token) => GiveUp(s, t, token)
    case DoCommit(token) => Commit(s, t, token)
    case DoRelease(token) => Release(s, t, token)
  }

  ghost predicate Next(model: Model, s: System, t: System) {
    exists a :: Step(model, s, t, a)
  }

  ghost predicate Run(model: Model, trace: seq<System>) {
    && trace != [] && Init(trace[0])
    && forall i | 0 <= i < |trace| - 1 :: Next(model, trace[i], trace[i + 1])
  }

  // The invariant

  /** Each question and answer was produced from exactly the messages before the pair. */
  ghost predicate Serial(model: Model, messages: seq<Message>) {
    && |messages| % 2 == 0
    && forall k | 0 <= k < |messages| && k % 2 == 0 :: Exchange(model, messages, k)
  }

  ghost predicate Exchange(model: Model, messages: seq<Message>, k: nat)
    requires k < |messages| && |messages| % 2 == 0 && k % 2 == 0
  {
    && messages[k].role == User && messages[k + 1].role == Assistant
    && model(LimitedHistory(messages[..k]), messages[k], messages[k + 1].content)
  }

  /** Sorting by time keeps the order of commits. */
  ghost predicate InTimeOrder(messages: seq<Message>) {
    forall i, j | 0 <= i < j < |messages| :: messages[i].createdAt < messages[j].createdAt
  }

  ghost predicate Before(messages: seq<Message>, time: int) {
    forall m | m in messages :: m.createdAt < time
  }

  ghost function Last(reservations: seq<Reservation>, session: string): Option<string> {
    if reservations == [] then None
    else
      var r := reservations[|reservations| - 1];
      if r.session == session then Some(r.token) else Last(reservations[..|reservations| - 1], session)
  }

  ghost predicate RowOk(model: Model, s: System, id: string)
    requires id in s.rows
  {
    var row := s.rows[id];
    && Serial(model, row.messages) && InTimeOrder(row.messages) && Before(row.messages, s.now + 1)
    && (forall m | m in row.messages :: m.id in s.ids)
    && (row.token != "" ==>
          && row.token in s.requests && s.requests[row.token].session == id
          && !s.requests[row.token].phase.Done? && Last(s.reservations, id) == Some(row.token))
  }

  /** Messages prepared but not committed. */
  ghost function Pending(p: Phase): set<string> {
    match p
    case Calling(_, question) => {question.id}
    case Answered(_, question, answer) => {question.id, answer.id}
    case _ => {}
  }

  ghost predicate RequestOk(model: Model, s: System, token: string)
    requires token in s.requests
  {
    var r := s.requests[token];
    && token != "" && token in s.ids && r.session in s.rows
    && (forall id | id in Pending(r.phase) :: id in s.ids && Absent(s.rows, id))
    && (r.phase.Calling? || r.phase.Answered? ==>
          && r.phase.question.role == User
          && Before(r.phase.basis, r.phase.question.createdAt) && r.phase.question.createdAt <= s.now
          && (Owns(s.rows, r.session, token) ==> s.rows[r.session].messages == r.phase.basis))
    && (r.phase.Answered? ==>
          && r.phase.answer.role == Assistant && r.phase.answer.id != r.phase.question.id
          && r.phase.question.createdAt < r.phase.answer.createdAt <= s.now
          && model(LimitedHistory(r.phase.basis), r.phase.question, r.phase.answer.content))
  }

  ghost predicate Inv(model: Model, s: System) {
    && (forall id | id in s.rows :: RowOk(model, s, id))
    && (forall token | token in s.requests :: RequestOk(model, s, token))
    && (forall x, y | x in s.requests && y in s.requests && x != y ::
          Pending(s.requests[x].phase) !! Pending(s.requests[y].phase))
    && (forall i | 0 <= i < |s.commits| :: s.commits[i] in s.requests && s.requests[s.commits[i]].phase.Done?)
    && (forall i, j | 0 <= i < j < |s.commits| :: s.commits[i] != s.commits[j])
    && (forall i | 0 <= i < |s.reservations| :: s.reservations[i].token in s.requests)
  }

  // What a step leaves alone

  ghost predicate SameMessages(a: Rows, b: Rows) {
    a.Keys == b.Keys && forall id | id in a :: a[id].messages == b[id].messages
  }

  lemma AbsentKept(a: Rows, b: Rows, id: string)
    requires SameMessages(a, b) && Absent(a, id)
    ensures Absent(b, id)
  {
  }

  lemma RowKept(model: Model, s: System, t: System, id: string)
    requires id in s.rows && RowOk(model, s, id) && id in t.rows
    requires t.rows[id].messages == s.rows[id].messages && s.ids <= t.ids && s.now <= t.now
    requires var token := t.rows[id].token;
             token != "" ==> token in t.requests && t.requests[token].session == id
                             && !t.requests[token].phase.Done? && Last(t.reservations, id) == Some(token)
    ensures RowOk(model, t, id)
  {
    hide Serial;
    hide InTimeOrder;
  }

  lemma RequestKept(model: Model, s: System, t: System, token: string)
    requires token in s.requests && RequestOk(model, s, token) && token in t.requests
    requires t.requests[token] == s.requests[token] && t.requests[token].session in t.rows
    requires s.ids <= t.ids && s.now <= t.now
    requires forall id | id in Pending(t.requests[token].phase) :: Absent(t.rows, id)
    requires var session := t.requests[token].session;
             Owns(t.rows, session, token) ==>
               Owns(s.rows, session, token) && t.rows[session].messages == s.rows[session].messages
    ensures RequestOk(model, t, token)
  {
    hide LimitedHistory;
    hide Absent;
  }

  /** A step of one request that changes no row. */
  lemma OthersKept(model: Model, s: System, t: System, token: string)
    requires Inv(model, s) && token in s.requests && t.requests.Keys == s.requests.Keys && t.rows == s.rows
    requires forall x | x in s.requests && x != token :: t.requests[x] == s.requests[x]
    requires t.requests[token].session == s.requests[token].session && !t.requests[token].phase.Done?
    requires t.reservations == s.reservations && s.ids <= t.ids && s.now <= t.now
    ensures forall id | id in t.rows :: RowOk(model, t, id)
    ensures forall x | x in t.requests && x != token :: RequestOk(model, t, x)
  {
    hide RowOk;
    hide RequestOk;
    forall id | id in t.rows ensures RowOk(model, t, id) {
      TokenOk(model, s, id);
      RowKept(model, s, t, id);
    }
    forall x | x in t.requests && x != token ensures RequestOk(model, t, x) {
      PendingOk(model, s, x);
      RequestKept(model, s, t, x);
    }
  }

  lemma TokenOk(model: Model, s: System, id: string)
    requires id in s.rows && RowOk(model, s, id)
    ensures var token := s.rows[id].token;
            token != "" ==> token in s.requests && s.requests[token].session == id
                            && !s.requests[token].phase.Done? && Last(s.reservations, id) == Some(token)
  {
  }

  lemma PendingOk(model: Model, s: System, token: string)
    requires token in s.requests && RequestOk(model, s, token)
    ensures s.requests[token].session in s.rows && token != "" && token in s.ids
    ensures forall id | id in Pending(s.requests[token].phase) :: id in s.ids && Absent(s.rows, id)
  {
  }

  // Every step keeps the invariant

  lemma InitOk(model: Model, s: System)
    requires Init(s)
    ensures Inv(model, s)
  {
  }

  lemma CreateOk(model: Model, s: System, t: System, id: string)
    requires Inv(model, s) && Create(s, t, id)
    ensures Inv(model, t)
  {
    hide RequestOk;
    assert RowOk(model, t, id);
    hide RowOk;
    forall x | x in t.rows ensures RowOk(model, t, x) {
      if x != id {
        TokenOk(model, s, x);
        RowKept(model, s, t, x);
      }
    }
    forall x | x in t.requests ensures RequestOk(model, t, x) {
      PendingOk(model, s, x);
      RequestKept(model, s, t, x);
    }
  }

  lemma {:induction false} LastReserved(reservations: seq<Reservation>, session: string, token: string, id: string)
    ensures Last(reservations + [Reservation(session, token)], id) ==
            if id == session then Some(token) else Last(reservations, id)
  {
    var more := reservations + [Reservation(session, token)];
    assert more[..|more| - 1] == reservations;
  }

  lemma ReserveOk(model: Model, s: System, t: System, session: string, token: string)
    requires Inv(model, s) && Reserve(s, t, session, token)
    ensures Inv(model, t)
  {
    FreshIsAbsent(model, s, token);
    forall x | x in t.rows ensures RowOk(model, t, x) {
      ReservedRow(model, s, t, session, token, x);
    }
    forall x | x in t.requests && x != token ensures RequestOk(model, t, x) {
      ReservedOther(model, s, t, session, token, x);
    }
    IdleOk(model, t, token);
    hide RowOk;
    hide RequestOk;
    hide Absent;
    hide Last;
  }

  lemma ReservedRow(model: Model, s: System, t: System, session: string, token: string, x: string)
    requires Inv(model, s) && Reserve(s, t, session, token) && x in s.rows
    ensures RowOk(model, t, x)
  {
    hide RowOk;
    hide RequestOk;
    hide Absent;
    TokenOk(model, s, x);
    FreshIsAbsent(model, s, token);
    LastReserved(s.reservations, session, token, x);
    hide Last;
    RowKept(model, s, t, x);
  }

  lemma ReservedOther(model: Model, s: System, t: System, session: string, token: string, x: string)
    requires Inv(model, s) && Reserve(s, t, session, token) && x in s.requests
    ensures x != token && RequestOk(model, t, x)
  {
    hide RowOk;
    hide RequestOk;
    hide Absent;
    PendingOk(model, s, x);
    forall id | id in Pending(t.requests[x].phase) ensures Absent(t.rows, id) {
      AbsentKept(s.rows, t.rows, id);
    }
    RequestKept(model, s, t, x);
  }

  /** A request that has prepared no message. */
  lemma IdleOk(model: Model, s: System, token: string)
    requires token in s.requests && (s.requests[token].phase.Waiting? || s.requests[token].phase.Failing?
                                     || s.requests[token].phase.Done?)
    requires token != "" && token in s.ids && s.requests[token].session in s.rows
    ensures RequestOk(model, s, token)
  {
  }

  lemma FreshIsAbsent(model: Model, s: System, id: string)
    requires Inv(model, s) && id !in s.ids
    ensures Absent(s.rows, id)
    ensures forall x | x in s.requests :: id !in Pending(s.requests[x].phase) && x != id
  {
    forall x, m | x in s.rows && m in s.rows[x].messages ensures m.id != id {
      assert RowOk(model, s, x);
    }
    forall x | x in s.requests ensures id !in Pending(s.requests[x].phase) {
      PendingOk(model, s, x);
    }
  }

  lemma BuildOk(model: Model, s: System, t: System, token: string, question: Message)
    requires Inv(model, s) && Build(s, t, token, question)
    ensures Inv(model, t)
  {
    var session := s.requests[token].session;
    FreshIsAbsent(model, s, question.id);
    OthersKept(model, s, t, token);
    assert Before(s.rows[session].messages, question.createdAt) by {
      assert RowOk(model, s, session);
    }
    PendingOk(model, s, token);
    assert RequestOk(model, t, token);
    hide RowOk;
    hide RequestOk;
  }

  lemma AnswerOk(model: Model, s: System, t: System, token: string, answer: Message)
    requires Inv(model, s) && Answer(model, s, t, token, answer)
    ensures Inv(model, t)
  {
    hide RowOk;
    hide RequestOk;
    hide LimitedHistory;
    hide Absent;
    FreshIsAbsent(model, s, answer.id);
    OthersKept(model, s, t, token);
    AnsweredOk(model, s, t, token, answer);
    assert Pending(t.requests[token].phase) == Pending(s.requests[token].phase) + {answer.id};
  }

  lemma AnsweredOk(model: Model, s: System, t: System, token: string, answer: Message)
    requires token in s.requests && RequestOk(model, s, token) && Answer(model, s, t, token, answer)
    requires Absent(s.rows, answer.id)
    ensures RequestOk(model, t, token)
  {
    hide LimitedHistory;
    hide Absent;
  }

  lemma GiveUpOk(model: Model, s: System, t: System, token: string)
    requires Inv(model, s) && GiveUp(s, t, token)
    ensures Inv(model, t)
  {
    FailingOk(model, s, t, token);
  }

  lemma FailingOk(model: Model, s: System, t: System, token: string)
    requires Inv(model, s) && At(s, token) && !s.requests[token].phase.Done? && t == Advanced(s, token, Failing)
    ensures Inv(model, t)
  {
    hide RowOk;
    hide RequestOk;
    hide Absent;
    OthersKept(model, s, t, token);
    PendingOk(model, s, token);
    IdleOk(model, t, token);
  }

  lemma ReleaseOk(model: Model, s: System, t: System, token: string)
    requires Inv(model, s) && Release(s, t, token)
    ensures Inv(model, t)
  {
    hide Last;
    hide SameMessages;
    hide RowOk;
    hide RequestOk;
    hide Absent;
    PendingOk(model, s, token);
    forall x | x in t.rows ensures RowOk(model, t, x) {
      TokenOk(model, s, x);
      RowKept(model, s, t, x);
    }
    forall x | x in t.requests && x != token ensures RequestOk(model, t, x) {
      PendingOk(model, s, x);
      forall id | id in Pending(t.requests[x].phase) ensures Absent(t.rows, id) {
        AbsentKept(s.rows, t.rows, id);
      }
      RequestKept(model, s, t, x);
    }
    IdleOk(model, t, token);
  }

  // A commit

  lemma PairAppended(model: Model, messages: seq<Message>, question: Message, answer: Message)
    requires Serial(model, messages) && InTimeOrder(messages) && Before(messages, question.createdAt)
    requires question.role == User && answer.role == Assistant && question.createdAt < answer.createdAt
    requires model(LimitedHistory(messages), question, answer.content)
    ensures Serial(model, messages + [question, answer]) && InTimeOrder(messages + [question, answer])
  {
    hide LimitedHistory;
    var more, n := messages + [question, answer], |messages|;
    forall k | 0 <= k < |more| && k % 2 == 0 ensures Exchange(model, more, k) {
      if k < n {
        assert Exchange(model, messages, k);
        assert more[..k] == messages[..k];
      } else {
        assert more[..n] == messages;
      }
    }
    assert forall i | 0 <= i < n :: messages[i] in messages;
  }

  lemma CommittedRow(model: Model, s: System, t: System, token: string)
    requires Inv(model, s) && Commit(s, t, token) && t.commits != s.commits
    ensures RowOk(model, t, s.requests[token].session)
  {
    var (r, p) := (s.requests[token], s.requests[token].phase);
    assert RowOk(model, s, r.session) && RequestOk(model, s, token);
    hide LimitedHistory;
    hide Last;
    PairAppended(model, p.basis, p.question, p.answer);
    hide Serial;
    hide InTimeOrder;
  }

  /** Tokens differ between sessions, so only the committed request owned the row. */
  lemma CommittedOther(model: Model, s: System, t: System, token: string, x: string)
    requires Inv(model, s) && Commit(s, t, token) && t.commits != s.commits && x in s.requests && x != token
    ensures RequestOk(model, t, x)
  {
    hide LimitedHistory;
    hide Last;
    var (r, p) := (s.requests[token], s.requests[token].phase);
    hide RowOk;
    hide RequestOk;
    PendingOk(model, s, x);
    assert Pending(s.requests[x].phase) !! Pending(p);
    forall id | id in Pending(t.requests[x].phase) ensures Absent(t.rows, id) {
      assert Absent(s.rows, id) && id != p.question.id && id != p.answer.id;
      var row := t.rows[r.session];
      assert row.messages[|p.basis|..] == [p.question, p.answer] by {
        assert RequestOk(model, s, token);
        BasisIsCurrent(model, s, token);
      }
      BasisIsCurrent(model, s, token);
      AbsentAfter(s.rows, r.session, row, id);
    }
    RequestKept(model, s, t, x);
  }

  lemma BasisIsCurrent(model: Model, s: System, token: string)
    requires Inv(model, s) && token in s.requests && s.requests[token].phase.Answered?
    requires Owns(s.rows, s.requests[token].session, token)
    ensures s.rows[s.requests[token].session].messages == s.requests[token].phase.basis
  {
    assert RequestOk(model, s, token);
  }

  lemma CommitOk(model: Model, s: System, t: System, token: string)
    requires Inv(model, s) && Commit(s, t, token)
    ensures Inv(model, t)
  {
    hide RowOk;
    hide RequestOk;
    hide Absent;
    if t.commits == s.commits {
      FailingOk(model, s, t, token);
    } else {
      PendingOk(model, s, token);
      forall x | x in t.rows ensures RowOk(model, t, x) {
        if x == s.requests[token].session {
          CommittedRow(model, s, t, token);
        } else {
          TokenOk(model, s, x);
          RowKept(model, s, t, x);
        }
      }
      forall x | x in t.requests && x != token ensures RequestOk(model, t, x) {
        CommittedOther(model, s, t, token, x);
      }
      IdleOk(model, t, token);
      assert forall i | 0 <= i < |s.commits| :: s.commits[i] != token;
    }
  }

  lemma StepOk(model: Model, s: System, t: System)
    requires Inv(model, s) && Next(model, s, t)
    ensures Inv(model, t)
  {
    hide Inv;
    var a :| Step(model, s, t, a);
    match a
    case DoCreate(id) => CreateOk(model, s, t, id);
    case DoReserve(session, token) => ReserveOk(model, s, t, session, token);
    case DoBuild(token, question) => BuildOk(model, s, t, token, question);
    case DoAnswer(token, answer) => AnswerOk(model, s, t, token, answer);
    case DoGiveUp(token) => GiveUpOk(model, s, t, token);
    case DoCommit(token) => CommitOk(model, s, t, token);
    case DoRelease(token) => ReleaseOk(model, s, t, token);
  }

  lemma {:induction false} RunOk(model: Model, trace: seq<System>, i: nat)
    requires Run(model, trace) && i < |trace|
    ensures Inv(model, trace[i])
    decreases i
  {
    hide Inv;
    hide Next;
    if i == 0 {
      InitOk(model, trace[0]);
    } else {
      RunOk(model, trace, i - 1);
      StepOk(model, trace[i - 1], trace[i]);
    }
  }

  // The theorems

  /** In every run, every stored conversation is one that some serial execution would produce. */
  lemma AnswersAreSerial(model: Model, trace: seq<System>, i: nat, session: string)
    requires Run(model, trace) && i < |trace| && session in trace[i].rows
    ensures Serial(model, trace[i].rows[session].messages) && InTimeOrder(trace[i].rows[session].messages)
  {
    RunOk(model, trace, i);
    assert RowOk(model, trace[i], session);
  }

  /** No token commits twice. */
  lemma TokensCommitOnce(model: Model, trace: seq<System>, i: nat, j: nat, k: nat)
    requires Run(model, trace) && i < |trace| && j < k < |trace[i].commits|
    ensures trace[i].commits[j] != trace[i].commits[k]
  {
    RunOk(model, trace, i);
    hide RowOk;
    hide RequestOk;
  }

  /** A request that commits is the last one that reserved its session, and it adds to what it read. */
  lemma OnlyTheLatestCommits(model: Model, trace: seq<System>, i: nat, token: string)
    requires Run(model, trace) && i + 1 < |trace| && trace[i + 1].commits == trace[i].commits + [token]
    ensures token in trace[i].requests && trace[i].requests[token].phase.Answered?
    ensures var r := trace[i].requests[token];
            && r.session in trace[i].rows && r.session in trace[i + 1].rows
            && Last(trace[i].reservations, r.session) == Some(token)
            && trace[i].rows[r.session].messages == r.phase.basis
            && trace[i + 1].rows[r.session].messages == r.phase.basis + [r.phase.question, r.phase.answer]
  {
    var s, t := trace[i], trace[i + 1];
    RunOk(model, trace, i);
    assert Next(model, s, t);
    var a :| Step(model, s, t, a);
    assert |t.commits| == |s.commits| + 1 && t.commits[|s.commits|] == token;
    assert a.DoCommit? && a.token == token;
    var session := s.requests[token].session;
    TokenOk(model, s, session);
    BasisIsCurrent(model, s, token);
  }

  /** What no step undoes. */
  ghost predicate Grows(s: System, t: System) {
    && (forall id | id in s.rows :: id in t.rows && s.rows[id].messages <= t.rows[id].messages)
    && (forall x | x in s.requests :: x in t.requests && t.requests[x].session == s.requests[x].session)
    && s.commits <= t.commits
  }

  lemma RequestStepGrows(s: System, t: System, token: string, phase: Phase)
    requires token in s.requests && SameMessages(s.rows, t.rows) && t.commits == s.commits
    requires t.requests == s.requests[token := s.requests[token].(phase := phase)]
    ensures Grows(s, t)
  {
  }

  lemma ReserveGrows(model: Model, s: System, t: System, session: string, token: string)
    requires Inv(model, s) && Reserve(s, t, session, token)
    ensures Grows(s, t)
  {
    FreshIsAbsent(model, s, token);
    hide Inv;
    assert SameMessages(s.rows, t.rows);
  }

  lemma CommitGrows(s: System, t: System, token: string)
    requires Commit(s, t, token)
    ensures Grows(s, t)
  {
    hide Absent;
    if t.commits == s.commits {
      RequestStepGrows(s, t, token, Failing);
    } else {
      var session := s.requests[token].session;
      assert s.rows[session].messages <= t.rows[session].messages;
    }
  }

  lemma StepGrows(model: Model, s: System, t: System)
    requires Inv(model, s) && Next(model, s, t)
    ensures Grows(s, t)
  {
    hide Inv;
    hide LimitedHistory;
    var a :| Step(model, s, t, a);
    match a
    case DoCreate(id) =>
    case DoReserve(session, token) => ReserveGrows(model, s, t, session, token);
    case DoCommit(token) => CommitGrows(s, t, token);
    case DoBuild(token, question) => RequestStepGrows(s, t, token, t.requests[token].phase);
    case DoAnswer(token, answer) => RequestStepGrows(s, t, token, t.requests[token].phase);
    case DoGiveUp(token) => RequestStepGrows(s, t, token, Failing);
    case DoRelease(token) => RequestStepGrows(s, t, token, Done);
  }

  /** Committed messages stay, in their place, for the rest of the run. */
  lemma {:induction false} MessagesOnlyGrow(model: Model, trace: seq<System>, i: nat, k: nat)
    requires Run(model, trace) && i <= k < |trace|
    ensures Grows(trace[i], trace[k])
    decreases k
  {
    hide Inv;
    hide Next;
    if i < k {
      MessagesOnlyGrow(model, trace, i, k - 1);
      RunOk(model, trace, k - 1);
      StepGrows(model, trace[k - 1], trace[k]);
    }
  }

  ghost predicate Overtaken(s: System, token: string) {
    token in s.requests && Last(s.reservations, s.requests[token].session) != Some(token)
  }

  lemma CommitterIsLast(model: Model, s: System, x: string)
    requires Inv(model, s) && x in s.requests && Owns(s.rows, s.requests[x].session, x)
    ensures !Overtaken(s, x)
  {
    PendingOk(model, s, x);
    TokenOk(model, s, s.requests[x].session);
  }

  lemma StaysOvertaken(model: Model, s: System, t: System, token: string)
    requires Inv(model, s) && Next(model, s, t) && Overtaken(s, token)
    ensures Overtaken(t, token)
    ensures token in t.commits ==> token in s.commits
  {
    hide Inv;
    hide LimitedHistory;
    hide Absent;
    hide Last;
    var a :| Step(model, s, t, a);
    match a
    case DoReserve(session, newer) =>
      FreshIsAbsent(model, s, newer);
      LastReserved(s.reservations, session, newer, s.requests[token].session);
    case DoCommit(x) =>
      if Owns(s.rows, s.requests[x].session, x) {
        CommitterIsLast(model, s, x);
      }
    case _ =>
  }

  /** A request overtaken by a later reservation never commits afterwards. */
  lemma {:induction false} OvertakenNeverCommits(model: Model, trace: seq<System>, i: nat, k: nat, token: string)
    requires Run(model, trace) && i <= k < |trace| && Overtaken(trace[i], token)
    ensures Overtaken(trace[k], token)
    ensures token in trace[k].commits ==> token in trace[i].commits
    decreases k
  {
    hide Inv;
    hide Next;
    hide Overtaken;
    if i < k {
      OvertakenNeverCommits(model, trace, i, k - 1, token);
      RunOk(model, trace, k - 1);
      StaysOvertaken(model, trace[k - 1], trace[k], token);
    }
  }
}
