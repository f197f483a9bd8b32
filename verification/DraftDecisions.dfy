/**
 What a decision about a draft means for the operations that come after it: domain/documentdraft/flow.go
 and the draft operations of services/vdoc/store.go. The decisions are told apart by what they allow in
 every run, whoever calls what and when.
 */

module DraftDecisions {
  import opened Wrappers
  import opened DraftWorkflow

  ghost predicate Accepted(parse: Parser, w: Workflow, op: Operation, now: int) {
    match op
    case DoCreate(input, id) => Create(parse, w, input, id, now).Ok?
    case DoUpdate(id, patch) => Update(parse, w, id, patch, now).Ok?
    case DoSubmit(id) => Submit(w, id, now).Ok?
    case DoReview(id, action, expected, comment, version) =>
      Review(parse, w, id, action, expected, comment, version, now).1.None?
  }

  datatype Call = Call(op: Operation, now: int)

  /** A run together with the call of each of its steps. */
  ghost predicate Called(parse: Parser, trace: seq<Workflow>, calls: seq<Call>) {
    && |trace| == |calls| + 1 && trace[0] == Workflow(map[], map[], [])
    && forall i | 0 <= i < |calls| ::
         Possible(trace[i], calls[i].op, calls[i].now)
         && trace[i + 1] == After(parse, trace[i], calls[i].op, calls[i].now)
  }

  lemma CalledRuns(parse: Parser, trace: seq<Workflow>, calls: seq<Call>)
    requires Called(parse, trace, calls)
    ensures Run(parse, trace)
  {
    hide After;
    forall i | 0 <= i < |trace| - 1 ensures Step(parse, trace[i], trace[i + 1]) {
      assert Possible(trace[i], calls[i].op, calls[i].now);
    }
  }

  lemma CalledAt(parse: Parser, trace: seq<Workflow>, calls: seq<Call>, i: nat)
    requires Called(parse, trace, calls) && i < |calls|
    ensures |trace| == |calls| + 1 && Possible(trace[i], calls[i].op, calls[i].now)
    ensures trace[i + 1] == After(parse, trace[i], calls[i].op, calls[i].now)
    ensures Inv(trace[i])
  {
    hide After;
    hide Possible;
    CalledRuns(parse, trace, calls);
    hide Inv;
    RunKeeps(parse, trace, i);
  }

  /** An accepted review of a draft with this decision. */
  ghost predicate Decides(parse: Parser, w: Workflow, call: Call, id: Id, action: ReviewAction) {
    call.op.DoReview? && call.op.id == id && call.op.action == action && Accepted(parse, w, call.op, call.now)
  }

  ghost predicate Enters(w: Workflow, u: Workflow, id: Id, status: Status) {
    id in u.drafts && u.drafts[id].status == status && (id in w.drafts ==> w.drafts[id].status != status)
  }

  ghost predicate StatusKept(w: Workflow, u: Workflow, id: Id) {
    id in u.drafts ==> id in w.drafts && u.drafts[id].status == w.drafts[id].status
  }

  lemma WriterDecidesNothing(parse: Parser, w: Workflow, u: Workflow, op: Operation, now: int, id: Id)
    requires Possible(w, op, now) && u == After(parse, w, op, now) && !op.DoReview?
    ensures u.versions == w.versions
    ensures StatusKept(w, u, id) || (id in u.drafts && u.drafts[id].status == Draft)
            || (op == DoSubmit(id) && Accepted(parse, w, op, now))
    ensures op == DoSubmit(id) && Accepted(parse, w, op, now) ==> Enters(w, u, id, Submitted)
  {
    hide Latest;
    hide NameTaken;
    hide Unchanged;
    hide ContentRefused;
  }

  lemma PublishDecides(parse: Parser, w: Workflow, d: ContractDraft, review: ReviewRevision, comment: string,
                       version: Id, now: int)
    requires d.id in w.drafts && w.drafts[d.id] == d && version !in w.versions
    ensures var (u, error) := Publish(parse, w, d, review, comment, version, now);
            if error.Some? then u == w
            else u.drafts.Keys == w.drafts.Keys && u.drafts[d.id].status == Published
                 && (forall x | x in w.drafts && x != d.id :: u.drafts[x] == w.drafts[x])
                 && u.versions.Keys == w.versions.Keys + {version} && u.versions != w.versions
  {
    hide Latest;
    hide NameTaken;
    hide Unchanged;
  }

  lemma ReviewDecides(parse: Parser, w: Workflow, u: Workflow, call: Call, id: Id)
    requires Indexed(w) && Possible(w, call.op, call.now) && u == After(parse, w, call.op, call.now)
    requires call.op.DoReview?
    ensures Accepted(parse, w, call.op, call.now) ==>
              call.op.id in w.drafts && w.drafts[call.op.id].status == Submitted && call.op.id in u.drafts
              && u.drafts[call.op.id].status ==
                 match call.op.action
                 case Approve => Published
                 case RequestChanges => ChangesRequested
                 case Reject => Status.Rejected
                 case Other => Draft
    ensures Accepted(parse, w, call.op, call.now) ==> !call.op.action.Other?
    ensures !Accepted(parse, w, call.op, call.now) || id != call.op.id ==> StatusKept(w, u, id)
    ensures if Decides(parse, w, call, call.op.id, Approve)
            then u.versions.Keys == w.versions.Keys + {call.op.version} && u.versions != w.versions
            else u.versions == w.versions
  {
    hide Latest;
    hide ClockAhead;
    var op := call.op;
    if op.id in w.drafts {
      var d := Previewed(w, w.drafts[op.id]);
      if op.action == Approve && op.expected.Some? {
        PublishDecides(parse, w.(drafts := w.drafts[op.id := d]), d, op.expected.value, op.comment, op.version,
                       call.now);
      }
    }
    hide Publish;
  }

  lemma StepDecides(parse: Parser, w: Workflow, u: Workflow, call: Call, id: Id)
    requires Inv(w) && Possible(w, call.op, call.now) && u == After(parse, w, call.op, call.now)
    ensures Enters(w, u, id, Status.Rejected) <==> Decides(parse, w, call, id, Reject)
    ensures Enters(w, u, id, ChangesRequested) <==> Decides(parse, w, call, id, RequestChanges)
    ensures Enters(w, u, id, Published) <==> Decides(parse, w, call, id, Approve)
    ensures Enters(w, u, id, Submitted) <==> call.op == DoSubmit(id) && Accepted(parse, w, call.op, call.now)
    ensures Decides(parse, w, call, id, Approve) ==>
              u.versions.Keys == w.versions.Keys + {call.op.version} && u.versions != w.versions
    ensures u.versions != w.versions ==> call.op.DoReview? && Decides(parse, w, call, call.op.id, Approve)
  {
    StateIndexed(w);
    if call.op.DoReview? {
      ReviewDecides(parse, w, u, call, id);
    } else {
      WriterDecidesNothing(parse, w, u, call.op, call.now, id);
    }
    hide Inv;
    hide After;
    hide Accepted;
    hide Indexed;
  }

  /** A draft becomes rejected, returned for changes or published exactly when a review with that decision
      is accepted, and submitted exactly when its submission is. */
  lemma DecisionsDecide(parse: Parser, trace: seq<Workflow>, calls: seq<Call>, i: nat, id: Id)
    requires Called(parse, trace, calls) && i < |calls|
    ensures Enters(trace[i], trace[i + 1], id, Status.Rejected) <==> Decides(parse, trace[i], calls[i], id, Reject)
    ensures Enters(trace[i], trace[i + 1], id, ChangesRequested) <==>
            Decides(parse, trace[i], calls[i], id, RequestChanges)
    ensures Enters(trace[i], trace[i + 1], id, Published) <==> Decides(parse, trace[i], calls[i], id, Approve)
    ensures Enters(trace[i], trace[i + 1], id, Submitted) <==>
            calls[i].op == DoSubmit(id) && Accepted(parse, trace[i], calls[i].op, calls[i].now)
  {
    CalledRuns(parse, trace, calls);
    RunKeeps(parse, trace, i);
    hide Inv;
    hide After;
    hide Accepted;
    StepDecides(parse, trace[i], trace[i + 1], calls[i], id);
  }

  /** Only an accepted approval makes a version, and it makes one. */
  lemma VersionsByApproval(parse: Parser, trace: seq<Workflow>, calls: seq<Call>, i: nat)
    requires Called(parse, trace, calls) && i < |calls|
    ensures trace[i + 1].versions != trace[i].versions <==>
            exists id :: Decides(parse, trace[i], calls[i], id, Approve)
    ensures trace[i + 1].versions != trace[i].versions ==>
              calls[i].op.DoReview? && calls[i].op.version !in trace[i].versions
              && trace[i + 1].versions.Keys == trace[i].versions.Keys + {calls[i].op.version}
  {
    CalledRuns(parse, trace, calls);
    RunKeeps(parse, trace, i);
    hide Inv;
    hide After;
    hide Accepted;
    var op := calls[i].op;
    assert Possible(trace[i], op, calls[i].now);
    StepDecides(parse, trace[i], trace[i + 1], calls[i], if op.DoReview? then op.id else 0);
  }

  // After a rejection

  /** After a rejection or an approval no call about the draft is accepted again, whatever it asks. */
  lemma DecidedForGood(parse: Parser, trace: seq<Workflow>, calls: seq<Call>, i: nat, id: Id, k: nat, call: Call)
    requires Called(parse, trace, calls) && i < |calls| && i < k < |trace|
    requires Decides(parse, trace[i], calls[i], id, Reject) || Decides(parse, trace[i], calls[i], id, Approve)
    requires !call.op.DoCreate? && call.op.id == id
    ensures !Accepted(parse, trace[k], call.op, call.now)
  {
    DecisionsDecide(parse, trace, calls, i, id);
    CalledRuns(parse, trace, calls);
    RunEvolves(parse, trace, i + 1, k);
    hide Called;
    hide Decides;
    hide Latest;
    hide NameTaken;
    hide Unchanged;
    hide Publish;
    assert DraftEvolves(trace[i + 1].drafts[id], trace[k].drafts[id]);
  }

  // After a request for changes

  /** Its writer can change the draft. */
  predicate Open(w: Workflow, id: Id) {
    id in w.drafts && WriterCanChange(w.drafts[id].status)
  }

  lemma StaysOpen(parse: Parser, w: Workflow, u: Workflow, call: Call, id: Id)
    requires Possible(w, call.op, call.now) && u == After(parse, w, call.op, call.now) && Inv(w)
    requires Open(w, id) && call.op != DoSubmit(id)
    ensures Open(u, id)
  {
    assert id in u.drafts by {
      Remains(parse, w, u, call);
    }
    StepDecides(parse, w, u, call, id);
    if Decides(parse, w, call, id, Reject) || Decides(parse, w, call, id, RequestChanges)
       || Decides(parse, w, call, id, Approve) {
      StateIndexed(w);
      hide Inv;
      hide After;
      ReviewDecides(parse, w, u, call, id);
    }
    hide Inv;
    hide After;
    hide Accepted;
  }

  lemma Remains(parse: Parser, w: Workflow, u: Workflow, call: Call)
    requires Possible(w, call.op, call.now) && u == After(parse, w, call.op, call.now) && Inv(w)
    ensures w.drafts.Keys <= u.drafts.Keys
  {
    assert Step(parse, w, u);
    hide After;
    hide Inv;
    StepKeeps(parse, w, u);
  }

  ghost predicate Unsubmitted(calls: seq<Call>, i: nat, k: nat, id: Id)
    requires k <= |calls|
  {
    forall m | i <= m < k :: calls[m].op != DoSubmit(id)
  }

  lemma {:induction false} OpenUntilSubmitted(parse: Parser, trace: seq<Workflow>, calls: seq<Call>, i: nat, k: nat,
                                              id: Id)
    requires Called(parse, trace, calls) && i <= k <= |calls| && Unsubmitted(calls, i, k, id)
    requires Open(trace[i], id)
    ensures Open(trace[k], id)
    decreases k
  {
    hide *;
    if i < k {
      UnsubmittedBefore(calls, i, k, id);
      OpenUntilSubmitted(parse, trace, calls, i, k - 1, id);
      CalledAt(parse, trace, calls, k - 1);
      StaysOpen(parse, trace[k - 1], trace[k], calls[k - 1], id);
    }
  }

  lemma UnsubmittedBefore(calls: seq<Call>, i: nat, k: nat, id: Id)
    requires i < k <= |calls| && Unsubmitted(calls, i, k, id)
    ensures Unsubmitted(calls, i, k - 1, id) && calls[k - 1].op != DoSubmit(id)
  {
  }

  /** The patch shows the draft as it is, and its name and content can become a version. */
  ghost predicate Acceptable(parse: Parser, w: Workflow, id: Id, patch: PatchInput)
    requires id in w.drafts
  {
    var d := w.drafts[id];
    var name := patch.name.GetOr(d.name);
    && patch.expected == Some(d.CurrentRevision())
    && !Blank(name) && (patch.plainText || !Blank(patch.content))
    && (forall v | v in w.versions && OnBranch(w.versions[v], d.document, d.branch) :: w.versions[v].name != name)
    && parse(d.document, patch.content).Some?
    && forall v: Id | IsLatest(w.versions, d.document, d.branch, Some(v)) ::
         w.versions[v].normalized != parse(d.document, patch.content).value
  }

  lemma OpenAccepts(parse: Parser, w: Workflow, id: Id, patch: PatchInput, now: int, later: int)
    requires Inv(w) && Open(w, id)
    ensures Accepted(parse, w, DoUpdate(id, patch), now) <==> Acceptable(parse, w, id, patch)
    ensures Acceptable(parse, w, id, patch) ==>
              Accepted(parse, After(parse, w, DoUpdate(id, patch), now), DoSubmit(id), later)
  {
    OpenUpdates(parse, w, id, patch, now);
    if Acceptable(parse, w, id, patch) {
      hide Inv;
      UpdatedSubmits(parse, w, id, patch, now, later);
    }
    hide Inv;
    hide Accepted;
    hide After;
    hide Acceptable;
  }

  /** An accepted change can be submitted as it stands. */
  lemma UpdatedSubmits(parse: Parser, w: Workflow, id: Id, patch: PatchInput, now: int, later: int)
    requires Accepted(parse, w, DoUpdate(id, patch), now)
    ensures Accepted(parse, After(parse, w, DoUpdate(id, patch), now), DoSubmit(id), later)
  {
    hide Latest;
    hide Unchanged;
    hide ContentRefused;
  }

  lemma LatestDiffers(w: Workflow, document: Id, branch: Id, normalized: string)
    requires Indexed(w)
    ensures !Unchanged(w.versions, document, branch, normalized) <==>
            forall v | IsLatest(w.versions, document, branch, Some(v)) :: w.versions[v].normalized != normalized
  {
    var latest := LatestExists(w.versions, document, branch);
    LatestIsOne(w.versions, document, branch, latest);
    forall v: Id | IsLatest(w.versions, document, branch, Some(v)) ensures latest == Some(v) {
      LatestIsOne(w.versions, document, branch, Some(v));
    }
    hide Latest;
  }

  lemma OpenUpdates(parse: Parser, w: Workflow, id: Id, patch: PatchInput, now: int)
    requires Inv(w) && Open(w, id)
    ensures Accepted(parse, w, DoUpdate(id, patch), now) <==> Acceptable(parse, w, id, patch)
  {
    StateIndexed(w);
    hide Inv;
    var d := w.drafts[id];
    var normalized := parse(d.document, patch.content);
    if normalized.Some? {
      LatestDiffers(w, d.document, d.branch, normalized.value);
    }
    hide Latest;
    hide IsLatest;
    hide Unchanged;
    hide Indexed;
  }

  /** After a request for changes the writer can change the draft, by exactly the acceptable patches, and
      submit it again; this holds until the draft is submitted. */
  lemma ReturnedForChanges(parse: Parser, trace: seq<Workflow>, calls: seq<Call>, i: nat, id: Id, k: nat,
                           patch: PatchInput, now: int, later: int)
    requires Called(parse, trace, calls) && i < k <= |calls| && Unsubmitted(calls, i + 1, k, id)
    requires Decides(parse, trace[i], calls[i], id, RequestChanges)
    ensures id in trace[k].drafts
    ensures Accepted(parse, trace[k], DoUpdate(id, patch), now) <==> Acceptable(parse, trace[k], id, patch)
    ensures Acceptable(parse, trace[k], id, patch) ==>
              Accepted(parse, After(parse, trace[k], DoUpdate(id, patch), now), DoSubmit(id), later)
  {
    DecisionsDecide(parse, trace, calls, i, id);
    OpenUntilSubmitted(parse, trace, calls, i + 1, k, id);
    CalledRuns(parse, trace, calls);
    RunKeeps(parse, trace, k);
    hide Inv;
    hide Called;
    hide Accepted;
    hide After;
    OpenAccepts(parse, trace[k], id, patch, now, later);
  }

  // What a version holds

  datatype Part = Content | Name | Changelog | Commit

  function Of(d: ContractDraft, part: Part): string {
    match part
    case Content => d.raw
    case Name => d.name
    case Changelog => d.changelog
    case Commit => d.commit
  }

  function Released(v: ContractVersion, part: Part): string {
    match part
    case Content => v.raw
    case Name => v.name
    case Changelog => v.changelog
    case Commit => v.commit
  }

  /** What a writer says about this part of the draft. */
  function Written(op: Operation, id: Id, part: Part): Option<string> {
    match op
    case DoCreate(input, x) =>
      if x != id then None
      else
        Some(match part
             case Content => input.content
             case Name => input.name
             case Changelog => input.changelog
             case Commit => input.commit)
    case DoUpdate(x, patch) =>
      if x != id then None
      else
        (match part
         case Content => Some(patch.content)
         case Name => patch.name
         case Changelog => patch.changelog
         case Commit => patch.commit)
    case _ => None
  }

  lemma WriterWrites(parse: Parser, w: Workflow, u: Workflow, op: Operation, now: int, id: Id, part: Part)
    requires Possible(w, op, now) && u == After(parse, w, op, now) && !op.DoReview? && id in u.drafts
    ensures if Accepted(parse, w, op, now) && Written(op, id, part).Some?
            then Of(u.drafts[id], part) == Written(op, id, part).value
            else id in w.drafts && Of(u.drafts[id], part) == Of(w.drafts[id], part)
  {
    hide Latest;
    hide NameTaken;
    hide Unchanged;
    hide ContentRefused;
  }

  /** A review leaves every part of every draft as it was, and a new version holds those of its draft. */
  lemma ReviewCopies(parse: Parser, w: Workflow, u: Workflow, call: Call, id: Id, part: Part)
    requires Indexed(w) && Possible(w, call.op, call.now) && u == After(parse, w, call.op, call.now)
    requires call.op.DoReview?
    ensures id in u.drafts ==> id in w.drafts && Of(u.drafts[id], part) == Of(w.drafts[id], part)
    ensures Decides(parse, w, call, id, Approve) ==>
              && id in w.drafts && call.op.version in u.versions
              && var v := u.versions[call.op.version];
                 && v.id == call.op.version && v.draft == id && v.publishedAt == call.now
                 && v.document == w.drafts[id].document && v.branch == w.drafts[id].branch
                 && Released(v, part) == Of(w.drafts[id], part)
                 && Some(v.normalized) == parse(v.document, v.raw)
  {
    hide Latest;
    hide ClockAhead;
    hide NameTaken;
    hide Unchanged;
  }

  /** Nothing was accepted since step i that would write this part. */
  ghost predicate Unwritten(parse: Parser, trace: seq<Workflow>, calls: seq<Call>, i: nat, k: nat, id: Id, part: Part)
    requires k <= |calls| <= |trace|
  {
    forall m | i < m < k && Accepted(parse, trace[m], calls[m].op, calls[m].now) ::
      Written(calls[m].op, id, part).None?
  }

  lemma StepWrites(parse: Parser, w: Workflow, u: Workflow, call: Call, id: Id, part: Part)
    requires Inv(w) && Possible(w, call.op, call.now) && u == After(parse, w, call.op, call.now) && id in u.drafts
    ensures if Accepted(parse, w, call.op, call.now) && Written(call.op, id, part).Some?
            then Of(u.drafts[id], part) == Written(call.op, id, part).value
            else id in w.drafts && Of(u.drafts[id], part) == Of(w.drafts[id], part)
  {
    StateIndexed(w);
    hide Inv;
    hide Indexed;
    hide After;
    hide Accepted;
    if call.op.DoReview? {
      ReviewCopies(parse, w, u, call, id, part);
    } else {
      WriterWrites(parse, w, u, call.op, call.now, id, part);
    }
  }

  /** A draft holds what the last accepted call that wrote the part said. */
  lemma {:induction false} DraftHoldsLastWritten(parse: Parser, trace: seq<Workflow>, calls: seq<Call>, k: nat, id: Id,
                                                 part: Part)
    returns (i: nat)
    requires Called(parse, trace, calls) && k < |trace| && id in trace[k].drafts
    ensures i < k <= |calls| && Accepted(parse, trace[i], calls[i].op, calls[i].now)
    ensures Written(calls[i].op, id, part) == Some(Of(trace[k].drafts[id], part))
    ensures Unwritten(parse, trace, calls, i, k, id, part)
    decreases k
  {
    hide After;
    hide Accepted;
    hide Written;
    hide Of;
    assert k > 0 && |trace| == |calls| + 1;
    var call := calls[k - 1];
    CalledAt(parse, trace, calls, k - 1);
    hide Inv;
    StepWrites(parse, trace[k - 1], trace[k], call, id, part);
    if Accepted(parse, trace[k - 1], call.op, call.now) && Written(call.op, id, part).Some? {
      i := k - 1;
    } else {
      i := DraftHoldsLastWritten(parse, trace, calls, k - 1, id, part);
    }
  }

  /** A version holds, part by part, what was last written to its draft before it was approved. */
  lemma VersionHoldsLastWritten(parse: Parser, trace: seq<Workflow>, calls: seq<Call>, k: nat, id: Id, part: Part)
    returns (i: nat)
    requires Called(parse, trace, calls) && k < |calls| && Decides(parse, trace[k], calls[k], id, Approve)
    ensures i < k && Accepted(parse, trace[i], calls[i].op, calls[i].now)
    ensures Unwritten(parse, trace, calls, i, k, id, part)
    ensures calls[k].op.version in trace[k + 1].versions
    ensures var v := trace[k + 1].versions[calls[k].op.version];
            && v.draft == id && v.publishedAt == calls[k].now && Some(v.normalized) == parse(v.document, v.raw)
            && Written(calls[i].op, id, part) == Some(Released(v, part))
  {
    CalledAt(parse, trace, calls, k);
    StateIndexed(trace[k]);
    ReviewCopies(parse, trace[k], trace[k + 1], calls[k], id, part);
    i := DraftHoldsLastWritten(parse, trace, calls, k, id, part);
    hide Inv;
    hide After;
    hide Accepted;
    hide Called;
  }
}
