/**
 Drafts and the versions published from them: domain/documentdraft, domain/documentversion and the
 draft operations of services/vdoc/store.go. One operation runs at a time, ids are ordered numbers,
 times are microseconds, and a hash stands for the content it was taken from. */
module DraftWorkflow {
  import opened Wrappers
  import opened TextSpace

  type Id = nat

  datatype Error = NotFound | InvalidArgument | FailedPrecondition | AlreadyExists

  datatype Status = Draft | Submitted | ChangesRequested | Rejected | Published

  /** What Revision hashes. */
  datatype Revision = Revision(id: Id, document: Id, branch: Id, name: string, changelog: string, commit: string,
                               raw: string, status: Status, comment: string)

  /** What ReviewRevision hashes; the baseline is the version the shown diff starts from. */
  datatype ReviewRevision = ReviewRevision(revision: Revision, submittedAt: Option<int>, baseline: Option<Id>)

  datatype ContractDraft = ContractDraft(id: Id, document: Id, branch: Id, name: string, changelog: string,
                                         commit: string,
                                         raw: string, normalized: string, status: Status, comment: string,
                                         baseline: Option<Id>, submittedAt: Option<int>, updatedAt: int) {
    function CurrentRevision(): Revision {
      Revision(id, document, branch, name, changelog, commit, raw, status, comment)
    }

    function CurrentReview(): Option<ReviewRevision> {
      if status == Submitted then Some(ReviewRevision(CurrentRevision(), submittedAt, baseline)) else None
    }
  }

  datatype ContractVersion = ContractVersion(id: Id, document: Id, branch: Id, draft: Id, name: string,
                                             changelog: string,
                                             commit: string, raw: string, normalized: string, publishedAt: int)

  /** The parser of each document: the normalised content, or an error. */
  type Parser = (Id, string) -> Option<string>

  datatype Event =
    | Submission(draft: Id, at: int, revision: Revision)
    | Approval(draft: Id, version: Id, review: ReviewRevision)

  /** Drafts and versions, and what has been submitted and approved so far. */
  datatype Workflow = Workflow(drafts: map<Id, ContractDraft>, versions: map<Id, ContractVersion>, log: seq<Event>)

  // Which version is the latest

  predicate Newer(a: ContractVersion, b: ContractVersion) {
    a.publishedAt > b.publishedAt || (a.publishedAt == b.publishedAt && a.id > b.id)
  }

  predicate OnBranch(v: ContractVersion, document: Id, branch: Id) {
    v.document == document && v.branch == branch
  }

  ghost predicate IsLatest(versions: map<Id, ContractVersion>, document: Id, branch: Id, latest: Option<Id>) {
    match latest
    case None => forall x | x in versions :: !OnBranch(versions[x], document, branch)
    case Some(id) =>
      && id in versions && OnBranch(versions[id], document, branch)
      && forall x | x in versions && x != id && OnBranch(versions[x], document, branch) ::
         Newer(versions[id], versions[x])
  }

  /** The latest version of a branch. */
  ghost function Latest(versions: map<Id, ContractVersion>, document: Id, branch: Id): Option<Id> {
    if exists l :: IsLatest(versions, document, branch, l) then
      var latest :| IsLatest(versions, document, branch, latest);
      latest
    else None
  }

  lemma {:induction false} LatestExists(versions: map<Id, ContractVersion>, document: Id, branch: Id)
    returns (latest: Option<Id>)
    requires forall x | x in versions :: versions[x].id == x
    ensures IsLatest(versions, document, branch, latest)
    decreases |versions|
  {
    if versions == map[] {
      latest := None;
    } else {
      var x :| x in versions;
      var rest := versions - {x};
      assert forall y | y in versions && y != x :: y in rest && rest[y] == versions[y];
      latest := LatestExists(rest, document, branch);
      if OnBranch(versions[x], document, branch) && (latest.None? || Newer(versions[x], versions[latest.value])) {
        latest := Some(x);
      }
    }
  }

  lemma LatestIsOne(versions: map<Id, ContractVersion>, document: Id, branch: Id, latest: Option<Id>)
    requires IsLatest(versions, document, branch, latest)
    ensures Latest(versions, document, branch) == latest
  {
  }

  ghost predicate Indexed(w: Workflow) {
    && (forall x | x in w.versions :: w.versions[x].id == x)
    && (forall x | x in w.drafts :: w.drafts[x].id == x)
  }

  predicate NameTaken(versions: map<Id, ContractVersion>, document: Id, branch: Id, name: string) {
    exists x | x in versions :: OnBranch(versions[x], document, branch) && versions[x].name == name
  }

  ghost predicate Unchanged(versions: map<Id, ContractVersion>, document: Id, branch: Id, normalized: string) {
    var latest := Latest(versions, document, branch);
    latest.Some? && latest.value in versions && versions[latest.value].normalized == normalized
  }

  predicate Blank(s: string) {
    TrimSpace(s) == ""
  }

  predicate WriterCanChange(status: Status) {
    status == Draft || status == ChangesRequested
  }

  // The operations

  datatype DraftInput = DraftInput(document: Id, branch: Id, name: string, changelog: string, commit: string,
                                   content: string, plainText: bool)

  datatype PatchInput = PatchInput(expected: Option<Revision>, name: Option<string>, changelog: Option<string>,
                                   commit: Option<string>, content: string, plainText: bool)

  datatype ReviewAction = Approve | RequestChanges | Reject | Other

  predicate ContentRefused(name: string, content: string, plainText: bool) {
    Blank(name) || (!plainText && Blank(content))
  }

  ghost function Create(parse: Parser, w: Workflow, input: DraftInput, id: Id, now: int): Result<Workflow, Error> {
    var normalized := parse(input.document, input.content);
    if ContentRefused(input.name, input.content, input.plainText) then Err(InvalidArgument)
    else if normalized.None? then Err(InvalidArgument)
    else if Unchanged(w.versions, input.document, input.branch, normalized.value) then Err(FailedPrecondition)
    else if NameTaken(w.versions, input.document, input.branch, input.name) then Err(AlreadyExists)
    else
      var d := ContractDraft(id, input.document, input.branch, input.name, input.changelog, input.commit, input.content,
                             normalized.value, Draft, "", Latest(w.versions, input.document, input.branch), None, now);
      Ok(w.(drafts := w.drafts[id := d]))
  }

  ghost function Update(parse: Parser, w: Workflow, id: Id, input: PatchInput, now: int): Result<Workflow, Error> {
    if id !in w.drafts then Err(NotFound)
    else
      var d := w.drafts[id];
      var name := input.name.GetOr(d.name);
      var normalized := parse(d.document, input.content);
      if !WriterCanChange(d.status) then Err(FailedPrecondition)
      else if input.expected.None? then Err(InvalidArgument)
      else if input.expected.value != d.CurrentRevision() then Err(FailedPrecondition)
      else if ContentRefused(name, input.content, input.plainText) then Err(InvalidArgument)
      else if NameTaken(w.versions, d.document, d.branch, name) then Err(AlreadyExists)
      else if normalized.None? then Err(InvalidArgument)
      else if Unchanged(w.versions, d.document, d.branch, normalized.value) then Err(FailedPrecondition)
      else
        var updated := d.(name := name, changelog := input.changelog.GetOr(d.changelog),
                          commit := input.commit.GetOr(d.commit),
                          raw := input.content, normalized := normalized.value, status := Draft,
                          baseline := Latest(w.versions, d.document, d.branch), updatedAt := now);
        Ok(w.(drafts := w.drafts[id := updated]))
  }

  /** ensureDraftPreviewFactsLocked: an unpublished draft is compared with the latest version. */
  ghost function Previewed(w: Workflow, d: ContractDraft): ContractDraft {
    if d.status == Published then d else d.(baseline := Latest(w.versions, d.document, d.branch))
  }

  /** A later time than the last submission, whatever the clock says. */
  function SubmissionTime(submittedAt: Option<int>, now: int): int {
    if submittedAt.Some? && now <= submittedAt.value then submittedAt.value + 1 else now
  }

  ghost function Submit(w: Workflow, id: Id, now: int): Result<Workflow, Error> {
    if id !in w.drafts then Err(NotFound)
    else
      var d := w.drafts[id];
      if !WriterCanChange(d.status) then Err(FailedPrecondition)
      else if NameTaken(w.versions, d.document, d.branch, d.name) then Err(AlreadyExists)
      else
        var at := SubmissionTime(d.submittedAt, now);
        var submitted := Previewed(w, d).(status := Submitted, submittedAt := Some(at), updatedAt := at);
        Ok(w.(drafts := w.drafts[id := submitted], log := w.log + [Submission(id, at, submitted.CurrentRevision())]))
  }

  function PublishFromDraft(d: ContractDraft, normalized: string, version: Id, now: int): ContractVersion {
    ContractVersion(version, d.document, d.branch, d.id, d.name, d.changelog, d.commit, d.raw, normalized, now)
  }

  /** A refused review may still have refreshed the cached preview. */
  ghost function Review(parse: Parser, w: Workflow, id: Id, action: ReviewAction, expected: Option<ReviewRevision>,
                        comment: string, version: Id, now: int): (Workflow, Option<Error>)
  {
    if id !in w.drafts then (w, Some(NotFound))
    else
      var d := Previewed(w, w.drafts[id]);
      var shown := w.(drafts := w.drafts[id := d]);
      if expected.None? then (shown, Some(InvalidArgument))
      else if expected != d.CurrentReview() then (shown, Some(FailedPrecondition))
      else if d.status != Submitted then (shown, Some(FailedPrecondition))
      else
        match action
        case Other => (shown, Some(InvalidArgument))
        case RequestChanges =>
          (w.(drafts := w.drafts[id := d.(status := ChangesRequested, comment := TrimSpace(comment),
                                          updatedAt := now)]), None)
        case Reject =>
          (w.(drafts := w.drafts[id := d.(status := Rejected, comment := TrimSpace(comment), updatedAt := now)]), None)
        case Approve => Publish(parse, shown, d, expected.value, comment, version, now)
  }

  ghost function Publish(parse: Parser, w: Workflow, d: ContractDraft, review: ReviewRevision, comment: string,
                         version: Id, now: int): (Workflow, Option<Error>)
  {
    var normalized := parse(d.document, d.raw);
    if NameTaken(w.versions, d.document, d.branch, d.name) then (w, Some(AlreadyExists))
    else if normalized.None? then (w, Some(InvalidArgument))
    else if Unchanged(w.versions, d.document, d.branch, normalized.value) then (w, Some(FailedPrecondition))
    else
      var published := d.(status := Published, comment := TrimSpace(comment), updatedAt := now);
      (Workflow(w.drafts[d.id := published], w.versions[version := PublishFromDraft(d, normalized.value, version, now)],
                w.log + [Approval(d.id, version, review)]), None)
  }

  // What every run keeps

  ghost function LastSubmission(log: seq<Event>, draft: Id): Option<Event> {
    if log == [] then None
    else
      var e := log[|log| - 1];
      if e.Submission? && e.draft == draft then Some(e) else LastSubmission(log[..|log| - 1], draft)
  }

  /** A draft's submission time is that of its last submission, and a submitted draft is unchanged since. */
  ghost predicate DraftOk(w: Workflow, id: Id)
    requires id in w.drafts
  {
    var d := w.drafts[id];
    var last := LastSubmission(w.log, id);
    && (last.None? ==> d.submittedAt.None? && d.status != Submitted)
    && (last.Some? ==> last.value.Submission? && d.submittedAt == Some(last.value.at))
    && (d.status == Submitted ==> last.value.revision == d.CurrentRevision())
  }

  ghost predicate Carries(v: ContractVersion, r: Revision) {
    v.draft == r.id && v.document == r.document && v.branch == r.branch && v.name == r.name
    && v.changelog == r.changelog && v.commit == r.commit && v.raw == r.raw
  }

  /** What was approved is what was last submitted, and it is what the version holds. */
  ghost predicate ApprovalOk(w: Workflow, i: nat)
    requires i < |w.log| && w.log[i].Approval?
  {
    var a := w.log[i];
    var last := LastSubmission(w.log, a.draft);
    && last.Some? && last.value.Submission?
    && a.review.submittedAt == Some(last.value.at) && a.review.revision == last.value.revision
    && a.draft in w.drafts && w.drafts[a.draft].status == Published
    && a.version in w.versions && w.versions[a.version].draft == a.draft
       && Carries(w.versions[a.version], a.review.revision)
  }

  ghost predicate Approved(w: Workflow, version: Id) {
    exists i :: 0 <= i < |w.log| && w.log[i].Approval? && w.log[i].version == version
  }

  ghost predicate LogOk(w: Workflow) {
    && (forall i | 0 <= i < |w.log| && w.log[i].Approval? :: ApprovalOk(w, i))
    && (forall i, j | 0 <= i < j < |w.log| && w.log[i].Approval? && w.log[j].Approval? ::
          w.log[i].draft != w.log[j].draft && w.log[i].version != w.log[j].version)
    && (forall i, j | 0 <= i < j < |w.log| && w.log[i].Submission? && w.log[j].Submission?
        && w.log[i].draft == w.log[j].draft ::
          w.log[i].at < w.log[j].at)
    && (forall i | 0 <= i < |w.log| :: w.log[i].draft in w.drafts)
  }

  ghost predicate NamesUnique(versions: map<Id, ContractVersion>) {
    forall x, y | x in versions && y in versions && x != y
      && OnBranch(versions[y], versions[x].document, versions[x].branch) ::
      versions[x].name != versions[y].name
  }

  /** Nothing was published between the two. */
  ghost predicate Neighbours(versions: map<Id, ContractVersion>, x: Id, y: Id)
    requires x in versions && y in versions
  {
    && OnBranch(versions[y], versions[x].document, versions[x].branch) && Newer(versions[y], versions[x])
    && forall z | z in versions && OnBranch(versions[z], versions[x].document, versions[x].branch) ::
         !(Newer(versions[z], versions[x]) && Newer(versions[y], versions[z]))
  }

  ghost predicate NeighboursDiffer(versions: map<Id, ContractVersion>) {
    forall x, y | x in versions && y in versions && Neighbours(versions, x, y) ::
      versions[x].normalized != versions[y].normalized
  }

  ghost predicate Inv(w: Workflow) {
    && Indexed(w)
    && (forall id | id in w.drafts :: DraftOk(w, id))
    && LogOk(w)
    && (forall v | v in w.versions :: Approved(w, v))
    && NamesUnique(w.versions)
    && NeighboursDiffer(w.versions)
  }

  predicate Frozen(status: Status) {
    status == Rejected || status == Published
  }

  /** No operation takes back a version, moves a closed draft or turns a submission time back. */
  ghost predicate Evolves(w: Workflow, u: Workflow) {
    && (forall v | v in w.versions :: v in u.versions && u.versions[v] == w.versions[v])
    && w.log <= u.log
    && (forall id | id in w.drafts :: id in u.drafts && DraftEvolves(w.drafts[id], u.drafts[id]))
  }

  ghost predicate DraftEvolves(d: ContractDraft, e: ContractDraft) {
    && (Frozen(d.status) ==> e == d.(baseline := e.baseline) && (d.status == Published ==> e == d))
    && (d.submittedAt.Some? ==> e.submittedAt.Some? && d.submittedAt.value <= e.submittedAt.value)
    && (d.status != Submitted && e.status == Submitted && d.submittedAt.Some? ==>
        d.submittedAt.value < e.submittedAt.value)
    && e.document == d.document && e.branch == d.branch
  }

  ghost predicate ClockAhead(w: Workflow, now: int) {
    forall v | v in w.versions :: w.versions[v].publishedAt < now
  }

  lemma {:induction false} SubmissionAppended(log: seq<Event>, e: Event, draft: Id)
    ensures LastSubmission(log + [e], draft) == if e.Submission? && e.draft == draft then Some(e)
            else LastSubmission(log, draft)
  {
    assert (log + [e])[..|log|] == log;
  }

  /** Operations that only change one draft that was not closed, or its preview. */
  lemma DraftChanged(w: Workflow, u: Workflow, id: Id)
    requires Inv(w) && u == w.(drafts := u.drafts) && id in u.drafts && u.drafts == w.drafts[id := u.drafts[id]]
    requires u.drafts[id].id == id && DraftOk(u, id)
    requires id in w.drafts ==> w.drafts[id].status != Published || u.drafts[id].status == Published
    ensures Inv(u)
  {
    forall x | x in u.drafts ensures DraftOk(u, x) {
      assert x != id ==> DraftOk(w, x);
    }
    forall i | 0 <= i < |u.log| && u.log[i].Approval? ensures ApprovalOk(u, i) {
      assert ApprovalOk(w, i);
    }
    forall v | v in u.versions ensures Approved(u, v) {
      assert Approved(w, v);
    }
  }

  lemma EvolvesByOne(w: Workflow, u: Workflow, id: Id)
    requires id in u.drafts && u.drafts == w.drafts[id := u.drafts[id]] && w.log <= u.log
    requires forall v | v in w.versions :: v in u.versions && u.versions[v] == w.versions[v]
    requires id in w.drafts ==> DraftEvolves(w.drafts[id], u.drafts[id])
    ensures Evolves(w, u)
  {
  }

  lemma CreateKeeps(parse: Parser, w: Workflow, input: DraftInput, id: Id, now: int)
    requires Inv(w) && id !in w.drafts && Create(parse, w, input, id, now).Ok?
    ensures Inv(Create(parse, w, input, id, now).value) && Evolves(w, Create(parse, w, input, id, now).value)
  {
    hide Unchanged;
    hide NameTaken;
    hide ContentRefused;
    hide Latest;
    var u := Create(parse, w, input, id, now).value;
    NoEventsBefore(w, id);
    DraftChanged(w, u, id);
    hide Inv;
    EvolvesByOne(w, u, id);
  }

  /** A draft that does not exist yet was never submitted. */
  lemma NoEventsBefore(w: Workflow, id: Id)
    requires LogOk(w) && id !in w.drafts
    ensures LastSubmission(w.log, id).None?
  {
    NeverSubmitted(w.log, id);
  }

  lemma {:induction false} NeverSubmitted(log: seq<Event>, id: Id)
    requires forall i | 0 <= i < |log| :: log[i].draft != id
    ensures LastSubmission(log, id).None?
  {
    if log != [] {
      NeverSubmitted(log[..|log| - 1], id);
    }
  }

  lemma UpdateKeeps(parse: Parser, w: Workflow, id: Id, input: PatchInput, now: int)
    requires Inv(w) && Update(parse, w, id, input, now).Ok?
    ensures Inv(Update(parse, w, id, input, now).value) && Evolves(w, Update(parse, w, id, input, now).value)
  {
    hide Unchanged;
    hide NameTaken;
    hide ContentRefused;
    hide Latest;
    hide Evolves;
    assert DraftOk(w, id);
    var u := Update(parse, w, id, input, now).value;
    DraftChanged(w, u, id);
    hide Inv;
    EvolvesByOne(w, u, id);
  }

  lemma SubmittedLogOk(w: Workflow, u: Workflow, id: Id, e: Event)
    requires LogOk(w) && id in w.drafts && WriterCanChange(w.drafts[id].status) && u.versions == w.versions
    requires DraftOk(w, id) && forall v | v in w.versions :: Approved(w, v)
    requires e.Submission? && e.draft == id && u.log == w.log + [e]
    requires w.drafts[id].submittedAt.Some? ==> w.drafts[id].submittedAt.value < e.at
    requires id in u.drafts && u.drafts == w.drafts[id := u.drafts[id]]
    ensures LogOk(u)
    ensures forall v | v in u.versions :: Approved(u, v)
  {
    hide LastSubmission;
    hide Carries;
    forall i | 0 <= i < |u.log| && u.log[i].Approval? ensures ApprovalOk(u, i) {
      assert ApprovalOk(w, i);
      SubmissionAppended(w.log, e, w.log[i].draft);
    }
    forall v | v in u.versions ensures Approved(u, v) {
      ApprovedAfter(w, u, e, v);
    }
    forall i | 0 <= i < |w.log| && w.log[i].Submission? && w.log[i].draft == id ensures w.log[i].at < e.at {
      LastIsLatest(w, id, i);
    }
  }

  lemma ApprovedAfter(w: Workflow, u: Workflow, e: Event, v: Id)
    requires Approved(w, v) && u.log == w.log + [e]
    ensures Approved(u, v)
  {
    var i :| 0 <= i < |w.log| && w.log[i].Approval? && w.log[i].version == v;
    assert u.log[i] == w.log[i];
  }

  /** An event about one draft leaves the others as they were. */
  lemma OtherDraftsOk(w: Workflow, u: Workflow, id: Id, e: Event)
    requires forall x | x in w.drafts :: DraftOk(w, x)
    requires e.draft == id && u.log == w.log + [e] && id in u.drafts && u.drafts == w.drafts[id := u.drafts[id]]
    requires DraftOk(u, id)
    ensures forall x | x in u.drafts :: DraftOk(u, x)
  {
    forall x | x in u.drafts ensures DraftOk(u, x) {
      SubmissionAppended(w.log, e, x);
      assert x != id ==> DraftOk(w, x);
    }
  }

  lemma SubmitKeeps(w: Workflow, id: Id, now: int)
    requires Inv(w) && Submit(w, id, now).Ok?
    ensures Inv(Submit(w, id, now).value) && Evolves(w, Submit(w, id, now).value)
  {
    hide NameTaken;
    hide Latest;
    hide Evolves;
    hide LogOk;
    hide Approved;
    hide NeighboursDiffer;
    hide NamesUnique;
    var u := Submit(w, id, now).value;
    var e := u.log[|w.log|];
    assert DraftOk(w, id);
    SubmissionAppended(w.log, e, id);
    OtherDraftsOk(w, u, id, e);
    SubmittedLogOk(w, u, id, e);
    EvolvesByOne(w, u, id);
  }

  /** The last submission of a draft has the latest time. */
  lemma LastIsLatest(w: Workflow, id: Id, i: nat)
    requires LogOk(w) && i < |w.log| && w.log[i].Submission? && w.log[i].draft == id
    ensures LastSubmission(w.log, id).Some? && LastSubmission(w.log, id).value.Submission?
    ensures w.log[i].at <= LastSubmission(w.log, id).value.at
  {
    var j := LastAt(w.log, id, i);
  }

  lemma {:induction false} LastAt(log: seq<Event>, id: Id, i: nat) returns (j: nat)
    requires i < |log| && log[i].Submission? && log[i].draft == id
    ensures i <= j < |log| && log[j].Submission? && log[j].draft == id && LastSubmission(log, id) == Some(log[j])
    decreases |log|
  {
    var last := |log| - 1;
    if log[last].Submission? && log[last].draft == id {
      j := last;
    } else {
      j := LastAt(log[..last], id, i);
    }
  }

  lemma ReviewKeeps(parse: Parser, w: Workflow, id: Id, action: ReviewAction, expected: Option<ReviewRevision>,
                    comment: string, version: Id, now: int)
    requires Inv(w) && version !in w.versions && ClockAhead(w, now)
    ensures Inv(Review(parse, w, id, action, expected, comment, version, now).0)
    ensures Evolves(w, Review(parse, w, id, action, expected, comment, version, now).0)
  {
    hide Latest;
    hide TrimSpace;
    hide Publish;
    hide Inv;
    hide Evolves;
    if id in w.drafts {
      var u := Review(parse, w, id, action, expected, comment, version, now).0;
      var d := Previewed(w, w.drafts[id]);
      var shown := w.(drafts := w.drafts[id := d]);
      if expected.Some? && expected == d.CurrentReview() && d.status == Submitted {
        match action
        case Other =>
          PreviewKeeps(w, shown, id);
        case RequestChanges => ReturnedKeeps(w, u, id, ChangesRequested, TrimSpace(comment), now);
        case Reject => ReturnedKeeps(w, u, id, Status.Rejected, TrimSpace(comment), now);
        case Approve =>
          PreviewKeeps(w, shown, id);
          if Publish(parse, shown, d, expected.value, comment, version, now).1.None? {
            PublishKeeps(parse, shown, id, expected.value, comment, version, now);
            EvolvesOn(w, shown, u);
          } else {
            RefusedPublish(parse, shown, d, expected.value, comment, version, now);
          }
      } else {
        PreviewKeeps(w, shown, id);
      }
    } else {
      EvolvesSelf(w);
    }
  }

  lemma EvolvesSelf(w: Workflow)
    ensures Evolves(w, w)
  {
  }

  lemma ReturnedKeeps(w: Workflow, u: Workflow, id: Id, status: Status, comment: string, now: int)
    requires Inv(w) && id in w.drafts && w.drafts[id].status == Submitted
             && (status == ChangesRequested || status == Rejected)
    requires u == w.(drafts := w.drafts[id := Previewed(w, w.drafts[id]).(status := status, comment := comment,
                                                                          updatedAt := now)])
    ensures Inv(u) && Evolves(w, u)
  {
    hide Latest;
    hide Evolves;
    assert DraftOk(w, id);
    DraftChanged(w, u, id);
    hide Inv;
    EvolvesByOne(w, u, id);
  }

  lemma RefusedPublish(parse: Parser, w: Workflow, d: ContractDraft, review: ReviewRevision, comment: string,
                       version: Id, now: int)
    requires Publish(parse, w, d, review, comment, version, now).1.Some?
    ensures Publish(parse, w, d, review, comment, version, now).0 == w
  {
  }

  lemma EvolvesOn(w: Workflow, v: Workflow, u: Workflow)
    requires Evolves(w, v) && Evolves(v, u)
    ensures Evolves(w, u)
  {
    forall id | id in w.drafts ensures id in u.drafts && DraftEvolves(w.drafts[id], u.drafts[id]) {
      assert DraftEvolves(w.drafts[id], v.drafts[id]) && DraftEvolves(v.drafts[id], u.drafts[id]);
    }
  }

  /** The version is newer than all others, and differs from the one that was newest before. */
  lemma NewestDiffers(versions: map<Id, ContractVersion>, v: ContractVersion)
    requires forall x | x in versions :: versions[x].id == x && versions[x].publishedAt < v.publishedAt
    requires v.id !in versions && NeighboursDiffer(versions) && !Unchanged(versions, v.document, v.branch, v.normalized)
    ensures NeighboursDiffer(versions[v.id := v])
  {
    var more := versions[v.id := v];
    var latest := LatestExists(versions, v.document, v.branch);
    LatestIsOne(versions, v.document, v.branch, latest);
    forall x, y | x in more && y in more && Neighbours(more, x, y) ensures more[x].normalized != more[y].normalized {
      if y == v.id {
        assert x in versions;
        assert latest.Some? && (x == latest.value || Newer(versions[latest.value], versions[x]));
        assert latest.value in more && Newer(more[y], more[latest.value]);
      } else {
        assert x in versions;
        forall z | z in versions && OnBranch(versions[z], versions[x].document, versions[x].branch)
          ensures !(Newer(versions[z], versions[x]) && Newer(versions[y], versions[z]))
        {
          assert more[z] == versions[z];
        }
        assert Neighbours(versions, x, y);
      }
    }
  }

  lemma PublishedLogOk(w: Workflow, u: Workflow, id: Id, version: Id, review: ReviewRevision)
    requires LogOk(w) && id in w.drafts && w.drafts[id].status == Submitted
             && w.drafts[id].CurrentReview() == Some(review)
    requires DraftOk(w, id) && version !in w.versions && u.log == w.log + [Approval(id, version, review)]
    requires id in u.drafts && u.drafts == w.drafts[id := u.drafts[id]] && u.drafts[id].status == Published
    requires version in u.versions && u.versions == w.versions[version := u.versions[version]]
    requires u.versions[version].draft == id && Carries(u.versions[version], review.revision)
    ensures LogOk(u)
  {
    var e := Approval(id, version, review);
    forall i | 0 <= i < |u.log| && u.log[i].Approval? ensures ApprovalOk(u, i) {
      SubmissionAppended(w.log, e, u.log[i].draft);
      assert i < |w.log| ==> ApprovalOk(w, i);
    }
    forall i | 0 <= i < |w.log| && w.log[i].Approval? ensures w.log[i].draft != id && w.log[i].version != version {
      assert ApprovalOk(w, i);
    }
  }

  lemma PublishKeeps(parse: Parser, w: Workflow, id: Id, review: ReviewRevision, comment: string, version: Id, now: int)
    requires Inv(w) && id in w.drafts && w.drafts[id].status == Submitted
             && w.drafts[id].CurrentReview() == Some(review)
    requires version !in w.versions && ClockAhead(w, now)
    requires Publish(parse, w, w.drafts[id], review, comment, version, now).1.None?
    ensures Inv(Publish(parse, w, w.drafts[id], review, comment, version, now).0)
    ensures Evolves(w, Publish(parse, w, w.drafts[id], review, comment, version, now).0)
  {
    hide TrimSpace;
    hide Evolves;
    hide LogOk;
    hide Approved;
    hide NeighboursDiffer;
    hide Unchanged;
    hide NameTaken;
    hide NamesUnique;
    var u := Publish(parse, w, w.drafts[id], review, comment, version, now).0;
    var v := u.versions[version];
    var e := Approval(id, version, review);
    assert DraftOk(w, id);
    SubmissionAppended(w.log, e, id);
    OtherDraftsOk(w, u, id, e);
    hide LastSubmission;
    PublishedLogOk(w, u, id, version, review);
    NewestDiffers(w.versions, v);
    NameAdded(w.versions, v);
    forall x | x in u.versions ensures Approved(u, x) {
      PublishedApproved(w, u, x, id, version, review);
    }
    EvolvesByOne(w, u, id);
  }

  lemma NameAdded(versions: map<Id, ContractVersion>, v: ContractVersion)
    requires NamesUnique(versions) && v.id !in versions && !NameTaken(versions, v.document, v.branch, v.name)
    ensures NamesUnique(versions[v.id := v])
  {
  }

  lemma PublishedApproved(w: Workflow, u: Workflow, x: Id, id: Id, version: Id, review: ReviewRevision)
    requires x != version ==> Approved(w, x)
    requires u.log == w.log + [Approval(id, version, review)]
    ensures Approved(u, x)
  {
    if x == version {
      assert u.log[|w.log|].version == version;
    } else {
      var i :| 0 <= i < |w.log| && w.log[i].Approval? && w.log[i].version == x;
      assert u.log[i] == w.log[i];
    }
  }

  lemma PreviewKeeps(w: Workflow, shown: Workflow, id: Id)
    requires Inv(w) && id in w.drafts && shown == w.(drafts := w.drafts[id := Previewed(w, w.drafts[id])])
    ensures Inv(shown) && Evolves(w, shown)
  {
    hide LogOk;
    hide NeighboursDiffer;
    hide NamesUnique;
    hide Approved;
    hide Latest;
    assert DraftOk(w, id);
    DraftChanged(w, shown, id);
    hide Inv;
  }

  // Every sequence of operations

  datatype Operation =
    | DoCreate(input: DraftInput, id: Id)
    | DoUpdate(id: Id, patch: PatchInput)
    | DoSubmit(id: Id)
    | DoReview(id: Id, action: ReviewAction, expected: Option<ReviewRevision>, comment: string, version: Id)

  ghost function Kept(w: Workflow, r: Result<Workflow, Error>): Workflow {
    if r.Ok? then r.value else w
  }

  ghost function After(parse: Parser, w: Workflow, op: Operation, now: int): Workflow {
    match op
    case DoCreate(input, id) => Kept(w, Create(parse, w, input, id, now))
    case DoUpdate(id, patch) => Kept(w, Update(parse, w, id, patch, now))
    case DoSubmit(id) => Kept(w, Submit(w, id, now))
    case DoReview(id, action, expected, comment, version) =>
      Review(parse, w, id, action, expected, comment, version, now).0
  }

  /** New ids are new, and the clock is ahead of what was published. */
  ghost predicate Possible(w: Workflow, op: Operation, now: int) {
    match op
    case DoCreate(_, id) => id !in w.drafts
    case DoReview(_, _, _, _, version) => version !in w.versions && ClockAhead(w, now)
    case _ => true
  }

  ghost predicate Step(parse: Parser, w: Workflow, u: Workflow) {
    exists op, now :: Possible(w, op, now) && u == After(parse, w, op, now)
  }

  ghost predicate Run(parse: Parser, trace: seq<Workflow>) {
    && trace != [] && trace[0] == Workflow(map[], map[], [])
    && forall i | 0 <= i < |trace| - 1 :: Step(parse, trace[i], trace[i + 1])
  }

  lemma StepKeeps(parse: Parser, w: Workflow, u: Workflow)
    requires Inv(w) && Step(parse, w, u)
    ensures Inv(u) && Evolves(w, u)
  {
    hide Inv;
    hide Evolves;
    hide Create;
    hide Update;
    hide Submit;
    hide Review;
    var op, now :| Possible(w, op, now) && u == After(parse, w, op, now);
    EvolvesSelf(w);
    match op
    case DoCreate(input, id) =>
      if Create(parse, w, input, id, now).Ok? {
        CreateKeeps(parse, w, input, id, now);
      }
    case DoUpdate(id, patch) =>
      if Update(parse, w, id, patch, now).Ok? {
        UpdateKeeps(parse, w, id, patch, now);
      }
    case DoSubmit(id) =>
      if Submit(w, id, now).Ok? {
        SubmitKeeps(w, id, now);
      }
    case DoReview(id, action, expected, comment, version) =>
      ReviewKeeps(parse, w, id, action, expected, comment, version, now);
  }

  lemma {:induction false} RunKeeps(parse: Parser, trace: seq<Workflow>, i: nat)
    requires Run(parse, trace) && i < |trace|
    ensures Inv(trace[i])
    decreases i
  {
    hide Step;
    if i > 0 {
      hide Inv;
      RunKeeps(parse, trace, i - 1);
      StepKeeps(parse, trace[i - 1], trace[i]);
    }
  }

  /** Along a run versions stay as published, closed drafts stay closed, submission times only grow. */
  lemma {:induction false} RunEvolves(parse: Parser, trace: seq<Workflow>, i: nat, j: nat)
    requires Run(parse, trace) && i <= j < |trace|
    ensures Evolves(trace[i], trace[j])
    decreases j
  {
    hide Step;
    hide Inv;
    hide Evolves;
    if i == j {
      EvolvesSelf(trace[i]);
    } else {
      RunEvolves(parse, trace, i, j - 1);
      RunKeeps(parse, trace, j - 1);
      StepKeeps(parse, trace[j - 1], trace[j]);
      EvolvesOn(trace[i], trace[j - 1], trace[j]);
    }
  }

  /** Each version comes from one draft, now closed, approved as it was last submitted. */
  lemma VersionsComeFromApprovals(parse: Parser, trace: seq<Workflow>, i: nat, v: Id) returns (k: nat)
    requires Run(parse, trace) && i < |trace| && v in trace[i].versions
    ensures var w := trace[i];
            && k < |w.log| && w.log[k].Approval? && w.log[k].version == v && w.log[k].draft == w.versions[v].draft
            && w.versions[v].draft in w.drafts && w.drafts[w.versions[v].draft].status == Published
            && LastSubmission(w.log, w.log[k].draft).Some?
            && LastSubmission(w.log, w.log[k].draft).value ==
               Submission(w.log[k].draft, w.log[k].review.submittedAt.GetOr(0), w.log[k].review.revision)
            && Carries(w.versions[v], w.log[k].review.revision)
            && forall x | x in w.versions && x != v :: w.versions[x].draft != w.versions[v].draft
  {
    var w := trace[i];
    RunKeeps(parse, trace, i);
    assert Approved(w, v);
    k :| 0 <= k < |w.log| && w.log[k].Approval? && w.log[k].version == v;
    assert ApprovalOk(w, k);
    SubmissionIsOf(w.log, w.log[k].draft);
    forall x | x in w.versions && x != v ensures w.versions[x].draft != w.versions[v].draft {
      assert Approved(w, x);
      var m :| 0 <= m < |w.log| && w.log[m].Approval? && w.log[m].version == x;
      assert ApprovalOk(w, m);
      assert m < k || k < m;
    }
  }

  lemma {:induction false} SubmissionIsOf(log: seq<Event>, draft: Id)
    ensures LastSubmission(log, draft).Some? ==>
              LastSubmission(log, draft).value.Submission? && LastSubmission(log, draft).value.draft == draft
  {
    if log != [] {
      SubmissionIsOf(log[..|log| - 1], draft);
    }
  }

  /** On every branch names are unique and neighbouring versions differ. */
  lemma BranchesAreTidy(parse: Parser, trace: seq<Workflow>, i: nat)
    requires Run(parse, trace) && i < |trace|
    ensures NamesUnique(trace[i].versions) && NeighboursDiffer(trace[i].versions)
  {
    RunKeeps(parse, trace, i);
  }

  /** Each draft's submission times strictly increase. */
  lemma SubmissionsIncrease(parse: Parser, trace: seq<Workflow>, i: nat, j: nat, k: nat)
    requires Run(parse, trace) && i < |trace| && j < k < |trace[i].log|
    requires trace[i].log[j].Submission? && trace[i].log[k].Submission?
             && trace[i].log[j].draft == trace[i].log[k].draft
    ensures trace[i].log[j].at < trace[i].log[k].at
  {
    RunKeeps(parse, trace, i);
    hide DraftOk;
    hide NeighboursDiffer;
  }

  /** An approval names the version that was the branch's latest when it published. */
  lemma ApprovalSawLatest(parse: Parser, w: Workflow, id: Id, expected: Option<ReviewRevision>, comment: string,
                          version: Id, now: int)
    requires id in w.drafts
    requires Review(parse, w, id, Approve, expected, comment, version, now).1.None?
    ensures expected.Some? && w.drafts[id].status == Submitted
    ensures expected.value.baseline == Latest(w.versions, w.drafts[id].document, w.drafts[id].branch)
    ensures expected.value.submittedAt == w.drafts[id].submittedAt
    ensures expected.value.revision == w.drafts[id].CurrentRevision()
  {
    hide Latest;
    hide Publish;
  }

  // The store

  class WorkflowStore {
    const parse: Parser
    var drafts: map<Id, ContractDraft>
    var versions: map<Id, ContractVersion>
    ghost var log: seq<Event>

    ghost function State(): Workflow
      reads this
    {
      Workflow(drafts, versions, log)
    }

    constructor (parse: Parser)
      ensures this.parse == parse && State() == Workflow(map[], map[], []) && Inv(State())
    {
      this.parse := parse;
      drafts, versions, log := map[], map[], [];
    }

    method LatestVersion(document: Id, branch: Id) returns (latest: Option<Id>)
      requires Indexed(State())
      ensures latest == Latest(versions, document, branch)
      ensures latest.Some? ==> latest.value in versions
    {
      latest := None;
      var todo := versions.Keys;
      while todo != {}
        invariant todo <= versions.Keys
        invariant latest.None? ==> forall x | x in versions.Keys - todo :: !OnBranch(versions[x], document, branch)
        invariant latest.Some? ==>
                    && latest.value in versions.Keys - todo && OnBranch(versions[latest.value], document, branch)
                    && forall x | x in versions.Keys - todo && x != latest.value
                       && OnBranch(versions[x], document, branch) ::
                         Newer(versions[latest.value], versions[x])
        decreases todo
      {
        var id :| id in todo;
        if OnBranch(versions[id], document, branch)
           && (latest.None? || Newer(versions[id], versions[latest.value])) {
          latest := Some(id);
        }
        todo := todo - {id};
      }
      LatestIsOne(versions, document, branch, latest);
    }

    /** The version published before another one on its branch. */
    method PreviousVersion(v: ContractVersion) returns (previous: Option<Id>)
      requires Indexed(State()) && v.id in versions && versions[v.id] == v
      ensures previous.None? ==>
                forall x | x in versions && OnBranch(versions[x], v.document, v.branch) :: !Newer(v, versions[x])
      ensures previous.Some? ==> previous.value in versions && Neighbours(versions, previous.value, v.id)
    {
      previous := None;
      var todo := versions.Keys;
      while todo != {}
        invariant todo <= versions.Keys
        invariant previous.None? ==>
                    forall x | x in versions.Keys - todo && OnBranch(versions[x], v.document, v.branch) ::
                      !Newer(v, versions[x])
        invariant previous.Some? ==>
                    && previous.value in versions && OnBranch(versions[previous.value], v.document, v.branch)
                    && Newer(v, versions[previous.value])
                    && forall x | x in versions.Keys - todo && OnBranch(versions[x], v.document, v.branch)
                         && Newer(versions[x], versions[previous.value]) :: !Newer(v, versions[x])
        decreases todo
      {
        var id :| id in todo;
        var other := versions[id];
        if id != v.id && OnBranch(other, v.document, v.branch) && Newer(v, other)
           && (previous.None? || Newer(other, versions[previous.value])) {
          previous := Some(id);
        }
        todo := todo - {id};
      }
    }

    method EnsureVersionNameAvailable(document: Id, branch: Id, name: string) returns (available: bool)
      ensures available <==> !NameTaken(versions, document, branch, name)
    {
      var todo := versions.Keys;
      while todo != {}
        invariant todo <= versions.Keys
        invariant forall x | x in versions.Keys - todo ::
                  !(OnBranch(versions[x], document, branch) && versions[x].name == name)
        decreases todo
      {
        var id :| id in todo;
        if OnBranch(versions[id], document, branch) && versions[id].name == name {
          return false;
        }
        todo := todo - {id};
      }
      return true;
    }

    method EnsureChangedFromLatest(document: Id, branch: Id, normalized: string) returns (changed: bool)
      requires Indexed(State())
      ensures changed <==> !Unchanged(versions, document, branch, normalized)
    {
      var latest := LatestVersion(document, branch);
      changed := latest.None? || versions[latest.value].normalized != normalized;
    }

    method CreateDraft(input: DraftInput, id: Id, now: int) returns (r: Result<ContractDraft, Error>)
      requires Inv(State()) && id !in drafts
      modifies this
      ensures State() == Kept(old(State()), Create(parse, old(State()), input, id, now))
      ensures r == match Create(parse, old(State()), input, id, now)
                   case Ok(w) => Ok(w.drafts[id]) case Err(e) => Err(e)
      ensures Inv(State()) && Evolves(old(State()), State())
    {
      hide Inv;
      hide Evolves;
      ghost var w := State();
      StateIndexed(w);
      EvolvesSelf(w);
      if ContentRefused(input.name, input.content, input.plainText) {
        return Err(InvalidArgument);
      }
      var normalized := parse(input.document, input.content);
      if normalized.None? {
        return Err(InvalidArgument);
      }
      var changed := EnsureChangedFromLatest(input.document, input.branch, normalized.value);
      if !changed {
        return Err(FailedPrecondition);
      }
      var available := EnsureVersionNameAvailable(input.document, input.branch, input.name);
      if !available {
        return Err(AlreadyExists);
      }
      var latest := LatestVersion(input.document, input.branch);
      var d := ContractDraft(id, input.document, input.branch, input.name, input.changelog, input.commit, input.content,
                             normalized.value, Draft, "", latest, None, now);
      drafts := drafts[id := d];
      CreateKeeps(parse, w, input, id, now);
      return Ok(d);
    }

    method UpdateDraft(id: Id, input: PatchInput, now: int) returns (r: Result<ContractDraft, Error>)
      requires Inv(State())
      modifies this
      ensures State() == Kept(old(State()), Update(parse, old(State()), id, input, now))
      ensures Update(parse, old(State()), id, input, now).Ok? <==> r.Ok?
      ensures r.Ok? ==> r.value == drafts[id]
      ensures r.Err? ==> Update(parse, old(State()), id, input, now) == Err(r.error)
      ensures Inv(State()) && Evolves(old(State()), State())
    {
      hide Inv;
      hide Evolves;
      ghost var w := State();
      StateIndexed(w);
      EvolvesSelf(w);
      if id !in drafts {
        return Err(NotFound);
      }
      var d := drafts[id];
      if !WriterCanChange(d.status) {
        return Err(FailedPrecondition);
      }
      if input.expected.None? {
        return Err(InvalidArgument);
      }
      if input.expected.value != d.CurrentRevision() {
        return Err(FailedPrecondition);
      }
      var name := d.name;
      if input.name.Some? {
        name := input.name.value;
      }
      if ContentRefused(name, input.content, input.plainText) {
        return Err(InvalidArgument);
      }
      var available := EnsureVersionNameAvailable(d.document, d.branch, name);
      if !available {
        return Err(AlreadyExists);
      }
      var normalized := parse(d.document, input.content);
      if normalized.None? {
        return Err(InvalidArgument);
      }
      var changed := EnsureChangedFromLatest(d.document, d.branch, normalized.value);
      if !changed {
        return Err(FailedPrecondition);
      }
      var latest := LatestVersion(d.document, d.branch);
      var updated := d.(name := name);
      if input.changelog.Some? {
        updated := updated.(changelog := input.changelog.value);
      }
      if input.commit.Some? {
        updated := updated.(commit := input.commit.value);
      }
      updated := updated.(raw := input.content, normalized := normalized.value, status := Draft, baseline := latest,
                          updatedAt := now);
      drafts := drafts[id := updated];
      UpdateKeeps(parse, w, id, input, now);
      return Ok(updated);
    }

    /** The cached preview follows the latest version while the draft is open. */
    method EnsureDraftPreviewFacts(id: Id)
      requires Indexed(State()) && id in drafts
      modifies this`drafts
      ensures drafts == old(drafts)[id := Previewed(old(State()), old(drafts)[id])]
    {
      var d := drafts[id];
      if d.status != Published {
        var baseline := LatestVersion(d.document, d.branch);
        d := d.(baseline := baseline);
      }
      drafts := drafts[id := d];
    }

    method SubmitDraft(id: Id, now: int) returns (r: Result<ContractDraft, Error>)
      requires Inv(State())
      modifies this
      ensures State() == Kept(old(State()), Submit(old(State()), id, now))
      ensures Submit(old(State()), id, now).Ok? <==> r.Ok?
      ensures r.Ok? ==> r.value == drafts[id]
      ensures r.Err? ==> Submit(old(State()), id, now) == Err(r.error)
      ensures Inv(State()) && Evolves(old(State()), State())
    {
      hide Inv;
      hide Evolves;
      ghost var w := State();
      StateIndexed(w);
      EvolvesSelf(w);
      if id !in drafts {
        return Err(NotFound);
      }
      if !WriterCanChange(drafts[id].status) {
        return Err(FailedPrecondition);
      }
      var available := EnsureVersionNameAvailable(drafts[id].document, drafts[id].branch, drafts[id].name);
      if !available {
        return Err(AlreadyExists);
      }
      EnsureDraftPreviewFacts(id);
      var d := drafts[id];
      var at := now;
      if d.submittedAt.Some? && now <= d.submittedAt.value {
        at := d.submittedAt.value + 1;
      }
      d := d.(status := Submitted, submittedAt := Some(at), updatedAt := at);
      drafts := drafts[id := d];
      log := log + [Submission(id, at, d.CurrentRevision())];
      assert State() == Submit(w, id, now).value;
      SubmitKeeps(w, id, now);
      return Ok(d);
    }

    method ReviewDraft(id: Id, action: ReviewAction, expected: Option<ReviewRevision>, comment: string, version: Id,
                       now: int)
      returns (error: Option<Error>)
      requires Inv(State()) && version !in versions && ClockAhead(State(), now)
      modifies this
      ensures (State(), error) == Review(parse, old(State()), id, action, expected, comment, version, now)
      ensures Inv(State()) && Evolves(old(State()), State())
    {
      hide Inv;
      hide Evolves;
      ghost var w := State();
      StateIndexed(w);
      ReviewKeeps(parse, w, id, action, expected, comment, version, now);
      if id !in drafts {
        return Some(NotFound);
      }
      EnsureDraftPreviewFacts(id);
      var d := drafts[id];
      if expected.None? {
        return Some(InvalidArgument);
      }
      if expected != d.CurrentReview() || d.status != Submitted {
        return Some(FailedPrecondition);
      }
      match action {
        case Approve =>
          assert State() == w.(drafts := w.drafts[id := d]) && d == Previewed(w, w.drafts[id]);
          error := PublishDraft(d, expected.value, comment, version, now);
        case RequestChanges =>
          d := d.(status := ChangesRequested, comment := TrimSpace(comment), updatedAt := now);
          drafts := drafts[id := d];
          assert drafts == w.drafts[id := d];
          error := None;
        case Reject =>
          d := d.(status := Status.Rejected, comment := TrimSpace(comment), updatedAt := now);
          drafts := drafts[id := d];
          assert drafts == w.drafts[id := d];
          error := None;
        case Other =>
          error := Some(InvalidArgument);
      }
    }

    method PublishDraft(d: ContractDraft, ghost review: ReviewRevision, comment: string, version: Id, now: int)
      returns (error: Option<Error>)
      requires Indexed(State())
      modifies this
      ensures (State(), error) == Publish(parse, old(State()), d, review, comment, version, now)
    {
      var available := EnsureVersionNameAvailable(d.document, d.branch, d.name);
      if !available {
        return Some(AlreadyExists);
      }
      var normalized := parse(d.document, d.raw);
      if normalized.None? {
        return Some(InvalidArgument);
      }
      var changed := EnsureChangedFromLatest(d.document, d.branch, normalized.value);
      if !changed {
        return Some(FailedPrecondition);
      }
      versions := versions[version := PublishFromDraft(d, normalized.value, version, now)];
      drafts := drafts[d.id := d.(status := Status.Published, comment := TrimSpace(comment), updatedAt := now)];
      log := log + [Approval(d.id, version, review)];
      return None;
    }
  }

  lemma StateIndexed(w: Workflow)
    requires Inv(w)
    ensures Indexed(w)
  {
  }
}
