/**
 Promotion records and the decisions the promotion service takes on them.

 `Apply` is the sequential meaning of one service call on the record it read: it gives the record the
 call tries to write back, or the error it returns. Backend answers and the clock are inputs.
 */
module PromotionModel {
  import opened Wrappers
  import opened Text

  datatype Kind = Knowledge | Skill | OtherKind(name: string)
  datatype Scope = Personal | Workspace | OtherScope(name: string)
  datatype State = Candidate | Checked | Blocked | Approved | Rejected | Published | RolledBack
  datatype Decision = Create | Update | Skip | Conflict | OtherDecision(name: string)

  datatype Principal = Principal(workspaceId: string, userId: string, role: string)

  datatype EvidenceLink = EvidenceLink(id: string, knowledgeBaseId: string, chunkId: string)

  datatype KnowledgeDraft = KnowledgeDraft(title: string, statement: string, targetKnowledgeBaseId: string)

  datatype SkillDraft = SkillDraft(
    name: string, content: string, targetUri: string, reason: string, behaviorDiff: seq<string>,
    expectedRevision: string, evalStatus: string)

  datatype Input = Input(
    kind: Kind, scope: Scope, sessions: seq<string>, experiences: seq<string>, evidence: seq<EvidenceLink>,
    knowledge: Option<KnowledgeDraft>, skill: Option<SkillDraft>)

  datatype Inspection = Inspection(
    checkedAt: int, decision: Decision, evidenceVerified: bool, duplicate: bool, conflict: bool,
    currentExists: bool, currentRevision: string, currentContent: string,
    validationStatus: string, blockingReason: string)

  datatype Review = Review(
    decision: string, reviewer: string, reason: string, resolveConflict: bool, promoteToWorkspace: bool,
    reviewedAt: int)

  datatype SnapshotAction = RestorePreviousSkill | DeleteCreatedSkill | DeleteCreatedKnowledge
  datatype Snapshot = Snapshot(action: SnapshotAction, resourceId: string, previousContent: string)
  datatype Publication = Publication(
    resourceId: string, revision: string, publishedAt: int, snapshot: Option<Snapshot>)

  datatype RollbackRecord = RollbackRecord(rolledBackAt: int, actor: string, reason: string)

  datatype Record = Record(
    id: string, version: int, kind: Kind, scope: Scope, state: State, workspaceId: string,
    authors: seq<string>, sessions: seq<string>, experiences: seq<string>, evidence: seq<EvidenceLink>,
    knowledge: Option<KnowledgeDraft>, skill: Option<SkillDraft>,
    inspection: Option<Inspection>, review: Option<Review>, publication: Option<Publication>,
    rollback: Option<RollbackRecord>, createdAt: int, updatedAt: int)

  datatype ReviewInput = ReviewInput(decision: string, reason: string, resolveConflict: bool, promoteToWorkspace: bool)

  datatype Error =
    | AccessDenied | PromotionBlocked | InvalidTransition | NotFound | VersionConflict | AlreadyExists
    | Invalid | BackendFailure

  const SKILL_ROOT := "viking://agent/skills"

  // ---------- Principals ----------

  function RoleRank(u: Unicode, role: string): nat {
    var r := u.Lower(u.Trim(role));
    if r == "viewer" then 1 else if r == "editor" then 2 else if r == "admin" then 3 else if r == "owner" then 4 else 0
  }

  predicate IsEditor(u: Unicode, p: Principal) {
    RoleRank(u, p.role) >= 2
  }

  predicate IsAdmin(u: Unicode, p: Principal) {
    RoleRank(u, p.role) >= 3
  }

  predicate ValidPrincipal(u: Unicode, p: Principal) {
    !u.Blank(p.workspaceId) && !u.Blank(p.userId) && !u.Blank(p.role)
  }

  predicate IsAuthor(u: Unicode, user: string, c: Record) {
    exists i :: 0 <= i < |c.authors| && u.Trim(c.authors[i]) == u.Trim(user)
  }

  predicate CanRead(u: Unicode, p: Principal, c: Record) {
    && u.Trim(p.workspaceId) == u.Trim(c.workspaceId)
    && (c.scope == Workspace || IsAdmin(u, p) || IsAuthor(u, p.userId, c))
  }

  // ---------- Creation ----------

  function NormalizeInput(u: Unicode, input: Input): Input {
    var kind :=
      if input.kind != OtherKind("") then input.kind
      else if input.knowledge.Some? && input.skill.None? then Knowledge
      else if input.skill.Some? && input.knowledge.None? then Skill
      else input.kind;
    var scope := if input.scope == OtherScope("") then Personal else input.scope;
    var skill :=
      if input.skill.Some? && u.Blank(input.skill.value.targetUri)
      then Some(input.skill.value.(targetUri := SKILL_ROOT))
      else input.skill;
    input.(kind := kind, scope := scope, skill := skill)
  }

  predicate ValidInput(u: Unicode, input: Input) {
    && (input.scope == Personal || input.scope == Workspace)
    && (match input.kind
        case Knowledge =>
          && input.knowledge.Some? && input.skill.None?
          && var k := input.knowledge.value;
          !u.Blank(k.title) && !u.Blank(k.statement) && !u.Blank(k.targetKnowledgeBaseId)
        case Skill =>
          && input.skill.Some? && input.knowledge.None?
          && var s := input.skill.value;
          !u.Blank(s.name) && !u.Blank(s.content) && !u.Blank(s.reason) && u.Trim(s.targetUri) == SKILL_ROOT
        case OtherKind(_) => false)
    && (input.sessions != [] || input.experiences != [] || input.evidence != [])
  }

  /** The version-1 record a creation writes before any inspection. */
  function NewRecord(u: Unicode, p: Principal, raw: Input, id: string, now: int): Result<Record, Error> {
    var input := NormalizeInput(u, raw);
    if !ValidPrincipal(u, p) || !ValidInput(u, input) then Failure(Invalid)
    else if input.scope == Workspace && !IsEditor(u, p) then Failure(AccessDenied)
    else
      Success(Record(
        id, 1, input.kind, input.scope, Candidate, u.Trim(p.workspaceId), [u.Trim(p.userId)],
        UniqueNonEmpty(u, input.sessions), UniqueNonEmpty(u, input.experiences), input.evidence,
        input.knowledge, input.skill, None, None, None, None, now, now))
  }

  // ---------- Inspection and review gates ----------

  predicate ValidDecision(d: Decision) {
    !d.OtherDecision?
  }

  /** The text under which contents count as the same. */
  function ContentKey(u: Unicode, s: string): string {
    u.Lower(WithoutSpaces(u, u.Trim(s)))
  }

  /** The findings that put a freshly inspected record in the blocked state. */
  predicate Blocking(i: Inspection) {
    i.duplicate || !i.evidenceVerified || i.blockingReason != "" || i.validationStatus == "invalid"
  }

  /** An inspection that lets promotion go ahead, conflicts aside. */
  predicate Clean(i: Inspection) {
    ValidDecision(i.decision) && i.decision != Skip && !Blocking(i)
  }

  /** The sources and results a record of each kind must carry before approval. */
  predicate KindEvidence(u: Unicode, c: Record) {
    match c.kind
    case Knowledge =>
      c.knowledge.Some? && !u.Blank(c.knowledge.value.targetKnowledgeBaseId) && c.evidence != []
    case Skill =>
      && c.skill.Some? && (c.sessions != [] || c.experiences != [])
      && c.skill.value.behaviorDiff != []
      && u.Lower(u.Trim(c.skill.value.evalStatus)) == "passed"
    case OtherKind(_) => false
  }

  predicate PassesGate(u: Unicode, c: Record, input: ReviewInput) {
    && c.inspection.Some?
    && var i := c.inspection.value;
    && ValidDecision(i.decision)
    && i.decision != Skip
    && !i.duplicate
    && i.evidenceVerified
    && i.blockingReason == "" && i.validationStatus != "invalid"
    && (i.conflict ==> input.resolveConflict && !u.Blank(input.reason))
    && KindEvidence(u, c)
  }

  /** The shared revision a skill candidate may be published over; empty means any. */
  function ExpectedRevision(u: Unicode, c: Record): string {
    if c.kind == Skill && c.inspection.Some? then
      if c.skill.Some? && !u.Blank(c.skill.value.expectedRevision) then u.Trim(c.skill.value.expectedRevision)
      else u.Trim(c.inspection.value.currentRevision)
    else ""
  }

  predicate FreshEnough(u: Unicode, c: Record, latest: Inspection) {
    && ValidDecision(latest.decision)
    && latest.decision != Skip
    && !latest.duplicate
    && latest.evidenceVerified && latest.blockingReason == "" && latest.validationStatus != "invalid"
    && (latest.conflict ==> c.review.Some? && c.review.value.resolveConflict)
    && var expected := ExpectedRevision(u, c);
       expected != "" ==> u.Trim(latest.currentRevision) == expected
  }

  // ---------- Service calls ----------

  /** What the authoritative backend answered; `NoBackend` when none is configured for the kind. */
  datatype InspectReply = NoBackend | Inspected(inspection: Inspection, error: Option<string>)

  datatype Action =
    | FinishCreate(p: Principal, inspect: InspectReply, now: int)
    | Recheck(p: Principal, inspect: InspectReply, now: int)
    | ReviewRecord(p: Principal, input: ReviewInput, now: int)
    | Publish(p: Principal, inspect: InspectReply, publish: Result<Publication, string>, now: int)
    | Rollback(p: Principal, configured: bool, failure: Option<string>, reason: string, now: int)

  /** Every write carries the next version number and a new time stamp. */
  function Bump(c: Record, now: int): Record {
    c.(version := c.version + 1, updatedAt := now)
  }

  function InspectInto(c: Record, reply: InspectReply, now: int): Result<Record, Error> {
    match reply
    case NoBackend => Failure(BackendFailure)
    case Inspected(found, error) =>
      var stamped := if found.checkedAt == 0 then found.(checkedAt := now) else found;
      var i := if error.Some? then stamped.(blockingReason := error.value) else stamped;
      Success(Bump(c.(inspection := Some(i), state := if Blocking(i) then Blocked else Checked), now))
  }

  function ReadChecked(u: Unicode, p: Principal, c: Record): Option<Error> {
    if !ValidPrincipal(u, p) then Some(Invalid)
    else if !CanRead(u, p, c) then Some(AccessDenied)
    else None
  }

  function ApplyRecheck(u: Unicode, c: Record, p: Principal, inspect: InspectReply, now: int): Result<Record, Error> {
    var denied := ReadChecked(u, p, c);
    if denied.Some? then Failure(denied.value)
    else if c.state == Published || c.state == RolledBack || c.state == Rejected then Failure(InvalidTransition)
    else if !IsAuthor(u, p.userId, c) && !IsAdmin(u, p) then Failure(AccessDenied)
    else InspectInto(c, inspect, now)
  }

  function ApplyReview(u: Unicode, c: Record, p: Principal, input: ReviewInput, now: int): Result<Record, Error> {
    var denied := ReadChecked(u, p, c);
    if !IsAdmin(u, p) then Failure(AccessDenied)
    else if denied.Some? then Failure(denied.value)
    else if c.state != Checked && c.state != Blocked then Failure(InvalidTransition)
    else
      var word := u.Lower(u.Trim(input.decision));
      if word == "reject" || word == "rejected" then
        var review := Review("rejected", p.userId, u.Trim(input.reason), false, false, now);
        Success(Bump(c.(review := Some(review), state := Rejected), now))
      else if word == "approve" || word == "approved" then
        if !PassesGate(u, c, input) then Failure(PromotionBlocked)
        else if c.scope == Personal && !input.promoteToWorkspace then Failure(PromotionBlocked)
        else
          var scope := if c.scope == Personal then Workspace else c.scope;
          var review := Review("approved", u.Trim(p.userId), u.Trim(input.reason), input.resolveConflict,
                               input.promoteToWorkspace, now);
          Success(Bump(c.(scope := scope, review := Some(review), state := Approved), now))
      else Failure(Invalid)
  }

  /** The checks a publication passes before the backend is asked to publish. */
  function PublishReady(u: Unicode, c: Record, p: Principal, inspect: InspectReply): Result<Record, Error> {
    var denied := ReadChecked(u, p, c);
    if !IsAdmin(u, p) then Failure(AccessDenied)
    else if denied.Some? then Failure(denied.value)
    else if c.state != Approved || c.scope != Workspace || c.review.None? || c.review.value.decision != "approved" then
      Failure(InvalidTransition)
    else if inspect.NoBackend? || inspect.error.Some? then Failure(BackendFailure)
    else if !FreshEnough(u, c, inspect.inspection) then Failure(PromotionBlocked)
    else Success(c.(inspection := Some(inspect.inspection)))
  }

  function ApplyPublish(u: Unicode, c: Record, p: Principal, inspect: InspectReply,
                        publish: Result<Publication, string>, now: int): Result<Record, Error> {
    var ready := PublishReady(u, c, p, inspect);
    if ready.Failure? then ready
    else if publish.Failure? then Failure(BackendFailure)
    else Success(Bump(ready.value.(publication := Some(publish.value.(publishedAt := now)), state := Published), now))
  }

  function ApplyRollback(u: Unicode, c: Record, p: Principal, configured: bool, failure: Option<string>,
                         reason: string, now: int): Result<Record, Error> {
    var denied := ReadChecked(u, p, c);
    if !IsAdmin(u, p) then Failure(AccessDenied)
    else if denied.Some? then Failure(denied.value)
    else if c.state != Published || c.publication.None? then Failure(InvalidTransition)
    else if !configured || failure.Some? then Failure(BackendFailure)
    else Success(Bump(c.(state := RolledBack, rollback := Some(RollbackRecord(now, p.userId, u.Trim(reason)))), now))
  }

  function Apply(u: Unicode, c: Record, a: Action): Result<Record, Error> {
    match a
    case FinishCreate(p, inspect, now) => InspectInto(c, inspect, now)
    case Recheck(p, inspect, now) => ApplyRecheck(u, c, p, inspect, now)
    case ReviewRecord(p, input, now) => ApplyReview(u, c, p, input, now)
    case Publish(p, inspect, publish, now) => ApplyPublish(u, c, p, inspect, publish, now)
    case Rollback(p, configured, failure, reason, now) => ApplyRollback(u, c, p, configured, failure, reason, now)
  }
}
