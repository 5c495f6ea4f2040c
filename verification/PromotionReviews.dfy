/**
 Which calls succeed, in words: the roles, decisions and findings that lead a candidate from one state to
 the next, stated without the predicates that the service is written with.
 */
module PromotionReviews {
  import opened Wrappers
  import opened Text
  import opened PromotionModel
  import opened PromotionStore
  import opened PromotionProtocol
  import opened PromotionGovernance

  // ---------- Words ----------

  function Word(u: Unicode, text: string): string {
    u.Lower(u.Trim(text))
  }

  predicate Approves(u: Unicode, decision: string) {
    Word(u, decision) == "approve" || Word(u, decision) == "approved"
  }

  predicate Rejects(u: Unicode, decision: string) {
    Word(u, decision) == "reject" || Word(u, decision) == "rejected"
  }

  predicate Administrator(u: Unicode, role: string) {
    Word(u, role) == "admin" || Word(u, role) == "owner"
  }

  /** An administrator, named, of the candidate's workspace. */
  predicate Administers(u: Unicode, p: Principal, c: Record) {
    && Administrator(u, p.role) && !u.Blank(p.userId) && !u.Blank(p.workspaceId)
    && u.Trim(p.workspaceId) == u.Trim(c.workspaceId)
  }

  /** Ranks stand for these words; any other role counts for nothing. */
  lemma RolesAreWords(u: Unicode, p: Principal)
    ensures IsAdmin(u, p) <==> Administrator(u, p.role)
    ensures IsEditor(u, p) <==> Administrator(u, p.role) || Word(u, p.role) == "editor"
    ensures IsEditor(u, p) ==> !u.Blank(p.role)
  {
    var word := Word(u, p.role);
    assert "viewer"[0] == 'v' && "editor"[0] == 'e' && "admin"[0] == 'a' && "owner"[0] == 'o';
    assert u.Trim(p.role) == "" ==> word == "";
  }

  lemma AdministratorsMayRead(u: Unicode, p: Principal, c: Record)
    ensures IsAdmin(u, p) && ReadChecked(u, p, c).None? <==> Administers(u, p, c)
    ensures IsAdmin(u, p) ==> (ReadChecked(u, p, c).None? <==> Administers(u, p, c))
  {
    RolesAreWords(u, p);
    hide IsAuthor;
  }

  lemma WordsDiffer(u: Unicode, decision: string)
    ensures !(Approves(u, decision) && Rejects(u, decision))
  {
    assert "approve"[0] == 'a' && "approved"[0] == 'a' && "reject"[0] == 'r' && "rejected"[0] == 'r';
  }

  // ---------- Findings ----------

  /** A finding to create or update, or a conflict, on verified sources, without anything against it. */
  predicate Favourable(i: Inspection) {
    && (i.decision == Create || i.decision == Update || i.decision == Conflict)
    && !i.duplicate && i.evidenceVerified && i.blockingReason == "" && i.validationStatus != "invalid"
  }

  /** Knowledge needs a target and evidence, a skill a source, a difference in behaviour and a passed evaluation. */
  predicate Substantiated(u: Unicode, c: Record) {
    || (c.kind == Knowledge && c.knowledge.Some? && !u.Blank(c.knowledge.value.targetKnowledgeBaseId)
        && c.evidence != [])
    || (c.kind == Skill && c.skill.Some? && !(c.sessions == [] && c.experiences == [])
        && c.skill.value.behaviorDiff != [] && Word(u, c.skill.value.evalStatus) == "passed")
  }

  /** What the review has to resolve or ask for. */
  predicate Settles(u: Unicode, c: Record, input: ReviewInput) {
    && c.inspection.Some? && Favourable(c.inspection.value) && Substantiated(u, c)
    && (c.inspection.value.conflict ==> input.resolveConflict && !u.Blank(input.reason))
    && (c.scope == Personal ==> input.promoteToWorkspace)
  }

  lemma SettledPassesGate(u: Unicode, c: Record, input: ReviewInput)
    ensures PassesGate(u, c, input) && (c.scope == Personal ==> input.promoteToWorkspace) <==> Settles(u, c, input)
  {
    hide Unicode.Trim;
    hide Unicode.Lower;
  }

  // ---------- Reviews ----------

  /** The record is waiting for a review by this principal. */
  predicate Reviewable(u: Unicode, c: Record, p: Principal) {
    Administers(u, p, c) && (c.state == Checked || c.state == Blocked)
  }

  /**
   A review approves exactly on an approving word for a record in order, rejects exactly on a rejecting
   word, and otherwise fails; and what it records is the decision, who took it, and why.
   */
  lemma ReviewFollowsDecision(u: Unicode, c: Record, p: Principal, input: ReviewInput, now: int)
    ensures var r := Apply(u, c, ReviewRecord(p, input, now));
            && (r.Success? && r.value.state == Approved <==>
                  Reviewable(u, c, p) && Approves(u, input.decision) && Settles(u, c, input))
            && (r.Success? && r.value.state == Rejected <==> Reviewable(u, c, p) && Rejects(u, input.decision))
            && (r.Success? ==> r.value.state == Approved || r.value.state == Rejected)
            && (r.Success? && r.value.state == Approved ==>
                  && r.value.review == Some(Review("approved", u.Trim(p.userId), u.Trim(input.reason),
                                                   input.resolveConflict, input.promoteToWorkspace, now))
                  && r.value.scope == (if c.scope == Personal then Workspace else c.scope))
            && (r.Success? && r.value.state == Rejected ==>
                  && r.value.review == Some(Review("rejected", p.userId, u.Trim(input.reason), false, false, now))
                  && r.value.scope == c.scope)
  {
    AdministratorsMayRead(u, p, c);
    SettledPassesGate(u, c, input);
    WordsDiffer(u, input.decision);
    hide IsAdmin;
    hide ReadChecked;
    hide PassesGate;
    hide Settles;
    hide Administers;
    hide Unicode.Trim;
    hide Unicode.Lower;
  }

  /** In every history a record is approved on an approving word and rejected on a rejecting one, and so reviewed. */
  lemma DecisionsAreFollowed(u: Unicode, id: string, log: seq<Entry>, i: nat)
    requires SequentialHistory(u, id, log) && 0 < i < |log|
    ensures log[i].cause.Call?
    ensures var c, a, t := log[i - 1].record, log[i].cause.action, log[i].record;
            && (t.state == Approved <==> a.ReviewRecord? && Approves(u, a.input.decision))
            && (t.state == Rejected <==> a.ReviewRecord? && Rejects(u, a.input.decision))
            && (a.ReviewRecord? ==> Reviewable(u, c, a.p) && (t.state == Approved ==> Settles(u, c, a.input)))
  {
    hide Apply;
    hide NewRecord;
    hide Settles;
    hide Reviewable;
    hide Approves;
    hide Rejects;
    EveryMoveIsLawful(u, id, log, i);
    assert FollowsAt(u, log, i);
    var c, a := log[i - 1].record, log[i].cause.action;
    if a.ReviewRecord? {
      ReviewFollowsDecision(u, c, a.p, a.input, a.now);
      WordsDiffer(u, a.input.decision);
    } else {
      OthersDoNotReject(u, c, a);
    }
  }

  lemma OthersDoNotReject(u: Unicode, c: Record, a: Action)
    requires !a.ReviewRecord? && Apply(u, c, a).Success?
    ensures Apply(u, c, a).value.state != Rejected && Apply(u, c, a).value.state != Approved
  {
    hide FreshEnough;
    hide ReadChecked;
  }

  /** And over every run of any number of callers. */
  lemma EveryDecisionIsFollowed(u: Unicode, events: seq<Event>, id: string, i: nat)
    requires Run(u, Start, events).Some?
    requires var logs := Run(u, Start, events).value.logs; id in logs && 0 < i < |logs[id]|
    ensures var log := Run(u, Start, events).value.logs[id];
            && log[i].cause.Call?
            && var a, state := log[i].cause.action, log[i].record.state;
            && (state == Approved <==> a.ReviewRecord? && Approves(u, a.input.decision))
            && (state == Rejected <==> a.ReviewRecord? && Rejects(u, a.input.decision))
  {
    hide *;
    var s := Run(u, Start, events).value;
    EveryRunIsLinear(u, events);
    StoredHistory(u, s, id);
    DecisionsAreFollowed(u, id, s.logs[id], i);
  }

  lemma StoredHistory(u: Unicode, s: System, id: string)
    requires SystemInv(u, s) && id in s.logs
    ensures SequentialHistory(u, id, s.logs[id])
  {
    hide SequentialHistory;
    assert StoredInv(u, s, id);
  }

  // ---------- Publications and rollbacks ----------

  /** The revision a skill may replace: the declared one, or else the one seen when it was last inspected. */
  predicate Replaces(u: Unicode, c: Record, latest: Inspection) {
    c.kind == Skill && c.inspection.Some? ==>
      var declared := if c.skill.Some? then u.Trim(c.skill.value.expectedRevision) else "";
      var seen := u.Trim(c.inspection.value.currentRevision);
      && (declared != "" ==> u.Trim(latest.currentRevision) == declared)
      && (declared == "" && seen != "" ==> u.Trim(latest.currentRevision) == seen)
  }

  /**
   A publication succeeds exactly for an administrator, on an approved record of the workspace, when a
   fresh inspection is favourable and finds no unresolved conflict and no other revision, and the backend
   carries it out; it records the backend's publication with its time, and the fresh inspection.
   */
  lemma PublishesExactly(u: Unicode, c: Record, p: Principal, inspect: InspectReply,
                         publish: Result<Publication, string>, now: int)
    ensures var r := Apply(u, c, Publish(p, inspect, publish, now));
            && (r.Success? <==>
                  && Administers(u, p, c) && c.state == Approved && c.scope == Workspace
                  && c.review.Some? && c.review.value.decision == "approved"
                  && inspect.Inspected? && inspect.error.None? && Favourable(inspect.inspection)
                  && (inspect.inspection.conflict ==> c.review.value.resolveConflict)
                  && Replaces(u, c, inspect.inspection) && publish.Success?)
            && (r.Success? ==>
                  && r.value.state == Published && r.value.inspection == Some(inspect.inspection)
                  && r.value.publication == Some(publish.value.(publishedAt := now)))
  {
    AdministratorsMayRead(u, p, c);
    if inspect.Inspected? {
      FreshExactly(u, c, inspect.inspection);
    }
    hide IsAdmin;
    hide ReadChecked;
    hide FreshEnough;
    hide Favourable;
    hide Replaces;
    hide Administers;
  }

  lemma FreshExactly(u: Unicode, c: Record, latest: Inspection)
    ensures FreshEnough(u, c, latest) <==>
              && Favourable(latest) && Replaces(u, c, latest)
              && (latest.conflict ==> c.review.Some? && c.review.value.resolveConflict)
  {
    hide Unicode.Trim;
  }

  /** A rollback succeeds exactly for an administrator on a published record whose backend undoes it. */
  lemma RollsBackExactly(u: Unicode, c: Record, p: Principal, configured: bool, failure: Option<string>,
                         reason: string, now: int)
    ensures var r := Apply(u, c, Rollback(p, configured, failure, reason, now));
            && (r.Success? <==>
                  && Administers(u, p, c) && c.state == Published && c.publication.Some?
                  && configured && failure.None?)
            && (r.Success? ==>
                  && r.value.state == RolledBack && r.value.publication == c.publication
                  && r.value.rollback == Some(RollbackRecord(now, p.userId, u.Trim(reason))))
  {
    AdministratorsMayRead(u, p, c);
    hide IsAdmin;
    hide ReadChecked;
    hide Administers;
  }

  // ---------- Inspections and creations ----------

  /** Named, with a role, in the candidate's workspace, and its author or an administrator. */
  predicate Owns(u: Unicode, p: Principal, c: Record) {
    && !u.Blank(p.userId) && !u.Blank(p.workspaceId) && !u.Blank(p.role)
    && u.Trim(p.workspaceId) == u.Trim(c.workspaceId)
    && (Administrator(u, p.role)
        || exists i :: 0 <= i < |c.authors| && u.Trim(c.authors[i]) == u.Trim(p.userId))
  }

  /** A finding blocks exactly when it is a duplicate, unverified, given a reason, invalid or failed with a text. */
  lemma InspectionDecides(u: Unicode, c: Record, reply: InspectReply, now: int)
    ensures var r := InspectInto(c, reply, now);
            && (r.Success? <==> reply.Inspected?)
            && (r.Success? ==>
                  var i := reply.inspection;
                  var reason := if reply.error.Some? then reply.error.value else i.blockingReason;
                  && (r.value.state == Checked || r.value.state == Blocked)
                  && (r.value.state == Checked <==>
                        !i.duplicate && i.evidenceVerified && reason == "" && i.validationStatus != "invalid")
                  && r.value.inspection == Some(i.(checkedAt := if i.checkedAt == 0 then now else i.checkedAt,
                                                   blockingReason := reason)))
  {
  }

  /** A recheck succeeds exactly for the author or an administrator, before publication or rejection. */
  lemma RechecksExactly(u: Unicode, c: Record, p: Principal, inspect: InspectReply, now: int)
    ensures var r := Apply(u, c, Recheck(p, inspect, now));
            && (r.Success? <==>
                  && Owns(u, p, c) && inspect.Inspected?
                  && c.state != Published && c.state != RolledBack && c.state != Rejected)
            && (r.Success? ==> r == InspectInto(c, inspect, now))
  {
    RolesAreWords(u, p);
    InspectionDecides(u, c, inspect, now);
    hide InspectInto;
    hide IsAdmin;
    hide Administrator;
    hide Unicode.Trim;
  }

  /** The trimmed text is one of those given. */
  ghost predicate Traced(u: Unicode, given: seq<string>, text: string) {
    text != "" && exists x :: x in given && u.Trim(x) == text
  }

  lemma TracedOnes(u: Unicode, given: seq<string>)
    ensures forall s :: s in UniqueNonEmpty(u, given) <==> Traced(u, given, s)
  {
    UniqueMembers(u, given);
  }

  /** A record is read exactly in its workspace, by all once it is shared, else by its author and administrators. */
  lemma ReadsExactly(u: Unicode, p: Principal, c: Record)
    ensures ReadChecked(u, p, c).None? <==>
              && !u.Blank(p.userId) && !u.Blank(p.workspaceId) && !u.Blank(p.role)
              && u.Trim(p.workspaceId) == u.Trim(c.workspaceId)
              && (c.scope == Workspace || Owns(u, p, c))
  {
    RolesAreWords(u, p);
    hide IsAdmin;
    hide Administrator;
    hide Unicode.Trim;
  }

  /** One complete draft, of the kind that is asked for if one is. */
  predicate Drafted(u: Unicode, input: Input) {
    || (input.knowledge.Some? && input.skill.None? && (input.kind == Knowledge || input.kind == OtherKind(""))
        && var k := input.knowledge.value;
        !u.Blank(k.title) && !u.Blank(k.statement) && !u.Blank(k.targetKnowledgeBaseId))
    || (input.skill.Some? && input.knowledge.None? && (input.kind == Skill || input.kind == OtherKind(""))
        && var s := input.skill.value;
        && !u.Blank(s.name) && !u.Blank(s.content) && !u.Blank(s.reason)
        && (u.Blank(s.targetUri) || u.Trim(s.targetUri) == SKILL_ROOT))
  }

  /**
   A candidate is created exactly from one complete draft with a source, by a named principal with a role,
   and for the workspace only by an editor, an administrator or an owner; it is personal unless asked.
   */
  lemma CreatesExactly(u: Unicode, p: Principal, input: Input, id: string, now: int)
    requires u.Lawful()
    ensures var r := NewRecord(u, p, input, id, now);
            var shared := input.scope == Workspace;
            && (r.Success? <==>
                  && Drafted(u, input) && !(input.sessions == [] && input.experiences == [] && input.evidence == [])
                  && (shared || input.scope == Personal || input.scope == OtherScope(""))
                  && !u.Blank(p.userId) && !u.Blank(p.workspaceId) && !u.Blank(p.role)
                  && (shared ==> Administrator(u, p.role) || Word(u, p.role) == "editor"))
            && (r.Success? ==>
                  && r.value.state == Candidate && r.value.version == 1 && r.value.id == id
                  && r.value.workspaceId == u.Trim(p.workspaceId) && r.value.authors == [u.Trim(p.userId)]
                  && r.value.scope == (if shared then Workspace else Personal)
                  && r.value.kind == (if input.knowledge.Some? then Knowledge else Skill)
                  && r.value.knowledge == input.knowledge && r.value.evidence == input.evidence
                  && r.value.skill == (if input.skill.Some? && u.Blank(input.skill.value.targetUri)
                                       then Some(input.skill.value.(targetUri := SKILL_ROOT)) else input.skill)
                  && (forall s :: s in r.value.sessions <==> Traced(u, input.sessions, s))
                  && (forall s :: s in r.value.experiences <==> Traced(u, input.experiences, s))
                  && r.value.inspection.None? && r.value.review.None? && r.value.publication.None?
                  && r.value.rollback.None? && r.value.createdAt == now && r.value.updatedAt == now)
  {
    RolesAreWords(u, p);
    TrimmedIsFixed(u, SKILL_ROOT);
    TracedOnes(u, input.sessions);
    TracedOnes(u, input.experiences);
    hide Traced;
    hide IsEditor;
    hide Administrator;
    hide UniqueNonEmpty;
    hide Unicode.Trim;
  }

  // ---------- Stamps and keys ----------

  /** When the call is made. */
  function Moment(a: Action): int {
    match a
    case FinishCreate(_, _, now) => now
    case Recheck(_, _, now) => now
    case ReviewRecord(_, _, now) => now
    case Publish(_, _, _, now) => now
    case Rollback(_, _, _, _, now) => now
  }

  /** Every record a call leaves is the next version of the one before, stamped with the time of the call. */
  lemma NextVersionIsStamped(u: Unicode, c: Record, a: Action)
    ensures var r := Apply(u, c, a);
            r.Success? ==>
              && r.value.version == c.version + 1 && r.value.updatedAt == Moment(a)
              && r.value.id == c.id && r.value.createdAt == c.createdAt
  {
    hide FreshEnough;
    hide ReadChecked;
    hide PassesGate;
    hide IsAdmin;
    hide Unicode.Trim;
    hide Unicode.Lower;
  }

  /** An id is usable exactly when, trimmed, it is made of ASCII letters, digits, hyphens and underscores. */
  lemma KeysExactly(u: Unicode, id: string, key: string)
    ensures Key(u, id) == Success(key) <==>
              && key == u.Trim(id) && key != ""
              && forall c :: c in key ==>
                   'a' <= c <= 'z' || 'A' <= c <= 'Z' || '0' <= c <= '9' || c == '-' || c == '_'
  {
    hide Unicode.Trim;
    var t := u.Trim(id);
    if exists i :: 0 <= i < |t| && !IdChar(t[i]) {
      var i :| 0 <= i < |t| && !IdChar(t[i]);
      assert t[i] in t;
    }
  }
}
