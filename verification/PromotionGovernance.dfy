/**
 What every stored promotion history guarantees: the gates behind an approval and a publication, the
 states nothing leaves, the fields nothing rewrites, and the revision a skill is published over.
 */
module PromotionGovernance {
  import opened Wrappers
  import opened Text
  import opened PromotionModel
  import opened PromotionStore
  import opened PromotionProtocol

  // ---------- The gate invariant ----------

  predicate PayloadFits(c: Record) {
    match c.kind
    case Knowledge => c.knowledge.Some? && c.skill.None?
    case Skill => c.skill.Some? && c.knowledge.None?
    case OtherKind(_) => false
  }

  /** Workspace scope, an approving review, a clean inspection and the evidence the kind requires. */
  predicate Governed(u: Unicode, c: Record) {
    && c.scope == Workspace
    && c.review.Some? && c.review.value.decision == "approved"
    && c.inspection.Some? && Clean(c.inspection.value)
    && (c.inspection.value.conflict ==> c.review.value.resolveConflict)
    && KindEvidence(u, c)
  }

  predicate GateInv(u: Unicode, c: Record) {
    && PayloadFits(c)
    && (c.scope == Personal || c.scope == Workspace)
    && (c.publication.Some? <==> c.state == Published || c.state == RolledBack)
    && (c.rollback.Some? <==> c.state == RolledBack)
    && (c.state == Candidate ==> c.inspection.None? && c.review.None?)
    && (c.state == Checked || c.state == Blocked ==>
          c.inspection.Some? && (c.state == Blocked <==> Blocking(c.inspection.value)))
    && (c.state == Rejected ==> c.review.Some? && c.review.value.decision == "rejected")
    && (c.state == Approved || c.state == Published || c.state == RolledBack ==> Governed(u, c))
    && (c.state == Approved && c.inspection.value.conflict ==> c.review.value.reason != "")
  }

  lemma CreationMeetsGate(u: Unicode, p: Principal, input: Input, id: string, now: int)
    requires NewRecord(u, p, input, id, now).Success?
    ensures GateInv(u, NewRecord(u, p, input, id, now).value)
  {
  }

  lemma InspectionKeepsGate(u: Unicode, c: Record, reply: InspectReply, now: int)
    requires GateInv(u, c) && InspectInto(c, reply, now).Success?
    requires c.state != Published && c.state != RolledBack
    ensures GateInv(u, InspectInto(c, reply, now).value)
  {
  }

  lemma ReviewKeepsGate(u: Unicode, c: Record, p: Principal, input: ReviewInput, now: int)
    requires GateInv(u, c) && ApplyReview(u, c, p, input, now).Success?
    ensures GateInv(u, ApplyReview(u, c, p, input, now).value)
  {
  }

  lemma PublishKeepsGate(u: Unicode, c: Record, p: Principal, inspect: InspectReply,
                         publish: Result<Publication, string>, now: int)
    requires GateInv(u, c) && ApplyPublish(u, c, p, inspect, publish, now).Success?
    ensures GateInv(u, ApplyPublish(u, c, p, inspect, publish, now).value)
  {
  }

  lemma CallKeepsGate(u: Unicode, c: Record, a: Action)
    requires GateInv(u, c) && Apply(u, c, a).Success?
    requires a.FinishCreate? ==> c.state == Candidate
    ensures GateInv(u, Apply(u, c, a).value)
  {
    hide GateInv;
    hide InspectInto;
    hide ApplyReview;
    hide ApplyPublish;
    match a
    case FinishCreate(_, inspect, now) => InspectionKeepsGate(u, c, inspect, now);
    case Recheck(_, inspect, now) => InspectionKeepsGate(u, c, inspect, now);
    case ReviewRecord(p, input, now) => ReviewKeepsGate(u, c, p, input, now);
    case Publish(p, inspect, publish, now) => PublishKeepsGate(u, c, p, inspect, publish, now);
    case Rollback(_, _, _, _, _) => RollbackKeepsGate(u, c, a);
  }

  lemma RollbackKeepsGate(u: Unicode, c: Record, a: Action)
    requires GateInv(u, c) && a.Rollback? && Apply(u, c, a).Success?
    ensures GateInv(u, Apply(u, c, a).value)
  {
  }

  lemma {:induction false} GateHolds(u: Unicode, id: string, log: seq<Entry>, i: nat)
    requires SequentialHistory(u, id, log) && i < |log|
    ensures GateInv(u, log[i].record)
  {
    hide Apply;
    hide NewRecord;
    hide GateInv;
    var Creation(p, input, now) := log[0].cause;
    CreationMeetsGate(u, p, input, id, now);
    if i > 0 {
      GateHolds(u, id, log, i - 1);
      assert FollowsAt(u, log, i);
      NewRecordFacts(u, p, input, id, now);
      CallKeepsGate(u, log[i - 1].record, log[i].cause.action);
    }
  }

  /** In every interleaving, every record ever stored meets the gate. */
  lemma EveryStoredRecordIsGoverned(u: Unicode, events: seq<Event>, id: string, i: nat)
    requires Run(u, Start, events).Some?
    requires var logs := Run(u, Start, events).value.logs; id in logs && i < |logs[id]|
    ensures GateInv(u, Run(u, Start, events).value.logs[id][i].record)
  {
    var s := Run(u, Start, events).value;
    EveryRunIsLinear(u, events);
    assert StoredInv(u, s, id);
    GateHolds(u, id, s.logs[id], i);
  }

  // ---------- Who approves, and from where ----------

  /** The states a stored record can move to, who moves it there, and what the move may rewrite. */
  ghost predicate LawfulMove(u: Unicode, before: Record, a: Action, after: Record) {
    && (after.state == Approved ==>
          before.state == Checked && a.ReviewRecord? && IsAdmin(u, a.p) && ValidPrincipal(u, a.p)
          && after.review.Some? && after.review.value.reviewer == u.Trim(a.p.userId))
    && (after.state == Published ==> before.state == Approved && a.Publish? && IsAdmin(u, a.p))
    && (after.state == RolledBack ==> before.state == Published && a.Rollback? && IsAdmin(u, a.p))
    && before.state != Rejected && before.state != RolledBack
    && (before.state == Published ==> after.state == RolledBack)
    && (after.scope != before.scope ==>
          before.scope == Personal && after.scope == Workspace && after.state == Approved
          && a.input.promoteToWorkspace)
    && (after.inspection != before.inspection ==> a.FinishCreate? || a.Recheck? || a.Publish?)
    && (after.review != before.review ==> a.ReviewRecord?)
    && (after.publication != before.publication ==> a.Publish?)
    && (after.rollback != before.rollback ==> a.Rollback?)
    && after.version == before.version + 1 && after.updatedAt == a.now
    && after.(version := before.version, state := before.state, scope := before.scope,
              inspection := before.inspection, review := before.review, publication := before.publication,
              rollback := before.rollback, updatedAt := before.updatedAt) == before
  }

  lemma InspectionMovesLawfully(u: Unicode, c: Record, a: Action, reply: InspectReply, now: int)
    requires GateInv(u, c) && (a.FinishCreate? || a.Recheck?) && a.now == now && InspectInto(c, reply, now).Success?
    requires c.state != Published && c.state != RolledBack && c.state != Rejected
    ensures LawfulMove(u, c, a, InspectInto(c, reply, now).value)
  {
  }

  lemma ReviewMovesLawfully(u: Unicode, c: Record, a: Action)
    requires GateInv(u, c) && a.ReviewRecord? && ApplyReview(u, c, a.p, a.input, a.now).Success?
    ensures LawfulMove(u, c, a, ApplyReview(u, c, a.p, a.input, a.now).value)
  {
  }

  lemma PublishMovesLawfully(u: Unicode, c: Record, a: Action)
    requires GateInv(u, c) && a.Publish? && ApplyPublish(u, c, a.p, a.inspect, a.publish, a.now).Success?
    ensures LawfulMove(u, c, a, ApplyPublish(u, c, a.p, a.inspect, a.publish, a.now).value)
  {
  }

  lemma RollbackMovesLawfully(u: Unicode, c: Record, a: Action)
    requires GateInv(u, c) && a.Rollback? && Apply(u, c, a).Success?
    ensures LawfulMove(u, c, a, Apply(u, c, a).value)
  {
  }

  lemma CallMovesLawfully(u: Unicode, c: Record, a: Action)
    requires GateInv(u, c) && Apply(u, c, a).Success?
    requires a.FinishCreate? ==> c.state == Candidate
    ensures LawfulMove(u, c, a, Apply(u, c, a).value)
  {
    hide GateInv;
    hide LawfulMove;
    hide InspectInto;
    hide ApplyReview;
    hide ApplyPublish;
    match a
    case FinishCreate(_, inspect, now) => InspectionMovesLawfully(u, c, a, inspect, now);
    case Recheck(_, inspect, now) => InspectionMovesLawfully(u, c, a, inspect, now);
    case ReviewRecord(_, _, _) => ReviewMovesLawfully(u, c, a);
    case Publish(_, _, _, _) => PublishMovesLawfully(u, c, a);
    case Rollback(_, _, _, _, _) => RollbackMovesLawfully(u, c, a);
  }

  /** A blocked record is never approved, although the review call admits blocked records. */
  lemma EveryMoveIsLawful(u: Unicode, id: string, log: seq<Entry>, i: nat)
    requires SequentialHistory(u, id, log) && 0 < i < |log|
    ensures log[i].cause.Call?
    ensures LawfulMove(u, log[i - 1].record, log[i].cause.action, log[i].record)
  {
    hide Apply;
    hide NewRecord;
    hide GateInv;
    hide LawfulMove;
    var Creation(p, input, now) := log[0].cause;
    NewRecordFacts(u, p, input, id, now);
    GateHolds(u, id, log, i - 1);
    assert FollowsAt(u, log, i);
    CallMovesLawfully(u, log[i - 1].record, log[i].cause.action);
  }

  /** Rejection and rollback end a history. */
  lemma TerminalStatesEndHistory(u: Unicode, id: string, log: seq<Entry>, i: nat)
    requires SequentialHistory(u, id, log) && i < |log|
    requires log[i].record.state == Rejected || log[i].record.state == RolledBack
    ensures i == |log| - 1
  {
    if i + 1 < |log| {
      EveryMoveIsLawful(u, id, log, i + 1);
    }
  }

  lemma RollbackKeepsPublication(u: Unicode, c: Record, a: Action)
    requires a.Rollback? && Apply(u, c, a).Success?
    ensures Apply(u, c, a).value.publication == c.publication
  {
  }

  /** A history records at most one publication, and only a rollback can follow it. */
  lemma PublishedOnce(u: Unicode, id: string, log: seq<Entry>, i: nat, j: nat)
    requires SequentialHistory(u, id, log) && i < j < |log|
    requires log[i].record.state == Published
    ensures j == i + 1 == |log| - 1 && log[j].record.state == RolledBack
    ensures log[j].record.publication == log[i].record.publication
  {
    hide Apply;
    hide NewRecord;
    EveryMoveIsLawful(u, id, log, i + 1);
    TerminalStatesEndHistory(u, id, log, i + 1);
    assert FollowsAt(u, log, i + 1);
    RollbackKeepsPublication(u, log[i].record, log[i + 1].cause.action);
  }

  // ---------- The revision a skill is published over ----------

  lemma PublishChecksRevision(u: Unicode, c: Record, a: Action)
    requires a.Publish? && Apply(u, c, a).Success? && c.kind == Skill && c.skill.Some? && c.inspection.Some?
    ensures var latest := Apply(u, c, a).value.inspection;
            && latest.Some?
            && (ExpectedRevision(u, c) != "" ==> u.Trim(latest.value.currentRevision) == ExpectedRevision(u, c))
  {
  }

  /**
   A declared revision is the only one a skill is ever published over, whatever a reviewer resolved.
   Without one, a revision seen when the record was approved is the only one.
   */
  lemma SkillPublishedOverExpectedRevision(u: Unicode, id: string, log: seq<Entry>, i: nat)
    requires SequentialHistory(u, id, log) && 0 < i < |log|
    requires log[i].record.state == Published && log[i].record.kind == Skill
    ensures var published, approved := log[i].record, log[i - 1].record;
            && approved.state == Approved
            && published.skill.Some? && published.inspection.Some? && approved.inspection.Some?
            && var declared := u.Trim(published.skill.value.expectedRevision);
            && (declared != "" ==> u.Trim(published.inspection.value.currentRevision) == declared)
            && (declared == "" && !u.Blank(approved.inspection.value.currentRevision) ==>
                  u.Trim(published.inspection.value.currentRevision)
                  == u.Trim(approved.inspection.value.currentRevision))
  {
    hide Apply;
    hide NewRecord;
    EveryMoveIsLawful(u, id, log, i);
    GateHolds(u, id, log, i - 1);
    assert FollowsAt(u, log, i);
    PublishChecksRevision(u, log[i - 1].record, log[i].cause.action);
  }
}
