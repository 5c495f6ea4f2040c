/**
 The knowledge backend of promotion: evidence is checked chunk by chunk, search results are scanned for a
 duplicate or a conflict, and a rollback deletes the entry that its publication recorded.

 What the knowledge server answers is an input.
 */
module KnowledgeBackend {
  import opened Wrappers
  import opened Text
  import opened PromotionModel

  /** A search result: its score, its text, and the entry it belongs to. */
  datatype Hit = Hit(score: real, content: string, resourceId: string)

  datatype Thresholds = Thresholds(duplicate: real, conflict: real)

  /**
   Whether the server's address and the caller's credentials are complete, the workspace's knowledge bases,
   and what the server answers; a lookup gives a chunk's knowledge base.
   */
  datatype Server = Server(
    address: bool, credentials: bool, allowed: seq<string>, lookup: string -> Option<string>,
    search: Result<seq<Hit>, string>, now: int)

  // ---------- Evidence ----------

  /** An empty scope allows every named knowledge base. */
  predicate Allowed(u: Unicode, allowed: seq<string>, requested: string) {
    var id := u.Trim(requested);
    id != "" && (allowed == [] || exists i :: 0 <= i < |allowed| && u.Trim(allowed[i]) == id)
  }

  /** The chunk is named, readable, inside the scope, and in the knowledge base the link claims. */
  predicate LinkVerified(u: Unicode, server: Server, link: EvidenceLink) {
    var chunk := u.Trim(link.chunkId);
    && chunk != ""
    && server.lookup(chunk).Some?
    && var base := u.Trim(server.lookup(chunk).value);
    && base != "" && Allowed(u, server.allowed, base)
    && (link.knowledgeBaseId != "" ==> u.Trim(link.knowledgeBaseId) == base)
  }

  datatype Evidence = NoEvidence | Refused(link: EvidenceLink) | Verified

  method VerifyEvidence(u: Unicode, server: Server, links: seq<EvidenceLink>) returns (r: Evidence)
    ensures r == NoEvidence <==> links == []
    ensures r == Verified <==> links != [] && forall i :: 0 <= i < |links| ==> LinkVerified(u, server, links[i])
    ensures r.Refused? ==> exists i :: 0 <= i < |links| && r.link == links[i] && !LinkVerified(u, server, links[i])
                                       && forall j :: 0 <= j < i ==> LinkVerified(u, server, links[j])
  {
    if |links| == 0 {
      return NoEvidence;
    }
    for n := 0 to |links|
      invariant forall j :: 0 <= j < n ==> LinkVerified(u, server, links[j])
    {
      var link := links[n];
      var chunk := u.Trim(link.chunkId);
      if chunk == "" {
        return Refused(link);
      }
      var answer := server.lookup(chunk);
      if answer.None? {
        return Refused(link);
      }
      var base := u.Trim(answer.value);
      if base == "" || !Allowed(u, server.allowed, base) {
        return Refused(link);
      }
      if link.knowledgeBaseId != "" && u.Trim(link.knowledgeBaseId) != base {
        return Refused(link);
      }
    }
    r := Verified;
  }

  // ---------- Duplicates and conflicts ----------

  function Effective(t: Thresholds): Thresholds {
    Thresholds(if t.duplicate <= 0.0 then 0.985 else t.duplicate, if t.conflict <= 0.0 then 0.90 else t.conflict)
  }

  predicate IsDuplicate(u: Unicode, t: Thresholds, statement: string, hit: Hit) {
    ContentKey(u, hit.content) == ContentKey(u, statement) || hit.score >= Effective(t).duplicate
  }

  predicate IsConflict(u: Unicode, t: Thresholds, hit: Hit) {
    hit.score >= Effective(t).conflict && !u.Blank(hit.content)
  }

  datatype Finding = Clear | Duplicate(resourceId: string) | Conflicting(resourceId: string)

  /** The first result that is a duplicate or a conflict decides. */
  method Scan(u: Unicode, t: Thresholds, statement: string, hits: seq<Hit>) returns (r: Finding)
    ensures r == Clear <==>
              forall i :: 0 <= i < |hits| ==> !IsDuplicate(u, t, statement, hits[i]) && !IsConflict(u, t, hits[i])
    ensures r.Duplicate? <==> DuplicateFirst(u, t, statement, hits)
    ensures r.Conflicting? <==> ConflictFirst(u, t, statement, hits)
    ensures !r.Clear? ==> exists i :: 0 <= i < |hits| && r.resourceId == hits[i].resourceId
                                      && (IsDuplicate(u, t, statement, hits[i]) || IsConflict(u, t, hits[i]))
                                      && forall j :: 0 <= j < i ==>
                                           !IsDuplicate(u, t, statement, hits[j]) && !IsConflict(u, t, hits[j])
  {
    hide ContentKey;
    for n := 0 to |hits|
      invariant forall i :: 0 <= i < n ==> !IsDuplicate(u, t, statement, hits[i]) && !IsConflict(u, t, hits[i])
    {
      if IsDuplicate(u, t, statement, hits[n]) {
        return Duplicate(hits[n].resourceId);
      }
      if IsConflict(u, t, hits[n]) {
        return Conflicting(hits[n].resourceId);
      }
    }
    r := Clear;
  }

  /** Some result is a duplicate and none before it is a conflict. */
  ghost predicate DuplicateFirst(u: Unicode, t: Thresholds, statement: string, hits: seq<Hit>) {
    exists i :: 0 <= i < |hits| && IsDuplicate(u, t, statement, hits[i]) && forall j :: 0 <= j < i ==>
        !IsConflict(u, t, hits[j])
  }

  /** Some result is a conflict and neither it nor any before it is a duplicate. */
  ghost predicate ConflictFirst(u: Unicode, t: Thresholds, statement: string, hits: seq<Hit>) {
    exists i :: 0 <= i < |hits| && IsConflict(u, t, hits[i]) && forall j :: 0 <= j <= i ==>
        !IsDuplicate(u, t, statement, hits[j])
  }

  /** Results ranked by score hide no result that is a duplicate by its score. */
  lemma RankedScoreDuplicateIsFound(u: Unicode, t: Thresholds, statement: string, hits: seq<Hit>, i: nat)
    requires i < |hits| && hits[i].score >= Effective(t).duplicate
    requires forall j, k :: 0 <= j < k < |hits| ==> hits[j].score >= hits[k].score
    ensures DuplicateFirst(u, t, statement, hits)
  {
    hide ContentKey;
    assert hits[0].score >= hits[i].score;
    assert IsDuplicate(u, t, statement, hits[0]);
  }

  /** The same statement stored already is missed when a merely similar result comes before it. */
  lemma SameTextBehindConflictIsMissed(u: Unicode, t: Thresholds, statement: string, similar: Hit, same: Hit)
    requires IsConflict(u, t, similar) && !IsDuplicate(u, t, statement, similar)
    requires same.content == statement
    ensures IsDuplicate(u, t, statement, same) && !DuplicateFirst(u, t, statement, [similar, same])
  {
    hide ContentKey;
    var hits := [similar, same];
    assert hits[0] == similar && hits[1] == same;
    forall i | 0 <= i < |hits| && IsDuplicate(u, t, statement, hits[i])
      ensures !forall j :: 0 <= j < i ==> !IsConflict(u, t, hits[j])
    {
      assert i == 1;
      assert IsConflict(u, t, hits[0]);
    }
  }

  // ---------- Inspection ----------

  /** A knowledge candidate for a knowledge base inside the workspace, inspected with all that a request needs. */
  predicate Fit(u: Unicode, server: Server, c: Record) {
    && c.kind == Knowledge && c.knowledge.Some? && server.address && server.credentials
    && Allowed(u, server.allowed, c.knowledge.value.targetKnowledgeBaseId)
  }

  predicate AllVerified(u: Unicode, server: Server, links: seq<EvidenceLink>) {
    links != [] && forall i :: 0 <= i < |links| ==> LinkVerified(u, server, links[i])
  }

  /** The candidate and its evidence are in order, and the server answered the search. */
  predicate Searched(u: Unicode, server: Server, c: Record) {
    Fit(u, server, c) && AllVerified(u, server, c.evidence) && server.search.Success?
  }

  /** Exactly what an inspection reports: an error, a blocking reason, a duplicate, a conflict or a clean result. */
  method InspectKnowledge(u: Unicode, t: Thresholds, server: Server, c: Record) returns (r: InspectReply)
    ensures r.Inspected? && r.inspection.checkedAt == server.now
    ensures r.error.Some? <==> !Fit(u, server, c)
    ensures r.inspection.validationStatus == if r.error.Some? then "invalid" else "valid"
    ensures r.inspection.evidenceVerified <==> Fit(u, server, c) && AllVerified(u, server, c.evidence)
    ensures r.error.None? ==> (r.inspection.blockingReason != "" <==> !Searched(u, server, c))
    ensures r.inspection.duplicate <==>
              Searched(u, server, c) && DuplicateFirst(u, t, c.knowledge.value.statement, server.search.value)
    ensures r.inspection.conflict <==>
              Searched(u, server, c) && ConflictFirst(u, t, c.knowledge.value.statement, server.search.value)
    ensures r.inspection.decision == if r.inspection.duplicate then PromotionModel.Skip
                                     else if r.inspection.conflict then PromotionModel.Conflict
                                     else PromotionModel.Create
    ensures r.error.None? && Clean(r.inspection) <==>
              Searched(u, server, c) && !DuplicateFirst(u, t, c.knowledge.value.statement, server.search.value)
  {
    hide ContentKey;
    hide LinkVerified;
    hide IsDuplicate;
    hide IsConflict;
    var i := Inspection(server.now, PromotionModel.Create, false, false, false, false, "", "", "valid", "");
    if c.kind != Knowledge || c.knowledge.None? {
      return Inspected(i.(validationStatus := "invalid"), Some("knowledge only"));
    }
    if !server.address {
      return Inspected(i.(validationStatus := "invalid"), Some("address"));
    }
    if !server.credentials {
      return Inspected(i.(validationStatus := "invalid"), Some("principal"));
    }
    var draft := c.knowledge.value;
    TrimIdempotent(u, draft.targetKnowledgeBaseId);
    if !Allowed(u, server.allowed, u.Trim(draft.targetKnowledgeBaseId)) {
      return Inspected(i.(validationStatus := "invalid"), Some("scope"));
    }
    var evidence := VerifyEvidence(u, server, c.evidence);
    if evidence.Refused? {
      return Inspected(i.(blockingReason := "evidence refused"), None);
    }
    i := i.(evidenceVerified := evidence == Verified);
    if !i.evidenceVerified {
      return Inspected(i.(blockingReason := "no evidence"), None);
    }
    if server.search.Failure? {
      return Inspected(i.(blockingReason := "search failed"), None);
    }
    var finding := Scan(u, t, draft.statement, server.search.value);
    match finding
    case Clear => r := Inspected(i, None);
    case Duplicate(_) => r := Inspected(i.(decision := PromotionModel.Skip, duplicate := true), None);
    case Conflicting(_) => r := Inspected(i.(decision := PromotionModel.Conflict, conflict := true), None);
  }

  // ---------- Publication and rollback ----------

  /** An entry of a knowledge base. */
  datatype KnowledgeEntry = KnowledgeEntry(knowledgeBaseId: string, title: string, content: string)

  /** All entries on the server by id, whichever knowledge base they are in. */
  type Entries = map<string, KnowledgeEntry>

  /** The places where a reply may name the created entry. */
  datatype Reply = Reply(id: string, knowledgeId: string, nested: Option<(string, string)>)

  /** What a creation request did: the id under which an entry now exists, if any, and what came back. */
  datatype Creation = Creation(created: Option<string>, reply: Result<Reply, string>)

  /** What a deletion request did, and what came back. */
  datatype Deletion = Deletion(effective: bool, error: Option<string>)

  /** The first text that is not blank, trimmed. */
  function FirstText(u: Unicode, a: string, b: string): string {
    if !u.Blank(a) then u.Trim(a) else u.Trim(b)
  }

  function ReportedId(u: Unicode, reply: Reply): string {
    var id := FirstText(u, reply.id, reply.knowledgeId);
    if id != "" || reply.nested.None? then id else FirstText(u, reply.nested.value.0, reply.nested.value.1)
  }

  /** The entry a knowledge candidate asks for. */
  function EntryFor(u: Unicode, c: Record): KnowledgeEntry
    requires c.knowledge.Some?
  {
    var draft := c.knowledge.value;
    KnowledgeEntry(u.Trim(draft.targetKnowledgeBaseId), draft.title, draft.statement)
  }

  /** The request is made: there is a draft, an address, and a knowledge base inside the workspace. */
  predicate Sendable(u: Unicode, server: Server, c: Record) {
    c.knowledge.Some? && server.address && Allowed(u, server.allowed, c.knowledge.value.targetKnowledgeBaseId)
  }

  function PublishKnowledge(u: Unicode, server: Server, entries: Entries, c: Record, answer: Creation)
    : (Result<Publication, string>, Entries)
  {
    if !Sendable(u, server, c) then (Failure("not sent"), entries)
    else
      var after := if answer.created.Some? then entries[answer.created.value := EntryFor(u, c)] else entries;
      if answer.reply.Failure? then (Failure(answer.reply.error), after)
      else
        var id := ReportedId(u, answer.reply.value);
        if id == "" then (Failure("no id"), after)
        else (Success(Publication(id, "", 0, Some(Snapshot(DeleteCreatedKnowledge, id, "")))), after)
  }

  /** The id a rollback asks the server to delete, if it gets that far. */
  function RollbackTarget(u: Unicode, server: Server, c: Record): Option<string> {
    if c.publication.None? || c.publication.value.snapshot.None? then None
    else
      var id := u.Trim(c.publication.value.snapshot.value.resourceId);
      if id == "" || !server.address then None else Some(id)
  }

  function RollbackKnowledge(u: Unicode, server: Server, entries: Entries, c: Record, answer: Deletion)
    : (Option<string>, Entries)
  {
    var id := RollbackTarget(u, server, c);
    if id.None? then (Some("not sent"), entries)
    else (answer.error, if answer.effective then entries - {id.value} else entries)
  }

  class KnowledgeShelf {
    const u: Unicode
    var entries: Entries

    constructor (u: Unicode)
      ensures this.u == u && entries == map[]
    {
      this.u := u;
      entries := map[];
    }

    method Publish(server: Server, c: Record, answer: Creation) returns (r: Result<Publication, string>)
      modifies this`entries
      ensures (r, entries) == PublishKnowledge(u, server, old(entries), c, answer)
    {
      if c.knowledge.None? || !server.address {
        return Failure("not sent");
      }
      var kb := u.Trim(c.knowledge.value.targetKnowledgeBaseId);
      TrimIdempotent(u, c.knowledge.value.targetKnowledgeBaseId);
      if !Allowed(u, server.allowed, kb) {
        return Failure("not sent");
      }
      if answer.created.Some? {
        var entry := KnowledgeEntry(kb, c.knowledge.value.title, c.knowledge.value.statement);
        entries := entries[answer.created.value := entry];
      }
      if answer.reply.Failure? {
        return Failure(answer.reply.error);
      }
      var id := FirstText(u, answer.reply.value.id, answer.reply.value.knowledgeId);
      if id == "" && answer.reply.value.nested.Some? {
        id := FirstText(u, answer.reply.value.nested.value.0, answer.reply.value.nested.value.1);
      }
      if id == "" {
        return Failure("no id");
      }
      r := Success(Publication(id, "", 0, Some(Snapshot(DeleteCreatedKnowledge, id, ""))));
    }

    method Rollback(server: Server, c: Record, answer: Deletion) returns (error: Option<string>)
      modifies this`entries
      ensures (error, entries) == RollbackKnowledge(u, server, old(entries), c, answer)
    {
      if c.publication.None? || c.publication.value.snapshot.None? {
        return Some("not sent");
      }
      var id := u.Trim(c.publication.value.snapshot.value.resourceId);
      if id == "" || !server.address {
        return Some("not sent");
      }
      if answer.effective {
        entries := entries - {id};
      }
      error := answer.error;
    }
  }

  lemma ReportedIdIsTrimmed(u: Unicode, reply: Reply)
    ensures u.Trim(ReportedId(u, reply)) == ReportedId(u, reply)
  {
    TrimIdempotent(u, reply.id);
    TrimIdempotent(u, reply.knowledgeId);
    if reply.nested.Some? {
      TrimIdempotent(u, reply.nested.value.0);
      TrimIdempotent(u, reply.nested.value.1);
    }
  }

  /**
   A failed publication leaves an entry behind exactly when the server stored one and its reply was lost
   or names no id; a record that holds no publication then gives a rollback nothing to delete.
   */
  lemma FailedPublicationLeavesEntryExactly(u: Unicode, server: Server, entries: Entries, c: Record, answer: Creation)
    requires answer.created.Some? ==> answer.created.value !in entries
    ensures var (r, after) := PublishKnowledge(u, server, entries, c, answer);
            && (r.Failure? && after != entries <==>
                  && Sendable(u, server, c) && answer.created.Some?
                  && (answer.reply.Failure? || ReportedId(u, answer.reply.value) == ""))
            && (forall id :: id in entries ==> id in after && after[id] == entries[id])
            && (c.publication.None? ==> RollbackTarget(u, server, c).None?)
  {
    hide Allowed;
    hide ReportedId;
    var after := PublishKnowledge(u, server, entries, c, answer).1;
    assert after != entries ==> answer.created.Some? && answer.created.value in after;
  }

  /** An entry with a trimmed id exists under exactly the id that the reply names. */
  predicate Faithful(u: Unicode, entries: Entries, answer: Creation) {
    && (answer.created.Some? <==> answer.reply.Success?)
    && (answer.created.Some? ==>
          && answer.created.value !in entries && answer.created.value != ""
          && ReportedId(u, answer.reply.value) == answer.created.value)
  }

  /**
   A publication against a faithful server is undone, whatever happens in between, exactly when the server
   still has the entry and deletes it; nothing else is touched.
   */
  lemma RollbackUndoesKnowledge(u: Unicode, server: Server, entries: Entries, c: Record, answer: Creation,
                                later: Entries, deletion: Deletion)
    requires Faithful(u, entries, answer) && PublishKnowledge(u, server, entries, c, answer).0.Success?
    requires deletion.effective <==> deletion.error.None?
    ensures var (r, after) := PublishKnowledge(u, server, entries, c, answer);
            var id := r.value.resourceId;
            var (error, undone) := RollbackKnowledge(u, server, later, c.(publication := Some(r.value)), deletion);
            && id !in entries && after == entries[id := EntryFor(u, c)]
            && (error.None? <==> deletion.effective)
            && undone == (if deletion.effective then later - {id} else later)
            && (later == after && error.None? ==> undone == entries)
  {
    hide Allowed;
    ReportedIdIsTrimmed(u, answer.reply.value);
    var (r, after) := PublishKnowledge(u, server, entries, c, answer);
    assert after - {r.value.resourceId} == entries;
  }

  // ---------- Courses of publications and rollbacks ----------

  datatype Step = Publish(c: Record, creation: Creation) | Rollback(k: nat, deletion: Deletion)

  /** The entries, the records published so far, and which of them have been rolled back. */
  datatype Stage = Stage(entries: Entries, published: seq<Record>, undone: set<nat>)

  function Stepped(u: Unicode, server: Server, s: Stage, step: Step): Stage {
    match step
    case Publish(c, answer) =>
      var (r, after) := PublishKnowledge(u, server, s.entries, c, answer);
      s.(entries := after,
         published := if r.Success? then s.published + [c.(publication := Some(r.value))] else s.published)
    case Rollback(k, answer) =>
      if k >= |s.published| || k in s.undone then s
      else
        var (error, after) := RollbackKnowledge(u, server, s.entries, s.published[k], answer);
        s.(entries := after, undone := if error.None? then s.undone + {k} else s.undone)
  }

  function Course(u: Unicode, server: Server, base: Entries, steps: seq<Step>): Stage {
    if steps == [] then Stage(base, [], {})
    else Stepped(u, server, Course(u, server, base, steps[..|steps| - 1]), steps[|steps| - 1])
  }

  /** The server names what it created, and says whether it deleted. */
  predicate Honest(u: Unicode, s: Stage, step: Step) {
    match step
    case Publish(_, answer) => Faithful(u, s.entries, answer)
    case Rollback(_, answer) => answer.effective <==> answer.error.None?
  }

  predicate HonestCourse(u: Unicode, server: Server, base: Entries, steps: seq<Step>) {
    steps == [] || (HonestCourse(u, server, base, steps[..|steps| - 1])
                    && Honest(u, Course(u, server, base, steps[..|steps| - 1]), steps[|steps| - 1]))
  }

  predicate Open(s: Stage, k: nat) {
    k < |s.published| && k !in s.undone
  }

  function ResourceOf(c: Record): string {
    if c.publication.Some? then c.publication.value.resourceId else ""
  }

  predicate ByPublication(u: Unicode, c: Record) {
    && c.knowledge.Some? && c.publication.Some? && u.Trim(ResourceOf(c)) == ResourceOf(c) != ""
    && c.publication.value.snapshot == Some(Snapshot(DeleteCreatedKnowledge, ResourceOf(c), ""))
  }

  /** The entry that the record published is there. */
  predicate Holds(u: Unicode, entries: Entries, c: Record) {
    ByPublication(u, c) && ResourceOf(c) in entries && entries[ResourceOf(c)] == EntryFor(u, c)
  }

  /** The ids of the publications not rolled back. */
  function LiveIds(s: Stage): set<string> {
    set k | 0 <= k < |s.published| && k !in s.undone :: ResourceOf(s.published[k])
  }

  ghost predicate IdsDiffer(s: Stage) {
    forall j: nat, k: nat :: j < k && Open(s, j) && Open(s, k) ==>
      ResourceOf(s.published[j]) != ResourceOf(s.published[k])
  }

  ghost predicate AllHeld(u: Unicode, s: Stage) {
    forall k: nat :: Open(s, k) ==> Holds(u, s.entries, s.published[k])
  }

  /** The entries are those of the start and one for each publication not rolled back, under ids of their own. */
  ghost predicate StageInv(u: Unicode, base: Entries, s: Stage) {
    && s.entries.Keys == base.Keys + LiveIds(s) && base.Keys !! LiveIds(s)
    && (forall id :: id in base ==> s.entries[id] == base[id])
    && AllHeld(u, s) && IdsDiffer(s)
    && (forall k :: k in s.undone ==> k < |s.published|)
  }

  /** What a publication does to a stage. */
  lemma PublishedStage(u: Unicode, server: Server, s: Stage, c: Record, answer: Creation)
    requires Faithful(u, s.entries, answer)
    ensures var t := Stepped(u, server, s, Step.Publish(c, answer));
            if PublishKnowledge(u, server, s.entries, c, answer).0.Failure? then t == s
            else
              && |t.published| == |s.published| + 1 && t.published[..|s.published|] == s.published
              && t.undone == s.undone
              && var last := t.published[|s.published|];
              && ByPublication(u, last) && ResourceOf(last) !in s.entries
              && t.entries == s.entries[ResourceOf(last) := EntryFor(u, last)]
  {
    hide Allowed;
    hide ReportedId;
    if answer.reply.Success? {
      ReportedIdIsTrimmed(u, answer.reply.value);
    }
  }

  lemma IdsGrow(s: Stage, t: Stage, last: Record)
    requires t.published == s.published + [last] && t.undone == s.undone
    requires forall k :: k in s.undone ==> k < |s.published|
    requires IdsDiffer(s) && ResourceOf(last) !in LiveIds(s)
    ensures LiveIds(t) == LiveIds(s) + {ResourceOf(last)} && IdsDiffer(t)
  {
    hide ResourceOf;
    var n := |s.published|;
    assert t.published[n] == last && forall k :: 0 <= k < n ==> t.published[k] == s.published[k];
    forall k: nat | Open(s, k)
      ensures ResourceOf(s.published[k]) in LiveIds(s)
    {
    }
    assert forall k: nat :: Open(t, k) <==> Open(s, k) || k == n;
    assert Open(t, n);
  }

  lemma IdsShrink(s: Stage, t: Stage, n: nat)
    requires t.published == s.published && t.undone == s.undone + {n} && Open(s, n) && IdsDiffer(s)
    ensures LiveIds(t) == LiveIds(s) - {ResourceOf(s.published[n])} && IdsDiffer(t)
  {
    hide ResourceOf;
    assert forall k: nat :: Open(t, k) <==> Open(s, k) && k != n;
  }

  lemma HeldGrows(u: Unicode, s: Stage, t: Stage, last: Record)
    requires t.published == s.published + [last] && t.undone == s.undone && AllHeld(u, s)
    requires Holds(u, t.entries, last) && ResourceOf(last) !in s.entries
    requires forall id :: id in s.entries ==> id in t.entries && t.entries[id] == s.entries[id]
    ensures AllHeld(u, t)
  {
    hide ResourceOf;
    hide ByPublication;
    forall k: nat | Open(t, k)
      ensures Holds(u, t.entries, t.published[k])
    {
      if k < |s.published| {
        assert Open(s, k) && t.published[k] == s.published[k];
        assert Holds(u, s.entries, s.published[k]);
      }
    }
  }

  lemma HeldShrinks(u: Unicode, s: Stage, t: Stage, n: nat)
    requires Open(s, n) && AllHeld(u, s) && IdsDiffer(s)
    requires t == Stage(s.entries - {ResourceOf(s.published[n])}, s.published, s.undone + {n})
    ensures AllHeld(u, t)
  {
    hide ResourceOf;
    hide ByPublication;
    forall k: nat | Open(t, k)
      ensures Holds(u, t.entries, t.published[k])
    {
      assert Open(s, k) && k != n;
      assert Holds(u, s.entries, s.published[k]);
      assert ResourceOf(s.published[k]) != ResourceOf(s.published[n]);
    }
  }

  lemma StageGrows(u: Unicode, base: Entries, s: Stage, t: Stage, last: Record, e: KnowledgeEntry)
    requires StageInv(u, base, s) && t == Stage(s.entries[ResourceOf(last) := e], s.published + [last], s.undone)
    requires Holds(u, t.entries, last) && ResourceOf(last) !in s.entries
    ensures StageInv(u, base, t)
  {
    hide AllHeld;
    hide IdsDiffer;
    hide LiveIds;
    hide ResourceOf;
    hide Holds;
    IdsGrow(s, t, last);
    HeldGrows(u, s, t, last);
  }

  lemma StageShrinks(u: Unicode, base: Entries, s: Stage, t: Stage, n: nat)
    requires StageInv(u, base, s) && Open(s, n)
    requires t == Stage(s.entries - {ResourceOf(s.published[n])}, s.published, s.undone + {n})
    ensures StageInv(u, base, t)
  {
    assert ResourceOf(s.published[n]) in LiveIds(s);
    hide AllHeld;
    hide IdsDiffer;
    hide LiveIds;
    hide ResourceOf;
    IdsShrink(s, t, n);
    HeldShrinks(u, s, t, n);
  }

  lemma PublishKeepsStage(u: Unicode, server: Server, base: Entries, s: Stage, c: Record, answer: Creation)
    requires StageInv(u, base, s) && Faithful(u, s.entries, answer)
    ensures StageInv(u, base, Stepped(u, server, s, Step.Publish(c, answer)))
  {
    hide StageInv;
    hide Stepped;
    hide ResourceOf;
    hide PublishKnowledge;
    PublishedStage(u, server, s, c, answer);
    var t, n := Stepped(u, server, s, Step.Publish(c, answer)), |s.published|;
    if PublishKnowledge(u, server, s.entries, c, answer).0.Success? {
      var last := t.published[n];
      var e := EntryFor(u, last);
      hide ByPublication;
      hide EntryFor;
      assert t.published == s.published + [last];
      assert t == Stage(s.entries[ResourceOf(last) := e], s.published + [last], s.undone);
      StageGrows(u, base, s, t, last, e);
    }
  }

  lemma RollbackKeepsStage(u: Unicode, server: Server, base: Entries, s: Stage, n: nat, answer: Deletion)
    requires StageInv(u, base, s) && (answer.effective <==> answer.error.None?)
    ensures StageInv(u, base, Stepped(u, server, s, Step.Rollback(n, answer)))
  {
    if Open(s, n) && server.address && answer.effective {
      assert Holds(u, s.entries, s.published[n]);
      hide StageInv;
      hide EntryFor;
      var t := Stage(s.entries - {ResourceOf(s.published[n])}, s.published, s.undone + {n});
      assert Stepped(u, server, s, Step.Rollback(n, answer)) == t;
      hide Stepped;
      StageShrinks(u, base, s, t, n);
    } else {
      hide StageInv;
      assert Stepped(u, server, s, Step.Rollback(n, answer)) == s;
    }
  }

  /**
   Over any course of publications and rollbacks, in any order and with any failures, an honest server
   keeps every entry of the start and exactly one entry for each publication not yet rolled back.
   */
  lemma {:induction false} CourseKeepsOthers(u: Unicode, server: Server, base: Entries, steps: seq<Step>)
    requires HonestCourse(u, server, base, steps)
    ensures StageInv(u, base, Course(u, server, base, steps))
  {
    if steps != [] {
      hide StageInv;
      hide Stepped;
      var s, step := Course(u, server, base, steps[..|steps| - 1]), steps[|steps| - 1];
      CourseKeepsOthers(u, server, base, steps[..|steps| - 1]);
      match step
      case Publish(c, answer) => PublishKeepsStage(u, server, base, s, c, answer);
      case Rollback(k, answer) => RollbackKeepsStage(u, server, base, s, k, answer);
    }
  }

  /** The entries are those of the start exactly when every publication has been rolled back. */
  lemma CourseRestoresExactly(u: Unicode, server: Server, base: Entries, steps: seq<Step>)
    requires HonestCourse(u, server, base, steps)
    ensures var s := Course(u, server, base, steps);
            s.entries == base <==> forall k :: 0 <= k < |s.published| ==> k in s.undone
  {
    hide ResourceOf;
    hide Course;
    hide AllHeld;
    hide IdsDiffer;
    CourseKeepsOthers(u, server, base, steps);
    var s := Course(u, server, base, steps);
    if forall k :: 0 <= k < |s.published| ==> k in s.undone {
      assert LiveIds(s) == {};
      assert s.entries.Keys == base.Keys;
    }
    if k: nat :| k < |s.published| && k !in s.undone {
      assert ResourceOf(s.published[k]) in LiveIds(s);
    }
  }
}
