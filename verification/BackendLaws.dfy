/**
 What the backends of promotion find and send, without the tests they are written with: when a skill is a
 duplicate or in conflict, when evidence counts, which search results block, and what an entry is made of.
 */
module BackendLaws {
  import opened Wrappers
  import opened Text
  import opened PromotionModel
  import S = SkillBackend
  import K = KnowledgeBackend

  // ---------- Texts ----------

  /** The same letters in the same order, whatever their case and the white space around them. */
  predicate ReadsAlike(u: Unicode, a: string, b: string) {
    var s, t := WithoutSpaces(u, a), WithoutSpaces(u, b);
    |s| == |t| && forall i :: 0 <= i < |s| ==> u.lower(s[i]) == u.lower(t[i])
  }

  lemma {:induction false} NoSpacesOnLeft(u: Unicode, s: string)
    ensures WithoutSpaces(u, u.TrimLeft(s)) == WithoutSpaces(u, s)
  {
    if s != "" && u.isSpace(s[0]) {
      NoSpacesOnLeft(u, s[1..]);
    }
  }

  lemma {:induction false} NoSpacesAtEnd(u: Unicode, s: string, c: char)
    requires u.isSpace(c)
    ensures WithoutSpaces(u, s + [c]) == WithoutSpaces(u, s)
  {
    if s == "" {
      assert s + [c] == [c] && [c][1..] == "";
    } else {
      assert (s + [c])[1..] == s[1..] + [c];
      NoSpacesAtEnd(u, s[1..], c);
    }
  }

  lemma {:induction false} NoSpacesOnRight(u: Unicode, s: string)
    ensures WithoutSpaces(u, u.TrimRight(s)) == WithoutSpaces(u, s)
  {
    if s != "" && u.isSpace(s[|s| - 1]) {
      var init := s[..|s| - 1];
      assert s == init + [s[|s| - 1]];
      NoSpacesOnRight(u, init);
      NoSpacesAtEnd(u, init, s[|s| - 1]);
    }
  }

  /** Contents count as the same exactly when they read alike. */
  lemma ContentKeysAgree(u: Unicode, a: string, b: string)
    ensures ContentKey(u, a) == ContentKey(u, b) <==> ReadsAlike(u, a, b)
    ensures ContentKey(u, u.Trim(a)) == ContentKey(u, a)
  {
    NoSpacesOnLeft(u, a);
    NoSpacesOnRight(u, u.TrimLeft(a));
    NoSpacesOnLeft(u, b);
    NoSpacesOnRight(u, u.TrimLeft(b));
    TrimIdempotent(u, a);
    var s, t := ContentKey(u, a), ContentKey(u, b);
    var x, y := WithoutSpaces(u, a), WithoutSpaces(u, b);
    if s == t {
      forall i | 0 <= i < |x|
        ensures u.lower(x[i]) == u.lower(y[i])
      {
        assert s[i] == t[i];
      }
    }
  }

  // ---------- Skills ----------

  /** The server is there, accepts the format, and can read the shelf. */
  predicate Readable(server: S.Server, c: Record) {
    && c.kind == Skill && c.skill.Some? && server.connected
    && server.formatError.None? && server.readError.None?
  }

  /** The candidate was made for a revision other than the stored one, or for one of a skill that is not there. */
  predicate Diverges(u: Unicode, server: S.Server, shelf: S.Shelf, c: Record)
    requires c.skill.Some?
  {
    var name, expected := u.Trim(c.skill.value.name), u.Trim(c.skill.value.expectedRevision);
    && expected != ""
    && (name in shelf ==>
          if u.Blank(shelf[name].revision) then expected != server.digest(u.Trim(shelf[name].content))
          else expected != u.Trim(shelf[name].revision))
  }

  /**
   The shelf is compared only when it can be read. A skill is a duplicate exactly when the stored one reads
   alike, and in conflict exactly when it diverges; the decision names the weightier of the two.
   */
  lemma SkillInspectionExactly(u: Unicode, server: S.Server, shelf: S.Shelf, c: Record)
    ensures var r := S.InspectSkill(u, server, shelf, c);
            && r.Inspected? && r.inspection.checkedAt == server.now
            && (r.error.Some? <==> c.kind != Skill || c.skill.None? || !server.connected)
            && r.inspection.validationStatus ==
               (if r.error.Some? || server.formatError.Some? then "invalid" else "valid")
            && (r.inspection.evidenceVerified <==> r.error.None? && server.traceError.None?)
            && (!Readable(server, c) ==>
                  !r.inspection.duplicate && !r.inspection.conflict && !r.inspection.currentExists)
            && (Readable(server, c) ==>
                  var name := u.Trim(c.skill.value.name);
                  var present := name in shelf;
                  && (r.inspection.currentExists <==> present)
                  && (present ==> r.inspection.currentContent == u.Trim(shelf[name].content))
                  && (r.inspection.duplicate <==>
                        present && ReadsAlike(u, shelf[name].content, c.skill.value.content))
                  && (r.inspection.conflict <==> Diverges(u, server, shelf, c))
                  && r.inspection.decision == (if r.inspection.conflict then Conflict
                                               else if r.inspection.duplicate then Skip
                                               else if present then Update else Create))
  {
    if c.skill.Some? && u.Trim(c.skill.value.name) in shelf {
      var stored := shelf[u.Trim(c.skill.value.name)].content;
      ContentKeysAgree(u, stored, c.skill.value.content);
      ContentKeysAgree(u, u.Trim(stored), c.skill.value.content);
    }
    hide ReadsAlike;
    hide ContentKey;
    hide Unicode.Trim;
  }

  /** A reason to block is the first of a format error, a read error and a trace error. */
  lemma SkillBlockedExactly(u: Unicode, server: S.Server, shelf: S.Shelf, c: Record)
    requires S.InspectSkill(u, server, shelf, c).error.None?
    ensures S.InspectSkill(u, server, shelf, c).inspection.blockingReason ==
            if server.formatError.Some? then server.formatError.value
            else if server.readError.Some? then "read current shared skill: " + server.readError.value
            else if server.traceError.Some? then server.traceError.value else ""
  {
    hide ContentKey;
    hide Unicode.Trim;
  }

  /** A published skill is found under its name, with the revision the server gave it or else its content's hash. */
  lemma SkillPublishedExactly(u: Unicode, server: S.Server, shelf: S.Shelf, c: Record, revision: string, other: string)
    requires c.skill.Some? && c.inspection.Some?
    ensures var (pub, after) := S.PublishSkill(u, server, shelf, c, revision);
            var name, content := u.Trim(c.skill.value.name), c.skill.value.content;
            && pub.resourceId == name && pub.snapshot.Some? && pub.snapshot.value.resourceId == name
            && pub.revision == (if u.Blank(revision) then server.digest(content) else u.Trim(revision))
            && name in after && after[name].content == content
            && (other != name ==>
                  (other in after <==> other in shelf) && (other in shelf ==> after[other] == shelf[other]))
  {
    hide Unicode.Trim;
  }

  // ---------- Evidence and search results ----------

  /** The knowledge base belongs to the workspace, whose list names them all unless it is empty. */
  ghost predicate Listed(u: Unicode, allowed: seq<string>, base: string) {
    allowed == [] || exists id :: id in allowed && u.Trim(id) == base
  }

  /** The link names a chunk that is found in a knowledge base of the workspace, the claimed one if it claims one. */
  lemma LinkVerifiedExactly(u: Unicode, server: K.Server, link: EvidenceLink)
    ensures K.LinkVerified(u, server, link) <==>
              && !u.Blank(link.chunkId) && server.lookup(u.Trim(link.chunkId)).Some?
              && var base := u.Trim(server.lookup(u.Trim(link.chunkId)).value);
              && base != ""
              && (link.knowledgeBaseId == "" || u.Trim(link.knowledgeBaseId) == base)
              && Listed(u, server.allowed, base)
  {
    if server.lookup(u.Trim(link.chunkId)).Some? {
      var found := server.lookup(u.Trim(link.chunkId)).value;
      TrimIdempotent(u, found);
      hide Unicode.Trim;
      var base := u.Trim(found);
      if id :| id in server.allowed && u.Trim(id) == base {
        var i :| 0 <= i < |server.allowed| && server.allowed[i] == id;
      }
    }
  }

  /** The limit that is set, or else the given one. */
  predicate Reaches(score: real, limit: real, otherwise: real) {
    (limit > 0.0 && score >= limit) || (limit <= 0.0 && score >= otherwise)
  }

  /** A result is a duplicate by its text or a score of 0.985, a conflict by one of 0.9, unless other limits are set. */
  lemma ResultsExactly(u: Unicode, t: K.Thresholds, statement: string, hit: K.Hit)
    ensures K.IsDuplicate(u, t, statement, hit) <==>
              ReadsAlike(u, hit.content, statement) || Reaches(hit.score, t.duplicate, 0.985)
    ensures K.IsConflict(u, t, hit) <==> !u.Blank(hit.content) && Reaches(hit.score, t.conflict, 0.9)
  {
    ContentKeysAgree(u, hit.content, statement);
  }

  // ---------- Publications ----------

  /** The first text that is not blank, trimmed, or "" if all are. */
  ghost predicate FirstGiven(u: Unicode, texts: seq<string>, id: string) {
    || (id == "" && forall i :: 0 <= i < |texts| ==> u.Blank(texts[i]))
    || (id != "" && exists i :: 0 <= i < |texts| && id == u.Trim(texts[i])
                                && forall j :: 0 <= j < i ==> u.Blank(texts[j]))
  }

  /** The places a reply may name an id in, in the order they are looked at. */
  function Places(reply: K.Reply): seq<string> {
    [reply.id, reply.knowledgeId]
    + if reply.nested.Some? then [reply.nested.value.0, reply.nested.value.1] else []
  }

  lemma ReportedIdIsFirst(u: Unicode, reply: K.Reply)
    ensures FirstGiven(u, Places(reply), K.ReportedId(u, reply))
  {
    hide Unicode.Trim;
    var texts, id := Places(reply), K.ReportedId(u, reply);
    assert texts[0] == reply.id && texts[1] == reply.knowledgeId;
    if id != "" {
      if !u.Blank(texts[0]) {
        assert id == u.Trim(texts[0]);
      } else if !u.Blank(texts[1]) {
        assert id == u.Trim(texts[1]);
      } else if !u.Blank(texts[2]) {
        assert id == u.Trim(texts[2]);
      } else {
        assert id == u.Trim(texts[3]);
      }
    }
  }

  /**
   A publication succeeds exactly when it is sent and the reply names an id. What the server created is the
   statement under its title in the target knowledge base, and the way back deletes what the reply names.
   */
  lemma KnowledgePublishedExactly(u: Unicode, server: K.Server, entries: K.Entries, c: Record, answer: K.Creation)
    ensures var (r, after) := K.PublishKnowledge(u, server, entries, c, answer);
            var sent := c.knowledge.Some? && server.address && !u.Blank(c.knowledge.value.targetKnowledgeBaseId)
                        && Listed(u, server.allowed, u.Trim(c.knowledge.value.targetKnowledgeBaseId));
            && (r.Success? <==> sent && answer.reply.Success?
                                && exists text :: text in Places(answer.reply.value) && !u.Blank(text))
            && (r.Success? ==>
                  && r.value.resourceId != "" && FirstGiven(u, Places(answer.reply.value), r.value.resourceId)
                  && r.value.snapshot == Some(Snapshot(DeleteCreatedKnowledge, r.value.resourceId, "")))
            && after == (if sent && answer.created.Some? then
                           var draft := c.knowledge.value;
                           entries[answer.created.value := K.KnowledgeEntry(u.Trim(draft.targetKnowledgeBaseId),
                                                                            draft.title, draft.statement)]
                         else entries)
  {
    if c.knowledge.Some? {
      AllowedInWords(u, server.allowed, c.knowledge.value.targetKnowledgeBaseId);
    }
    if answer.reply.Success? {
      ReportedIdIsFirst(u, answer.reply.value);
      GivenSomewhere(u, Places(answer.reply.value), K.ReportedId(u, answer.reply.value));
    }
    hide K.Allowed;
    hide K.ReportedId;
    hide Places;
    hide FirstGiven;
    hide Listed;
    hide Unicode.Trim;
  }

  lemma AllowedInWords(u: Unicode, allowed: seq<string>, requested: string)
    ensures K.Allowed(u, allowed, requested) <==>
              !u.Blank(requested) && Listed(u, allowed, u.Trim(requested))
  {
    hide Unicode.Trim;
    if id :| id in allowed && u.Trim(id) == u.Trim(requested) {
      var i :| 0 <= i < |allowed| && allowed[i] == id;
    }
  }

  lemma GivenSomewhere(u: Unicode, texts: seq<string>, id: string)
    requires FirstGiven(u, texts, id)
    ensures id != "" <==> exists text :: text in texts && !u.Blank(text)
  {
    hide Unicode.Trim;
    if text :| text in texts && !u.Blank(text) {
      var i :| 0 <= i < |texts| && texts[i] == text;
    }
    if id != "" {
      var i :| 0 <= i < |texts| && id == u.Trim(texts[i]);
      assert texts[i] in texts && !u.Blank(texts[i]);
    }
  }
}
