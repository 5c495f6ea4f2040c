/**
 The shared skill shelf: inspection of a candidate against it, publication onto it and rollback from it.

 The remote server's choices (format validation, revisions, readable sources) are inputs. Every
 publication snapshots what its own fresh inspection saw, so nested publications and rollbacks of one
 skill undo each other.
 */
module SkillBackend {
  import opened Wrappers
  import opened Text
  import opened PromotionModel

  datatype SharedSkill = SharedSkill(content: string, revision: string)

  type Shelf = map<string, SharedSkill>

  /** Server answers needed by an inspection; `digest` is the content hash. */
  datatype Server = Server(
    connected: bool, traceError: Option<string>, formatError: Option<string>, readError: Option<string>,
    digest: string -> string, now: int)

  // ---------- Inspection ----------

  /** The revision an inspection reports for a stored skill. */
  function RevisionOf(u: Unicode, server: Server, s: SharedSkill): string {
    var declared := u.Trim(s.revision);
    if declared != "" then declared else server.digest(u.Trim(s.content))
  }

  function Unread(server: Server): Inspection {
    Inspection(server.now, Create, false, false, false, false, "", "", "", "")
  }

  function InspectSkill(u: Unicode, server: Server, shelf: Shelf, c: Record): InspectReply {
    if c.kind != Skill || c.skill.None? then
      Inspected(Unread(server).(validationStatus := "invalid"), Some("skill only"))
    else if !server.connected then Inspected(Unread(server).(validationStatus := "invalid"), Some("principal"))
    else
      var traced := Unread(server).(
        evidenceVerified := server.traceError.None?,
        blockingReason := if server.traceError.Some? then server.traceError.value else "");
      if server.formatError.Some? then
        Inspected(traced.(validationStatus := "invalid", blockingReason := server.formatError.value), None)
      else
        var valid := traced.(validationStatus := "valid");
        var name := u.Trim(c.skill.value.name);
        var expected := u.Trim(c.skill.value.expectedRevision);
        if server.readError.Some? then Inspected(valid.(blockingReason := "read current shared skill: "
                                                        + server.readError.value), None)
        else if name !in shelf then
          Inspected(if expected != "" then valid.(decision := Conflict, conflict := true) else valid, None)
        else
          var current := u.Trim(shelf[name].content);
          var revision := RevisionOf(u, server, shelf[name]);
          var found := valid.(decision := Update, currentExists := true, currentContent := current,
                              currentRevision := revision);
          var compared :=
            if ContentKey(u, current) == ContentKey(u, c.skill.value.content)
            then found.(decision := Skip, duplicate := true) else found;
          Inspected(if expected != "" && expected != revision
                    then compared.(decision := Conflict, conflict := true) else compared, None)
  }

  // ---------- Publication and rollback ----------

  /** What a publication of an inspected skill leaves on the shelf, and how to undo it. */
  function PublishSkill(u: Unicode, server: Server, shelf: Shelf, c: Record, revision: string): (Publication, Shelf)
    requires c.skill.Some? && c.inspection.Some?
  {
    var name := u.Trim(c.skill.value.name);
    var content := c.skill.value.content;
    var declared := u.Trim(revision);
    var snapshot :=
      if c.inspection.value.currentExists then Snapshot(RestorePreviousSkill, name, c.inspection.value.currentContent)
      else Snapshot(DeleteCreatedSkill, name, "");
    (Publication(name, if declared != "" then declared else server.digest(content), 0, Some(snapshot)),
     shelf[name := SharedSkill(content, revision)])
  }

  function RollbackSkill(u: Unicode, shelf: Shelf, c: Record, revision: string): Result<Shelf, Error> {
    if c.publication.None? || c.publication.value.snapshot.None? then Failure(BackendFailure)
    else
      var snapshot := c.publication.value.snapshot.value;
      var name := u.Trim(snapshot.resourceId);
      if name == "" then Failure(BackendFailure)
      else
        match snapshot.action
        case RestorePreviousSkill =>
          if u.Blank(snapshot.previousContent) then Failure(BackendFailure)
          else Success(shelf[name := SharedSkill(snapshot.previousContent, revision)])
        case DeleteCreatedSkill =>
          if name !in shelf then Failure(BackendFailure) else Success(shelf - {name})
        case DeleteCreatedKnowledge => Failure(BackendFailure)
  }

  class SkillShelf {
    const u: Unicode
    var skills: Shelf

    constructor (u: Unicode)
      ensures this.u == u && skills == map[]
    {
      this.u := u;
      skills := map[];
    }

    method Inspect(server: Server, c: Record) returns (r: InspectReply)
      ensures r == InspectSkill(u, server, skills, c)
    {
      var i := Inspection(server.now, PromotionModel.Create, false, false, false, false, "", "", "", "");
      if c.kind != Skill || c.skill.None? {
        return Inspected(i.(validationStatus := "invalid"), Some("skill only"));
      }
      if !server.connected {
        return Inspected(i.(validationStatus := "invalid"), Some("principal"));
      }
      i := i.(evidenceVerified := server.traceError.None?);
      if server.traceError.Some? {
        i := i.(blockingReason := server.traceError.value);
      }
      if server.formatError.Some? {
        return Inspected(i.(validationStatus := "invalid", blockingReason := server.formatError.value), None);
      }
      i := i.(validationStatus := "valid");
      var name := u.Trim(c.skill.value.name);
      var expected := u.Trim(c.skill.value.expectedRevision);
      if server.readError.Some? {
        return Inspected(i.(blockingReason := "read current shared skill: " + server.readError.value), None);
      }
      if name !in skills {
        if expected != "" {
          i := i.(decision := PromotionModel.Conflict, conflict := true);
        }
        return Inspected(i, None);
      }
      i := i.(decision := PromotionModel.Update, currentExists := true, currentContent := u.Trim(skills[name].content));
      i := i.(currentRevision := u.Trim(skills[name].revision));
      if i.currentRevision == "" {
        i := i.(currentRevision := server.digest(i.currentContent));
      }
      if ContentKey(u, i.currentContent) == ContentKey(u, c.skill.value.content) {
        i := i.(decision := PromotionModel.Skip, duplicate := true);
      }
      if expected != "" && expected != i.currentRevision {
        i := i.(decision := PromotionModel.Conflict, conflict := true);
      }
      r := Inspected(i, None);
    }

    method Publish(server: Server, c: Record, revision: string) returns (r: Result<Publication, string>)
      modifies this`skills
      ensures r.Success? <==> c.skill.Some? && c.inspection.Some? && server.connected
      ensures r.Success? ==> (r.value, skills) == PublishSkill(u, server, old(skills), c, revision)
      ensures r.Failure? ==> skills == old(skills)
    {
      if c.skill.None? || c.inspection.None? || !server.connected {
        return Failure("skill candidate or inspection is missing");
      }
      var name := u.Trim(c.skill.value.name);
      var content := c.skill.value.content;
      skills := skills[name := SharedSkill(content, revision)];
      var declared := u.Trim(revision);
      var pub := Publication(name, if declared != "" then declared else server.digest(content), 0, None);
      if c.inspection.value.currentExists {
        pub := pub.(snapshot := Some(Snapshot(RestorePreviousSkill, name, c.inspection.value.currentContent)));
      } else {
        pub := pub.(snapshot := Some(Snapshot(DeleteCreatedSkill, name, "")));
      }
      r := Success(pub);
    }

    method Rollback(c: Record, revision: string) returns (error: Option<Error>)
      modifies this`skills
      ensures error.None? <==> RollbackSkill(u, old(skills), c, revision).Success?
      ensures skills == if error.None? then RollbackSkill(u, old(skills), c, revision).value else old(skills)
    {
      if c.publication.None? || c.publication.value.snapshot.None? {
        return Some(BackendFailure);
      }
      var snapshot := c.publication.value.snapshot.value;
      var name := u.Trim(snapshot.resourceId);
      if name == "" {
        return Some(BackendFailure);
      }
      match snapshot.action {
        case RestorePreviousSkill =>
          if u.Blank(snapshot.previousContent) {
            return Some(BackendFailure);
          }
          skills := skills[name := SharedSkill(snapshot.previousContent, revision)];
        case DeleteCreatedSkill =>
          if name !in skills {
            return Some(BackendFailure);
          }
          skills := skills - {name};
        case DeleteCreatedKnowledge =>
          return Some(BackendFailure);
      }
      error := None;
    }
  }

  // ---------- One publication with its fresh inspection ----------

  /** Inspect, check the gate and publish, as the service does for an approved skill record. */
  function PublishFresh(u: Unicode, server: Server, shelf: Shelf, c: Record, revision: string): Result<(Record,
        Shelf), Error> {
    var latest := InspectSkill(u, server, shelf, c);
    if latest.error.Some? then Failure(BackendFailure)
    else if !FreshEnough(u, c, latest.inspection) then Failure(PromotionBlocked)
    else
      var ready := c.(inspection := Some(latest.inspection));
      var (pub, after) := PublishSkill(u, server, shelf, ready, revision);
      Success((ready.(publication := Some(pub)), after))
  }

  /** The same presence and, up to outer white space, the same content. */
  predicate SameSkill(u: Unicode, a: Shelf, b: Shelf, name: string) {
    && (name in a <==> name in b)
    && (name in a ==> u.Trim(a[name].content) == u.Trim(b[name].content))
  }

  /** A publication keeps, as its way back, what its fresh inspection saw on the shelf. */
  lemma FreshPublication(u: Unicode, server: Server, shelf: Shelf, c: Record, revision: string)
    requires PublishFresh(u, server, shelf, c, revision).Success? && c.skill.Some?
    ensures var (published, after) := PublishFresh(u, server, shelf, c, revision).value;
            var name := u.Trim(c.skill.value.name);
            && after == shelf[name := SharedSkill(c.skill.value.content, revision)]
            && published.publication.Some?
            && published.publication.value.snapshot ==
               Some(if name in shelf then Snapshot(RestorePreviousSkill, name, u.Trim(shelf[name].content))
                    else Snapshot(DeleteCreatedSkill, name, ""))
  {
  }

  /**
   Rolling a publication back, once everything later on that skill is undone, restores the skill. It is
   possible exactly when the publication created the skill or replaced a non-blank one.
   */
  lemma RollbackUndoesPublication(u: Unicode, server: Server, shelf: Shelf, c: Record, revision: string,
                                  later: Shelf, restored: string)
    requires PublishFresh(u, server, shelf, c, revision).Success?
    requires c.skill.Some? && !u.Blank(c.skill.value.name)
    requires var name := u.Trim(c.skill.value.name);
             SameSkill(u, PublishFresh(u, server, shelf, c, revision).value.1, later, name)
    ensures var name := u.Trim(c.skill.value.name);
            var undone := RollbackSkill(u, later, PublishFresh(u, server, shelf, c, revision).value.0, restored);
            && (undone.Success? <==> name !in shelf || !u.Blank(shelf[name].content))
            && (undone.Success? ==> SameSkill(u, shelf, undone.value, name))
            && (undone.Success? ==> forall other :: other != name ==>
                  && (other in later <==> other in undone.value)
                  && (other in later ==> later[other] == undone.value[other]))
  {
    hide PublishFresh;
    var name := u.Trim(c.skill.value.name);
    FreshPublication(u, server, shelf, c, revision);
    TrimIdempotent(u, c.skill.value.name);
    if name in shelf {
      TrimIdempotent(u, shelf[name].content);
    }
  }

  /** A declared revision is the one actually on the shelf when the skill is published. */
  lemma PublishedOverDeclaredRevision(u: Unicode, server: Server, shelf: Shelf, c: Record, revision: string)
    requires c.inspection.Some? && c.skill.Some? && !u.Blank(c.skill.value.expectedRevision)
    requires PublishFresh(u, server, shelf, c, revision).Success?
    ensures var name := u.Trim(c.skill.value.name);
            name in shelf && u.Trim(RevisionOf(u, server, shelf[name])) == u.Trim(c.skill.value.expectedRevision)
  {
  }

  // ---------- Nested publications and rollbacks ----------

  /**
   A well-nested course of events for one skill: publications each followed, after a nested course, by
   their own rollback, with any events on other skills in between.
   */
  datatype Nest =
    | Done
    | Elsewhere(other: string, value: Option<SharedSkill>, rest: Nest)
    | Bracket(server: Server, c: Record, published: string, inner: Nest, restored: string, rest: Nest)

  ghost predicate Concerns(u: Unicode, n: Nest, name: string) {
    match n
    case Done => true
    case Elsewhere(other, _, rest) => other != name && Concerns(u, rest, name)
    case Bracket(_, c, _, inner, _, rest) =>
      && c.skill.Some? && u.Trim(c.skill.value.name) == name && !u.Blank(c.skill.value.content)
      && Concerns(u, inner, name) && Concerns(u, rest, name)
  }

  function Play(u: Unicode, shelf: Shelf, n: Nest): Result<Shelf, Error>
    decreases n
  {
    match n
    case Done => Success(shelf)
    case Elsewhere(other, value, rest) =>
      Play(u, if value.Some? then shelf[other := value.value] else shelf - {other}, rest)
    case Bracket(server, c, published, inner, restored, rest) =>
      var first := PublishFresh(u, server, shelf, c, published);
      if first.Failure? then Failure(first.error)
      else
        var middle := Play(u, first.value.1, inner);
        if middle.Failure? then middle
        else
          var undone := RollbackSkill(u, middle.value, first.value.0, restored);
          if undone.Failure? then undone else Play(u, undone.value, rest)
  }

  /** Any well-nested course that runs to its end leaves the skill as it found it. */
  lemma {:induction false} NestedCourseRestoresSkill(u: Unicode, shelf: Shelf, n: Nest, name: string)
    requires name != "" && Concerns(u, n, name) && Play(u, shelf, n).Success?
    ensures SameSkill(u, shelf, Play(u, shelf, n).value, name)
    decreases n
  {
    match n
    case Done =>
    case Elsewhere(other, value, rest) =>
      NestedCourseRestoresSkill(u, if value.Some? then shelf[other := value.value] else shelf - {other}, rest, name);
    case Bracket(server, c, published, inner, restored, rest) =>
      var first := PublishFresh(u, server, shelf, c, published);
      NestedCourseRestoresSkill(u, first.value.1, inner, name);
      var middle := Play(u, first.value.1, inner);
      RollbackUndoesPublication(u, server, shelf, c, published, middle.value, restored);
      NestedCourseRestoresSkill(u, RollbackSkill(u, middle.value, first.value.0, restored).value, rest, name);
  }

  /** A failed course failed at a publication gate: over absent or non-blank content no rollback fails. */
  lemma {:induction false} OnlyPublicationsFail(u: Unicode, shelf: Shelf, n: Nest, name: string)
    requires name != "" && Concerns(u, n, name)
    requires name in shelf ==> !u.Blank(shelf[name].content)
    ensures Play(u, shelf, n).Failure? <==> GateStops(u, shelf, n)
    decreases n
  {
    match n
    case Done =>
    case Elsewhere(other, value, rest) =>
      OnlyPublicationsFail(u, if value.Some? then shelf[other := value.value] else shelf - {other}, rest, name);
    case Bracket(server, c, published, inner, restored, rest) =>
      var first := PublishFresh(u, server, shelf, c, published);
      if first.Success? {
        OnlyPublicationsFail(u, first.value.1, inner, name);
        var middle := Play(u, first.value.1, inner);
        if middle.Success? {
          NestedCourseRestoresSkill(u, first.value.1, inner, name);
          RollbackUndoesPublication(u, server, shelf, c, published, middle.value, restored);
          OnlyPublicationsFail(u, RollbackSkill(u, middle.value, first.value.0, restored).value, rest, name);
        }
      }
  }

  /** Some publication of the course, reached with every earlier rollback done, is refused by its gate. */
  predicate GateStops(u: Unicode, shelf: Shelf, n: Nest)
    decreases n
  {
    match n
    case Done => false
    case Elsewhere(other, value, rest) =>
      GateStops(u, if value.Some? then shelf[other := value.value] else shelf - {other}, rest)
    case Bracket(server, c, published, inner, restored, rest) =>
      var first := PublishFresh(u, server, shelf, c, published);
      || first.Failure?
      || GateStops(u, first.value.1, inner)
      || (var middle := Play(u, first.value.1, inner);
          && middle.Success?
          && var undone := RollbackSkill(u, middle.value, first.value.0, restored);
          undone.Success? && GateStops(u, undone.value, rest))
  }
}
