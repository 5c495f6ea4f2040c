# CobraKnowledge verification

A Dafny model of the decision logic of CobraKnowledge, with proofs of what it promises. The services are
modelled on their in-memory state; HTTP, files, clocks, random identifiers, Unicode tables and hashes are
parameters. `dafny verify dfyconfig.toml` checks everything.

Where the source loops and assigns, the model is a method with loops, or a class whose methods change
fields. Each such method is proved equal to a specification function of its inputs or of the old state,
and the theorems are about those functions. The modules whose names end in `Laws`, and their like, say what these
functions compute in terms of the inputs alone. Maps whose iteration order is arbitrary in the source are
visited in an arbitrary order here too.

| Component | Modules | What is proved |
|---|---|---|
| Promotion protocol | `PromotionModel`, `PromotionStore`, `PromotionService`, `PromotionProtocol`, `PromotionGovernance`, `PromotionInterleavings`, `PromotionRefinement`, `PromotionReviews` | In every interleaving of any number of callers each candidate's history is a run of the sequential machine, and every such history is reachable; each service call is one caller's events; gate invariant, lawful moves, terminal states, one publication per history; which decision leads to which state, and exactly when each call succeeds |
| Promotion backends | `SkillBackend`, `KnowledgeBackend`, `BackendLaws` | Nested publications and rollbacks restore the shared skill; evidence, duplicates and conflicts, exactly; over any course of publications and rollbacks the knowledge server holds what it held and one entry per open publication |
| Entity resolution | `EntityResolver`, `ResolverIdentity`, `ResolverTheorems`, `ResolverGroups`, `ResolverNames`, `RelationRewriter` | Idempotence, the quotient by identity, conservation of properties, evidence and entities, exact conflicts; what each resolved entity and rewritten relation is made of |
| Arbitration | `Arbiter`, `ArbiterTheorems`, `ArbiterLaws`, `ArbiterOrder` | Which assertion of a slot is accepted, exactly, in terms of the policy's settings; which outcomes arrival orders can lead to, exactly, and so exactly when the order does not matter |
| Ontology registry | `OntologyModel`, `OntologyValidator`, `ConformanceLaws`, `OntologyRegistry`, `RegistryInvariants`, `RegistryBindings`, `Release` | Every finding, exactly; invariant over all runs; to what a bound knowledge base resolves until it is bound again; replayable resolution; approval leads to publication |
| Compilation and discovery | `TemplateCompiler`, `GraphNormalizer`, `TemplateTheorems`, `GraphLaws`, `Discovery`, `Candidate`, `DiscoveryTheorems`, `CandidateLaws` | Exactly when the compiled template normalizes to a graph the ontology accepts, and that it loses nothing; what a normalized graph holds, exactly; candidates always validate, with exact coverage of domains and ranges and exact questions for review |
| Retrieval pipeline | `RetrievalModel`, `FanOut`, `Assembler`, `ContextTheorems`, `ScheduleTheorems`, `Federation`, `Planner`, `PlannerSources`, `FederationTheorems`, `FederationTerms`, `RuntimeContext`, `CatalogLaws`, `PackLaws` | No schedule blocks; completeness, exactly; exactly when blocking gaps and completeness are the same for every schedule; exactly which labels conflict and block a query, from the catalogs to the final pack; which sources a query asks and requires; what a pack holds |
| Workspaces and skills | `Workspaces`, `WorkspaceTheorems`, `WorkspaceLaws`, `WorkspaceOwners`, `SkillTools` | Pinned sessions and selections over every run; exactly when changes are made by owners of the workspace they change, and when a workspace can lose its last owner; tool lists read back as written and only narrow |

`Text`, `TextLaws`, `Sorting`, `Identity`, `GraphModel` and `Wrappers` hold what these share: string handling over given
Unicode tables, a stable sort, hashed identifiers, and the graph records.

Results that are not what one would expect:

- Two simultaneous publications both reach the backend; only the stored history is linear
  (`PromotionInterleavings.RacingPublicationsBothTakeEffect`).
- `RewriteRelations` joins ids with NUL, so ids that contain NUL can lose a relation. Every image is kept
  exactly when no two different images share a joined key (`RelationRewriter.RewritingKeepsImages`).
- A registration refused because the id belongs to another domain leaves its payload, which blocks that
  version for good, also for the rightful domain (`RegistryInvariants.ForeignDomainBlocksVersion`); every
  other failed registration is without effect (`RegistryInvariants.FailedRegistrationExactly`).
- Supersession, incompatible scopes or a negative threshold can make arbitration, and with it blocking gaps
  and completeness, depend on arrival order (`ArbiterOrder.SupersessionMakesOrderMatter` and its neighbours,
  `ContextTheorems.ScheduleCanMatter`). The exact conditions are `ArbiterOrder.ArbitrationOrderExactly`,
  `ScheduleTheorems.GapsAgreeExactly` and `ScheduleTheorems.ScheduleIgnoredExactly`.
- A publication to the knowledge server whose reply is lost or names no id leaves an entry, and a record without
  a publication gives a rollback nothing to delete (`KnowledgeBackend.FailedPublicationLeavesEntryExactly`).
- The fallback drops evidence without an id, so the documents it adds can cite evidence that the pack does not
  list (`ContextTheorems.PatchedPackIsTraceableExactly`).
- A statement that is stored already is missed when a merely similar search result precedes it
  (`KnowledgeBackend.SameTextBehindConflictIsMissed`).
- Class labels used twice, and property labels that are cut at an equals sign or trimmed, can come back from
  the template as violations (`TemplateTheorems.SharedClassLabelIsReported`,
  `TemplateTheorems.LostLabelIsReported`); exactly when is `TemplateTheorems.TemplateConformsExactly`.
- An ontology that uses a label for two classes raises no issue when a query draws on it alone, and
  blocks every query that mentions the label and draws on any other bound ontology too
  (`RuntimeContext.OneOntologyIsNotChecked`).
- The access check compares trimmed workspace ids, the write looks for the id as given: the owner of " w" can
  make itself an owner of "w" (`WorkspaceOwners.PaddedIdMisdirectsWrite`). Changes are made by owners of the
  changed workspace exactly when the two lookups agree about owners (`WorkspaceOwners.ChangedByOwnersExactly`).
- A member listed twice lets an owner remove the last owner (`WorkspaceOwners.RepeatedIdsLoseTheOwner`); exactly
  when some operation can is `WorkspaceOwners.LosesOwnerExactly`.
- The comment on `ApproveSnapshot` speaks of a new snapshot; it shares the element lists and metadata of its
  input, which change with it (`Release.ApproveSnapshot`).

## Model

| member | source | states |
|---|---|---|
| PromotionProtocol.EveryRunIsLinear | cobra-knowledge/internal/promotion/service.go:87-218 | In every run of any number of callers, each candidate's stored history starts with its creation and every later record is one service call applied to the record before it; the store holds the last one |
| PromotionProtocol.WriteReplacesItsBase | cobra-knowledge/internal/promotion/store.go:48-55 | A write that passes the version check replaces exactly the record its result was computed from, although the read was not atomic with it |
| PromotionProtocol.VersionsCount | cobra-knowledge/internal/promotion/service.go:210-217 | Versions of a history go 1, 2, 3, without gaps, under one id, each written once |
| PromotionInterleavings.SequentialHistoriesAreReachable | cobra-knowledge/internal/promotion/service.go:87-218 | Converse of linearity: every history of the sequential machine is the stored history of some run |
| PromotionInterleavings.SecondWriterIsRefused | cobra-knowledge/internal/promotion/store.go:48-55 | Of two callers that read the same record the second write is refused and changes neither store nor history |
| PromotionInterleavings.WriteCountsExactly | cobra-knowledge/internal/promotion/store.go:48-55 | In any reachable state the write of a call in flight, a publication or any other, enters the history exactly if the version it was computed from is still the stored one, and is then appended as that call; otherwise it only ends the call |
| PromotionInterleavings.RacingPublicationsBothTakeEffect | cobra-knowledge/internal/promotion/service.go:134-165 | Two publications of one approved record both take effect at the backend while the history gains only the first |
| PromotionGovernance.EveryStoredRecordIsGoverned | cobra-knowledge/internal/promotion/service.go:235-283 | Every record stored in any run meets the gate: approved, published and rolled-back records are workspace-scoped, approved by review, cleanly inspected and carry the evidence or passed evaluation of their kind; publication exists exactly in published and rolled-back |
| PromotionGovernance.GateHolds | cobra-knowledge/internal/promotion/service.go:235-311 | The gate invariant along every sequential history |
| PromotionGovernance.EveryMoveIsLawful | cobra-knowledge/internal/promotion/service.go:101-208 | Approval only from checked, by an administrator who is recorded as reviewer; publication only from approved; rollback only from published; scope moves only from personal to workspace at an approval that asked for it; only inspecting calls and publications change the inspection, only reviews the review, only publications the publication, only rollbacks the rollback; versions rise by one and all other fields stay |
| PromotionGovernance.TerminalStatesEndHistory | cobra-knowledge/internal/promotion/service.go:87-188 | No record follows a rejected or rolled-back one |
| PromotionGovernance.PublishedOnce | cobra-knowledge/internal/promotion/service.go:134-188 | A history has at most one publication, followed at most by its rollback, which keeps the publication record |
| PromotionGovernance.SkillPublishedOverExpectedRevision | cobra-knowledge/internal/promotion/service.go:299-310 | A declared revision is the only one a skill is published over, even after a reviewer resolved the conflict; without one, a non-blank revision of the approved inspection is |
| PromotionReviews.EveryDecisionIsFollowed | cobra-knowledge/internal/promotion/service.go:101-132 | In every run of any number of callers, a record becomes approved exactly through a review whose trimmed, lower-case decision is approve or approved, and rejected exactly through one whose decision is reject or rejected |
| PromotionReviews.DecisionsAreFollowed | cobra-knowledge/internal/promotion/service.go:101-132 | In every sequential history the same, and the reviewer is a named admin or owner of the candidate's workspace, the record was checked or blocked, and an approved one has all that its kind and its inspection ask for |
| PromotionReviews.ReviewFollowsDecision | cobra-knowledge/internal/promotion/service.go:101-132 | A review approves exactly on an approving word for a record in order, rejects exactly on a rejecting word, and otherwise fails; it records the decision, the reviewer and the reason, and moves a personal record to the workspace exactly when it approves |
| PromotionReviews.PublishesExactly | cobra-knowledge/internal/promotion/service.go:134-165 | A publication succeeds exactly for an admin or owner, on an approved workspace record, when a fresh inspection is favourable, its conflict was resolved, the revision is the expected one and the backend carries it out; it records the backend's publication |
| PromotionReviews.RollsBackExactly | cobra-knowledge/internal/promotion/service.go:167-188 | A rollback succeeds exactly for an admin or owner on a published record that the backend undoes; it keeps the publication and records who and why |
| PromotionReviews.RechecksExactly | cobra-knowledge/internal/promotion/service.go:87-99 | A recheck succeeds exactly for the author, an admin or an owner, before publication and rejection |
| PromotionReviews.CreatesExactly | cobra-knowledge/internal/promotion/service.go:30-54 | A candidate is created exactly from one complete draft of its kind with a source, by a named principal with a role, for the workspace only by an editor, admin or owner; fields are taken over as given and it is personal unless asked otherwise |
| PromotionReviews.InspectionDecides | cobra-knowledge/internal/promotion/service.go:190-208 | An inspection blocks exactly on a duplicate, missing evidence, a reason or an invalid format; an error's text becomes the reason |
| PromotionReviews.FreshExactly | cobra-knowledge/internal/promotion/service.go:285-311 | A fresh inspection holds up exactly when it is favourable, any conflict was resolved in review, and the revision is the declared one or, without one, the one last seen |
| PromotionReviews.RolesAreWords | cobra-knowledge/internal/promotion/service.go:392-395 | The role tests stand for the words admin and owner, and editor with them |
| PromotionReviews.ReadsExactly | cobra-knowledge/internal/promotion/service.go:374-382 | A record is read exactly by named principals with a role in its workspace: by all of them once it is shared, else by its author, admins and owners |
| PromotionReviews.NextVersionIsStamped | cobra-knowledge/internal/promotion/service.go:210-217 | Every record a call leaves is the next version of the one before, with its id and age, stamped with the time of the call |
| PromotionReviews.KeysExactly | cobra-knowledge/internal/promotion/store.go:88-92 | An id is usable exactly when, trimmed, it is made of ASCII letters, digits, hyphens and underscores |
| PromotionStore.CandidateStore.constructor | cobra-knowledge/internal/promotion/store.go:32 | An empty store |
| PromotionStore.CandidateStore.Create | cobra-knowledge/internal/promotion/store.go:34-42 | Inserts under the candidate's key exactly when the key is valid and free |
| PromotionStore.CandidateStore.Get | cobra-knowledge/internal/promotion/store.go:44-46 | Looks a record up by its key |
| PromotionStore.CandidateStore.Update | cobra-knowledge/internal/promotion/store.go:48-55 | Replaces the record exactly when the stored version is the expected one, else leaves the store as it was |
| PromotionService.Service.constructor | cobra-knowledge/internal/promotion/service.go:26-28 | A service over the given store |
| PromotionService.Service.Get | cobra-knowledge/internal/promotion/service.go:56-68 | Reads a record and hides it from principals who may not see it |
| PromotionService.Service.Update | cobra-knowledge/internal/promotion/service.go:210-217 | Raises the version and writes against the version that was read |
| PromotionService.Service.InspectAndPersist | cobra-knowledge/internal/promotion/service.go:190-208 | Asks the backend, sets checked or blocked from the answer, and stores the result |
| PromotionService.Service.Create | cobra-knowledge/internal/promotion/service.go:30-54 | Stores version 1 before the first inspection and version 2 after it |
| PromotionService.Service.Recheck | cobra-knowledge/internal/promotion/service.go:87-99 | New state and answer of a recheck in terms of the old store |
| PromotionService.Service.Review | cobra-knowledge/internal/promotion/service.go:101-132 | New state and answer of a review in terms of the old store |
| PromotionService.Service.Publish | cobra-knowledge/internal/promotion/service.go:134-165 | New state and answer of a publication: access, state, fresh inspection, gate, backend, write, in this order |
| PromotionService.Service.Rollback | cobra-knowledge/internal/promotion/service.go:167-188 | New state and answer of a rollback in terms of the old store |
| PromotionRefinement.ServedIsOneCaller | cobra-knowledge/internal/promotion/service.go:87-188 | A service call on an idle system is the run of one caller's events: read, act and, unless refused, write; the run leaves the store the call leaves, the answer is that of the sequential machine, and the history grows by the call exactly if it succeeds |
| PromotionRefinement.CreationIsOneCaller | cobra-knowledge/internal/promotion/service.go:30-54 | A creation is likewise the run of its events: begin, act and, unless the inspection cannot be made, write |
| SkillBackend.SkillShelf.constructor | cobra-knowledge/internal/promotion/openviking_backend.go:21-23 | An empty shelf |
| SkillBackend.SkillShelf.Inspect | cobra-knowledge/internal/promotion/openviking_backend.go:25-93 | The inspection of a skill candidate: current content and revision, duplicate, conflict and blocking reasons |
| SkillBackend.SkillShelf.Publish | cobra-knowledge/internal/promotion/openviking_backend.go:127-161 | Writes the skill and records, as the way back, what the record's inspection saw |
| SkillBackend.SkillShelf.Rollback | cobra-knowledge/internal/promotion/openviking_backend.go:163-189 | Restores the previous content or removes the created skill, with each error case |
| SkillBackend.FreshPublication | cobra-knowledge/internal/promotion/service.go:134-165 | A publication's snapshot is exactly what its fresh inspection found on the shelf |
| SkillBackend.RollbackUndoesPublication | cobra-knowledge/internal/promotion/openviking_backend.go:127-189 | Rollback succeeds exactly when the publication created the skill or replaced non-blank content; it then restores presence and content up to outer white space and touches no other skill |
| SkillBackend.NestedCourseRestoresSkill | cobra-knowledge/internal/promotion/openviking_backend.go:127-189 | Any well-nested course of publications and rollbacks of one skill that runs to its end leaves the skill as it was |
| SkillBackend.OnlyPublicationsFail | cobra-knowledge/internal/promotion/openviking_backend.go:163-189 | Over absent or non-blank content such a course fails exactly when one of its publications is stopped at the gate; no rollback fails |
| SkillBackend.PublishedOverDeclaredRevision | cobra-knowledge/internal/promotion/openviking_backend.go:61-91 | A declared revision is the one on the shelf at the moment of publication |
| BackendLaws.SkillInspectionExactly | cobra-knowledge/internal/promotion/openviking_backend.go:25-93 | A stored skill is a duplicate exactly when it has the same letters up to case and white space, in conflict exactly when the declared revision is not the stored one or the skill is not there; the decision follows; nothing is compared on a server that cannot be read |
| BackendLaws.SkillBlockedExactly | cobra-knowledge/internal/promotion/openviking_backend.go:35-73 | The reason to block is the first of a format error, a read error and a trace error |
| BackendLaws.SkillPublishedExactly | cobra-knowledge/internal/promotion/openviking_backend.go:127-161 | A published skill is on the shelf with its content, reported under its name with the server's revision or else its content's hash; others stay |
| KnowledgeBackend.VerifyEvidence | cobra-knowledge/internal/promotion/weknora_backend.go:135-161 | Verified exactly when there is a link and every link names a readable chunk in an allowed knowledge base that matches its claim; otherwise the first bad link is refused |
| KnowledgeBackend.Scan | cobra-knowledge/internal/promotion/weknora_backend.go:66-87 | A duplicate is found exactly when one occurs with no conflict before it, a conflict exactly when one occurs with no duplicate up to it, nothing exactly when no result is either; the finding names the first result that decides |
| KnowledgeBackend.InspectKnowledge | cobra-knowledge/internal/promotion/weknora_backend.go:23-89 | An error exactly for a candidate or request that is not in order; otherwise verified evidence exactly when every link checks, a blocking reason exactly without verified evidence or without search results, duplicate and conflict exactly as the scan of the results finds them, and a clean result exactly when everything is in order and no duplicate comes first |
| KnowledgeBackend.RankedScoreDuplicateIsFound | cobra-knowledge/internal/promotion/weknora_backend.go:66-87 | In results ranked by score no duplicate by score is hidden behind a conflict |
| KnowledgeBackend.SameTextBehindConflictIsMissed | cobra-knowledge/internal/promotion/weknora_backend.go:75-86 | The same statement behind a merely similar result is not found |
| BackendLaws.LinkVerifiedExactly | cobra-knowledge/internal/promotion/weknora_backend.go:135-161 | A link counts exactly when it names a chunk that is found in a knowledge base of the workspace, and in the one it claims if it claims one; an empty list of knowledge bases allows all |
| BackendLaws.ResultsExactly | cobra-knowledge/internal/promotion/weknora_backend.go:58-86 | A search result is a duplicate by the same letters or a score of at least 0.985, and a conflict by a text and a score of at least 0.9, unless positive limits are set instead |
| BackendLaws.KnowledgePublishedExactly | cobra-knowledge/internal/promotion/weknora_backend.go:91-118 | A publication succeeds exactly when it can be sent and the reply names an id in one of four places; what exists then is the statement under its title in the target knowledge base, and the way back deletes the first id named |
| KnowledgeBackend.KnowledgeShelf.constructor | cobra-knowledge/internal/promotion/weknora_backend.go:19-21 | A server without entries |
| KnowledgeBackend.KnowledgeShelf.Publish | cobra-knowledge/internal/promotion/weknora_backend.go:91-118 | New entries and answer of a publication: draft, address, scope, what the server did, and the id its reply names, trimmed, or an error without one |
| KnowledgeBackend.KnowledgeShelf.Rollback | cobra-knowledge/internal/promotion/weknora_backend.go:119-133 | New entries and answer of a rollback: publication, snapshot, trimmed id, address, and what the server did |
| KnowledgeBackend.FailedPublicationLeavesEntryExactly | cobra-knowledge/internal/promotion/weknora_backend.go:103-117 | A failed publication leaves an entry exactly when the request was sent, the server stored one, and the reply was lost or names no id; other entries stay, and a record without a publication gives a rollback nothing to delete |
| KnowledgeBackend.RollbackUndoesKnowledge | cobra-knowledge/internal/promotion/weknora_backend.go:91-133 | Against a server that names what it created, a rollback succeeds exactly when the server deletes, deletes only the created entry, and restores what was there before the publication |
| KnowledgeBackend.CourseKeepsOthers | cobra-knowledge/internal/promotion/weknora_backend.go:91-133 | Over any course of publications and rollbacks, in any order and with failures, the entries are those of the start, unchanged, and exactly one for each publication not rolled back |
| KnowledgeBackend.CourseRestoresExactly | cobra-knowledge/internal/promotion/weknora_backend.go:91-133 | The entries are those of the start exactly when every publication has been rolled back |
| EntityResolver.MergeEntity | cobra-knowledge/internal/graph/resolver.go:130-151 | Merging keeps the first value of each property, adds aliases and evidence, and reports a conflict for each differing value, in any order of visiting |
| EntityResolver.RecordMember | cobra-knowledge/internal/graph/resolver.go:53-69 | Adds the member to the group of its canonical entity, or opens the group |
| EntityResolver.Resolve | cobra-knowledge/internal/graph/resolver.go:41-77 | Entities, id map, groups and conflicts of the whole pass |
| ResolverIdentity.KeyStandsForIdentity | cobra-knowledge/internal/graph/resolver.go:101-128 | Key strings are equal exactly when kind of identity, type and normalized text are; joining with colons is unambiguous because normalizing drops them |
| ResolverIdentity.MergeKeepsKey | cobra-knowledge/internal/graph/resolver.go:101-151 | Merging never changes the canonical entity's key although its aliases grow |
| ResolverIdentity.LeastNameIsLeast | cobra-knowledge/internal/graph/resolver.go:101-117 | The name part of a key is the least non-empty normalized name or alias |
| ResolverTheorems.ResolutionIsIdempotent | cobra-knowledge/internal/graph/resolver.go:41-77 | Resolving the output merges nothing, maps every id to itself and returns the same entities |
| ResolverTheorems.ResolutionIsQuotient | cobra-knowledge/internal/graph/resolver.go:41-77 | With distinct ids the id map is total, idempotent, lands in the output, and joins two entities exactly when their identities agree; output ids are distinct |
| ResolverGroups.CanonicalIsMergeOfMembers | cobra-knowledge/internal/graph/resolver.go:45-72 | The single pass computes, for every key at once, the merge of that key's members in order |
| ResolverGroups.MergedValueIsFirstValue | cobra-knowledge/internal/graph/resolver.go:130-151 | A merged property exists when some member has it, with the first member's value up to normalization |
| ResolverGroups.MergedEvidenceIsUnion | cobra-knowledge/internal/graph/resolver.go:168-180 | The evidence ids of a merged entity are the union over its members |
| ResolverGroups.NothingIsLost | cobra-knowledge/internal/graph/resolver.go:45-72 | Every property and evidence id of every input entity survives in its canonical entity |
| ResolverGroups.ConflictsAreExact | cobra-knowledge/internal/graph/resolver.go:130-151 | A conflict is recorded for an entity and a property exactly when its value differs from the first member's |
| ResolverGroups.EntitiesAreConserved | cobra-knowledge/internal/graph/resolver.go:45-72 | Input count equals output entities plus grouped members |
| ResolverGroups.GroupsAreExact | cobra-knowledge/internal/graph/resolver.go:53-69 | Each key with several members has one group, holding its canonical entity and exactly the later members |
| ResolverNames.ResolvedRepresents | cobra-knowledge/internal/graph/resolver.go:41-77 | Each entity put out is made from all input entities of its key in order: it has the id, name, type and business key of the first; a merged one has as aliases exactly the trimmed non-blank aliases of all and the names of the later ones, sorted and once each, and the first evidence of each id; each property has the value of the last member that agrees with the first |
| ResolverNames.ResolvedTogetherExactly | cobra-knowledge/internal/graph/resolver.go:101-117 | Two entities are resolved to one exactly when they have one type and one normalized business key, or neither has a business key and their least normalized names agree, or they have no usable identity and one id |
| ResolverNames.ConflictsTellOfInput | cobra-knowledge/internal/graph/resolver.go:136-150 | Every conflict names an input entity, its value, the first entity of its key, and a value that reads like the first one given and unlike this one |
| ResolverNames.EachConflictOnce | cobra-knowledge/internal/graph/resolver.go:136-150 | With distinct ids no conflict is recorded twice |
| RelationRewriter.RewriteRelations | cobra-knowledge/internal/graph/resolver.go:79-99 | The rewritten, de-duplicated and sorted relations |
| RelationRewriter.RewritingKeepsImages | cobra-knowledge/internal/graph/resolver.go:79-99 | Output triples are distinct images of input triples; all images come out exactly when no two different ones share a joined key |
| RelationRewriter.PlainIdsKeepEveryImage | cobra-knowledge/internal/graph/resolver.go:79-99 | With ids free of NUL the output triples are exactly the images |
| RelationRewriter.NulInIdsLosesARelation | cobra-knowledge/internal/graph/resolver.go:90-94 | An input on which a relation is lost |
| RelationRewriter.NoDanglingEndpoints | cobra-knowledge/internal/graph/resolver.go:79-99 | If every input end point is an input entity, every output end point is an output entity |
| RelationRewriter.RewrittenExactly | cobra-knowledge/internal/graph/resolver.go:79-99 | Out come, by id, exactly the relations rewritten from the first input relation with each key: the same direction between canonical ends, all else kept, and the id of the key |
| Arbiter.Classify | cobra-knowledge/internal/retrieval/arbiter.go:54-61 | Splits the assertions compatible with the first one's scope into usable and stale |
| Arbiter.Decide | cobra-knowledge/internal/retrieval/arbiter.go:61-66 | Verdict on ranked assertions, rivals compared with the top one and the first rival with the threshold |
| Arbiter.ArbitrateSlot | cobra-knowledge/internal/retrieval/arbiter.go:54-67 | Verdict of one slot |
| Arbiter.GroupBySlot | cobra-knowledge/internal/retrieval/arbiter.go:38-45 | Each slot's assertions in arrival order |
| Arbiter.Arbitrate | cobra-knowledge/internal/retrieval/arbiter.go:34-52 | Verdicts of all slots in slot order, whatever order the slot map is visited in |
| ArbiterTheorems.FirstBestIsBest | cobra-knowledge/internal/retrieval/arbiter.go:62 | The top assertion has the highest score and comes before all others that have it |
| ArbiterTheorems.AcceptedExactlyWhenDecisive | cobra-knowledge/internal/retrieval/arbiter.go:54-67 | A slot has an accepted assertion exactly when some scope-compatible one is valid and fresh and the first top-scored one beats every valid, inequivalent, not superseded rival by more than the threshold; checking the first rival suffices |
| ArbiterTheorems.RankedAreUsable | cobra-knowledge/internal/retrieval/arbiter.go:54-61 | An assertion is ranked exactly when it is scope-compatible, valid now and not stale |
| ArbiterLaws.AcceptedInWords | cobra-knowledge/internal/retrieval/arbiter.go:54-71 | An assertion is accepted exactly when it is current and in scope, leads every other such assertion, those that came before strictly, and those of another value that it does not supersede by more than the lead asked for; the lead is 0.65 of the priorities, 0.35 of the confidences and a newness of 0.05 that halves in a day |
| ArbiterLaws.LoneAssertionExactly | cobra-knowledge/internal/retrieval/arbiter.go:54-71 | An assertion alone in its slot is accepted exactly while the time lies in its closed validity window and, under a positive limit and with an observation time, no later than that time plus the limit in seconds; otherwise it is listed as stale |
| ArbiterLaws.StaleExactly | cobra-knowledge/internal/retrieval/arbiter.go:54-61 | Listed as stale are exactly the assertions compatible with the first one's scope that are not current |
| ArbiterLaws.AgeingIsFinal | cobra-knowledge/internal/retrieval/arbiter.go:70-71 | Within its window what was stale stays stale, and what is accepted alone was so at every earlier time |
| ArbiterLaws.HigherPriorityLeads | cobra-knowledge/internal/retrieval/arbiter.go:69 | The predicate's own priority for a source overrides the default one, which overrides the authority; with equal confidence and no newness a lower priority is never accepted |
| ArbiterLaws.NewerLeads | cobra-knowledge/internal/retrieval/arbiter.go:69 | With newer observations preferred, an older one with no higher priority and confidence is never accepted |
| ArbiterLaws.ConflictsInWords | cobra-knowledge/internal/retrieval/arbiter.go:63-66 | The conflicts listed are exactly what the leader contradicts, best first, after the leader itself when none is accepted |
| ArbiterLaws.LeadAskedFor | cobra-knowledge/internal/retrieval/arbiter.go:27-32 | The lead asked for is the first of the predicate's own, the default and 0.05 that is not zero |
| ArbiterLaws.ValuesReadAlike | cobra-knowledge/internal/retrieval/arbiter.go:72-73 | Values are one exactly when their letters agree up to case, whatever white space is in them |
| ArbiterLaws.VerdictsAreOfSlots | cobra-knowledge/internal/retrieval/arbiter.go:38-52 | There is one verdict for each slot, in slot order, over all its assertions in arrival order; without a slot id the slot is subject and predicate |
| ArbiterOrder.OutcomesExactly | cobra-knowledge/internal/retrieval/arbiter.go:54-67 | For assertions arriving in parts, each in its own order, an outcome of a slot is reached by some arrangement of the parts exactly when two parts that can lead give it: one whose first assertion sets the scope, and one that holds the first best assertion; or a part whose first assertion has nothing ranked in its scope |
| ArbiterOrder.ArrivalOrderExactly | cobra-knowledge/internal/retrieval/arbiter.go:54-67 | Every arrival order of a slot's assertions gives the same status and value exactly when every assertion that can arrive first, with every one that can then be the first best, leads to the same outcome |
| ArbiterOrder.ArbitrationOrderExactly | cobra-knowledge/internal/retrieval/arbiter.go:34-67 | Every arrival order of all assertions gives the same slots with the same outcomes exactly when this holds in each slot |
| ArbiterOrder.SlotIgnoresArrivalOrder | cobra-knowledge/internal/retrieval/arbiter.go:54-67 | In particular the order of a slot does not matter under compatible scopes, one non-negative threshold and no supersession |
| ArbiterOrder.ArbitrationIgnoresArrivalOrder | cobra-knowledge/internal/retrieval/arbiter.go:34-67 | Under these conditions per slot, every rearrangement of all assertions gives the same slots in the same order with the same outcomes |
| ArbiterOrder.ScopesMakeOrderMatter | cobra-knowledge/internal/retrieval/arbiter.go:57 | Incompatible scopes: the first to arrive is accepted |
| ArbiterOrder.SupersessionMakesOrderMatter | cobra-knowledge/internal/retrieval/arbiter.go:64 | Supersession: a tie is accepted or unresolved depending on who arrives first |
| ArbiterOrder.NegativeThresholdMakesOrderMatter | cobra-knowledge/internal/retrieval/arbiter.go:65 | A negative threshold: a tie goes to the first to arrive |
| OntologyValidator.ValidateOntology | cobra-knowledge/internal/ontology/validator.go:9-16 | All findings on classes, parents, properties and relations, in order |
| OntologyValidator.CheckClasses | cobra-knowledge/internal/ontology/validator.go:11 | Findings on class ids and labels, and the known class ids |
| OntologyValidator.CheckParents | cobra-knowledge/internal/ontology/validator.go:12 | A finding for each unknown parent |
| OntologyValidator.CheckProperties | cobra-knowledge/internal/ontology/validator.go:13 | Findings on property ids and domains, and the ids taken so far |
| OntologyValidator.CheckRelations | cobra-knowledge/internal/ontology/validator.go:14 | Findings on relation ids, domains and ranges |
| OntologyValidator.ErrorsExactlyWhenNotConformant | cobra-knowledge/internal/ontology/validator.go:9-16 | There is an error finding exactly when some class is unnamed, some id is used twice, or some parent, domain or range is no class |
| ConformanceLaws.FindingsExactly | cobra-knowledge/internal/ontology/validator.go:9-16 | The findings on an ontology are exactly: unnamed classes, ids in use before, parents, domains and ranges that are no class, and as warnings relations open at an end |
| OntologyValidator.CheckEntities | cobra-knowledge/internal/ontology/validator.go:18-20 | Findings on the entities, as a set, and the type of each id: the last entity of a known type |
| OntologyValidator.CheckGraphRelation | cobra-knowledge/internal/ontology/validator.go:21 | Findings on one relation against its declared domain and range |
| OntologyValidator.ValidateGraph | cobra-knowledge/internal/ontology/validator.go:17-23 | The findings on a graph, as a set that does not depend on the order in which properties are visited; empty exactly when there are none |
| ConformanceLaws.GraphFindingsExactly | cobra-knowledge/internal/ontology/validator.go:17-23 | The findings on a graph are exactly: unknown types, unknown properties as warnings, properties of other classes, unknown relation types, and ends of a known type that is not declared for the relation; the last declaration of a label counts |
| OntologyRegistry.FSRegistry.constructor | cobra-knowledge/internal/ontology/registry.go:50-52 | An empty registry |
| OntologyRegistry.FSRegistry.Find | cobra-knowledge/internal/ontology/registry.go:415-422 | The first entry of a version |
| OntologyRegistry.FSRegistry.Get | cobra-knowledge/internal/ontology/registry.go:326-348 | Payload and entry of a version, checked against the recorded hash, with each error |
| OntologyRegistry.FSRegistry.RegisterVersion | cobra-knowledge/internal/ontology/registry.go:54-114 | New state and answer of a registration; the payload is stored before the domain is compared |
| OntologyRegistry.FSRegistry.Publish | cobra-knowledge/internal/ontology/registry.go:116-154 | New state and answer of a publication: the entry is released and becomes active |
| OntologyRegistry.FSRegistry.Activate | cobra-knowledge/internal/ontology/registry.go:156-177 | New state and answer of an activation; only published versions |
| OntologyRegistry.FSRegistry.BindKnowledgeBase | cobra-knowledge/internal/ontology/registry.go:216-253 | New state and answer of a binding that follows the active version or is pinned |
| OntologyRegistry.FSRegistry.ResolveForKnowledgeBase | cobra-knowledge/internal/ontology/registry.go:261-288 | Resolution of a knowledge base, with each error |
| RegistryInvariants.RunKeeps | cobra-knowledge/internal/ontology/registry.go:54-253 | Over every run each manifest entry's payload keeps its hash under a storage key of its own, published entries stay publishable, active pointers name published versions, bindings can be resolved; no payload, registration or binding is ever taken back |
| RegistryInvariants.RegisterKeeps | cobra-knowledge/internal/ontology/registry.go:54-114 | Registration keeps the invariant and takes nothing back, whether it succeeds or fails |
| RegistryInvariants.PublishKeeps | cobra-knowledge/internal/ontology/registry.go:116-154 | Publication does too |
| RegistryInvariants.ActivateKeeps | cobra-knowledge/internal/ontology/registry.go:156-177 | Activation does too |
| RegistryInvariants.BindKeeps | cobra-knowledge/internal/ontology/registry.go:216-253 | Binding does too |
| RegistryInvariants.BoundKnowledgeBaseAlwaysResolves | cobra-knowledge/internal/ontology/registry.go:216-288 | After a successful binding the knowledge base resolves in every later state, to a published, approved, well-formed ontology without an unapproved high-risk review item |
| RegistryInvariants.BindingResolves | cobra-knowledge/internal/ontology/registry.go:261-288 | What a stored binding resolves to in any state that meets the invariant |
| RegistryInvariants.SameVersionSameResolution | cobra-knowledge/internal/ontology/registry.go:261-288 | A binding that stands for one version in two states of a run resolves to the same payload and registration; a pinned binding until it is replaced |
| RegistryInvariants.ReactivationRestoresResolution | cobra-knowledge/internal/ontology/registry.go:156-177 | Activating the earlier version succeeds after any run and restores what every unreplaced binding resolved to |
| RegistryBindings.BindSucceedsExactly | cobra-knowledge/internal/ontology/registry.go:216-253 | A binding request succeeds exactly when it names a knowledge base and an ontology and, up to case and outer white space, says active for an ontology with an active version or pinned with a trimmed version that is published; a failed one changes nothing |
| RegistryBindings.PinnedStaysPut | cobra-knowledge/internal/ontology/registry.go:216-288 | After a successful request whose mode is pinned, and until the knowledge base is bound again, it resolves in every later state to the content and registration that the requested version of the requested ontology had at the request |
| RegistryBindings.ActiveIsFollowed | cobra-knowledge/internal/ontology/registry.go:216-288 | After a successful request whose mode is active, and until the knowledge base is bound again, it resolves in every later state to the version then active for the requested ontology |
| RegistryBindings.ActiveIsLastReleased | cobra-knowledge/internal/ontology/registry.go:116-177 | Over every run the active version of an ontology is the one last published or activated with success |
| RegistryBindings.PublishSucceedsExactly | cobra-knowledge/internal/ontology/registry.go:116-154 | Publishing succeeds exactly for a listed version whose content is approved, well formed and free of open high-risk questions; it stamps the entry and makes the version active |
| RegistryBindings.ActivateSucceedsExactly | cobra-knowledge/internal/ontology/registry.go:156-177 | Activating succeeds exactly for a published version and changes nothing but which version is active |
| RegistryBindings.RegisterSucceedsExactly | cobra-knowledge/internal/ontology/registry.go:54-114 | A registration succeeds exactly for a named, well-formed version of a named ontology and domain that is not there yet and agrees with the domain; it reads back as given, under an unpublished entry |
| RegistryBindings.RegisteredByAge | cobra-knowledge/internal/ontology/registry.go:105-107 | After a registration the entries of its manifest are listed by age |
| RegistryBindings.StoredNames | cobra-knowledge/internal/ontology/registry.go:491-498 | A stored name is the trimmed one with slashes and blanks replaced, and a fixed one for a blank name |
| RegistryInvariants.FailedRegistrationExactly | cobra-knowledge/internal/ontology/registry.go:54-114 | A failed registration changes something exactly when the ontology is complete and well formed, its version is free and its id is registered under another domain; it then leaves its payload and nothing else |
| RegistryInvariants.RefusedRegistrationOccupiesVersion | cobra-knowledge/internal/ontology/registry.go:78-104 | After such a failure and any later run, every registration under the same sanitized id and version, of any ontology, is refused and changes nothing |
| RegistryInvariants.ForeignDomainBlocksVersion | cobra-knowledge/internal/ontology/registry.go:78-104 | A run in which an attempt under a foreign domain keeps the owner of an ontology from registering its next version |
| Release.ApproveSnapshot | cobra-knowledge/internal/ontology/release.go:13-58 | Granted exactly for a non-blank version, approved high risks and a well-formed ontology; the result is the approved snapshot; the input's elements and metadata, being shared, are approved with it; a refusal changes nothing |
| ConformanceLaws.ApprovalChangesOnly | cobra-knowledge/internal/ontology/release.go:13-58 | Approval takes proposed elements to approved, leaves all others, keeps ids and questions, and names the version the candidate had as parent unless it is the same |
| Release.AcceptEach | cobra-knowledge/internal/ontology/release.go:37-51 | Approves the proposed elements of a shared list in place |
| Release.ApprovedIsPublishable | cobra-knowledge/internal/ontology/release.go:13-58 | What approval grants passes the registry's publication gate |
| Release.RegisteredApprovalPublishes | cobra-knowledge/internal/ontology/registry.go:54-154 | An approved snapshot that the registry accepts can be published at once, becomes the active version, and is read back as it was |
| TemplateCompiler.CompileNode | cobra-knowledge/internal/ontology/compiler.go:27-32 | The template node of a class: its type and, sorted, the properties declared for it |
| TemplateCompiler.CompileRelations | cobra-knowledge/internal/ontology/compiler.go:35-42 | Template relations between the classes first in domain and range, where both have labels |
| TemplateCompiler.CompileWeKnora | cobra-knowledge/internal/ontology/compiler.go:21-53 | The whole template |
| GraphNormalizer.ParseAttributes | cobra-knowledge/internal/adapters/weknora/graph.go:145-169 | Properties and reserved keys of an attribute list, later ones winning |
| GraphNormalizer.NormalizeNode | cobra-knowledge/internal/adapters/weknora/graph.go:71-117 | The entity and the chunk set of a node |
| GraphNormalizer.DeriveRelationEvidence | cobra-knowledge/internal/adapters/weknora/graph.go:171-214 | Evidence from the chunks both end points share, or else from all of them, sorted, whatever order the sets are visited in |
| GraphNormalizer.Normalize | cobra-knowledge/internal/adapters/weknora/graph.go:57-143 | The snapshot of an extracted graph |
| GraphLaws.AttributesReadLast | cobra-knowledge/internal/adapters/weknora/graph.go:145-169 | A property or reserved key has the value of the last attribute that gives it: key and value around the first equals sign, trimmed, or a word alone as true |
| GraphLaws.ListedNames | cobra-knowledge/internal/adapters/weknora/graph.go:216-240 | A list holds exactly the non-blank stretches between its separators, trimmed, sorted and once each |
| GraphLaws.EntitiesOfNodes | cobra-knowledge/internal/adapters/weknora/graph.go:72-114 | There is one entity for each node, by id: with the id, type, business key and aliases the node declares, a derived id and the unclassified type for want of one, each property as last given, and evidence for each chunk |
| GraphLaws.RelationsOfGraph | cobra-knowledge/internal/adapters/weknora/graph.go:116-141 | There is a relation exactly for each extracted one whose end points are names of nodes, between the entities of the last nodes so named, and it rests on the chunks both carry or, if there are none, on all chunks of either |
| TemplateTheorems.TemplateConformsExactly | cobra-knowledge/internal/ontology/compiler.go:21-53 | For trimmed labels of classes and relations and property labels that are not reserved, compiling a well-formed ontology, normalizing the template and validating it against the same ontology reports nothing exactly when each key declared for a class names a property open to the last class with that label, and each declared relation is accepted between the last classes with the labels of its first domain and range |
| TemplateTheorems.CompiledTemplateConforms | cobra-knowledge/internal/ontology/compiler.go:21-53 | In particular nothing is reported when labels are distinct per kind and property labels contain no equals sign |
| TemplateTheorems.TemplateKeepsTheOntology | cobra-knowledge/internal/ontology/compiler.go:21-53 | The normalized template has one entity per class with exactly the keys of the properties declared for it, and a relation for every declared one with domain and range, also where labels are shared |
| TemplateTheorems.TemplateRelationsAreDeclared | cobra-knowledge/internal/ontology/compiler.go:35-42 | Conversely every relation of the normalized template is a declared one, between its first domain and its first range |
| TemplateTheorems.TemplateParses | cobra-knowledge/internal/adapters/weknora/graph.go:145-169 | Template attributes parse back to the type and exactly the listed keys |
| TemplateTheorems.TemplateEntityType | cobra-knowledge/internal/ontology/validator.go:18-21 | Each template entity is found under its id as an instance of the last class with its label |
| TemplateTheorems.RefusedKeyIsReported | cobra-knowledge/internal/ontology/validator.go:18-20 | Each key that is not accepted is reported at the entity of its class: as unknown if no property has it, else as a domain violation |
| TemplateTheorems.SharedClassLabelIsReported | cobra-knowledge/internal/ontology/validator.go:18-20 | A class label shared with a later class makes a property of the first one a domain violation |
| TemplateTheorems.LostLabelIsReported | cobra-knowledge/internal/adapters/weknora/graph.go:149-165 | A property label cut at an equals sign or trimmed is reported as unknown unless what is left is a label too |
| Identity.StableIdNames | cobra-knowledge/internal/model/id.go:11-15 | Within a kind and a domain, identifiers are equal exactly when the trimmed names are |
| Identity.StableIdKinds | cobra-knowledge/internal/model/id.go:11-15 | Identifiers of kinds with different initials differ |
| Discovery.Analyze | cobra-knowledge/internal/ontology/discovery.go:25-30 | The report lists every type, property and relation in use with its exact counts, although counters are visited in any order |
| Discovery.CountEntities | cobra-knowledge/internal/ontology/discovery.go:26-27 | Class counts, property counters and the last entity of each id |
| Discovery.CountRelations | cobra-knowledge/internal/ontology/discovery.go:28 | Relation counters over relations with known end points |
| Discovery.ReportIsUnique | cobra-knowledge/internal/ontology/discovery.go:25-30 | The graph determines its report |
| Candidate.FindDominant | cobra-knowledge/internal/ontology/discovery.go:41-43 | The key with the highest count, the earliest of several, in any order of visiting |
| Candidate.ChooseDomain | cobra-knowledge/internal/ontology/discovery.go:42 | The dominant type if it has the required share, and the share |
| Candidate.BuildClasses | cobra-knowledge/internal/ontology/discovery.go:33-34 | Candidate classes with their suggested parents, and a review item for each missing parent |
| Candidate.BuildProperties | cobra-knowledge/internal/ontology/discovery.go:35 | Candidate properties and a review item for each without a domain |
| Candidate.BuildRelations | cobra-knowledge/internal/ontology/discovery.go:36 | Candidate relations and a high-risk review item for each without domain or range |
| Candidate.AskToMerge | cobra-knowledge/internal/ontology/discovery.go:37 | Merge questions for groups with at least two known classes |
| Candidate.BuildCandidate | cobra-knowledge/internal/ontology/discovery.go:31-39 | The whole candidate |
| DiscoveryTheorems.CandidateConforms | cobra-knowledge/internal/ontology/discovery.go:24-39 | For every graph and every suggestion the candidate is well formed and validation reports no error |
| DiscoveryTheorems.DomainExactlyWhenCovering | cobra-knowledge/internal/ontology/discovery.go:35 | A property belongs to a type exactly when that type has at least 80 percent of its uses; otherwise it has another single type or none |
| DiscoveryTheorems.OpenEndsAreReviewed | cobra-knowledge/internal/ontology/discovery.go:36 | A relation left without domain or range has a pending high-risk review item about it |
| CandidateLaws.RelationEndsExactly | cobra-knowledge/internal/ontology/discovery.go:36 | A relation runs from the class of one type to that of another when at least 80 percent of its uses run between these types, and is left open where no two types are so |
| CandidateLaws.RelationConfidence | cobra-knowledge/internal/ontology/discovery.go:36 | The confidence in a relation is the largest share of its uses that runs between one pair of types |
| CandidateLaws.ClassesExactly | cobra-knowledge/internal/ontology/discovery.go:33-34 | Each type of the graph is a class with as much support as it has entities, the suggested aliases, and the suggested parent if that is a type of the graph |
| CandidateLaws.PropertiesExactly | cobra-knowledge/internal/ontology/discovery.go:35 | A property's data type is the most common among its values, the earliest of several, and its support counts all uses |
| CandidateLaws.PropertyConfidence | cobra-knowledge/internal/ontology/discovery.go:35 | The confidence in a property is the largest share of its uses that one type has |
| CandidateLaws.QueueExactly | cobra-knowledge/internal/ontology/discovery.go:34-38 | Queued for review are exactly unknown parents, properties without a domain, relations open at an end, groups of at least two known classes, and the suggested questions, each with its risk and subjects |
| DiscoveryTheorems.DiscoveryIsDeterministic | cobra-knowledge/internal/ontology/discovery.go:24-39 | The candidate depends only on the graph and the suggestions |
| DiscoveryTheorems.Discover | cobra-knowledge/internal/ontology/discovery.go:24 | Discovery from end to end ends in a well-formed proposed ontology |
| FanOut.NothingBlocks | cobra-knowledge/internal/context/service.go:58-74 | In every reachable state no send waits for room, and unless all is done some move is possible |
| FanOut.EachStepDeliversOnce | cobra-knowledge/internal/context/service.go:58-74 | Every finished schedule has the same length and leaves each step's item in the channel exactly once |
| FanOut.Collect | cobra-knowledge/internal/context/service.go:76-95 | Results and assertions of the items: an error or an empty answer never satisfies its step |
| FanOut.AssertionsOfRearranged | cobra-knowledge/internal/context/service.go:76-95 | The assertions gathered are the same multiset in every order of arrival |
| Assembler.SummarizeSteps | cobra-knowledge/internal/context/assembler.go:23-31 | Statuses, gaps and the gap of each required step left unsatisfied |
| Assembler.CollectFacts | cobra-knowledge/internal/context/assembler.go:33-42 | Facts with their evidence, conflicts, and the gap of each unresolved slot |
| Assembler.GatherKnowledge | cobra-knowledge/internal/context/assembler.go:45-56 | Knowledge without repeated keys, with its evidence |
| Assembler.Gather | cobra-knowledge/internal/context/assembler.go:44-61 | Knowledge and paths of all results with their evidence |
| Assembler.AppendEvidence | cobra-knowledge/internal/context/assembler.go:78-90 | Adds evidence whose key has not been seen |
| Assembler.AppendUnique | cobra-knowledge/internal/context/assembler.go:92-102 | Adds a non-empty text that is not there yet |
| Assembler.Assemble | cobra-knowledge/internal/context/assembler.go:14-76 | The whole pack |
| ContextTheorems.BlockingGapsExactly | cobra-knowledge/internal/context/assembler.go:19-42 | The blocking gaps are exactly the non-empty issues of the plan, the required sources left unsatisfied and the unresolved slots |
| ContextTheorems.CompleteExactly | cobra-knowledge/internal/context/assembler.go:14-76 | Complete exactly when there is no blocking issue, every required step is satisfied, no slot is unresolved and some fact, knowledge or path exists, whatever the limit on knowledge |
| ContextTheorems.PackIsTraceable | cobra-knowledge/internal/context/assembler.go:33-90 | A pack lists no evidence twice and lists all that its facts, its knowledge and its paths cite |
| PackLaws.KnowledgeInPack | cobra-knowledge/internal/context/assembler.go:44-66 | A pack carries the first document of each id or, without id, content, best scores first; with a limit one is left out only when that many score at least as high |
| PackLaws.FindingsInPack | cobra-knowledge/internal/context/assembler.go:23-67 | Facts are the accepted assertions, conflicts the unresolved verdicts, paths those of all results in order, and each result has one status, by step id |
| PackLaws.EvidenceInPack | cobra-knowledge/internal/context/assembler.go:33-61 | A pack lists no evidence that no fact, document or path cites |
| PackLaws.EvidenceKeysAgree | cobra-knowledge/internal/context/assembler.go:78-90 | Evidence with ids is told apart by them, and evidence without by source, document and chunk as long as these hold no NUL |
| ContextTheorems.FanIn | cobra-knowledge/internal/context/service.go:76-102 | What the caller computes once the channel is closed |
| ScheduleTheorems.ScheduledOutcomesExactly | cobra-knowledge/internal/context/service.go:58-102 | Finished schedules give a slot exactly the outcomes that arrangements of its steps' answers can end in |
| ScheduleTheorems.GapsAgreeExactly | cobra-knowledge/internal/context/service.go:58-102 | The blocking gaps are the same for every schedule exactly when no slot, unless the plan lists its gap anyway, can end both in an unresolved conflict and otherwise |
| ScheduleTheorems.AlwaysCompleteExactly | cobra-knowledge/internal/context/service.go:58-102 | Every schedule ends in a complete pack exactly when no issue, unsatisfied required step or possible conflict blocks it and either some step finds knowledge or a path or, for some set of slots, every step that can be the first to reach them finds something ranked there |
| ScheduleTheorems.ScheduleIgnoredExactly | cobra-knowledge/internal/context/service.go:58-102 | Blocking gaps and completeness are both the same for every schedule exactly when the gaps agree and the pack is blocked anyway, has knowledge or paths, is secured in this sense, or can never have a fact |
| ScheduleTheorems.ScheduleDoesNotMatter | cobra-knowledge/internal/context/service.go:58-102 | In particular the schedule does not matter when each slot's assertions share a scope, supersede nothing and have one non-negative threshold |
| ScheduleTheorems.GapsOfPackExactly | cobra-knowledge/internal/context/service.go:76-95 | Whatever the schedule, a pack reports exactly the gaps, errors and missing answers of its steps; a step that failed or found nothing always has something to report |
| ContextTheorems.OnlyConflictsDependOnSchedule | cobra-knowledge/internal/context/service.go:58-102 | With no condition at all, only the gaps of unresolved slots can depend on the schedule |
| ContextTheorems.ScheduleCanMatter | cobra-knowledge/internal/context/service.go:58-102 | Two schedules of one job, one complete and one not, when an answer declares the other superseded |
| ContextTheorems.RequiredStepMustAnswer | cobra-knowledge/internal/context/service.go:58-95 | A required step whose retriever failed, found nothing or does not exist leaves every pack incomplete, under every schedule |
| ContextTheorems.Fallback | cobra-knowledge/internal/runtimecontext/service.go:122-138 | Fills an empty pack with the documents found, their evidence, a step and a status |
| ContextTheorems.FallbackNeverCompletes | cobra-knowledge/internal/runtimecontext/service.go:122-138 | The fallback applies only to incomplete packs and leaves them incomplete with the same gaps |
| ContextTheorems.PatchedPackIsTraceableExactly | cobra-knowledge/internal/runtimecontext/service.go:122-138 | After the fallback a pack still lists evidence once and all that it cites, exactly when the fallback did not apply or every evidence of the found documents has an id, or a key that is the id of other evidence found |
| PackLaws.FallbackExactly | cobra-knowledge/internal/runtimecontext/service.go:122-138 | Only an empty pack whose plan allows it is filled: with the documents found, the first evidence of each id, and one more step reported as not required and satisfied |
| Federation.FederateTerms | cobra-knowledge/internal/retrieval/catalog.go:105-144 | Conflicts in order of discovery and the merged terms, each id once, whatever order the map is visited in |
| Federation.FederatedCovers | cobra-knowledge/internal/retrieval/catalog.go:112-136 | After the pass every eligible id is a key, and every eligible label stands for its id or is recorded as a conflict |
| Federation.MergeSources | cobra-knowledge/internal/retrieval/catalog.go:198-209 | Sources in order without repeats and blanks |
| Federation.FederateCatalogs | cobra-knowledge/internal/retrieval/catalog.go:86-103 | The federated catalog; a single catalog is taken over |
| FederationTheorems.EachIdOnce | cobra-knowledge/internal/retrieval/catalog.go:105-144 | The terms of each kind list every trimmed id of the inputs, and no other, exactly once |
| FederationTheorems.AmbiguityReachesCatalog | cobra-knowledge/internal/retrieval/catalog.go:118-123 | Two terms with one label and different ids leave a conflict in the federated catalog |
| FederationTheorems.ConflictsAreReal | cobra-knowledge/internal/retrieval/catalog.go:118-127 | Every conflict stems from two terms that share a label under different ids or an id under different labels |
| FederationTheorems.AmbiguousLabelBlocks | cobra-knowledge/internal/retrieval/planner.go:213-222 | A query that mentions both spellings of an ambiguous label gets a blocking issue, and no retrieval makes its pack complete, even with the fallback |
| FederationTheorems.AmbiguousTrimmedLabelBlocks | cobra-knowledge/internal/retrieval/planner.go:157 | With trimmed labels mentioning the label once is enough |
| FederationTheorems.ConflictsExactly | cobra-knowledge/internal/retrieval/catalog.go:105-144 | A label is recorded as a conflict exactly when some term under it meets an earlier first term with its label and another id, or with its id and a label that differs by more than case |
| FederationTheorems.BlocksExactly | cobra-knowledge/internal/retrieval/planner.go:213-222 | Several catalogs block a query exactly when it mentions a conflicting label; a single catalog blocks only by conflicts it brought along |
| FederationTerms.FederationInWords | cobra-knowledge/internal/retrieval/catalog.go:105-144 | The terms of a federation come by label, one for each id, made of the entries that agree with the first to have it: its id, label and kind, all their aliases and all their sources in order; the conflicts are exactly those an entry has with earlier ones, with both ids or labels and the catalogs of both |
| Planner.MatchTerms | cobra-knowledge/internal/retrieval/planner.go:32-49 | The terms the query mentions by label or alias |
| Planner.PreferredSourcesForMatched | cobra-knowledge/internal/retrieval/planner.go:196-211 | The sources the matched properties prefer, in order, once each |
| Planner.RelevantFederationConflicts | cobra-knowledge/internal/retrieval/planner.go:213-222 | An issue for each conflict whose term the query mentions |
| Planner.AtMostOneRequired | cobra-knowledge/internal/retrieval/planner.go:75-155 | A plan has at most four steps, asks no source twice, gives each step its own id and requires at most one |
| Planner.MakePlan | cobra-knowledge/internal/retrieval/planner.go:26-180 | Steps, fallback and blocking issues of a plan |
| Planner.RequiredStepExactly | cobra-knowledge/internal/retrieval/planner.go:94-155 | A plan has a required step unless matched properties alone decide and the first source they prefer is none of the four known ones |
| PlannerSources.BusinessDataExactly | cobra-knowledge/internal/retrieval/planner.go:68-155 | Business data are asked exactly when a named property prefers them and the query is not about the schema, a definition or reasons of something not current; required exactly for current questions, metric tasks, or as the first source preferred |
| PlannerSources.EntityGraphExactly | cobra-knowledge/internal/retrieval/planner.go:68-155 | The entity graph is asked for reasons, and required for them unless current business data are; otherwise exactly when a named property prefers it or none prefers any and a class or relation is named |
| PlannerSources.WikiRagExactly | cobra-knowledge/internal/retrieval/planner.go:68-155 | Documents are required for definitions and asked for reasons; otherwise asked exactly when preferred or when nothing named leads elsewhere |
| PlannerSources.OntologyGraphExactly | cobra-knowledge/internal/retrieval/planner.go:68-155 | The ontology is required exactly for schema questions or as the first source preferred, and asked for definitions of catalog terms |
| PlannerSources.SchemaAsksOntology | cobra-knowledge/internal/retrieval/planner.go:75-78 | A question about the schema has one step, required, to the ontology |
| PlannerSources.StepsInOrder | cobra-knowledge/internal/retrieval/planner.go:120-155 | Plans ask only the four sources, in their fixed order |
| PlannerSources.IssuesExactly | cobra-knowledge/internal/retrieval/planner.go:213-222 | The blocking issues of a plan are exactly the conflicts of its catalog whose label the query contains |
| RuntimeContext.CompileCatalog | cobra-knowledge/internal/retrieval/catalog.go:56-81 | The catalog of an ontology under an overlay |
| CatalogLaws.ClassesInCatalog | cobra-knowledge/internal/retrieval/catalog.go:58-61 | Each class has a term, by label: its aliases with those of the overlay, sorted and once each, and the sources the overlay names or else the entity graph |
| CatalogLaws.PropertiesInCatalog | cobra-knowledge/internal/retrieval/catalog.go:62-72 | Each property has a term likewise, with the sources of its retrieval policy before the entity graph |
| CatalogLaws.RelationsInCatalog | cobra-knowledge/internal/retrieval/catalog.go:73-76 | Each relation has a term likewise |
| RuntimeContext.OntologiesFor | cobra-knowledge/internal/runtimecontext/service.go:57-79 | The bound ontologies in order; missing bindings are skipped, other errors end the request |
| RuntimeContext.OntologiesAlwaysLoad | cobra-knowledge/internal/runtimecontext/service.go:57-79 | In every state that meets the registry's invariant this succeeds, and every bound knowledge base contributes its released ontology |
| CatalogLaws.OntologiesExactly | cobra-knowledge/internal/runtimecontext/service.go:57-79 | Under the registry's invariant a query draws on exactly the ontologies its bound knowledge bases resolve to, in the order they are asked for |
| CatalogLaws.LoadingFailsExactly | cobra-knowledge/internal/runtimecontext/service.go:63-74 | In any registry loading fails exactly when an id that is not blank meets an error other than a missing binding, ontology or version |
| RuntimeContext.LabelClashBlocksQuery | cobra-knowledge/internal/runtimecontext/service.go:57-105 | When several bound ontologies are drawn on and they, or one of them, use a class label for different classes, no query that mentions it gets a complete pack |
| RuntimeContext.QueryBlockedExactly | cobra-knowledge/internal/runtimecontext/service.go:57-105 | A query is blocked exactly when it draws on several bound ontologies and mentions a conflicting label; knowledge bases without a binding do not count |
| RuntimeContext.OneOntologyIsNotChecked | cobra-knowledge/internal/retrieval/catalog.go:88-92 | An ontology with an ambiguous class label blocks no query that draws on it alone, and every query that mentions the label and draws on any other bound ontology too |
| Workspaces.WorkspaceRegistry.constructor | cobra-knowledge/integrations/openclaw/workspace-core/index.js:75-79 | A registry with empty state |
| Workspaces.WorkspaceRegistry.Resolve | cobra-knowledge/integrations/openclaw/workspace-core/index.js:139-160 | The workspace requested, selected before, or first, with each error |
| Workspaces.WorkspaceRegistry.ResolveSession | cobra-knowledge/integrations/openclaw/workspace-core/index.js:162-185 | A bound session resolves to its workspace or nothing; an unbound one is bound to what it resolves to |
| Workspaces.WorkspaceRegistry.Switch | cobra-knowledge/integrations/openclaw/workspace-core/index.js:187-193 | Selects an accessible workspace for the profile |
| Workspaces.WorkspaceRegistry.RequireRole | cobra-knowledge/integrations/openclaw/workspace-core/index.js:195-200 | Refuses profiles below the required role |
| Workspaces.WorkspaceRegistry.UpsertMember | cobra-knowledge/integrations/openclaw/workspace-core/index.js:208-225 | Adds or replaces a member, unless that demotes the last owner |
| Workspaces.WorkspaceRegistry.RemoveMember | cobra-knowledge/integrations/openclaw/workspace-core/index.js:227-244 | Removes every entry of a member, unless it is the last owner |
| WorkspaceTheorems.RequestExactly | cobra-knowledge/integrations/openclaw/workspace-core/index.js:139-160 | A request for a workspace succeeds exactly for members in a valid registry and grants that workspace only |
| WorkspaceTheorems.BoundSessionStaysPut | cobra-knowledge/integrations/openclaw/workspace-core/index.js:162-185 | After any run a bound session resolves to the workspace it was bound to exactly while the registry is valid, the profile is the same and still a member; otherwise to nothing |
| WorkspaceTheorems.BindingsStay | cobra-knowledge/integrations/openclaw/workspace-core/index.js:162-185 | No operation of any run changes an existing binding |
| WorkspaceTheorems.SelectionIsKept | cobra-knowledge/integrations/openclaw/workspace-core/index.js:187-193 | After a switch and any run in which the profile does not switch again, it resolves to the workspace it chose exactly while the registry is valid and it is a member there |
| WorkspaceLaws.AccessExactly | cobra-knowledge/integrations/openclaw/workspace-core/index.js:139-160 | Access is granted exactly when the registry is valid and some workspace, with the requested or selected id if there is one, has the profile as a member; it is to the first such workspace, in the role spelled in the profile's first entry there |
| WorkspaceLaws.RoleRequiredExactly | cobra-knowledge/integrations/openclaw/workspace-core/index.js:195-200 | A profile passes exactly with access in a role at least as high, from viewer over editor and admin to owner |
| WorkspaceLaws.UpsertExactly | cobra-knowledge/integrations/openclaw/workspace-core/index.js:208-225 | A change succeeds exactly for an owner who names a member and spells a role, unless it takes the role of the only owner entry; the trimmed entry in small letters replaces the member's first one or comes last, and nothing else changes |
| WorkspaceLaws.RemoveExactly | cobra-knowledge/integrations/openclaw/workspace-core/index.js:227-244 | A removal succeeds exactly for an owner who names another member of the file whose first entry is not the only owner's; all entries of the member go and all others stay |
| WorkspaceLaws.SessionExactly | cobra-knowledge/integrations/openclaw/workspace-core/index.js:162-185 | A session with a creator resolves as a request for the workspace it is bound to, if it is bound for this creator, and otherwise as a call without a request, which binds it |
| WorkspaceLaws.ValidExactly | cobra-knowledge/integrations/openclaw/workspace-core/index.js:81-126 | The registry file is accepted exactly when it has workspaces, each with id, tenant and key, and each member has an id and one of the four roles |
| WorkspaceLaws.SessionsGoById | cobra-knowledge/integrations/openclaw/workspace-core/index.js:67-73 | Sessions with an id go by it alone, others by their key |
| WorkspaceOwners.LosesOwnerExactly | cobra-knowledge/integrations/openclaw/workspace-core/index.js:195-244 | With workspace ids distinct up to outer white space, some operation takes the last owner of an owned workspace exactly when its owner entries are two or more under one trimmed id, that id names one of its owners, and the id can also be written with outer white space |
| WorkspaceOwners.LastOwnerCanGoExactly | cobra-knowledge/integrations/openclaw/workspace-core/index.js:195-244 | For any list of workspaces, some operation takes the last owner exactly when, under the workspace's own id, some caller passes the access check for owners, names a target other than itself, and all owner entries carry the trimmed target while its first entry is no owner or not the only one |
| WorkspaceOwners.UpsertKeepsOwner | cobra-knowledge/integrations/openclaw/workspace-core/index.js:208-225 | Adding or replacing a member never takes the last owner, whatever the list |
| WorkspaceOwners.OperationLosesOwner | cobra-knowledge/integrations/openclaw/workspace-core/index.js:162-244 | An operation takes the last owner of a workspace exactly when it is a removal that finds this workspace, comes from an owner of the one the access check looks at, names a target other than the caller, which all owner entries carry, and whose first entry is no owner or not the only one |
| WorkspaceOwners.OwnersStay | cobra-knowledge/integrations/openclaw/workspace-core/index.js:208-244 | Over every run with unique profile ids, a workspace that has an owner keeps one |
| WorkspaceOwners.RepeatedIdsLoseTheOwner | cobra-knowledge/integrations/openclaw/workspace-core/index.js:227-244 | An input with a repeated id on which removal takes the last owner |
| WorkspaceOwners.ChangedByOwnersExactly | cobra-knowledge/integrations/openclaw/workspace-core/index.js:195-244 | In all states over a list of workspaces every changed workspace is changed at the request of one of its own owners exactly when whoever owns the workspace that the access check finds for an id owns the one that the write finds |
| WorkspaceOwners.OnlyOwnersChangeMembers | cobra-knowledge/integrations/openclaw/workspace-core/index.js:195-244 | With workspace ids distinct up to outer white space, a workspace changes only at the request of one of its own owners |
| WorkspaceOwners.PaddedIdMisdirectsWrite | cobra-knowledge/integrations/openclaw/workspace-core/index.js:195-230 | An input on which the owner of one workspace becomes an owner of another, of which it was no member |
| SkillTools.SplitAllowedTools | cobra-knowledge/integrations/openclaw/openviking-plugin/lib/skill-runtime.js:57-69 | The tokens of a tool list; inside parentheses nothing separates |
| SkillTools.NormalizeAllowedTools | cobra-knowledge/integrations/openclaw/openviking-plugin/lib/skill-runtime.js:91-102 | The tools granted, in order |
| SkillTools.NarrowedExactly | cobra-knowledge/integrations/openclaw/openviking-plugin/lib/skill-runtime.js:91-102 | A tool is granted exactly when the host allows it and an unscoped token stands for it; none twice |
| SkillTools.WordsNameTools | cobra-knowledge/integrations/openclaw/openviking-plugin/lib/skill-runtime.js:1-12 | Each word names one tool, and the aliases of each host tool are exactly those of the table; a tool's own name is no alias |
| SkillTools.WrittenTokensAreReadBack | cobra-knowledge/integrations/openclaw/openviking-plugin/lib/skill-runtime.js:57-69 | Tokens with balanced parentheses, written with any separators between them and in brackets or not, are read back as they are |
| SkillTools.QuotedTokenIsReadBack | cobra-knowledge/integrations/openclaw/openviking-plugin/lib/skill-runtime.js:57-69 | A token in quotes is read back without them |
| SkillTools.WrittenListGrantsExactly | cobra-knowledge/integrations/openclaw/openviking-plugin/lib/skill-runtime.js:57-102 | A written list grants exactly what its unscoped tokens name within the host's authority; a scoped token grants nothing |
| Text.NormalizeIgnoresTrim | cobra-knowledge/internal/graph/resolver.go:119-128 | Outer white space never shows in a normalized key |
| TextLaws.NormalizeDropsMarks | cobra-knowledge/internal/graph/resolver.go:119-128 | White space, punctuation and symbols anywhere do not change a normalized text, and all other characters are kept in order, in lower case |
| TextLaws.BeforeIsLexicographic | cobra-knowledge/internal/graph/resolver.go:196 | Texts are sorted by their first different character, a beginning before what continues it |
| Sorting.SortingIgnoresListingOrder | cobra-knowledge/internal/retrieval/arbiter.go:46-48 | Sorting the keys of a map gives one result whatever order they were listed in |

## Left out

- HTTP handlers, clients, proxies, authentication, Neo4j queries, user interfaces and deployment: plumbing around other systems.
- File failures, atomic renames, directory listings, JSON: a record read is the record last written, and stores are maps.
- Hashes and random ids: StableID and content digests are arbitrary functions, injective and hexadecimal where a theorem says so; the truncation of StableID to six bytes and collisions are not modelled. New candidate ids are inputs.
- Unicode tables: parameters, with the few facts in `Text.Unicode.Lawful`. Lower-casing works character by character; case folding in federation is an arbitrary relation.
- Real arithmetic for scores and shares, unbounded integers for times, versions and counts: rounding and overflow are not modelled.
- `sort.Slice` is not stable; the model sorts stably, which can matter for the order of entries with equal sort keys, such as entities with one id.
- Audit log, message wording, list limits, examples, warnings, plan reasons and other texts for display.
- The optional plan refiner and the semantic inducer: the refiner is absent, suggestions are arbitrary inputs.
- The retrievers' own queries: their answers are arbitrary, one per plan step.
- The v0.7 upgrade of the workspace state, `listFor` and `listMembers`: they would add easy members.
- Front matter parsing and ranking of skill candidates, and names inherited from JavaScript's object prototype in the tables of aliases and roles.
- A missing member role, which the source reads as viewer: every entry of the model spells a role.
- Constraints of an ontology and retrieval policies other than the preferred sources.
- TemplateTheorems.TemplateConformsExactly: labels of classes and relations are trimmed and property labels do not begin with two underscores; other labels change types and ids in the template.
- KnowledgeBackend.CourseKeepsOthers: the server stores an entry exactly when it says so, under a new id that its reply names, and deletes exactly when it says so; `KnowledgeBackend.FailedPublicationLeavesEntryExactly` says what happens otherwise.
- PromotionRefinement.CreationIsOneCaller: the new id is a valid key, as generated ids are.
- FederationTheorems.AmbiguousTrimmedLabelBlocks: labels are trimmed, because a conflict keeps the label as written and the query is searched for that; `FederationTheorems.AmbiguousLabelBlocks` covers other labels.
- KnowledgeBackend.InspectKnowledge: blocking reasons are fixed texts, and requests are answered from given functions.
- Release.ApproveSnapshot: which check refused is not part of the answer.
