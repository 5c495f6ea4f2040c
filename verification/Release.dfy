/**
 Approval of a reviewed candidate. The approved snapshot is a new record, but it shares the element lists
 and the metadata of the candidate it was made from, so approving shows through in both.
 */
module Release {
  import opened Wrappers
  import opened Text
  import opened Sorting
  import opened OntologyModel
  import opened OntologyValidator
  import opened OntologyRegistry
  import opened RegistryInvariants

  class Metadata {
    var parentVersion: string
    var reviewer: string

    constructor ()
      ensures parentVersion == "" && reviewer == ""
    {
      parentVersion, reviewer := "", "";
    }
  }

  class Draft {
    const id: string
    const domain: string
    const version: string
    const status: Lifecycle
    const metadata: Metadata?
    const classes: array<OntologyClass>
    const properties: array<DataProperty>
    const relations: array<ObjectRelation>
    const reviewQueue: seq<ReviewItem>

    constructor (id: string, domain: string, version: string, status: Lifecycle, metadata: Metadata?,
                 classes: array<OntologyClass>, properties: array<DataProperty>, relations: array<ObjectRelation>,
                 reviewQueue: seq<ReviewItem>)
      ensures this.id == id && this.domain == domain && this.version == version && this.status == status
      ensures this.metadata == metadata && this.classes == classes && this.properties == properties
      ensures this.relations == relations && this.reviewQueue == reviewQueue
    {
      this.id, this.domain, this.version, this.status, this.metadata := id, domain, version, status, metadata;
      this.classes, this.properties, this.relations, this.reviewQueue := classes, properties, relations, reviewQueue;
    }

    function Content(): Ontology
      reads metadata, classes, properties, relations
    {
      Ontology(id, domain, version, status, if metadata == null then "" else metadata.parentVersion,
               classes[..], properties[..], relations[..], reviewQueue)
    }
  }

  // ---------- What approval does ----------

  function Accepted(status: Lifecycle): Lifecycle {
    if status == Proposed then Approved else status
  }

  function AcceptedClass(c: OntologyClass): OntologyClass {
    c.(status := Accepted(c.status))
  }

  function AcceptedProperty(p: DataProperty): DataProperty {
    p.(status := Accepted(p.status))
  }

  function AcceptedRelation(r: ObjectRelation): ObjectRelation {
    r.(status := Accepted(r.status))
  }

  function Each<T>(s: seq<T>, accepted: T -> T): seq<T> {
    seq(|s|, i requires 0 <= i < |s| => accepted(s[i]))
  }

  /** The candidate with its proposed elements approved. */
  function ElementsAccepted(o: Ontology): Ontology {
    o.(classes := Each(o.classes, AcceptedClass), properties := Each(o.properties, AcceptedProperty),
       relations := Each(o.relations, AcceptedRelation))
  }

  predicate HighRisksApproved(queue: seq<ReviewItem>) {
    forall i :: 0 <= i < |queue| ==> queue[i].risk == "high" ==> queue[i].status == "approved"
  }

  predicate Approvable(u: Unicode, o: Ontology, version: string) {
    !u.Blank(version) && HighRisksApproved(o.reviewQueue) && Conformant(o)
  }

  function ParentAfter(o: Ontology, version: string): string {
    if o.version != "" && o.version != version then o.version else o.parentVersion
  }

  function ApprovedSnapshot(u: Unicode, o: Ontology, version: string): Ontology {
    ElementsAccepted(o).(version := u.Trim(version), status := Approved,
                         parentVersion := ParentAfter(o, u.Trim(version)))
  }

  // ---------- Approval as the source runs it ----------

  method AcceptEach<T>(a: array<T>, accepted: T -> T)
    modifies a
    ensures a[..] == Each(old(a[..]), accepted)
  {
    for i := 0 to a.Length
      invariant forall k :: 0 <= k < i ==> a[k] == accepted(old(a[k]))
      invariant forall k :: i <= k < a.Length ==> a[k] == old(a[k])
    {
      a[i] := accepted(a[i]);
    }
  }

  method CheckRisks(queue: seq<ReviewItem>) returns (ok: bool)
    ensures ok == HighRisksApproved(queue)
  {
    for i := 0 to |queue|
      invariant HighRisksApproved(queue[..i])
    {
      if queue[i].risk == "high" && queue[i].status != "approved" {
        return false;
      }
    }
    assert queue[..|queue|] == queue;
    ok := true;
  }

  /** Approves the shared elements and metadata, and makes the snapshot that shares them. */
  method Grant(o: Draft, version: string, reviewer: string) returns (approved: Draft)
    modifies o.metadata, o.classes, o.properties, o.relations
    ensures fresh(approved)
    ensures approved.classes == o.classes && approved.properties == o.properties && approved.relations == o.relations
    ensures approved.Content() ==
            ElementsAccepted(old(o.Content())).(version := version, status := Approved,
                                                parentVersion := ParentAfter(old(o.Content()), version))
    ensures o.Content() == ElementsAccepted(old(o.Content())).(parentVersion :=
              if o.metadata == null then "" else ParentAfter(old(o.Content()), version))
  {
    hide Each;
    var metadata := o.metadata;
    if metadata == null {
      metadata := new Metadata();
    }
    metadata.reviewer := reviewer;
    if o.version != "" && o.version != version {
      metadata.parentVersion := o.version;
    }
    AcceptEach(o.classes, AcceptedClass);
    AcceptEach(o.properties, AcceptedProperty);
    AcceptEach(o.relations, AcceptedRelation);
    approved := new Draft(o.id, o.domain, version, Approved, metadata, o.classes, o.properties, o.relations,
                          o.reviewQueue);
  }

  /** A refused approval changes nothing; a granted one also approves the elements of its input. */
  method ApproveSnapshot(u: Unicode, o: Draft, rawVersion: string, reviewer: string) returns (r: Option<Draft>)
    modifies o.metadata, o.classes, o.properties, o.relations
    ensures r.Some? <==> Approvable(u, old(o.Content()), rawVersion)
    ensures r.None? ==> o.Content() == old(o.Content())
    ensures r.Some? ==> fresh(r.value) && r.value.Content() == ApprovedSnapshot(u, old(o.Content()), rawVersion)
    ensures r.Some? ==> r.value.classes == o.classes && r.value.properties == o.properties
    ensures r.Some? ==> r.value.relations == o.relations
    ensures r.Some? ==>
              o.Content() == ElementsAccepted(old(o.Content())).(parentVersion :=
                if o.metadata == null then "" else ParentAfter(old(o.Content()), u.Trim(rawVersion)))
  {
    hide Conformant;
    hide ElementsAccepted;
    var version := u.Trim(rawVersion);
    if version == "" {
      return None;
    }
    var risks := CheckRisks(o.reviewQueue);
    if !risks {
      return None;
    }
    var findings := ValidateOntology(o.Content());
    ErrorsExactlyWhenNotConformant(o.Content());
    if exists i :: 0 <= i < |findings| && findings[i].severity == Severity.Error {
      return None;
    }
    var approved := Grant(o, version, u.Trim(reviewer));
    r := Some(approved);
  }

  // ---------- Approved snapshots can be released ----------

  lemma SameClassIds(s: seq<OntologyClass>)
    ensures ClassIds(Each(s, AcceptedClass)) == ClassIds(s)
  {
    var t := Each(s, AcceptedClass);
    forall id
      ensures id in ClassIds(t) <==> id in ClassIds(s)
    {
      if id in ClassIds(s) {
        var c :| c in s && c.id != "" && c.name != "" && c.id == id;
        var i :| 0 <= i < |s| && s[i] == c;
        assert t[i] == AcceptedClass(s[i]) && t[i] in t;
      }
      if id in ClassIds(t) {
        var c :| c in t && c.id != "" && c.name != "" && c.id == id;
        var i :| 0 <= i < |t| && t[i] == c;
        assert t[i] == AcceptedClass(s[i]) && s[i] in s;
      }
    }
  }

  lemma SamePropertyIds(s: seq<DataProperty>)
    ensures PropertyIds(Each(s, AcceptedProperty)) == PropertyIds(s)
  {
    var t := Each(s, AcceptedProperty);
    forall id
      ensures id in PropertyIds(t) <==> id in PropertyIds(s)
    {
      if id in PropertyIds(s) {
        var c :| c in s && c.id == id;
        var i :| 0 <= i < |s| && s[i] == c;
        assert t[i] == AcceptedProperty(s[i]) && t[i] in t;
      }
      if id in PropertyIds(t) {
        var c :| c in t && c.id == id;
        var i :| 0 <= i < |t| && t[i] == c;
        assert t[i] == AcceptedProperty(s[i]) && s[i] in s;
      }
    }
  }

  /** What approval grants meets the registry's publication gate. */
  lemma ApprovedIsPublishable(u: Unicode, o: Ontology, version: string)
    requires Approvable(u, o, version)
    ensures Publishable(ApprovedSnapshot(u, o, version))
  {
    hide Known;
    hide ClassIds;
    hide PropertyIds;
    SameClassIds(o.classes);
    SamePropertyIds(o.properties);
    var t := ApprovedSnapshot(u, o, version);
    assert forall i :: 0 <= i < |o.classes| ==> t.classes[i] == AcceptedClass(o.classes[i]);
    assert forall i :: 0 <= i < |o.properties| ==> t.properties[i] == AcceptedProperty(o.properties[i]);
    assert forall i :: 0 <= i < |o.relations| ==> t.relations[i] == AcceptedRelation(o.relations[i]);
  }

  lemma RegisteredVersionFound(env: Env, r: Registry, o: Ontology, actor: string, notes: string, now: int)
    requires RegistryInv(env, r) && Registered(env, r, o, actor, notes, now).1.Success?
    ensures var s := Registered(env, r, o, actor, notes, now).0;
            var got := GetVersion(env, s, o.id, o.version);
            got.Success? && got.value.0 == o
  {
    hide Sanitize;
    hide Conformant;
    hide Publishable;
    hide FindVersion;
    hide ManifestKept;
    hide RegistryInv;
    hide Sort;
    var s := Registered(env, r, o, actor, notes, now).0;
    var key := Sanitize(env.u, o.id);
    ManifestAfterRegistration(env, r, o, actor, notes, now);
    var versions := s.manifests[key].versions;
    var prior := if key in r.manifests then r.manifests[key].versions else [];
    var meta := NewMeta(env, o, actor, notes, now);
    SortMembers(prior + [meta], CreatedOrder());
    assert meta in prior + [meta];
    assert meta.version == o.version;
    var j :| 0 <= j < |versions| && versions[j] == meta;
    FindOwnVersion(env, versions, j);
    assert VersionInv(env, s.payloads, key, versions[j]);
  }

  /** An approved snapshot that the registry accepts can be published at once, and is then the active version. */
  lemma RegisteredApprovalPublishes(env: Env, r: Registry, o: Ontology, version: string, actor: string,
                                    notes: string, now: int)
    requires RegistryInv(env, r) && Approvable(env.u, o, version)
    requires Registered(env, r, ApprovedSnapshot(env.u, o, version), actor, notes, now).1.Success?
    ensures var approved := ApprovedSnapshot(env.u, o, version);
            var (s, registered) := Registered(env, r, approved, actor, notes, now);
            var (t, published) := Published(env, s, o.id, approved.version, actor, now);
            var key := Sanitize(env.u, o.id);
            && published.Success? && RegistryInv(env, t)
            && key in t.manifests && t.manifests[key].activeVersion == approved.version
            && GetVersion(env, t, o.id, approved.version).Success?
            && GetVersion(env, t, o.id, approved.version).value.0 == approved
  {
    hide VersionInv;
    var approved := ApprovedSnapshot(env.u, o, version);
    assert approved.id == o.id && approved.version == env.u.Trim(version);
    hide ApprovedSnapshot;
    ApprovedIsPublishable(env.u, o, version);
    hide Publishable;
    var s := Registered(env, r, approved, actor, notes, now).0;
    RegisteredVersionFound(env, r, approved, actor, notes, now);
    RegisterKeeps(env, r, approved, actor, notes, now);
    ManifestAfterRelease(env, s, o.id, approved.version, actor, now);
    PublishKeeps(env, s, o.id, approved.version, actor, now);
    var t := Published(env, s, o.id, approved.version, actor, now).0;
    BlankIsEmpty(env.u, approved.version);
    TrimIdempotent(env.u, version);
    FoundVersionResolves(env, t, o.id, approved.version);
    SamePayload(env, s, t, o.id, approved.version);
  }

  /** Reading a version gives the stored payload, whatever the manifest says about it. */
  lemma SamePayload(env: Env, s: Registry, t: Registry, id: string, version: string)
    requires s.payloads == t.payloads && GetVersion(env, s, id, version).Success?
        && GetVersion(env, t, id, version).Success?
    ensures GetVersion(env, s, id, version).value.0 == GetVersion(env, t, id, version).value.0
  {
  }
}
