/**
 What validation reports, finding by finding, in terms of the declarations and the graph; and what approval
 changes in an ontology.
 */
module ConformanceLaws {
  import opened Wrappers
  import opened Text
  import opened GraphModel
  import opened OntologyModel
  import opened OntologyValidator
  import Release

  // ---------- Findings on ontologies ----------

  predicate Named(c: OntologyClass) {
    c.id != "" && c.name != ""
  }

  ghost predicate IsClass(o: Ontology, id: string) {
    exists c :: c in o.classes && Named(c) && c.id == id
  }

  /** The class lacks an id or a label, or has the id of an earlier class. */
  ghost predicate ClassFault(o: Ontology, i: nat, v: Violation)
    requires i < |o.classes|
  {
    && v.subject == o.classes[i].id && v.severity == Error
    && if !Named(o.classes[i]) then v.code == ClassRequired
       else v.code == DuplicateId && exists j :: 0 <= j < i && Named(o.classes[j]) && o.classes[j].id == v.subject
  }

  ghost predicate ParentFault(o: Ontology, i: nat, v: Violation)
    requires i < |o.classes|
  {
    && v == Violation(ParentNotFound, Error, o.classes[i].id)
    && exists id :: id in o.classes[i].parentIds && !IsClass(o, id)
  }

  /** The property has the id of a class or of an earlier property, or a domain that is no class. */
  ghost predicate PropertyFault(o: Ontology, i: nat, v: Violation)
    requires i < |o.properties|
  {
    && v.subject == o.properties[i].id && v.severity == Error
    && (|| (v.code == DuplicateId
            && (IsClass(o, v.subject) || exists j :: 0 <= j < i && o.properties[j].id == v.subject))
        || (v.code == PropertyDomainNotFound && exists id :: id in o.properties[i].domainIds && !IsClass(o, id)))
  }

  /** The relation has an id in use, an end that is no class, or, as a warning, none at all. */
  ghost predicate RelationFault(o: Ontology, i: nat, v: Violation)
    requires i < |o.relations|
  {
    && v.subject == o.relations[i].id
    && (|| (v.code == DuplicateId && v.severity == Error
            && (IsClass(o, v.subject) || (exists p :: p in o.properties && p.id == v.subject)
                || exists j :: 0 <= j < i && o.relations[j].id == v.subject))
        || (v.code == UnresolvedDomainRange && v.severity == Warning
            && (o.relations[i].domainIds == [] || o.relations[i].rangeIds == []))
        || (v.code == RelationDomainNotFound && v.severity == Error
            && exists id :: id in o.relations[i].domainIds && !IsClass(o, id))
        || (v.code == RelationRangeNotFound && v.severity == Error
            && exists id :: id in o.relations[i].rangeIds && !IsClass(o, id)))
  }

  lemma ClassIdIsClass(o: Ontology)
    ensures forall id :: id in ClassIds(o.classes) <==> IsClass(o, id)
  {
  }

  lemma {:induction false} MissingOnes(ids: seq<string>, known: set<string>, code: Code, subject: string, v: Violation)
    ensures v in Missing(ids, known, code, subject) <==>
              v == Violation(code, Error, subject) && exists id :: id in ids && id !in known
  {
    if ids != [] {
      var init, last := ids[..|ids| - 1], ids[|ids| - 1];
      MissingOnes(init, known, code, subject, v);
      assert ids == init + [last];
    }
  }

  lemma NamedBefore(classes: seq<OntologyClass>, n: nat, id: string)
    requires n <= |classes|
    ensures id in ClassIds(classes[..n]) <==> exists j :: 0 <= j < n && Named(classes[j]) && classes[j].id == id
  {
    if j :| 0 <= j < n && Named(classes[j]) && classes[j].id == id {
      assert classes[..n][j] in classes[..n];
    }
  }

  lemma PropertiesBefore(properties: seq<DataProperty>, n: nat, id: string)
    requires n <= |properties|
    ensures id in PropertyIds(properties[..n]) <==> exists j :: 0 <= j < n && properties[j].id == id
  {
    if j :| 0 <= j < n && properties[j].id == id {
      assert properties[..n][j] in properties[..n];
    }
  }

  lemma RelationsBefore(relations: seq<ObjectRelation>, n: nat, id: string)
    requires n <= |relations|
    ensures id in RelationIds(relations[..n]) <==> exists j :: 0 <= j < n && relations[j].id == id
  {
    if j :| 0 <= j < n && relations[j].id == id {
      assert relations[..n][j] in relations[..n];
    }
  }

  // Each list of findings, element by element

  lemma OneClassFault(o: Ontology, i: nat, v: Violation)
    requires i < |o.classes|
    ensures v in OfClass(o.classes[i], ClassIds(o.classes[..i])) <==> ClassFault(o, i, v)
  {
    NamedBefore(o.classes, i, o.classes[i].id);
    hide ClassIds;
  }

  lemma OneParentFault(o: Ontology, i: nat, v: Violation)
    requires i < |o.classes|
    ensures v in Missing(o.classes[i].parentIds, ClassIds(o.classes), ParentNotFound, o.classes[i].id) <==>
              ParentFault(o, i, v)
  {
    MissingOnes(o.classes[i].parentIds, ClassIds(o.classes), ParentNotFound, o.classes[i].id, v);
    ClassIdIsClass(o);
    hide ClassIds;
    hide IsClass;
    hide Missing;
  }

  lemma OnePropertyFault(o: Ontology, i: nat, v: Violation)
    requires i < |o.properties|
    ensures v in OfProperty(o.properties[i], ClassIds(o.classes), ClassIds(o.classes) + PropertyIds(o.properties[..i]))
       <==> PropertyFault(o, i, v)
  {
    var p := o.properties[i];
    MissingOnes(p.domainIds, ClassIds(o.classes), PropertyDomainNotFound, p.id, v);
    PropertiesBefore(o.properties, i, p.id);
    ClassIdIsClass(o);
    hide ClassIds;
    hide IsClass;
    hide PropertyIds;
    hide Missing;
  }

  /** The ids taken by the classes and properties. */
  function Taken(o: Ontology): set<string> {
    ClassIds(o.classes) + PropertyIds(o.properties)
  }

  lemma TakenIds(o: Ontology, id: string)
    ensures id in Taken(o) <==> IsClass(o, id) || exists p :: p in o.properties && p.id == id
  {
    ClassIdIsClass(o);
    hide IsClass;
  }

  lemma OneRelationFault(o: Ontology, i: nat, v: Violation)
    requires i < |o.relations|
    ensures v in OfRelation(o.relations[i], ClassIds(o.classes), Taken(o) + RelationIds(o.relations[..i])) <==>
              RelationFault(o, i, v)
  {
    var r := o.relations[i];
    MissingOnes(r.domainIds, ClassIds(o.classes), RelationDomainNotFound, r.id, v);
    MissingOnes(r.rangeIds, ClassIds(o.classes), RelationRangeNotFound, r.id, v);
    RelationsBefore(o.relations, i, r.id);
    TakenIds(o, r.id);
    ClassIdIsClass(o);
    hide Taken;
    hide ClassIds;
    hide IsClass;
    hide RelationIds;
    hide Missing;
    assert v in OfRelation(r, ClassIds(o.classes), Taken(o) + RelationIds(o.relations[..i])) <==>
      || v in Duplicate(r.id, Taken(o) + RelationIds(o.relations[..i])) || v in Unresolved(r)
      || v in Missing(r.domainIds, ClassIds(o.classes), RelationDomainNotFound, r.id)
      || v in Missing(r.rangeIds, ClassIds(o.classes), RelationRangeNotFound, r.id);
  }

  lemma {:induction false} ClassFaults(o: Ontology, n: nat, v: Violation)
    requires n <= |o.classes|
    ensures v in ClassFindings(o.classes[..n]) <==> exists i: nat :: i < n && ClassFault(o, i, v)
  {
    if n > 0 {
      assert o.classes[..n][..n - 1] == o.classes[..n - 1];
      ClassFaults(o, n - 1, v);
      OneClassFault(o, n - 1, v);
      hide ClassFault;
      hide OfClass;
      hide ClassIds;
    }
  }

  lemma {:induction false} ParentFaults(o: Ontology, n: nat, v: Violation)
    requires n <= |o.classes|
    ensures v in ParentFindings(o.classes[..n], ClassIds(o.classes)) <==> exists i: nat :: i < n && ParentFault(o, i, v)
  {
    if n > 0 {
      assert o.classes[..n][..n - 1] == o.classes[..n - 1];
      ParentFaults(o, n - 1, v);
      OneParentFault(o, n - 1, v);
      hide ParentFault;
      hide Missing;
      hide ClassIds;
    }
  }

  lemma {:induction false} PropertyFaults(o: Ontology, n: nat, v: Violation)
    requires n <= |o.properties|
    ensures v in PropertyFindings(o.properties[..n], ClassIds(o.classes)) <==>
              exists i: nat :: i < n && PropertyFault(o, i, v)
  {
    if n > 0 {
      assert o.properties[..n][..n - 1] == o.properties[..n - 1];
      PropertyFaults(o, n - 1, v);
      OnePropertyFault(o, n - 1, v);
      hide PropertyFault;
      hide OfProperty;
      hide ClassIds;
      hide PropertyIds;
    }
  }

  lemma OneMoreRelation(o: Ontology, n: nat)
    requires 0 < n <= |o.relations|
    ensures RelationFindings(o.relations[..n], ClassIds(o.classes), Taken(o)) ==
              RelationFindings(o.relations[..n - 1], ClassIds(o.classes), Taken(o))
              + OfRelation(o.relations[n - 1], ClassIds(o.classes), Taken(o) + RelationIds(o.relations[..n - 1]))
  {
    hide OfRelation;
    hide ClassIds;
    hide Taken;
    hide RelationIds;
    assert o.relations[..n][..n - 1] == o.relations[..n - 1];
  }

  lemma {:induction false} RelationFaults(o: Ontology, n: nat, v: Violation)
    requires n <= |o.relations|
    ensures v in RelationFindings(o.relations[..n], ClassIds(o.classes), Taken(o)) <==>
              exists i: nat :: i < n && RelationFault(o, i, v)
  {
    hide *;
    if n > 0 {
      OneMoreRelation(o, n);
      RelationFaults(o, n - 1, v);
      OneRelationFault(o, n - 1, v);
    } else {
      NoRelations(o);
    }
  }

  lemma NoRelations(o: Ontology)
    ensures RelationFindings(o.relations[..0], ClassIds(o.classes), Taken(o)) == []
  {
  }

  /** Reported of an ontology are exactly the faults of its classes, parents, properties and relations. */
  lemma FindingsExactly(o: Ontology, v: Violation)
    ensures v in OntologyFindings(o) <==>
              || (exists i: nat :: i < |o.classes| && (ClassFault(o, i, v) || ParentFault(o, i, v)))
              || (exists i: nat :: i < |o.properties| && PropertyFault(o, i, v))
              || (exists i: nat :: i < |o.relations| && RelationFault(o, i, v))
  {
    ClassFaults(o, |o.classes|, v);
    ParentFaults(o, |o.classes|, v);
    PropertyFaults(o, |o.properties|, v);
    RelationFaults(o, |o.relations|, v);
    assert o.classes[..|o.classes|] == o.classes && o.properties[..|o.properties|] == o.properties;
    assert o.relations[..|o.relations|] == o.relations;
    hide ClassFault;
    hide ParentFault;
    hide PropertyFault;
    hide RelationFault;
    hide ClassFindings;
    hide ParentFindings;
    hide PropertyFindings;
    hide RelationFindings;
  }

  // ---------- Findings on graphs ----------

  /** The last class with the label has this id. */
  ghost predicate Labels(o: Ontology, name: string, id: string) {
    exists i :: 0 <= i < |o.classes| && o.classes[i].name == name && o.classes[i].id == id
                && forall j :: i < j < |o.classes| ==> o.classes[j].name != name
  }

  ghost predicate Declares(o: Ontology, name: string, p: DataProperty) {
    exists i :: 0 <= i < |o.properties| && o.properties[i] == p && p.name == name
                && forall j :: i < j < |o.properties| ==> o.properties[j].name != name
  }

  ghost predicate Relates(o: Ontology, name: string, r: ObjectRelation) {
    exists i :: 0 <= i < |o.relations| && o.relations[i] == r && r.name == name
                && forall j :: i < j < |o.relations| ==> o.relations[j].name != name
  }

  lemma {:induction false} ClassIsLabelled(classes: seq<OntologyClass>, name: string, id: string)
    ensures ClassOf(classes, name) == Some(id) <==>
              exists i :: 0 <= i < |classes| && classes[i].name == name && classes[i].id == id
                          && forall j :: i < j < |classes| ==> classes[j].name != name
  {
    if classes != [] && classes[|classes| - 1].name != name {
      var init := classes[..|classes| - 1];
      ClassIsLabelled(init, name, id);
      assert forall i :: 0 <= i < |init| ==> init[i] == classes[i];
    } else if classes != [] {
      assert classes[|classes| - 1].name == name;
    }
  }

  lemma {:induction false} PropertyIsDeclared(properties: seq<DataProperty>, name: string, p: DataProperty)
    ensures PropertyOf(properties, name) == Some(p) <==>
              exists i :: 0 <= i < |properties| && properties[i] == p && p.name == name
                          && forall j :: i < j < |properties| ==> properties[j].name != name
  {
    if properties != [] && properties[|properties| - 1].name != name {
      var init := properties[..|properties| - 1];
      PropertyIsDeclared(init, name, p);
      assert forall i :: 0 <= i < |init| ==> init[i] == properties[i];
    } else if properties != [] {
      assert properties[|properties| - 1].name == name;
    }
  }

  lemma {:induction false} RelationIsDeclared(relations: seq<ObjectRelation>, name: string, r: ObjectRelation)
    ensures RelationOf(relations, name) == Some(r) <==>
              exists i :: 0 <= i < |relations| && relations[i] == r && r.name == name
                          && forall j :: i < j < |relations| ==> relations[j].name != name
  {
    if relations != [] && relations[|relations| - 1].name != name {
      var init := relations[..|relations| - 1];
      RelationIsDeclared(init, name, r);
      assert forall i :: 0 <= i < |init| ==> init[i] == relations[i];
    } else if relations != [] {
      assert relations[|relations| - 1].name == name;
    }
  }

  /** The last entity with the id that has a known type is of this class. */
  ghost predicate OfType(o: Ontology, g: Snapshot, id: string, classId: string) {
    exists i :: 0 <= i < |g.entities| && g.entities[i].id == id && Labels(o, g.entities[i].businessType, classId)
      && forall j, c :: i < j < |g.entities| && g.entities[j].id == id ==> !Labels(o, g.entities[j].businessType, c)
  }

  lemma {:induction false} TypeIsLast(o: Ontology, entities: seq<Entity>, id: string, classId: string)
    ensures TypeOf(o, entities, id) == Some(classId) <==>
              exists i :: 0 <= i < |entities| && entities[i].id == id && Labels(o, entities[i].businessType, classId)
                && forall j, c :: i < j < |entities| && entities[j].id == id ==> !Labels(o, entities[j].businessType, c)
  {
    hide Labels;
    if entities != [] {
      var init, e := entities[..|entities| - 1], entities[|entities| - 1];
      TypeIsLast(o, init, id, classId);
      forall c
        ensures ClassOf(o.classes, e.businessType) == Some(c) <==> Labels(o, e.businessType, c)
      {
        LabelledClass(o, e.businessType, c);
      }
      hide ClassOf;
      assert forall i :: 0 <= i < |init| ==> init[i] == entities[i];
      if e.id == id && ClassOf(o.classes, e.businessType).Some? {
        assert Labels(o, entities[|init|].businessType, ClassOf(o.classes, e.businessType).value);
      }
    }
  }

  lemma LabelledClass(o: Ontology, name: string, c: string)
    ensures ClassOf(o.classes, name) == Some(c) <==> Labels(o, name, c)
  {
    ClassIsLabelled(o.classes, name, c);
  }

  /** The entity has an unknown type, a property nobody declared, as a warning, or one of another class. */
  ghost predicate EntityFault(o: Ontology, e: Entity, v: Violation) {
    && v.subject == e.id
    && (|| (v.code == EntityUnknownType && v.severity == Error && forall c :: !Labels(o, e.businessType, c))
        || exists c, key :: Labels(o, e.businessType, c) && key in e.properties
             && (|| (v.code == EntityUnknownProperty && v.severity == Warning && forall p :: !Declares(o, key, p))
                 || (v.code == PropertyDomainViolation && v.severity == Error
                     && exists p :: Declares(o, key, p) && p.domainIds != [] && c !in p.domainIds)))
  }

  lemma OneEntityFault(o: Ontology, e: Entity, v: Violation)
    ensures v in EntityIssues(o, e) <==> EntityFault(o, e, v)
  {
    forall c
      ensures ClassOf(o.classes, e.businessType) == Some(c) <==> Labels(o, e.businessType, c)
    {
      LabelledClass(o, e.businessType, c);
    }
    forall key, p
      ensures PropertyOf(o.properties, key) == Some(p) <==> Declares(o, key, p)
    {
      PropertyIsDeclared(o.properties, key, p);
    }
    hide ClassOf;
    hide PropertyOf;
    hide Labels;
    hide Declares;
    if ClassOf(o.classes, e.businessType).Some? {
      var c := ClassOf(o.classes, e.businessType).value;
      assert forall d :: Labels(o, e.businessType, d) <==> d == c;
      forall key | key in e.properties
        ensures v in PropertyIssue(o, c, key, e.id) <==>
                  && v.subject == e.id
                  && (|| (v.code == EntityUnknownProperty && v.severity == Warning && forall p :: !Declares(o, key, p))
                      || (v.code == PropertyDomainViolation && v.severity == Error
                          && exists p :: Declares(o, key, p) && p.domainIds != [] && c !in p.domainIds))
      {
      }
    }
  }

  /** The relation has an unknown type, or an end whose known type is not among those declared for it. */
  ghost predicate RelationMisfit(o: Ontology, g: Snapshot, r: Relation, v: Violation) {
    && v.subject == r.id && v.severity == Error
    && (|| (v.code == RelationUnknownType && forall s :: !Relates(o, r.businessType, s))
        || exists s, c :: Relates(o, r.businessType, s)
             && (|| (v.code == RelationDomainViolation && OfType(o, g, r.sourceId, c)
                     && s.domainIds != [] && c !in s.domainIds)
                 || (v.code == RelationRangeViolation && OfType(o, g, r.targetId, c)
                     && s.rangeIds != [] && c !in s.rangeIds)))
  }

  lemma OneRelationMisfit(o: Ontology, g: Snapshot, r: Relation, v: Violation)
    ensures v in RelationIssues(o, g.entities, r) <==> RelationMisfit(o, g, r, v)
  {
    forall s
      ensures RelationOf(o.relations, r.businessType) == Some(s) <==> Relates(o, r.businessType, s)
    {
      RelationIsDeclared(o.relations, r.businessType, s);
    }
    forall id, c
      ensures TypeOf(o, g.entities, id) == Some(c) <==> OfType(o, g, id, c)
    {
      TypeIsLast(o, g.entities, id, c);
    }
    hide RelationOf;
    hide TypeOf;
    hide Relates;
    hide OfType;
  }

  /** Reported of a graph are exactly the faults of its entities and the misfits of its relations. */
  lemma GraphFindingsExactly(o: Ontology, g: Snapshot, v: Violation)
    ensures v in GraphIssues(o, g) <==>
              || (exists e :: e in g.entities && EntityFault(o, e, v))
              || (exists r :: r in g.relations && RelationMisfit(o, g, r, v))
  {
    forall e
      ensures v in EntityIssues(o, e) <==> EntityFault(o, e, v)
    {
      OneEntityFault(o, e, v);
    }
    forall r
      ensures v in RelationIssues(o, g.entities, r) <==> RelationMisfit(o, g, r, v)
    {
      OneRelationMisfit(o, g, r, v);
    }
    hide EntityIssues;
    hide RelationIssues;
    hide EntityFault;
    hide RelationMisfit;
  }

  // ---------- Approval ----------

  /**
   Approval takes every proposed element to approved and leaves the others as they are; the snapshot keeps
   all else but its version, and names as its parent the version the candidate had, unless that is the same.
   */
  lemma ApprovalChangesOnly(u: Unicode, o: Ontology, version: string, i: nat)
    ensures var a := Release.ApprovedSnapshot(u, o, version);
            && a.id == o.id && a.domain == o.domain && a.reviewQueue == o.reviewQueue && a.status == Approved
            && a.version == u.Trim(version)
            && (o.version != "" && o.version != a.version ==> a.parentVersion == o.version)
            && (o.version == "" || o.version == a.version ==> a.parentVersion == o.parentVersion)
            && |a.classes| == |o.classes| && |a.properties| == |o.properties| && |a.relations| == |o.relations|
            && (i < |o.classes| ==>
                  a.classes[i] == if o.classes[i].status == Proposed then o.classes[i].(status := Approved)
                                  else o.classes[i])
            && (i < |o.properties| ==>
                  a.properties[i] == if o.properties[i].status == Proposed then o.properties[i].(status := Approved)
                                     else o.properties[i])
            && (i < |o.relations| ==>
                  a.relations[i] == if o.relations[i].status == Proposed then o.relations[i].(status := Approved)
                                    else o.relations[i])
  {
    hide Unicode.Trim;
    if i < |o.classes| {
      assert Release.Each(o.classes, Release.AcceptedClass)[i] == Release.AcceptedClass(o.classes[i]);
    }
    if i < |o.properties| {
      assert Release.Each(o.properties, Release.AcceptedProperty)[i] == Release.AcceptedProperty(o.properties[i]);
    }
    if i < |o.relations| {
      assert Release.Each(o.relations, Release.AcceptedRelation)[i] == Release.AcceptedRelation(o.relations[i]);
    }
  }

  /** It is possible exactly for a version, with all high-risk questions approved, and without faults. */
  lemma ApprovableExactly(u: Unicode, o: Ontology, version: string)
    ensures Release.Approvable(u, o, version) <==>
              && !u.Blank(version) && Conformant(o)
              && forall item :: item in o.reviewQueue && item.risk == "high" ==> item.status == "approved"
  {
    hide Conformant;
    if forall item :: item in o.reviewQueue && item.risk == "high" ==> item.status == "approved" {
      forall i | 0 <= i < |o.reviewQueue| && o.reviewQueue[i].risk == "high"
        ensures o.reviewQueue[i].status == "approved"
      {
        assert o.reviewQueue[i] in o.reviewQueue;
      }
    } else {
      var item :| item in o.reviewQueue && item.risk == "high" && item.status != "approved";
      var i :| 0 <= i < |o.reviewQueue| && o.reviewQueue[i] == item;
    }
  }
}
