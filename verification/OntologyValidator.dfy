/**
 Validation of ontologies and of graphs against them. Ontology findings come in the order of the
 declarations; findings on a graph are compared as a set, since an entity's properties are visited in
 no particular order.
 */
module OntologyValidator {
  import opened Wrappers
  import opened GraphModel
  import opened OntologyModel

  datatype Severity = Error | Warning

  datatype Code =
    | ClassRequired | DuplicateId | ParentNotFound | PropertyDomainNotFound | RelationDomainNotFound
    | RelationRangeNotFound | UnresolvedDomainRange
    | EntityUnknownType | EntityUnknownProperty | PropertyDomainViolation
    | RelationUnknownType | RelationDomainViolation | RelationRangeViolation

  datatype Violation = Violation(code: Code, severity: Severity, subject: string)

  // ---------- Ontologies ----------

  function OfClass(c: OntologyClass, known: set<string>): seq<Violation> {
    if c.id == "" || c.name == "" then [Violation(ClassRequired, Error, c.id)] else Duplicate(c.id, known)
  }

  function ClassFindings(classes: seq<OntologyClass>): seq<Violation> {
    if classes == [] then []
    else
      var init := classes[..|classes| - 1];
      ClassFindings(init) + OfClass(classes[|classes| - 1], ClassIds(init))
  }

  function Missing(ids: seq<string>, known: set<string>, code: Code, subject: string): seq<Violation> {
    if ids == [] then []
    else
      Missing(ids[..|ids| - 1], known, code, subject)
      + if ids[|ids| - 1] in known then [] else [Violation(code, Error, subject)]
  }

  function ParentFindings(classes: seq<OntologyClass>, known: set<string>): seq<Violation> {
    if classes == [] then []
    else
      var c := classes[|classes| - 1];
      ParentFindings(classes[..|classes| - 1], known) + Missing(c.parentIds, known, ParentNotFound, c.id)
  }

  function Duplicate(id: string, taken: set<string>): seq<Violation> {
    if id in taken then [Violation(DuplicateId, Error, id)] else []
  }

  function OfProperty(p: DataProperty, known: set<string>, taken: set<string>): seq<Violation> {
    Duplicate(p.id, taken) + Missing(p.domainIds, known, PropertyDomainNotFound, p.id)
  }

  function PropertyFindings(properties: seq<DataProperty>, known: set<string>): seq<Violation> {
    if properties == [] then []
    else
      var init := properties[..|properties| - 1];
      PropertyFindings(init, known) + OfProperty(properties[|properties| - 1], known, known + PropertyIds(init))
  }

  function Unresolved(r: ObjectRelation): seq<Violation> {
    if |r.domainIds| == 0 || |r.rangeIds| == 0 then [Violation(UnresolvedDomainRange, Warning, r.id)] else []
  }

  function OfRelation(r: ObjectRelation, known: set<string>, taken: set<string>): seq<Violation> {
    Duplicate(r.id, taken) + Unresolved(r) + Missing(r.domainIds, known, RelationDomainNotFound, r.id)
    + Missing(r.rangeIds, known, RelationRangeNotFound, r.id)
  }

  function RelationFindings(relations: seq<ObjectRelation>, known: set<string>, taken: set<string>): seq<Violation> {
    if relations == [] then []
    else
      var init := relations[..|relations| - 1];
      RelationFindings(init, known, taken) + OfRelation(relations[|relations| - 1], known, taken + RelationIds(init))
  }

  function OntologyFindings(o: Ontology): seq<Violation> {
    var known := ClassIds(o.classes);
    ClassFindings(o.classes) + ParentFindings(o.classes, known) + PropertyFindings(o.properties, known)
    + RelationFindings(o.relations, known, known + PropertyIds(o.properties))
  }

  predicate HasErrors(out: seq<Violation>) {
    exists i :: 0 <= i < |out| && out[i].severity == Error
  }

  lemma NoClassIds()
    ensures ClassIds([]) == {}
  {
  }

  lemma ClassIdsExtend(classes: seq<OntologyClass>, c: OntologyClass)
    ensures ClassIds(classes + [c]) == ClassIds(classes) + if c.id != "" && c.name != "" then {c.id} else {}
  {
    var more := classes + [c];
    assert more[|classes|] == c;
    forall i | 0 <= i < |classes|
      ensures classes[i] in more
    {
      assert more[i] == classes[i];
    }
  }

  lemma NoPropertyIds()
    ensures PropertyIds([]) == {}
  {
  }

  lemma PropertyIdsExtend(properties: seq<DataProperty>, p: DataProperty)
    ensures PropertyIds(properties + [p]) == PropertyIds(properties) + {p.id}
  {
    var more := properties + [p];
    assert more[|properties|] == p;
    forall i | 0 <= i < |properties|
      ensures properties[i] in more
    {
      assert more[i] == properties[i];
    }
  }

  lemma NoRelationIds()
    ensures RelationIds([]) == {}
  {
  }

  lemma RelationIdsExtend(relations: seq<ObjectRelation>, r: ObjectRelation)
    ensures RelationIds(relations + [r]) == RelationIds(relations) + {r.id}
  {
    var more := relations + [r];
    assert more[|relations|] == r;
    forall i | 0 <= i < |relations|
      ensures relations[i] in more
    {
      assert more[i] == relations[i];
    }
  }

  method CheckClasses(classes: seq<OntologyClass>) returns (out: seq<Violation>, known: set<string>)
    ensures out == ClassFindings(classes) && known == ClassIds(classes)
  {
    NoClassIds();
    hide ClassIds;
    out, known := [], {};
    for n := 0 to |classes|
      invariant out == ClassFindings(classes[..n]) && known == ClassIds(classes[..n])
    {
      var c := classes[n];
      assert classes[..n + 1][..n] == classes[..n] && classes[..n + 1] == classes[..n] + [c];
      ClassIdsExtend(classes[..n], c);
      if c.id == "" || c.name == "" {
        out := out + [Violation(ClassRequired, Error, c.id)];
        continue;
      }
      if c.id in known {
        out := out + [Violation(DuplicateId, Error, c.id)];
      }
      known := known + {c.id};
    }
    assert classes[..|classes|] == classes;
  }

  method CheckKnown(ids: seq<string>, known: set<string>, code: Code, subject: string) returns (out: seq<Violation>)
    ensures out == Missing(ids, known, code, subject)
  {
    out := [];
    for n := 0 to |ids|
      invariant out == Missing(ids[..n], known, code, subject)
    {
      assert ids[..n + 1][..n] == ids[..n];
      if ids[n] !in known {
        out := out + [Violation(code, Error, subject)];
      }
    }
    assert ids[..|ids|] == ids;
  }

  method CheckParents(classes: seq<OntologyClass>, known: set<string>) returns (out: seq<Violation>)
    ensures out == ParentFindings(classes, known)
  {
    out := [];
    for n := 0 to |classes|
      invariant out == ParentFindings(classes[..n], known)
    {
      assert classes[..n + 1][..n] == classes[..n];
      var missing := CheckKnown(classes[n].parentIds, known, ParentNotFound, classes[n].id);
      out := out + missing;
    }
    assert classes[..|classes|] == classes;
  }

  method CheckProperty(p: DataProperty, known: set<string>, ids: set<string>) returns (out: seq<Violation>)
    ensures out == OfProperty(p, known, ids)
  {
    out := [];
    if p.id in ids {
      out := [Violation(DuplicateId, Error, p.id)];
    }
    var missing := CheckKnown(p.domainIds, known, PropertyDomainNotFound, p.id);
    out := out + missing;
  }

  method CheckProperties(properties: seq<DataProperty>, known: set<string>)
    returns (out: seq<Violation>, ids: set<string>)
    ensures out == PropertyFindings(properties, known) && ids == known + PropertyIds(properties)
  {
    hide OfProperty;
    NoPropertyIds();
    hide PropertyIds;
    out, ids := [], known;
    for n := 0 to |properties|
      invariant out == PropertyFindings(properties[..n], known) && ids == known + PropertyIds(properties[..n])
    {
      var p := properties[n];
      assert properties[..n + 1][..n] == properties[..n] && properties[..n + 1] == properties[..n] + [p];
      PropertyIdsExtend(properties[..n], p);
      var found := CheckProperty(p, known, ids);
      out := out + found;
      ids := ids + {p.id};
    }
    assert properties[..|properties|] == properties;
  }

  method CheckRelation(r: ObjectRelation, known: set<string>, ids: set<string>) returns (out: seq<Violation>)
    ensures out == OfRelation(r, known, ids)
  {
    out := [];
    if r.id in ids {
      out := [Violation(DuplicateId, Error, r.id)];
    }
    if |r.domainIds| == 0 || |r.rangeIds| == 0 {
      out := out + [Violation(UnresolvedDomainRange, Warning, r.id)];
    }
    var domains := CheckKnown(r.domainIds, known, RelationDomainNotFound, r.id);
    var ranges := CheckKnown(r.rangeIds, known, RelationRangeNotFound, r.id);
    out := out + domains + ranges;
  }

  method CheckRelations(relations: seq<ObjectRelation>, known: set<string>, taken: set<string>)
    returns (out: seq<Violation>)
    ensures out == RelationFindings(relations, known, taken)
  {
    hide OfRelation;
    NoRelationIds();
    hide RelationIds;
    out := [];
    var ids := taken;
    for n := 0 to |relations|
      invariant out == RelationFindings(relations[..n], known, taken) && ids == taken + RelationIds(relations[..n])
    {
      var r := relations[n];
      assert relations[..n + 1][..n] == relations[..n] && relations[..n + 1] == relations[..n] + [r];
      RelationIdsExtend(relations[..n], r);
      var found := CheckRelation(r, known, ids);
      out := out + found;
      ids := ids + {r.id};
    }
    assert relations[..|relations|] == relations;
  }

  method ValidateOntology(o: Ontology) returns (out: seq<Violation>)
    ensures out == OntologyFindings(o)
  {
    var classFindings, known := CheckClasses(o.classes);
    var parents := CheckParents(o.classes, known);
    var properties, ids := CheckProperties(o.properties, known);
    var relations := CheckRelations(o.relations, known, ids);
    out := classFindings + parents + properties + relations;
  }

  lemma ErrorsOfConcat(a: seq<Violation>, b: seq<Violation>)
    ensures HasErrors(a + b) <==> HasErrors(a) || HasErrors(b)
  {
    var c := a + b;
    if HasErrors(a) {
      var i :| 0 <= i < |a| && a[i].severity == Error;
      assert c[i] == a[i];
    }
    if HasErrors(b) {
      var i :| 0 <= i < |b| && b[i].severity == Error;
      assert c[|a| + i] == b[i];
    }
  }

  lemma {:induction false} MissingErrors(ids: seq<string>, known: set<string>, code: Code, subject: string)
    ensures HasErrors(Missing(ids, known, code, subject)) <==> !Known(ids, known)
  {
    if ids != [] {
      MissingErrors(ids[..|ids| - 1], known, code, subject);
      ErrorsOfConcat(Missing(ids[..|ids| - 1], known, code, subject),
                     if ids[|ids| - 1] in known then [] else [Violation(code, Error, subject)]);
      assert ids[|ids| - 1] !in known ==> HasErrors([Violation(code, Error, subject)]) by {
        assert [Violation(code, Error, subject)][0].severity == Error;
      }
    }
  }

  lemma SingleError(code: Code, subject: string)
    ensures HasErrors([Violation(code, Error, subject)])
  {
    assert [Violation(code, Error, subject)][0].severity == Error;
  }

  lemma {:induction false} ClassErrors(classes: seq<OntologyClass>)
    ensures HasErrors(ClassFindings(classes)) <==> !ClassesNamed(classes)
  {
    if classes != [] {
      hide ClassIds;
      hide ClassesNamed;
      hide Duplicate;
      hide HasErrors;
      var init, c := classes[..|classes| - 1], classes[|classes| - 1];
      ClassErrors(init);
      SingleError(ClassRequired, c.id);
      DuplicateErrors(c.id, ClassIds(init));
      ErrorsOfConcat(ClassFindings(init), OfClass(c, ClassIds(init)));
      OneMoreClass(init, c);
      assert classes == init + [c];
    }
  }

  lemma OneMoreClass(init: seq<OntologyClass>, c: OntologyClass)
    ensures ClassesNamed(init + [c]) <==> ClassesNamed(init) && c.id != "" && c.name != "" && c.id !in ClassIds(init)
  {
    var more := init + [c];
    assert more[|init|] == c;
    if ClassesNamed(more) {
      forall i | 0 <= i < |init|
        ensures init[i].id != "" && init[i].name != "" && init[i].id != c.id
      {
        assert more[i] == init[i] && more[i].id != more[|init|].id;
      }
      assert ClassesNamed(init) by {
        forall i, j | 0 <= i < j < |init|
          ensures init[i].id != init[j].id
        {
          assert more[i].id != more[j].id;
        }
      }
    }
    if ClassesNamed(init) && c.id !in ClassIds(init) {
      forall i | 0 <= i < |init|
        ensures init[i].id != c.id
      {
        assert init[i] in init;
      }
    }
  }

  lemma {:induction false} ParentErrors(classes: seq<OntologyClass>, known: set<string>)
    ensures HasErrors(ParentFindings(classes, known)) <==> !ParentsKnown(classes, known)
  {
    if classes != [] {
      var init, c := classes[..|classes| - 1], classes[|classes| - 1];
      ParentErrors(init, known);
      MissingErrors(c.parentIds, known, ParentNotFound, c.id);
      ErrorsOfConcat(ParentFindings(init, known), Missing(c.parentIds, known, ParentNotFound, c.id));
    }
  }

  lemma NoProperties(known: set<string>)
    ensures PropertyFindings([], known) == [] && !HasErrors([]) && PropertiesSound([], known)
  {
  }

  lemma {:induction false} PropertyErrors(properties: seq<DataProperty>, known: set<string>)
    ensures HasErrors(PropertyFindings(properties, known)) <==> !PropertiesSound(properties, known)
  {
    if properties == [] {
      hide *;
      NoProperties(known);
    } else {
      hide Duplicate;
      hide HasErrors;
      hide Known;
      hide Missing;
      hide PropertiesSound;
      hide PropertyIds;
      var init, p := properties[..|properties| - 1], properties[|properties| - 1];
      PropertyErrors(init, known);
      DuplicateErrors(p.id, known + PropertyIds(init));
      MissingErrors(p.domainIds, known, PropertyDomainNotFound, p.id);
      ErrorsOfConcat(Duplicate(p.id, known + PropertyIds(init)),
                     Missing(p.domainIds, known, PropertyDomainNotFound, p.id));
      ErrorsOfConcat(PropertyFindings(init, known), OfProperty(p, known, known + PropertyIds(init)));
      OneMoreProperty(init, p, known);
      assert properties == init + [p];
    }
  }

  lemma DuplicateErrors(id: string, taken: set<string>)
    ensures HasErrors(Duplicate(id, taken)) <==> id in taken
  {
    SingleError(DuplicateId, id);
  }

  lemma OneMoreProperty(init: seq<DataProperty>, p: DataProperty, known: set<string>)
    ensures PropertiesSound(init + [p], known) <==>
              PropertiesSound(init, known) && p.id !in known && p.id !in PropertyIds(init) && Known(p.domainIds, known)
  {
    hide Known;
    var more := init + [p];
    if PropertiesSound(more, known) {
      assert more[|init|] == p;
      forall i | 0 <= i < |init|
        ensures init[i].id != p.id && init[i] == more[i]
      {
        assert more[i] == init[i] && more[i].id != more[|init|].id;
      }
      assert PropertiesSound(init, known);
    }
    if PropertiesSound(init, known) && p.id !in PropertyIds(init) {
      forall i | 0 <= i < |init|
        ensures init[i].id != p.id
      {
        assert init[i] in init;
      }
    }
  }

  lemma NoRelations(known: set<string>, others: set<string>)
    ensures RelationFindings([], known, known + others) == [] && !HasErrors([]) && RelationsSound([], known, others)
  {
  }

  lemma {:induction false} RelationErrors(relations: seq<ObjectRelation>, known: set<string>, others: set<string>)
    ensures HasErrors(RelationFindings(relations, known, known + others)) <==> !RelationsSound(relations, known, others)
  {
    if relations == [] {
      hide *;
      NoRelations(known, others);
    } else {
      hide HasErrors;
      hide Known;
      hide OfRelation;
      hide RelationIds;
      hide RelationsSound;
      var init, r := relations[..|relations| - 1], relations[|relations| - 1];
      RelationErrors(init, known, others);
      OneRelationErrors(r, known, known + others + RelationIds(init));
      ErrorsOfConcat(RelationFindings(init, known, known + others),
                     OfRelation(r, known, known + others + RelationIds(init)));
      OneMoreRelation(init, r, known, others);
      assert relations == init + [r];
    }
  }

  lemma OneRelationErrors(r: ObjectRelation, known: set<string>, taken: set<string>)
    ensures HasErrors(OfRelation(r, known, taken)) <==>
              r.id in taken || !Known(r.domainIds, known) || !Known(r.rangeIds, known)
  {
    hide Known;
    hide Missing;
    hide Duplicate;
    var dup, open := Duplicate(r.id, taken), Unresolved(r);
    var domains := Missing(r.domainIds, known, RelationDomainNotFound, r.id);
    var ranges := Missing(r.rangeIds, known, RelationRangeNotFound, r.id);
    DuplicateErrors(r.id, taken);
    MissingErrors(r.domainIds, known, RelationDomainNotFound, r.id);
    MissingErrors(r.rangeIds, known, RelationRangeNotFound, r.id);
    ErrorsOfConcat(dup, open);
    ErrorsOfConcat(dup + open, domains);
    ErrorsOfConcat(dup + open + domains, ranges);
  }

  lemma OneMoreRelation(init: seq<ObjectRelation>, r: ObjectRelation, known: set<string>, others: set<string>)
    ensures RelationsSound(init + [r], known, others) <==>
              && RelationsSound(init, known, others) && r.id !in known && r.id !in others && r.id !in RelationIds(init)
              && Known(r.domainIds, known) && Known(r.rangeIds, known)
  {
    hide Known;
    var more := init + [r];
    if RelationsSound(more, known, others) {
      assert more[|init|] == r;
      forall i | 0 <= i < |init|
        ensures init[i].id != r.id && init[i] == more[i]
      {
        assert more[i] == init[i] && more[i].id != more[|init|].id;
      }
      assert RelationsSound(init, known, others);
    }
    if RelationsSound(init, known, others) && r.id !in RelationIds(init) {
      forall i | 0 <= i < |init|
        ensures init[i].id != r.id
      {
        assert init[i] in init;
      }
    }
  }

  /** Validation reports an error exactly when the ontology is not well formed. */
  lemma ErrorsExactlyWhenNotConformant(o: Ontology)
    ensures HasErrors(OntologyFindings(o)) <==> !Conformant(o)
  {
    hide ClassFindings;
    hide ParentFindings;
    hide PropertyFindings;
    hide RelationFindings;
    hide HasErrors;
    var known := ClassIds(o.classes);
    var others := PropertyIds(o.properties);
    ClassErrors(o.classes);
    ParentErrors(o.classes, known);
    PropertyErrors(o.properties, known);
    RelationErrors(o.relations, known, others);
    var a, b := ClassFindings(o.classes), ParentFindings(o.classes, known);
    var c, d := PropertyFindings(o.properties, known), RelationFindings(o.relations, known, known + others);
    ErrorsOfConcat(a, b);
    ErrorsOfConcat(a + b, c);
    ErrorsOfConcat(a + b + c, d);
  }

  // ---------- Graphs ----------

  /** The id of the last class with the label. */
  function ClassOf(classes: seq<OntologyClass>, name: string): Option<string> {
    if classes == [] then None
    else
      var c := classes[|classes| - 1];
      if c.name == name then Some(c.id) else ClassOf(classes[..|classes| - 1], name)
  }

  function PropertyOf(properties: seq<DataProperty>, name: string): Option<DataProperty> {
    if properties == [] then None
    else
      var p := properties[|properties| - 1];
      if p.name == name then Some(p) else PropertyOf(properties[..|properties| - 1], name)
  }

  function RelationOf(relations: seq<ObjectRelation>, name: string): Option<ObjectRelation> {
    if relations == [] then None
    else
      var r := relations[|relations| - 1];
      if r.name == name then Some(r) else RelationOf(relations[..|relations| - 1], name)
  }

  /** The class of the last entity that has the id and a known type. */
  function TypeOf(o: Ontology, entities: seq<Entity>, id: string): Option<string> {
    if entities == [] then None
    else
      var e := entities[|entities| - 1];
      if e.id == id && ClassOf(o.classes, e.businessType).Some? then ClassOf(o.classes, e.businessType)
      else TypeOf(o, entities[..|entities| - 1], id)
  }

  function PropertyIssue(o: Ontology, classId: string, key: string, subject: string): set<Violation> {
    match PropertyOf(o.properties, key)
    case None => {Violation(EntityUnknownProperty, Warning, subject)}
    case Some(p) =>
      if |p.domainIds| > 0 && classId !in p.domainIds then {Violation(PropertyDomainViolation, Error, subject)} else {}
  }

  function EntityIssues(o: Ontology, e: Entity): set<Violation> {
    match ClassOf(o.classes, e.businessType)
    case None => {Violation(EntityUnknownType, Error, e.id)}
    case Some(classId) => set key, v | key in e.properties && v in PropertyIssue(o, classId, key, e.id) :: v
  }

  function RelationIssues(o: Ontology, entities: seq<Entity>, r: Relation): set<Violation> {
    match RelationOf(o.relations, r.businessType)
    case None => {Violation(RelationUnknownType, Error, r.id)}
    case Some(schema) =>
      var source, target := TypeOf(o, entities, r.sourceId), TypeOf(o, entities, r.targetId);
      (if source.Some? && |schema.domainIds| > 0 && source.value !in schema.domainIds
       then {Violation(RelationDomainViolation, Error, r.id)} else {})
      + (if target.Some? && |schema.rangeIds| > 0 && target.value !in schema.rangeIds
         then {Violation(RelationRangeViolation, Error, r.id)} else {})
  }

  function GraphIssues(o: Ontology, g: Snapshot): set<Violation> {
    (set e, v | e in g.entities && v in EntityIssues(o, e) :: v)
    + (set r, v | r in g.relations && v in RelationIssues(o, g.entities, r) :: v)
  }

  function Members(out: seq<Violation>): set<Violation> {
    set v | v in out
  }

  function Got<V>(m: map<string, V>, key: string): Option<V> {
    if key in m then Some(m[key]) else None
  }

  method IndexClasses(classes: seq<OntologyClass>) returns (byLabel: map<string, string>)
    ensures forall name :: Got(byLabel, name) == ClassOf(classes, name)
  {
    byLabel := map[];
    for n := 0 to |classes|
      invariant forall name :: Got(byLabel, name) == ClassOf(classes[..n], name)
    {
      assert classes[..n + 1][..n] == classes[..n];
      byLabel := byLabel[classes[n].name := classes[n].id];
    }
    assert classes[..|classes|] == classes;
  }

  method IndexProperties(properties: seq<DataProperty>) returns (byLabel: map<string, DataProperty>)
    ensures forall name :: Got(byLabel, name) == PropertyOf(properties, name)
  {
    byLabel := map[];
    for n := 0 to |properties|
      invariant forall name :: Got(byLabel, name) == PropertyOf(properties[..n], name)
    {
      assert properties[..n + 1][..n] == properties[..n];
      byLabel := byLabel[properties[n].name := properties[n]];
    }
    assert properties[..|properties|] == properties;
  }

  method IndexRelations(relations: seq<ObjectRelation>) returns (byLabel: map<string, ObjectRelation>)
    ensures forall name :: Got(byLabel, name) == RelationOf(relations, name)
  {
    byLabel := map[];
    for n := 0 to |relations|
      invariant forall name :: Got(byLabel, name) == RelationOf(relations[..n], name)
    {
      assert relations[..n + 1][..n] == relations[..n];
      byLabel := byLabel[relations[n].name := relations[n]];
    }
    assert relations[..|relations|] == relations;
  }

  lemma MembersOfConcat(a: seq<Violation>, b: seq<Violation>)
    ensures Members(a + b) == Members(a) + Members(b)
  {
  }

  function IssuesOfKeys(o: Ontology, classId: string, keys: set<string>, subject: string): set<Violation> {
    set key, v | key in keys && v in PropertyIssue(o, classId, key, subject) :: v
  }

  lemma IssuesOfOneMoreKey(o: Ontology, classId: string, keys: set<string>, key: string, subject: string)
    ensures IssuesOfKeys(o, classId, keys + {key}, subject)
         == IssuesOfKeys(o, classId, keys, subject) + PropertyIssue(o, classId, key, subject)
  {
    hide PropertyIssue;
  }

  method CheckEntity(o: Ontology, classId: string, e: Entity, propByLabel: map<string, DataProperty>)
    returns (out: seq<Violation>)
    requires ClassOf(o.classes, e.businessType) == Some(classId)
    requires forall name :: Got(propByLabel, name) == PropertyOf(o.properties, name)
    ensures Members(out) == EntityIssues(o, e)
  {
    out := [];
    var todo := e.properties.Keys;
    while todo != {}
      invariant todo <= e.properties.Keys
      invariant Members(out) == IssuesOfKeys(o, classId, e.properties.Keys - todo, e.id)
      decreases |todo|
    {
      var key :| key in todo;
      assert Got(propByLabel, key) == PropertyOf(o.properties, key);
      ghost var seen := e.properties.Keys - todo;
      todo := todo - {key};
      assert e.properties.Keys - todo == seen + {key};
      var found: seq<Violation> := [];
      if key !in propByLabel {
        found := [Violation(EntityUnknownProperty, Warning, e.id)];
      } else if |propByLabel[key].domainIds| > 0 && classId !in propByLabel[key].domainIds {
        found := [Violation(PropertyDomainViolation, Error, e.id)];
      }
      assert Members(found) == PropertyIssue(o, classId, key, e.id);
      MembersOfConcat(out, found);
      IssuesOfOneMoreKey(o, classId, seen, key, e.id);
      out := out + found;
    }
    assert e.properties.Keys - todo == e.properties.Keys;
  }

  lemma UnknownTypeIssues(o: Ontology, e: Entity)
    requires ClassOf(o.classes, e.businessType).None?
    ensures EntityIssues(o, e) == {Violation(EntityUnknownType, Error, e.id)}
  {
  }

  method CheckEntities(o: Ontology, entities: seq<Entity>)
    returns (out: seq<Violation>, entityType: map<string, string>)
    ensures Members(out) == set e, v | e in entities && v in EntityIssues(o, e) :: v
    ensures forall id :: Got(entityType, id) == TypeOf(o, entities, id)
  {
    hide EntityIssues;
    hide PropertyOf;
    var classByLabel := IndexClasses(o.classes);
    var propByLabel := IndexProperties(o.properties);
    out, entityType := [], map[];
    for n := 0 to |entities|
      invariant Members(out) == set e, v | e in entities[..n] && v in EntityIssues(o, e) :: v
      invariant forall id :: Got(entityType, id) == TypeOf(o, entities[..n], id)
    {
      var e := entities[n];
      assert entities[..n + 1][..n] == entities[..n] && entities[..n + 1] == entities[..n] + [e];
      assert Got(classByLabel, e.businessType) == ClassOf(o.classes, e.businessType);
      var found: seq<Violation>;
      if e.businessType !in classByLabel {
        found := [Violation(EntityUnknownType, Error, e.id)];
        UnknownTypeIssues(o, e);
      } else {
        entityType := entityType[e.id := classByLabel[e.businessType]];
        found := CheckEntity(o, classByLabel[e.businessType], e, propByLabel);
      }
      MembersOfConcat(out, found);
      out := out + found;
    }
    assert entities[..|entities|] == entities;
  }

  method CheckGraphRelation(o: Ontology, g: Snapshot, r: Relation, relByLabel: map<string, ObjectRelation>,
                            entityType: map<string, string>)
    returns (out: seq<Violation>)
    requires Got(relByLabel, r.businessType) == RelationOf(o.relations, r.businessType)
    requires Got(entityType, r.sourceId) == TypeOf(o, g.entities, r.sourceId)
    requires Got(entityType, r.targetId) == TypeOf(o, g.entities, r.targetId)
    ensures Members(out) == RelationIssues(o, g.entities, r)
  {
    if r.businessType !in relByLabel {
      return [Violation(RelationUnknownType, Error, r.id)];
    }
    var schema := relByLabel[r.businessType];
    out := [];
    if r.sourceId in entityType && |schema.domainIds| > 0 && entityType[r.sourceId] !in schema.domainIds {
      out := [Violation(RelationDomainViolation, Error, r.id)];
    }
    if r.targetId in entityType && |schema.rangeIds| > 0 && entityType[r.targetId] !in schema.rangeIds {
      out := out + [Violation(RelationRangeViolation, Error, r.id)];
    }
  }

  method ValidateGraph(o: Ontology, g: Snapshot) returns (out: seq<Violation>)
    ensures Members(out) == GraphIssues(o, g)
    ensures out == [] <==> GraphIssues(o, g) == {}
  {
    hide EntityIssues;
    hide RelationIssues;
    hide TypeOf;
    hide RelationOf;
    var relByLabel := IndexRelations(o.relations);
    var entityFindings, entityType := CheckEntities(o, g.entities);
    var relationFindings: seq<Violation> := [];
    for n := 0 to |g.relations|
      invariant Members(relationFindings) == set r, v | r in g.relations[..n]
          && v in RelationIssues(o, g.entities, r) :: v
    {
      var r := g.relations[n];
      assert g.relations[..n + 1] == g.relations[..n] + [r];
      assert Got(relByLabel, r.businessType) == RelationOf(o.relations, r.businessType);
      assert Got(entityType, r.sourceId) == TypeOf(o, g.entities, r.sourceId);
      assert Got(entityType, r.targetId) == TypeOf(o, g.entities, r.targetId);
      var found := CheckGraphRelation(o, g, r, relByLabel, entityType);
      MembersOfConcat(relationFindings, found);
      relationFindings := relationFindings + found;
    }
    assert g.relations[..|g.relations|] == g.relations;
    MembersOfConcat(entityFindings, relationFindings);
    out := entityFindings + relationFindings;
    assert out != [] ==> out[0] in Members(out);
  }
}
