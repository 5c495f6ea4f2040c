/**
 An ontology compiled into its template, normalized as if the template were an extracted graph, and
 validated against itself: exactly when nothing is reported, and that the graph holds exactly the declared
 classes, properties and relations.
 */
module TemplateTheorems {
  import opened Wrappers
  import opened Text
  import opened Sorting
  import opened Identity
  import opened GraphModel
  import opened OntologyModel
  import opened OntologyValidator
  import opened TemplateCompiler
  import opened GraphNormalizer

  // ---------- Labels in a template ----------

  /** What is left of a property label once its template attribute has been parsed. */
  function Key(u: Unicode, name: string): string {
    IndexOfBounds(name, '=');
    u.Trim(name[..IndexOf(name, '=')])
  }

  /** No property label reads as one of the attributes with a meaning of their own. */
  ghost predicate KeysPlain(u: Unicode, properties: seq<DataProperty>) {
    forall i :: 0 <= i < |properties| ==> !("__" <= Key(u, properties[i].name))
  }

  /** Trimmed labels of classes and relations, and property labels that are not reserved. */
  ghost predicate Readable(u: Unicode, o: Ontology) {
    && (forall i :: 0 <= i < |o.classes| ==> Trimmed(u, o.classes[i].name))
    && KeysPlain(u, o.properties)
    && (forall i :: 0 <= i < |o.relations| ==> Trimmed(u, o.relations[i].name))
  }

  // ---------- Parsing template attributes ----------

  lemma {:induction false} IndexOfJoined(s: string, rest: string, c: char)
    requires rest != "" && rest[0] == c
    ensures IndexOf(s + rest, c) == IndexOf(s, c)
  {
    if s == "" {
      assert s + rest == rest;
    } else {
      assert (s + rest)[1..] == s[1..] + rest;
      IndexOfJoined(s[1..], rest, c);
    }
  }

  /** The key of an attribute of the form `key=value`. */
  function AttributeKey(u: Unicode, attribute: string): string {
    var s := u.Trim(attribute);
    IndexOfBounds(s, '=');
    u.Trim(s[..IndexOf(s, '=')])
  }

  ghost predicate PlainAttribute(u: Unicode, attribute: string) {
    var s := u.Trim(attribute);
    s != "" && IndexOf(s, '=') < |s| && !("__" <= AttributeKey(u, attribute))
  }

  lemma SpaceBefore(u: Unicode, s: string)
    requires s != "" && u.isSpace(s[0])
    ensures u.Trim(s) == u.Trim(s[1..])
  {
  }

  /** White space before a property label shows neither in its attribute nor in its key. */
  lemma KeyAfterSpace(u: Unicode, name: string)
    requires u.Lawful() && name != "" && u.isSpace(name[0])
    ensures u.Trim(name + FROM_TEXT) == u.Trim(name[1..] + FROM_TEXT) && Key(u, name) == Key(u, name[1..])
  {
    SpaceBefore(u, name + FROM_TEXT);
    assert (name + FROM_TEXT)[1..] == name[1..] + FROM_TEXT;
    IndexOfBounds(name, '=');
    var key := name[..IndexOf(name, '=')];
    SpaceBefore(u, key);
    assert key[1..] == name[1..][..IndexOf(name[1..], '=')];
    hide Unicode.Trim;
  }

  lemma KeyWithoutSpace(u: Unicode, name: string)
    requires u.Lawful() && (name == "" || !u.isSpace(name[0]))
    ensures var s := u.Trim(name + FROM_TEXT);
            s != "" && IndexOf(s, '=') < |s| && AttributeKey(u, name + FROM_TEXT) == Key(u, name)
  {
    var s := name + FROM_TEXT;
    assert s[|s| - 1] == '>' && s[0] == if name == "" then '=' else name[0];
    TrimmedIsFixed(u, s);
    hide Unicode.Trim;
    IndexOfBounds(name, '=');
    IndexOfJoined(name, FROM_TEXT, '=');
    hide IndexOf;
    assert s[..IndexOf(s, '=')] == name[..IndexOf(name, '=')];
  }

  lemma {:induction false} KeyOfAttribute(u: Unicode, name: string)
    requires u.Lawful()
    ensures var s := u.Trim(name + FROM_TEXT);
            s != "" && IndexOf(s, '=') < |s| && AttributeKey(u, name + FROM_TEXT) == Key(u, name)
  {
    if name != "" && u.isSpace(name[0]) {
      KeyOfAttribute(u, name[1..]);
      KeyAfterSpace(u, name);
      hide Key;
      hide IndexOf;
      hide Unicode.Trim;
    } else {
      KeyWithoutSpace(u, name);
    }
  }

  lemma PlainAttributeParses(u: Unicode, a: Attributes, attribute: string)
    requires PlainAttribute(u, attribute)
    ensures var after, key := WithAttribute(u, a, attribute), AttributeKey(u, attribute);
            && after.reserved == a.reserved
            && after.props.Keys == a.props.Keys + if key == "" then {} else {key}
  {
  }

  lemma TypeAttributeParses(u: Unicode, a: Attributes, name: string)
    requires u.Lawful() && Trimmed(u, name) && name != ""
    ensures WithAttribute(u, a, TYPE_ATTRIBUTE + name) == a.(reserved := a.reserved["__type__" := name])
  {
    var s := TYPE_ATTRIBUTE + name;
    assert s[|s| - 1] == name[|name| - 1] && s[0] == '_';
    TrimmedIsFixed(u, s);
    TrimmedIsFixed(u, "__type__");
    TrimmedIsFixed(u, name);
    hide Unicode.Trim;
    assert s == "__type__" + ("=" + name);
    TypeHasNoEquals();
    IndexOfJoined("__type__", "=" + name, '=');
    hide IndexOf;
    assert s[..8] == "__type__" && s[9..] == name;
  }

  lemma TypeHasNoEquals()
    ensures IndexOf("__type__", '=') == 8
  {
    IndexOfBounds("__type__", '=');
  }

  function Keys(u: Unicode, attributes: seq<string>): set<string> {
    set a | a in attributes && AttributeKey(u, a) != "" :: AttributeKey(u, a)
  }

  lemma KeysExtend(u: Unicode, attributes: seq<string>, a: string)
    ensures Keys(u, attributes + [a])
         == Keys(u, attributes) + if AttributeKey(u, a) == "" then {} else {AttributeKey(u, a)}
  {
    hide AttributeKey;
    var more := attributes + [a];
    assert more[|attributes|] == a;
    forall x | x in attributes
      ensures x in more
    {
    }
  }

  lemma {:induction false} TemplateParses(u: Unicode, name: string, attributes: seq<string>)
    requires u.Lawful() && Trimmed(u, name) && name != ""
    requires forall a :: a in attributes ==> PlainAttribute(u, a)
    ensures var p := Parsed(u, [TYPE_ATTRIBUTE + name] + attributes);
            p.reserved == map["__type__" := name] && p.props.Keys == Keys(u, attributes)
  {
    hide WithAttribute;
    hide AttributeKey;
    var all := [TYPE_ATTRIBUTE + name] + attributes;
    if attributes == [] {
      assert all[..0] == [];
      TypeAttributeParses(u, Attributes(map[], map[]), name);
    } else {
      hide PlainAttribute;
      var init, a := attributes[..|attributes| - 1], attributes[|attributes| - 1];
      assert all[..|all| - 1] == [TYPE_ATTRIBUTE + name] + init;
      assert attributes == init + [a];
      TemplateParses(u, name, init);
      PlainAttributeParses(u, Parsed(u, [TYPE_ATTRIBUTE + name] + init), a);
      KeysExtend(u, init, a);
    }
  }

  /** What the labels of the properties declared for a class are parsed as. */
  function DeclaredKeys(u: Unicode, properties: seq<DataProperty>, classId: string): set<string> {
    set p | p in properties && classId in p.domainIds && Key(u, p.name) != "" :: Key(u, p.name)
  }

  lemma {:induction false} PropertyAttributeMembers(properties: seq<DataProperty>, classId: string, a: string)
    ensures a in PropertyAttributes(properties, classId) <==>
              exists i :: 0 <= i < |properties| && classId in properties[i].domainIds && a == properties[i].name
                  + FROM_TEXT
  {
    if properties != [] {
      PropertyAttributeMembers(properties[..|properties| - 1], classId, a);
    }
  }

  lemma TemplateKeys(u: Unicode, properties: seq<DataProperty>, classId: string)
    requires u.Lawful() && KeysPlain(u, properties)
    ensures var attributes := SortStrings(PropertyAttributes(properties, classId));
            && (forall a :: a in attributes ==> PlainAttribute(u, a))
            && Keys(u, attributes) == DeclaredKeys(u, properties, classId)
  {
    hide Key;
    hide AttributeKey;
    var listed := PropertyAttributes(properties, classId);
    var attributes := SortStrings(listed);
    SortMembers(listed, StringOrder());
    forall a | a in attributes
      ensures PlainAttribute(u, a)
      ensures AttributeKey(u, a) != "" ==> AttributeKey(u, a) in DeclaredKeys(u, properties, classId)
    {
      PropertyAttributeMembers(properties, classId, a);
      var i :| 0 <= i < |properties| && classId in properties[i].domainIds && a == properties[i].name + FROM_TEXT;
      KeyOfAttribute(u, properties[i].name);
      assert properties[i] in properties;
    }
    forall key | key in DeclaredKeys(u, properties, classId)
      ensures key in Keys(u, attributes)
    {
      var p :| p in properties && classId in p.domainIds && Key(u, p.name) == key;
      var i :| 0 <= i < |properties| && properties[i] == p;
      PropertyAttributeMembers(properties, classId, p.name + FROM_TEXT);
      KeyOfAttribute(u, p.name);
      assert p.name + FROM_TEXT in attributes;
    }
  }

  // ---------- The entity of a class ----------

  function EntityId(n: Naming, env: Envelope, name: string): string {
    n.StableId("ent", DomainOf(n.u, env), name + "\0" + NodeName(name))
  }

  lemma NodeNameTrimmed(u: Unicode, name: string)
    requires u.Lawful()
    ensures u.Trim(NodeName(name)) == NodeName(name)
  {
    TrimmedIsFixed(u, NodeName(name));
  }

  lemma NodeNameLabels(a: string, b: string)
    requires NodeName(a) == NodeName(b)
    ensures a == b
  {
    assert NodeName(a)[1..|NodeName(a)| - 3] == a && NodeName(b)[1..|NodeName(b)| - 3] == b;
  }

  lemma ClassEntity(n: Naming, env: Envelope, c: OntologyClass, properties: seq<DataProperty>)
    requires n.u.Lawful() && Trimmed(n.u, c.name) && c.name != "" && KeysPlain(n.u, properties)
    ensures var e := NodeEntity(n, env, TemplateNode(c, properties));
            && e.id == EntityId(n, env, c.name) && e.name == NodeName(c.name) && e.businessType == c.name
            && e.properties.Keys == DeclaredKeys(n.u, properties, c.id)
  {
    hide Parsed;
    hide Keys;
    hide PlainAttribute;
    var raw := TemplateNode(c, properties);
    TemplateKeys(n.u, properties, c.id);
    TemplateParses(n.u, c.name, SortStrings(PropertyAttributes(properties, c.id)));
    TrimmedIsFixed(n.u, c.name);
    NodeNameTrimmed(n.u, c.name);
    assert ReservedText(n.u, Parsed(n.u, raw.attributes), "__id__") == "";
  }

  lemma EntityIdLabels(n: Naming, env: Envelope, a: string, b: string)
    requires n.u.Lawful() && n.Injective() && Trimmed(n.u, a) && Trimmed(n.u, b) && a != "" && b != ""
    requires EntityId(n, env, a) == EntityId(n, env, b)
    ensures a == b
  {
    var x, y := a + "\0" + NodeName(a), b + "\0" + NodeName(b);
    assert x[|x| - 1] == '>' && y[|y| - 1] == '>' && x[0] == a[0] && y[0] == b[0];
    TrimmedIsFixed(n.u, x);
    TrimmedIsFixed(n.u, y);
    StableIdNames(n, "ent", DomainOf(n.u, env), x, y);
    assert |x| == 2 * |a| + 5 && |y| == 2 * |b| + 5;
    assert x[..|a|] == a && y[..|b|] == b;
  }

  // ---------- Lookups by label ----------

  lemma {:induction false} ClassOfSome(classes: seq<OntologyClass>, i: nat)
    requires i < |classes|
    ensures ClassOf(classes, classes[i].name).Some?
  {
    if i < |classes| - 1 {
      ClassOfSome(classes[..|classes| - 1], i);
    }
  }

  lemma {:induction false} RelationOfSome(relations: seq<ObjectRelation>, i: nat)
    requires i < |relations|
    ensures RelationOf(relations, relations[i].name).Some?
  {
    if i < |relations| - 1 {
      RelationOfSome(relations[..|relations| - 1], i);
    }
  }

  lemma {:induction false} ClassLabelUnique(classes: seq<OntologyClass>, i: nat)
    requires i < |classes| && forall j, k :: 0 <= j < k < |classes| ==> classes[j].id != classes[k].id
    ensures ClassLabel(classes, classes[i].id) == classes[i].name
  {
    if i < |classes| - 1 {
      assert classes[i].id != classes[|classes| - 1].id;
      ClassLabelUnique(classes[..|classes| - 1], i);
    }
  }

  lemma {:induction false} TypeOfUnique(o: Ontology, entities: seq<Entity>, e: Entity, classId: string)
    requires e in entities && ClassOf(o.classes, e.businessType) == Some(classId)
    requires forall x :: x in entities && x.id == e.id ==> ClassOf(o.classes, x.businessType) == Some(classId)
    ensures TypeOf(o, entities, e.id) == Some(classId)
  {
    var last := entities[|entities| - 1];
    assert last in entities;
    if last.id != e.id {
      var init := entities[..|entities| - 1];
      assert entities == init + [last];
      TypeOfUnique(o, init, e, classId);
    }
  }

  // ---------- The normalized template ----------

  function Template(o: Ontology, domain: string, knowledgeId: string): Envelope {
    Envelope(domain, knowledgeId, Compiled(o).nodes, Compiled(o).relations)
  }

  /** The nodes of a template are the nodes of the classes. */
  lemma TemplateNodeMembers(o: Ontology, raw: GraphNode)
    ensures raw in Compiled(o).nodes <==>
              exists i :: 0 <= i < |o.classes| && raw == TemplateNode(o.classes[i], o.properties)
  {
    hide TemplateNode;
    var nodes := TemplateNodes(o.classes, o.properties);
    SortMembers(nodes, NodeOrder());
    if raw in nodes {
      var i :| 0 <= i < |nodes| && nodes[i] == raw;
    }
    if i :| 0 <= i < |o.classes| && raw == TemplateNode(o.classes[i], o.properties) {
      assert nodes[i] == raw;
    }
  }

  function EntityFor(n: Naming, env: Envelope, o: Ontology, i: nat): Entity
    requires i < |o.classes|
  {
    NodeEntity(n, env, TemplateNode(o.classes[i], o.properties))
  }

  lemma TemplateEntityMembers(n: Naming, o: Ontology, domain: string, knowledgeId: string, e: Entity)
    ensures var env := Template(o, domain, knowledgeId);
            e in Normalized(n, env).entities <==> exists i :: 0 <= i < |o.classes| && e == EntityFor(n, env, o, i)
  {
    hide NodeEntity;
    hide TemplateNode;
    hide Sort;
    var env := Template(o, domain, knowledgeId);
    var entities := NodeEntities(n, env);
    SortMembers(entities, EntityOrder());
    if e in entities {
      var k :| 0 <= k < |entities| && entities[k] == e;
      TemplateNodeMembers(o, env.nodes[k]);
      var i :| 0 <= i < |o.classes| && env.nodes[k] == TemplateNode(o.classes[i], o.properties);
      assert e == EntityFor(n, env, o, i);
    }
    if i :| 0 <= i < |o.classes| && e == EntityFor(n, env, o, i) {
      TemplateNodeMembers(o, TemplateNode(o.classes[i], o.properties));
      var k :| 0 <= k < |env.nodes| && env.nodes[k] == TemplateNode(o.classes[i], o.properties);
      assert entities[k] == e;
    }
  }

  lemma ClassReady(u: Unicode, o: Ontology, i: nat)
    requires Conformant(o) && Readable(u, o) && i < |o.classes|
    ensures Trimmed(u, o.classes[i].name) && o.classes[i].name != "" && KeysPlain(u, o.properties)
    ensures ClassOf(o.classes, o.classes[i].name).Some?
    ensures ClassLabel(o.classes, o.classes[i].id) == o.classes[i].name
  {
    ClassOfSome(o.classes, i);
    ClassLabelUnique(o.classes, i);
  }

  /** Every template entity is found under its id as an instance of the last class with its label. */
  lemma TemplateEntityType(n: Naming, o: Ontology, domain: string, knowledgeId: string, i: nat)
    requires n.u.Lawful() && n.Injective() && Conformant(o) && Readable(n.u, o) && i < |o.classes|
    ensures var env := Template(o, domain, knowledgeId);
            TypeOf(o, Normalized(n, env).entities, EntityId(n, env, o.classes[i].name))
            == ClassOf(o.classes, o.classes[i].name)
  {
    hide TypeOf;
    hide ClassOf;
    var env := Template(o, domain, knowledgeId);
    var entities := Normalized(n, env).entities;
    var e := EntityFor(n, env, o, i);
    ClassReady(n.u, o, i);
    ClassEntity(n, env, o.classes[i], o.properties);
    TemplateEntityMembers(n, o, domain, knowledgeId, e);
    forall x | x in entities && x.id == e.id
      ensures ClassOf(o.classes, x.businessType) == ClassOf(o.classes, o.classes[i].name)
    {
      TemplateEntityMembers(n, o, domain, knowledgeId, x);
      var j :| 0 <= j < |o.classes| && x == EntityFor(n, env, o, j);
      ClassReady(n.u, o, j);
      ClassEntity(n, env, o.classes[j], o.properties);
      EntityIdLabels(n, env, o.classes[i].name, o.classes[j].name);
    }
    TypeOfUnique(o, entities, e, ClassOf(o.classes, o.classes[i].name).value);
  }

  /** The class that instances of a class are taken for. */
  function TakenFor(o: Ontology, i: nat): string
    requires i < |o.classes|
  {
    ClassOfSome(o.classes, i);
    ClassOf(o.classes, o.classes[i].name).value
  }

  /** An entity of the template is reported for its declared keys only, as an instance of what it is taken for. */
  lemma TemplateEntityIssues(n: Naming, o: Ontology, env: Envelope, i: nat)
    requires n.u.Lawful() && Conformant(o) && Readable(n.u, o) && i < |o.classes|
    ensures EntityIssues(o, EntityFor(n, env, o, i))
         == IssuesOfKeys(o, TakenFor(o, i), DeclaredKeys(n.u, o.properties, o.classes[i].id),
                         EntityId(n, env, o.classes[i].name))
  {
    hide NodeEntity;
    hide TemplateNode;
    hide Conformant;
    hide ClassOf;
    hide PropertyIssue;
    hide EntityId;
    hide DeclaredKeys;
    var e := EntityFor(n, env, o, i);
    ClassReady(n.u, o, i);
    ClassEntity(n, env, o.classes[i], o.properties);
    assert e.properties.Keys == DeclaredKeys(n.u, o.properties, o.classes[i].id);
  }

  // ---------- Relations ----------

  lemma {:induction false} TemplateRelationMembers(classes: seq<OntologyClass>, relations: seq<ObjectRelation>,
                                                   raw: GraphRelation)
    ensures raw in TemplateRelations(classes, relations) <==>
              exists i :: 0 <= i < |relations| && Resolvable(classes, relations[i]) && raw
                  == TemplateRelation(classes, relations[i])
  {
    hide Resolvable;
    hide TemplateRelation;
    if relations != [] {
      TemplateRelationMembers(classes, relations[..|relations| - 1], raw);
    }
  }

  lemma {:induction false} NodeRelationMembers(n: Naming, env: Envelope, relations: seq<GraphRelation>, x: Relation)
    ensures x in NodeRelations(n, env, relations) <==>
              exists k :: 0 <= k < |relations| && Joins(n, env, relations[k], x)
  {
    hide RelationOfNodes;
    hide NamedNode;
    if relations != [] {
      NodeRelationMembers(n, env, relations[..|relations| - 1], x);
    }
  }

  /** The relation is what normalization makes of the raw one. */
  ghost predicate Joins(n: Naming, env: Envelope, raw: GraphRelation, x: Relation) {
    var source := NamedNode(n.u, env.nodes, n.u.Trim(raw.node1));
    var target := NamedNode(n.u, env.nodes, n.u.Trim(raw.node2));
    source.Some? && target.Some? && x == RelationOfNodes(n, env, n.u.Trim(raw.kind), source.value, target.value)
  }

  lemma {:induction false} NamedNodeFound(u: Unicode, nodes: seq<GraphNode>, raw: GraphNode) returns (found: GraphNode)
    requires raw in nodes
    ensures NamedNode(u, nodes, u.Trim(raw.name)) == Some(found)
    ensures found in nodes && u.Trim(found.name) == u.Trim(raw.name)
  {
    var last := nodes[|nodes| - 1];
    assert last in nodes;
    if u.Trim(last.name) != u.Trim(raw.name) {
      var init := nodes[..|nodes| - 1];
      assert nodes == init + [last];
      found := NamedNodeFound(u, init, raw);
    } else {
      found := last;
    }
  }

  /** The node found under the name of a class is that of a class with the same label. */
  lemma TemplateNodeFound(u: Unicode, o: Ontology, i: nat) returns (j: nat)
    requires u.Lawful() && i < |o.classes|
    ensures j < |o.classes| && o.classes[j].name == o.classes[i].name
    ensures NamedNode(u, Compiled(o).nodes, u.Trim(NodeName(o.classes[i].name)))
         == Some(TemplateNode(o.classes[j], o.properties))
  {
    hide Compiled;
    hide SortStrings;
    var raw := TemplateNode(o.classes[i], o.properties);
    TemplateNodeMembers(o, raw);
    var found := NamedNodeFound(u, Compiled(o).nodes, raw);
    TemplateNodeMembers(o, found);
    j :| 0 <= j < |o.classes| && found == TemplateNode(o.classes[j], o.properties);
    NodeNameTrimmed(u, o.classes[i].name);
    NodeNameTrimmed(u, o.classes[j].name);
    NodeNameLabels(o.classes[i].name, o.classes[j].name);
  }

  /** The end points of a declared relation: the classes first in its domain and range. */
  lemma EndPoints(o: Ontology, k: nat) returns (source: nat, target: nat)
    requires Conformant(o) && k < |o.relations| && |o.relations[k].domainIds| > 0 && |o.relations[k].rangeIds| > 0
    ensures source < |o.classes| && o.classes[source].id == o.relations[k].domainIds[0]
    ensures target < |o.classes| && o.classes[target].id == o.relations[k].rangeIds[0]
  {
    var r := o.relations[k];
    assert Known(r.domainIds, ClassIds(o.classes)) && Known(r.rangeIds, ClassIds(o.classes));
    assert r.domainIds[0] in ClassIds(o.classes) && r.rangeIds[0] in ClassIds(o.classes);
    var c :| c in o.classes && c.id == r.domainIds[0];
    var d :| d in o.classes && d.id == r.rangeIds[0];
    source :| 0 <= source < |o.classes| && o.classes[source] == c;
    target :| 0 <= target < |o.classes| && o.classes[target] == d;
  }

  /** The normalized relation of a declared one joins the entities of its end points. */
  ghost predicate Declared(n: Naming, env: Envelope, o: Ontology, k: nat, x: Relation)
    requires k < |o.relations|
  {
    var r := o.relations[k];
    && |r.domainIds| > 0 && |r.rangeIds| > 0
    && x.businessType == r.name
    && x.sourceId == EntityId(n, env, ClassLabel(o.classes, r.domainIds[0]))
    && x.targetId == EntityId(n, env, ClassLabel(o.classes, r.rangeIds[0]))
  }

  lemma TemplateRelationJoins(n: Naming, o: Ontology, domain: string, knowledgeId: string, k: nat)
    returns (raw: GraphRelation, x: Relation)
    requires n.u.Lawful() && Conformant(o) && Readable(n.u, o) && k < |o.relations|
    requires |o.relations[k].domainIds| > 0 && |o.relations[k].rangeIds| > 0
    ensures Resolvable(o.classes, o.relations[k]) && raw == TemplateRelation(o.classes, o.relations[k])
    ensures var env := Template(o, domain, knowledgeId);
            Joins(n, env, raw, x) && Declared(n, env, o, k, x)
  {
    hide Conformant;
    hide Compiled;
    hide NodeEntity;
    hide TemplateNode;
    hide Listing;
    hide ChunksOf;
    hide ClassOf;
    var env := Template(o, domain, knowledgeId);
    var source, target := EndPoints(o, k);
    ClassReady(n.u, o, source);
    ClassReady(n.u, o, target);
    var from := TemplateNodeFound(n.u, o, source);
    var to := TemplateNodeFound(n.u, o, target);
    ClassEntity(n, env, o.classes[from], o.properties);
    ClassEntity(n, env, o.classes[to], o.properties);
    raw := TemplateRelation(o.classes, o.relations[k]);
    TrimmedIsFixed(n.u, o.relations[k].name);
    x := RelationOfNodes(n, env, o.relations[k].name, TemplateNode(o.classes[from], o.properties),
                         TemplateNode(o.classes[to], o.properties));
  }

  /** The relations of the normalized template are those declared with a domain and a range. */
  lemma TemplateRelationsAreDeclared(n: Naming, o: Ontology, domain: string, knowledgeId: string, x: Relation)
    returns (k: nat)
    requires n.u.Lawful() && Conformant(o) && Readable(n.u, o)
    requires x in Normalized(n, Template(o, domain, knowledgeId)).relations
    ensures k < |o.relations| && Declared(n, Template(o, domain, knowledgeId), o, k, x)
  {
    hide RelationOfNodes;
    var env := Template(o, domain, knowledgeId);
    SortMembers(NodeRelations(n, env, env.relations), RelationIdOrder());
    NodeRelationMembers(n, env, env.relations, x);
    var j :| 0 <= j < |env.relations| && Joins(n, env, env.relations[j], x);
    SortMembers(TemplateRelations(o.classes, o.relations), RelationOrder());
    TemplateRelationMembers(o.classes, o.relations, env.relations[j]);
    k :| 0 <= k < |o.relations| && Resolvable(o.classes, o.relations[k])
         && env.relations[j] == TemplateRelation(o.classes, o.relations[k]);
    var raw, y := TemplateRelationJoins(n, o, domain, knowledgeId, k);
  }

  /** A declared end is open or lists the class that instances of its first class are taken for. */
  predicate EndAccepted(o: Ontology, ends: seq<string>, schema: seq<string>)
    requires ends != []
  {
    var taken := ClassOf(o.classes, ClassLabel(o.classes, ends[0]));
    schema == [] || (taken.Some? && taken.value in schema)
  }

  lemma TemplateRelationIssues(n: Naming, o: Ontology, domain: string, knowledgeId: string, k: nat, x: Relation)
    requires n.u.Lawful() && n.Injective() && Conformant(o) && Readable(n.u, o)
    requires k < |o.relations| && Declared(n, Template(o, domain, knowledgeId), o, k, x)
    ensures RelationOf(o.relations, o.relations[k].name).Some?
    ensures var schema := RelationOf(o.relations, o.relations[k].name).value;
            RelationIssues(o, Normalized(n, Template(o, domain, knowledgeId)).entities, x) == {} <==>
              && EndAccepted(o, o.relations[k].domainIds, schema.domainIds)
              && EndAccepted(o, o.relations[k].rangeIds, schema.rangeIds)
  {
    hide Normalized;
    hide Conformant;
    hide Template;
    hide TypeOf;
    hide EntityId;
    hide ClassOf;
    hide RelationOf;
    var source, target := EndPoints(o, k);
    ClassReady(n.u, o, source);
    ClassReady(n.u, o, target);
    TemplateEntityType(n, o, domain, knowledgeId, source);
    TemplateEntityType(n, o, domain, knowledgeId, target);
    RelationOfSome(o.relations, k);
  }

  // ---------- The theorems ----------

  /** The ontology has a property with the key that the class with the id may carry. */
  predicate KeyAccepted(o: Ontology, classId: string, key: string) {
    var p := PropertyOf(o.properties, key);
    p.Some? && (p.value.domainIds == [] || classId in p.value.domainIds)
  }

  ghost predicate PropertiesAccepted(u: Unicode, o: Ontology) {
    forall i, k :: 0 <= i < |o.classes| && 0 <= k < |o.properties| && o.classes[i].id in o.properties[k].domainIds ==>
      Key(u, o.properties[k].name) == "" || KeyAccepted(o, TakenFor(o, i), Key(u, o.properties[k].name))
  }

  predicate RelationAccepted(o: Ontology, r: ObjectRelation) {
    var schema := RelationOf(o.relations, r.name);
    r.domainIds != [] && r.rangeIds != [] ==>
      schema.Some? && EndAccepted(o, r.domainIds, schema.value.domainIds)
      && EndAccepted(o, r.rangeIds, schema.value.rangeIds)
  }

  predicate RelationsAccepted(o: Ontology) {
    forall k :: 0 <= k < |o.relations| ==> RelationAccepted(o, o.relations[k])
  }

  lemma EntitiesAcceptedExactly(n: Naming, o: Ontology, env: Envelope)
    requires n.u.Lawful() && Conformant(o) && Readable(n.u, o)
    ensures (forall i :: 0 <= i < |o.classes| ==> EntityIssues(o, EntityFor(n, env, o, i)) == {}) <==>
              PropertiesAccepted(n.u, o)
  {
    hide EntityFor;
    hide EntityIssues;
    hide PropertyOf;
    hide Key;
    hide Conformant;
    hide TakenFor;
    hide EntityId;
    hide Readable;
    forall i | 0 <= i < |o.classes|
      ensures EntityIssues(o, EntityFor(n, env, o, i)) == {} <==>
                forall key :: key in DeclaredKeys(n.u, o.properties, o.classes[i].id) ==>
                                KeyAccepted(o, TakenFor(o, i), key)
    {
      TemplateEntityIssues(n, o, env, i);
      KeysAcceptedExactly(o, TakenFor(o, i), DeclaredKeys(n.u, o.properties, o.classes[i].id),
                          EntityId(n, env, o.classes[i].name));
    }
    hide KeyAccepted;
    if PropertiesAccepted(n.u, o) {
      forall i, key | 0 <= i < |o.classes| && key in DeclaredKeys(n.u, o.properties, o.classes[i].id)
        ensures KeyAccepted(o, TakenFor(o, i), key)
      {
        var p :| p in o.properties && o.classes[i].id in p.domainIds && Key(n.u, p.name) == key;
        var k :| 0 <= k < |o.properties| && o.properties[k] == p;
      }
    }
    if forall i :: 0 <= i < |o.classes| ==> EntityIssues(o, EntityFor(n, env, o, i)) == {} {
      forall i, k | 0 <= i < |o.classes| && 0 <= k < |o.properties| && o.classes[i].id in o.properties[k].domainIds
        ensures Key(n.u, o.properties[k].name) == "" || KeyAccepted(o, TakenFor(o, i), Key(n.u, o.properties[k].name))
      {
        assert EntityIssues(o, EntityFor(n, env, o, i)) == {};
        assert o.properties[k] in o.properties;
      }
    }
  }

  lemma KeysAcceptedExactly(o: Ontology, classId: string, keys: set<string>, subject: string)
    ensures IssuesOfKeys(o, classId, keys, subject) == {} <==>
              forall key :: key in keys ==> KeyAccepted(o, classId, key)
  {
    hide PropertyOf;
    if key :| key in keys && !KeyAccepted(o, classId, key) {
      var p := PropertyOf(o.properties, key);
      var v := if p.None? then Violation(EntityUnknownProperty, Warning, subject)
               else Violation(PropertyDomainViolation, Error, subject);
      assert v in PropertyIssue(o, classId, key, subject);
      assert v in IssuesOfKeys(o, classId, keys, subject);
    }
  }

  lemma RelationsAcceptedExactly(n: Naming, o: Ontology, domain: string, knowledgeId: string)
    requires n.u.Lawful() && n.Injective() && Conformant(o) && Readable(n.u, o)
    ensures var g := Normalized(n, Template(o, domain, knowledgeId));
            (forall x :: x in g.relations ==> RelationIssues(o, g.entities, x) == {}) <==> RelationsAccepted(o)
  {
    hide Normalized;
    hide Template;
    hide RelationIssues;
    hide RelationOf;
    hide EndAccepted;
    hide Conformant;
    hide Readable;
    hide EntityId;
    var env := Template(o, domain, knowledgeId);
    var g := Normalized(n, env);
    forall x | x in g.relations && RelationsAccepted(o)
      ensures RelationIssues(o, g.entities, x) == {}
    {
      var k := TemplateRelationsAreDeclared(n, o, domain, knowledgeId, x);
      TemplateRelationIssues(n, o, domain, knowledgeId, k, x);
      assert RelationAccepted(o, o.relations[k]);
    }
    if forall x :: x in g.relations ==> RelationIssues(o, g.entities, x) == {} {
      forall k | 0 <= k < |o.relations| && o.relations[k].domainIds != [] && o.relations[k].rangeIds != []
        ensures RelationAccepted(o, o.relations[k])
      {
        var raw, x := TemplateRelationJoins(n, o, domain, knowledgeId, k);
        RelationIsKept(n, o, domain, knowledgeId, k, raw, x);
        TemplateRelationIssues(n, o, domain, knowledgeId, k, x);
      }
    }
  }

  /**
   The template of a well-formed ontology is a graph that the ontology accepts without remark exactly when
   every key declared for a class names a property open to what the class is taken for, and every declared
   relation with a domain and a range is accepted between what its first end points are taken for.
   */
  lemma TemplateConformsExactly(n: Naming, o: Ontology, domain: string, knowledgeId: string)
    requires n.u.Lawful() && n.Injective() && Conformant(o) && Readable(n.u, o)
    ensures GraphIssues(o, Normalized(n, Template(o, domain, knowledgeId))) == {} <==>
              PropertiesAccepted(n.u, o) && RelationsAccepted(o)
  {
    hide Template;
    hide Normalized;
    hide EntityFor;
    hide EntityIssues;
    hide RelationIssues;
    hide PropertiesAccepted;
    hide RelationsAccepted;
    hide Conformant;
    hide Readable;
    var env := Template(o, domain, knowledgeId);
    var g := Normalized(n, env);
    EntitiesAcceptedExactly(n, o, env);
    RelationsAcceptedExactly(n, o, domain, knowledgeId);
    forall e
      ensures e in g.entities <==> exists i :: 0 <= i < |o.classes| && e == EntityFor(n, env, o, i)
    {
      TemplateEntityMembers(n, o, domain, knowledgeId, e);
    }
    NoIssues(o, g);
    if forall e :: e in g.entities ==> EntityIssues(o, e) == {} {
      forall i | 0 <= i < |o.classes|
        ensures EntityIssues(o, EntityFor(n, env, o, i)) == {}
      {
        assert EntityFor(n, env, o, i) in g.entities;
      }
    }
  }

  lemma NoIssues(o: Ontology, g: Snapshot)
    ensures GraphIssues(o, g) == {} <==>
              && (forall e :: e in g.entities ==> EntityIssues(o, e) == {})
              && (forall x :: x in g.relations ==> RelationIssues(o, g.entities, x) == {})
  {
    hide EntityIssues;
    hide RelationIssues;
    if e :| e in g.entities && EntityIssues(o, e) != {} {
      var v :| v in EntityIssues(o, e);
      assert v in GraphIssues(o, g);
    }
    if x :| x in g.relations && RelationIssues(o, g.entities, x) != {} {
      var v :| v in RelationIssues(o, g.entities, x);
      assert v in GraphIssues(o, g);
    }
  }

  // ---------- Distinct labels ----------

  /** Property labels that differ and come back from parsing as they are. */
  ghost predicate PropertyLabelsDistinct(u: Unicode, o: Ontology) {
    && (forall i, j :: 0 <= i < j < |o.properties| ==> o.properties[i].name != o.properties[j].name)
    && (forall i :: 0 <= i < |o.properties| ==> Key(u, o.properties[i].name) == o.properties[i].name)
  }

  ghost predicate LabelsDistinct(u: Unicode, o: Ontology) {
    && (forall i, j :: 0 <= i < j < |o.classes| ==> o.classes[i].name != o.classes[j].name)
    && PropertyLabelsDistinct(u, o)
    && (forall i, j :: 0 <= i < j < |o.relations| ==> o.relations[i].name != o.relations[j].name)
  }

  lemma {:induction false} ClassOfUnique(classes: seq<OntologyClass>, i: nat)
    requires i < |classes| && forall j, k :: 0 <= j < k < |classes| ==> classes[j].name != classes[k].name
    ensures ClassOf(classes, classes[i].name) == Some(classes[i].id)
  {
    if i < |classes| - 1 {
      assert classes[i].name != classes[|classes| - 1].name;
      ClassOfUnique(classes[..|classes| - 1], i);
    }
  }

  lemma {:induction false} PropertyOfUnique(properties: seq<DataProperty>, i: nat)
    requires i < |properties| && forall j, k :: 0 <= j < k < |properties| ==> properties[j].name != properties[k].name
    ensures PropertyOf(properties, properties[i].name) == Some(properties[i])
  {
    if i < |properties| - 1 {
      assert properties[i].name != properties[|properties| - 1].name;
      PropertyOfUnique(properties[..|properties| - 1], i);
    }
  }

  lemma {:induction false} RelationOfUnique(relations: seq<ObjectRelation>, i: nat)
    requires i < |relations| && forall j, k :: 0 <= j < k < |relations| ==> relations[j].name != relations[k].name
    ensures RelationOf(relations, relations[i].name) == Some(relations[i])
  {
    if i < |relations| - 1 {
      assert relations[i].name != relations[|relations| - 1].name;
      RelationOfUnique(relations[..|relations| - 1], i);
    }
  }

  lemma DistinctLabelsAreAccepted(u: Unicode, o: Ontology)
    requires Conformant(o) && Readable(u, o) && LabelsDistinct(u, o)
    ensures PropertiesAccepted(u, o) && RelationsAccepted(o)
  {
    hide Key;
    forall i | 0 <= i < |o.classes|
      ensures TakenFor(o, i) == o.classes[i].id
    {
      ClassOfUnique(o.classes, i);
    }
    hide ClassOf;
    forall i, k | 0 <= i < |o.classes| && 0 <= k < |o.properties| && o.classes[i].id in o.properties[k].domainIds
      ensures KeyAccepted(o, TakenFor(o, i), Key(u, o.properties[k].name))
    {
      PropertyOfUnique(o.properties, k);
    }
    forall k | 0 <= k < |o.relations| && o.relations[k].domainIds != [] && o.relations[k].rangeIds != []
      ensures RelationAccepted(o, o.relations[k])
    {
      RelationOfUnique(o.relations, k);
      var source, target := EndPoints(o, k);
      ClassReady(u, o, source);
      ClassReady(u, o, target);
    }
  }

  /** In particular nothing is reported when labels are distinct and parse back as they are. */
  lemma CompiledTemplateConforms(n: Naming, o: Ontology, domain: string, knowledgeId: string)
    requires n.u.Lawful() && n.Injective() && Conformant(o) && Readable(n.u, o) && LabelsDistinct(n.u, o)
    ensures GraphIssues(o, Normalized(n, Template(o, domain, knowledgeId))) == {}
  {
    hide *;
    DistinctLabelsAreAccepted(n.u, o);
    TemplateConformsExactly(n, o, domain, knowledgeId);
  }

  // ---------- Nothing is lost ----------

  ghost predicate HoldsClass(u: Unicode, g: Snapshot, o: Ontology, c: OntologyClass) {
    exists e :: e in g.entities && e.businessType == c.name && e.properties.Keys == DeclaredKeys(u, o.properties, c.id)
  }

  ghost predicate HoldsRelation(n: Naming, env: Envelope, g: Snapshot, o: Ontology, k: nat)
    requires k < |o.relations|
  {
    exists x :: x in g.relations && Declared(n, env, o, k, x)
  }

  /**
   Nothing is lost on the way: one entity per class, carrying exactly the keys of the properties
   declared for it, and a relation for every declared one with a domain and a range.
   */
  lemma TemplateKeepsTheOntology(n: Naming, o: Ontology, domain: string, knowledgeId: string)
    requires n.u.Lawful() && Conformant(o) && Readable(n.u, o)
    ensures var env := Template(o, domain, knowledgeId);
            var g := Normalized(n, env);
            && |g.entities| == |o.classes|
            && (forall i :: 0 <= i < |o.classes| ==> HoldsClass(n.u, g, o, o.classes[i]))
            && (forall k :: 0 <= k < |o.relations| ==>
                  |o.relations[k].domainIds| > 0 && |o.relations[k].rangeIds| > 0 ==> HoldsRelation(n, env, g, o, k))
  {
    hide Trimmed;
    var env := Template(o, domain, knowledgeId);
    var g := Normalized(n, env);
    TemplateSize(n, o, domain, knowledgeId);
    forall i | 0 <= i < |o.classes|
      ensures HoldsClass(n.u, g, o, o.classes[i])
    {
      ClassReady(n.u, o, i);
      ClassEntity(n, env, o.classes[i], o.properties);
      TemplateEntityMembers(n, o, domain, knowledgeId, EntityFor(n, env, o, i));
    }
    forall k | 0 <= k < |o.relations| && |o.relations[k].domainIds| > 0 && |o.relations[k].rangeIds| > 0
      ensures HoldsRelation(n, env, g, o, k)
    {
      var raw, x := TemplateRelationJoins(n, o, domain, knowledgeId, k);
      RelationIsKept(n, o, domain, knowledgeId, k, raw, x);
    }
  }

  lemma TemplateSize(n: Naming, o: Ontology, domain: string, knowledgeId: string)
    ensures |Normalized(n, Template(o, domain, knowledgeId)).entities| == |o.classes|
  {
    hide Sort;
    hide NodeEntity;
    hide TemplateNode;
    var env := Template(o, domain, knowledgeId);
    SortMultiset(TemplateNodes(o.classes, o.properties), NodeOrder());
    SortMultiset(NodeEntities(n, env), EntityOrder());
  }

  lemma RelationIsKept(n: Naming, o: Ontology, domain: string, knowledgeId: string, k: nat, raw: GraphRelation,
                       x: Relation)
    requires k < |o.relations| && Resolvable(o.classes, o.relations[k]) && raw
        == TemplateRelation(o.classes, o.relations[k])
    requires Joins(n, Template(o, domain, knowledgeId), raw, x)
    ensures x in Normalized(n, Template(o, domain, knowledgeId)).relations
  {
    hide NodeEntities;
    hide NodeRelations;
    hide TemplateRelations;
    hide TemplateRelation;
    hide Resolvable;
    hide Joins;
    hide Sort;
    var env := Template(o, domain, knowledgeId);
    SortMembers(TemplateRelations(o.classes, o.relations), RelationOrder());
    TemplateRelationMembers(o.classes, o.relations, raw);
    SortMembers(NodeRelations(n, env, env.relations), RelationIdOrder());
    var j :| 0 <= j < |env.relations| && env.relations[j] == raw;
    NodeRelationMembers(n, env, env.relations, x);
  }

  // ---------- What is reported ----------

  /** A key that the ontology does not accept for what the class is taken for is reported at the class's entity. */
  lemma RefusedKeyIsReported(n: Naming, o: Ontology, domain: string, knowledgeId: string, i: nat, k: nat)
    requires n.u.Lawful() && Conformant(o) && Readable(n.u, o)
    requires i < |o.classes| && k < |o.properties| && o.classes[i].id in o.properties[k].domainIds
    requires Key(n.u, o.properties[k].name) != "" && !KeyAccepted(o, TakenFor(o, i), Key(n.u, o.properties[k].name))
    ensures var env := Template(o, domain, knowledgeId);
            var subject := EntityId(n, env, o.classes[i].name);
            var known := PropertyOf(o.properties, Key(n.u, o.properties[k].name));
            (if known.None? then Violation(EntityUnknownProperty, Warning, subject)
             else Violation(PropertyDomainViolation, Error, subject)) in GraphIssues(o, Normalized(n, env))
  {
    hide Template;
    hide Normalized;
    hide EntityFor;
    hide EntityIssues;
    hide RelationIssues;
    hide Key;
    hide TakenFor;
    hide EntityId;
    hide PropertyOf;
    hide Conformant;
    hide Readable;
    var env := Template(o, domain, knowledgeId);
    var subject, key := EntityId(n, env, o.classes[i].name), Key(n.u, o.properties[k].name);
    var v := if PropertyOf(o.properties, key).None? then Violation(EntityUnknownProperty, Warning, subject)
             else Violation(PropertyDomainViolation, Error, subject);
    TemplateEntityMembers(n, o, domain, knowledgeId, EntityFor(n, env, o, i));
    TemplateEntityIssues(n, o, env, i);
    assert v in PropertyIssue(o, TakenFor(o, i), key, subject);
    assert o.properties[k] in o.properties;
    assert key in DeclaredKeys(n.u, o.properties, o.classes[i].id);
    assert v in EntityIssues(o, EntityFor(n, env, o, i));
  }

  /** A property of the first of two classes with one label, but not of the second, is a domain violation. */
  lemma SharedClassLabelIsReported(n: Naming, o: Ontology, domain: string, knowledgeId: string, i: nat, k: nat)
    requires n.u.Lawful() && Conformant(o) && Readable(n.u, o) && PropertyLabelsDistinct(n.u, o)
    requires i < |o.classes| && k < |o.properties| && o.properties[k].name != ""
    requires o.classes[i].id in o.properties[k].domainIds && TakenFor(o, i) !in o.properties[k].domainIds
    ensures var env := Template(o, domain, knowledgeId);
            Violation(PropertyDomainViolation, Error, EntityId(n, env, o.classes[i].name))
            in GraphIssues(o, Normalized(n, env))
  {
    hide Template;
    hide Normalized;
    hide GraphIssues;
    hide Key;
    hide TakenFor;
    hide EntityId;
    hide Conformant;
    hide Readable;
    PropertyOfUnique(o.properties, k);
    RefusedKeyIsReported(n, o, domain, knowledgeId, i, k);
  }

  /** A label cut at an equals sign or trimmed is reported as unknown unless what is left is a label too. */
  lemma LostLabelIsReported(n: Naming, o: Ontology, domain: string, knowledgeId: string, i: nat, k: nat)
    requires n.u.Lawful() && Conformant(o) && Readable(n.u, o)
    requires i < |o.classes| && k < |o.properties| && o.classes[i].id in o.properties[k].domainIds
    requires Key(n.u, o.properties[k].name) != "" && PropertyOf(o.properties, Key(n.u, o.properties[k].name)) == None
    ensures var env := Template(o, domain, knowledgeId);
            Violation(EntityUnknownProperty, Warning, EntityId(n, env, o.classes[i].name))
            in GraphIssues(o, Normalized(n, env))
  {
    hide Template;
    hide Normalized;
    hide GraphIssues;
    hide Key;
    hide TakenFor;
    hide EntityId;
    hide Conformant;
    hide Readable;
    RefusedKeyIsReported(n, o, domain, knowledgeId, i, k);
  }
}
