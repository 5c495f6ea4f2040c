/**
 Compilation of an ontology into the extraction template: one template node per class, carrying its
 type and the properties declared for it, and one template relation per relation with a domain and a
 range. The prose instructions sent along are not part of this model.
 */
module TemplateCompiler {
  import opened Text
  import opened Sorting
  import opened OntologyModel

  datatype GraphNode = GraphNode(name: string, chunks: seq<string>, attributes: seq<string>)

  datatype GraphRelation = GraphRelation(node1: string, node2: string, kind: string)

  datatype ExtractConfig = ExtractConfig(tags: seq<string>, nodes: seq<GraphNode>, relations: seq<GraphRelation>)

  const TYPE_ATTRIBUTE := "__type__="
  const FROM_TEXT := "=<按原文抽取>"

  function NodeName(name: string): string {
    "<" + name + "实体>"
  }

  /** The label of the last class with the id, empty if there is none. */
  function ClassLabel(classes: seq<OntologyClass>, id: string): string {
    if classes == [] then ""
    else
      var c := classes[|classes| - 1];
      if c.id == id then c.name else ClassLabel(classes[..|classes| - 1], id)
  }

  function PropertyAttributes(properties: seq<DataProperty>, classId: string): seq<string> {
    if properties == [] then []
    else
      var p := properties[|properties| - 1];
      var init := PropertyAttributes(properties[..|properties| - 1], classId);
      if classId in p.domainIds then init + [p.name + FROM_TEXT] else init
  }

  function TemplateNode(c: OntologyClass, properties: seq<DataProperty>): GraphNode {
    GraphNode(NodeName(c.name), [],
              [TYPE_ATTRIBUTE + c.name] + SortStrings(PropertyAttributes(properties, c.id)))
  }

  function TemplateNodes(classes: seq<OntologyClass>, properties: seq<DataProperty>): seq<GraphNode> {
    seq(|classes|, i requires 0 <= i < |classes| => TemplateNode(classes[i], properties))
  }

  function Tags(classes: seq<OntologyClass>): seq<string> {
    seq(|classes|, i requires 0 <= i < |classes| => classes[i].name)
  }

  predicate Resolvable(classes: seq<OntologyClass>, r: ObjectRelation) {
    && |r.domainIds| > 0 && |r.rangeIds| > 0
    && ClassLabel(classes, r.domainIds[0]) != "" && ClassLabel(classes, r.rangeIds[0]) != ""
  }

  function TemplateRelation(classes: seq<OntologyClass>, r: ObjectRelation): GraphRelation
    requires Resolvable(classes, r)
  {
    GraphRelation(NodeName(ClassLabel(classes, r.domainIds[0])), NodeName(ClassLabel(classes, r.rangeIds[0])), r.name)
  }

  function TemplateRelations(classes: seq<OntologyClass>, relations: seq<ObjectRelation>): seq<GraphRelation> {
    if relations == [] then []
    else
      var r := relations[|relations| - 1];
      var init := TemplateRelations(classes, relations[..|relations| - 1]);
      if Resolvable(classes, r) then init + [TemplateRelation(classes, r)] else init
  }

  function NodeOrder(): (GraphNode, GraphNode) -> bool {
    (a: GraphNode, b: GraphNode) => Before(a.name, b.name)
  }

  function RelationOrder(): (GraphRelation, GraphRelation) -> bool {
    (a: GraphRelation, b: GraphRelation) =>
      if a.kind == b.kind then Before(a.node1, b.node1) else Before(a.kind, b.kind)
  }

  function Compiled(o: Ontology): ExtractConfig {
    ExtractConfig(SortStrings(Tags(o.classes)),
                  Sort(TemplateNodes(o.classes, o.properties), NodeOrder()),
                  Sort(TemplateRelations(o.classes, o.relations), RelationOrder()))
  }

  method CompileNode(c: OntologyClass, properties: seq<DataProperty>) returns (node: GraphNode)
    ensures node == TemplateNode(c, properties)
  {
    var attributes: seq<string> := [];
    for n := 0 to |properties|
      invariant attributes == PropertyAttributes(properties[..n], c.id)
    {
      assert properties[..n + 1][..n] == properties[..n];
      if c.id in properties[n].domainIds {
        attributes := attributes + [properties[n].name + FROM_TEXT];
      }
    }
    assert properties[..|properties|] == properties;
    node := GraphNode(NodeName(c.name), [], [TYPE_ATTRIBUTE + c.name] + SortStrings(attributes));
  }

  method CompileRelations(relations: seq<ObjectRelation>, classes: seq<OntologyClass>, classLabel: map<string, string>)
    returns (out: seq<GraphRelation>)
    requires forall id :: (if id in classLabel then classLabel[id] else "") == ClassLabel(classes, id)
    ensures out == TemplateRelations(classes, relations)
  {
    out := [];
    for n := 0 to |relations|
      invariant out == TemplateRelations(classes, relations[..n])
    {
      assert relations[..n + 1][..n] == relations[..n];
      var r := relations[n];
      if |r.domainIds| == 0 || |r.rangeIds| == 0 {
        continue;
      }
      var domainLabel := if r.domainIds[0] in classLabel then classLabel[r.domainIds[0]] else "";
      var rangeLabel := if r.rangeIds[0] in classLabel then classLabel[r.rangeIds[0]] else "";
      if domainLabel == "" || rangeLabel == "" {
        continue;
      }
      out := out + [GraphRelation(NodeName(domainLabel), NodeName(rangeLabel), r.name)];
    }
    assert relations[..|relations|] == relations;
  }

  method CompileWeKnora(o: Ontology) returns (config: ExtractConfig)
    ensures config == Compiled(o)
  {
    var classLabel: map<string, string> := map[];
    var tags: seq<string> := [];
    var nodes: seq<GraphNode> := [];
    for n := 0 to |o.classes|
      invariant forall id :: (if id in classLabel then classLabel[id] else "") == ClassLabel(o.classes[..n], id)
      invariant tags == Tags(o.classes[..n]) && nodes == TemplateNodes(o.classes[..n], o.properties)
    {
      var c := o.classes[n];
      assert o.classes[..n + 1][..n] == o.classes[..n];
      classLabel := classLabel[c.id := c.name];
      tags := tags + [c.name];
      var node := CompileNode(c, o.properties);
      nodes := nodes + [node];
    }
    assert o.classes[..|o.classes|] == o.classes;
    var relations := CompileRelations(o.relations, o.classes, classLabel);
    config := ExtractConfig(SortStrings(tags), Sort(nodes, NodeOrder()), Sort(relations, RelationOrder()));
  }
}
