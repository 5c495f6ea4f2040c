/**
 Normalization of an extracted graph: node attributes become a type, a key, aliases and properties,
 nodes become entities, and relations between known nodes get the evidence of their end points.
 */
module GraphNormalizer {
  import opened Wrappers
  import opened Text
  import opened Sorting
  import opened Identity
  import opened GraphModel
  import opened TemplateCompiler

  datatype Envelope = Envelope(
    domain: string, knowledgeId: string, nodes: seq<GraphNode>, relations: seq<GraphRelation>)

  // ---------- Attributes ----------

  datatype Attributes = Attributes(props: map<string, Value>, reserved: map<string, string>)

  function WithAttribute(u: Unicode, a: Attributes, raw: string): Attributes {
    var s := u.Trim(raw);
    var at := IndexOf(s, '=');
    IndexOfBounds(s, '=');
    if s == "" then a
    else if at == |s| then a.(props := a.props[s := Value("bool", "true")])
    else
      var key, value := u.Trim(s[..at]), u.Trim(s[at + 1..]);
      if "__" <= key then a.(reserved := a.reserved[key := value])
      else if key != "" then a.(props := a.props[key := Value("string", value)])
      else a
  }

  function Parsed(u: Unicode, attributes: seq<string>): Attributes {
    if attributes == [] then Attributes(map[], map[])
    else WithAttribute(u, Parsed(u, attributes[..|attributes| - 1]), attributes[|attributes| - 1])
  }

  method FirstIndex(s: string, c: char) returns (at: nat)
    ensures at == IndexOf(s, c)
  {
    at := 0;
    while at < |s| && s[at] != c
      invariant at <= |s| && IndexOf(s, c) == at + IndexOf(s[at..], c)
    {
      assert s[at..][1..] == s[at + 1..];
      at := at + 1;
    }
  }

  method ParseAttributes(u: Unicode, attributes: seq<string>)
    returns (props: map<string, Value>, reserved: map<string, string>)
    ensures Attributes(props, reserved) == Parsed(u, attributes)
  {
    hide Unicode.Trim;
    hide IndexOf;
    props, reserved := map[], map[];
    for n := 0 to |attributes|
      invariant Attributes(props, reserved) == Parsed(u, attributes[..n])
    {
      assert attributes[..n + 1][..n] == attributes[..n];
      var s := u.Trim(attributes[n]);
      if s == "" {
        continue;
      }
      var at := FirstIndex(s, '=');
      IndexOfBounds(s, '=');
      if at == |s| {
        props := props[s := Value("bool", "true")];
        continue;
      }
      var key, value := u.Trim(s[..at]), u.Trim(s[at + 1..]);
      if "__" <= key {
        reserved := reserved[key := value];
        continue;
      }
      if key != "" {
        props := props[key := Value("string", value)];
      }
    }
    assert attributes[..|attributes|] == attributes;
  }

  // ---------- Nodes ----------

  predicate Separator(c: char) {
    c == ',' || c == '，' || c == ';' || c == '；' || c == '|'
  }

  /** The stretches of text between separators, the last of them taken so far as `word`. */
  function Fields(s: string, word: string): seq<string> {
    if s == "" then [word]
    else if Separator(s[0]) then [word] + Fields(s[1..], "")
    else Fields(s[1..], word + [s[0]])
  }

  /** Blank stretches between separators disappear with the other blanks. */
  function SplitList(u: Unicode, s: string): seq<string> {
    if u.Blank(s) then [] else UniqueSorted(u, Fields(s, ""))
  }

  function ReservedText(u: Unicode, a: Attributes, key: string): string {
    u.Trim(if key in a.reserved then a.reserved[key] else "")
  }

  function DomainOf(u: Unicode, env: Envelope): string {
    if u.Blank(env.domain) then "default" else u.Trim(env.domain)
  }

  function NodeType(u: Unicode, raw: GraphNode): string {
    var declared := ReservedText(u, Parsed(u, raw.attributes), "__type__");
    if declared == "" then UNCLASSIFIED else declared
  }

  function ChunkEvidence(n: Naming, domain: string, knowledgeId: string, prefix: string,
                         chunks: seq<string>): seq<Evidence> {
    seq(|chunks|, i requires 0 <= i < |chunks| =>
      Evidence(n.StableId(prefix, domain, knowledgeId + "\0" + chunks[i]), "weknora", "", chunks[i]))
  }

  function NodeEntity(n: Naming, env: Envelope, raw: GraphNode): Entity {
    var u, domain := n.u, DomainOf(n.u, env);
    var a := Parsed(u, raw.attributes);
    var businessType := NodeType(u, raw);
    var declaredId := ReservedText(u, a, "__id__");
    Entity(if declaredId == "" then n.StableId("ent", domain, businessType + "\0" + raw.name) else declaredId,
           u.Trim(raw.name), businessType, n.StableId("cls", domain, businessType),
           SplitList(u, if "__aliases__" in a.reserved then a.reserved["__aliases__"] else ""),
           ReservedText(u, a, "__business_key__"), a.props,
           ChunkEvidence(n, domain, env.knowledgeId, "ev", UniqueSorted(u, raw.chunks)))
  }

  function NodeEntities(n: Naming, env: Envelope): seq<Entity> {
    seq(|env.nodes|, i requires 0 <= i < |env.nodes| => NodeEntity(n, env, env.nodes[i]))
  }

  // ---------- Relations ----------

  /** The last node with the name. */
  function NamedNode(u: Unicode, nodes: seq<GraphNode>, name: string): Option<GraphNode> {
    if nodes == [] then None
    else if u.Trim(nodes[|nodes| - 1].name) == name then Some(nodes[|nodes| - 1])
    else NamedNode(u, nodes[..|nodes| - 1], name)
  }

  function ChunksOf(u: Unicode, raw: GraphNode): set<string> {
    set c | c in UniqueSorted(u, raw.chunks)
  }

  /** A relation rests on the chunks its end points share, or else on all chunks of both. */
  function SupportingChunks(left: set<string>, right: set<string>): set<string> {
    if left * right != {} then left * right else left + right
  }

  ghost function RelationOfNodes(n: Naming, env: Envelope, kind: string, source: GraphNode,
                                 target: GraphNode): Relation {
    var domain := DomainOf(n.u, env);
    var from, to := NodeEntity(n, env, source).id, NodeEntity(n, env, target).id;
    Relation(n.StableId("rel", domain, from + "\0" + kind + "\0" + to), from, to, kind, n.StableId("obj", domain, kind),
             ChunkEvidence(n, domain, env.knowledgeId, "evrel",
                           Listing(SupportingChunks(ChunksOf(n.u, source), ChunksOf(n.u, target)))))
  }

  /** Relations with an unknown end point are dropped. */
  ghost function NodeRelations(n: Naming, env: Envelope, relations: seq<GraphRelation>): seq<Relation> {
    if relations == [] then []
    else
      var raw := relations[|relations| - 1];
      var init := NodeRelations(n, env, relations[..|relations| - 1]);
      var source := NamedNode(n.u, env.nodes, n.u.Trim(raw.node1));
      var target := NamedNode(n.u, env.nodes, n.u.Trim(raw.node2));
      if source.Some? && target.Some?
      then init + [RelationOfNodes(n, env, n.u.Trim(raw.kind), source.value, target.value)] else init
  }

  function EntityOrder(): (Entity, Entity) -> bool {
    (a: Entity, b: Entity) => Before(a.id, b.id)
  }

  function RelationIdOrder(): (Relation, Relation) -> bool {
    (a: Relation, b: Relation) => Before(a.id, b.id)
  }

  ghost function Normalized(n: Naming, env: Envelope): Snapshot {
    Snapshot(DomainOf(n.u, env), Sort(NodeEntities(n, env), EntityOrder()),
             Sort(NodeRelations(n, env, env.relations), RelationIdOrder()))
  }

  method CiteChunks(n: Naming, domain: string, knowledgeId: string, prefix: string, chunks: seq<string>)
    returns (out: seq<Evidence>)
    ensures out == ChunkEvidence(n, domain, knowledgeId, prefix, chunks)
  {
    out := [];
    for i := 0 to |chunks|
      invariant out == ChunkEvidence(n, domain, knowledgeId, prefix, chunks[..i])
    {
      out := out + [Evidence(n.StableId(prefix, domain, knowledgeId + "\0" + chunks[i]), "weknora", "", chunks[i])];
    }
    assert chunks[..|chunks|] == chunks;
  }

  method NormalizeNode(n: Naming, env: Envelope, domain: string, raw: GraphNode)
    returns (entity: Entity, chunkSet: set<string>)
    requires domain == DomainOf(n.u, env)
    ensures entity == NodeEntity(n, env, raw) && chunkSet == ChunksOf(n.u, raw)
  {
    hide ReservedText;
    hide SplitList;
    hide UniqueSorted;
    hide ChunkEvidence;
    hide Parsed;
    var u := n.u;
    var props, reserved := ParseAttributes(u, raw.attributes);
    var attributes := Attributes(props, reserved);
    var businessType := ReservedText(u, attributes, "__type__");
    if businessType == "" {
      businessType := UNCLASSIFIED;
    }
    var entityId := ReservedText(u, attributes, "__id__");
    if entityId == "" {
      entityId := n.StableId("ent", domain, businessType + "\0" + raw.name);
    }
    var aliases := SplitList(u, if "__aliases__" in reserved then reserved["__aliases__"] else "");
    var chunks := UniqueSorted(u, raw.chunks);
    chunkSet := set c | c in chunks;
    var evidence := CiteChunks(n, domain, env.knowledgeId, "ev", chunks);
    entity := Entity(entityId, u.Trim(raw.name), businessType, n.StableId("cls", domain, businessType), aliases,
                     ReservedText(u, attributes, "__business_key__"), props, evidence);
  }

  method DeriveRelationEvidence(n: Naming, domain: string, knowledgeId: string, left: set<string>, right: set<string>)
    returns (out: seq<Evidence>)
    ensures out == ChunkEvidence(n, domain, knowledgeId, "evrel", Listing(SupportingChunks(left, right)))
  {
    hide ChunkEvidence;
    hide Listing;
    var shared := left * right;
    var chunks := SortedKeys(shared);
    if |chunks| == 0 {
      assert shared == {} by {
        assert forall c :: c in shared ==> c in chunks;
      }
      chunks := SortedKeys(left + right);
    } else {
      assert chunks[0] in shared;
    }
    out := CiteChunks(n, domain, knowledgeId, "evrel", chunks);
  }

  /** The maps by name hold the last node of each name. */
  ghost predicate Indexed(n: Naming, env: Envelope, nodes: seq<GraphNode>, byName: map<string, Entity>,
                          chunksByName: map<string, set<string>>) {
    forall name ::
      && (name in byName <==> NamedNode(n.u, nodes, name).Some?)
      && (name in byName ==>
            && name in chunksByName && byName[name].name == name
            && byName[name] == NodeEntity(n, env, NamedNode(n.u, nodes, name).value)
            && chunksByName[name] == ChunksOf(n.u, NamedNode(n.u, nodes, name).value))
  }

  lemma IndexOneMore(n: Naming, env: Envelope, nodes: seq<GraphNode>, raw: GraphNode, byName: map<string, Entity>,
                     chunksByName: map<string, set<string>>)
    requires Indexed(n, env, nodes, byName, chunksByName)
    ensures var e := NodeEntity(n, env, raw);
            Indexed(n, env, nodes + [raw], byName[e.name := e], chunksByName[e.name := ChunksOf(n.u, raw)])
  {
    hide ChunksOf;
    hide NodeEntity;
    hide Unicode.Trim;
    EntityIsNamed(n, env, raw);
    assert (nodes + [raw])[..|nodes|] == nodes;
  }

  lemma EntityIsNamed(n: Naming, env: Envelope, raw: GraphNode)
    ensures NodeEntity(n, env, raw).name == n.u.Trim(raw.name)
  {
  }

  method NormalizeNodes(n: Naming, env: Envelope)
    returns (entities: seq<Entity>, byName: map<string, Entity>, chunksByName: map<string, set<string>>)
    ensures entities == NodeEntities(n, env) && Indexed(n, env, env.nodes, byName, chunksByName)
  {
    hide NodeEntity;
    entities, byName, chunksByName := [], map[], map[];
    for i := 0 to |env.nodes|
      invariant |entities| == i && forall j :: 0 <= j < i ==> entities[j] == NodeEntity(n, env, env.nodes[j])
      invariant Indexed(n, env, env.nodes[..i], byName, chunksByName)
    {
      hide ChunksOf;
      hide Indexed;
      assert env.nodes[..i + 1] == env.nodes[..i] + [env.nodes[i]];
      var entity, chunkSet := NormalizeNode(n, env, DomainOf(n.u, env), env.nodes[i]);
      IndexOneMore(n, env, env.nodes[..i], env.nodes[i], byName, chunksByName);
      entities := entities + [entity];
      byName := byName[entity.name := entity];
      chunksByName := chunksByName[entity.name := chunkSet];
    }
    assert env.nodes[..|env.nodes|] == env.nodes;
  }

  method NormalizeRelation(n: Naming, env: Envelope, domain: string, raw: GraphRelation, byName: map<string, Entity>,
                           chunksByName: map<string, set<string>>)
    returns (r: Option<Relation>)
    requires domain == DomainOf(n.u, env) && Indexed(n, env, env.nodes, byName, chunksByName)
    ensures var source := NamedNode(n.u, env.nodes, n.u.Trim(raw.node1));
            var target := NamedNode(n.u, env.nodes, n.u.Trim(raw.node2));
            r == if source.Some? && target.Some?
                 then Some(RelationOfNodes(n, env, n.u.Trim(raw.kind), source.value, target.value)) else None
  {
    hide NodeEntity;
    hide ChunksOf;
    hide Listing;
    hide NamedNode;
    var node1, node2 := n.u.Trim(raw.node1), n.u.Trim(raw.node2);
    if node1 !in byName || node2 !in byName {
      return None;
    }
    var source, target := byName[node1], byName[node2];
    var evidence := DeriveRelationEvidence(n, domain, env.knowledgeId, chunksByName[source.name],
                                           chunksByName[target.name]);
    var kind := n.u.Trim(raw.kind);
    r := Some(Relation(n.StableId("rel", domain, source.id + "\0" + kind + "\0" + target.id),
                       source.id, target.id, kind, n.StableId("obj", domain, kind), evidence));
  }

  method Normalize(n: Naming, env: Envelope) returns (snapshot: Snapshot)
    ensures snapshot == Normalized(n, env)
  {
    hide NodeEntity;
    hide RelationOfNodes;
    hide NamedNode;
    hide Indexed;
    hide Sort;
    var domain := DomainOf(n.u, env);
    var entities, byName, chunksByName := NormalizeNodes(n, env);
    var relations: seq<Relation> := [];
    for i := 0 to |env.relations|
      invariant relations == NodeRelations(n, env, env.relations[..i])
    {
      assert env.relations[..i + 1][..i] == env.relations[..i];
      var relation := NormalizeRelation(n, env, domain, env.relations[i], byName, chunksByName);
      if relation.None? {
        continue;
      }
      relations := relations + [relation.value];
    }
    assert env.relations[..|env.relations|] == env.relations;
    snapshot := Snapshot(domain, Sort(entities, EntityOrder()), Sort(relations, RelationIdOrder()));
  }
}
