/** Entities, relations and snapshots as every graph component exchanges them. */
module GraphModel {
  /** An untyped property value: its dynamic kind and the text it prints as. */
  datatype Value = Value(kind: string, text: string)

  datatype Evidence = Evidence(id: string, source: string, sourceId: string, chunkId: string)

  datatype Entity = Entity(
    id: string, name: string, businessType: string, typeId: string, aliases: seq<string>, businessKey: string,
    properties: map<string, Value>, evidence: seq<Evidence>)

  datatype Relation = Relation(
    id: string, sourceId: string, targetId: string, businessType: string, typeId: string, evidence: seq<Evidence>)

  datatype Snapshot = Snapshot(domain: string, entities: seq<Entity>, relations: seq<Relation>)

  /** The type of entities that declare none. */
  const UNCLASSIFIED := "未分类实体"

  ghost predicate DistinctIds(s: seq<Entity>) {
    forall i, j :: 0 <= i < j < |s| ==> s[i].id != s[j].id
  }

  ghost function Ids(s: seq<Entity>): set<string> {
    set e | e in s :: e.id
  }

  lemma IdsExtend(s: seq<Entity>, e: Entity)
    ensures Ids(s + [e]) == Ids(s) + {e.id}
  {
    forall id | id in Ids(s) + {e.id}
      ensures id in Ids(s + [e])
    {
      if id == e.id {
        assert e in s + [e];
      } else {
        var x :| x in s && x.id == id;
        assert x in s + [e];
      }
    }
  }
}
