/**
 Deterministic entity resolution: one pass groups entities by a computed key and merges each into the
 first of its group. `Folded` is the pass as a function of the input; the `Resolve` method is the pass
 as the source runs it, with property conflicts found in any order.
 */
module EntityResolver {
  import opened Text
  import opened Sorting
  import opened GraphModel

  datatype Conflict = Conflict(
    canonicalId: string, property: string, existing: Value, incoming: Value, sourceId: string)
  datatype Group = Group(canonical: Entity, members: seq<Entity>)

  datatype Resolution = Resolution(
    entities: seq<Entity>, idMap: map<string, string>, groups: seq<Group>, conflicts: multiset<Conflict>,
    index: map<string, nat>)

  // ---------- Identity keys ----------

  /** The least non-empty normalized name, or "" when no name is usable. */
  function LeastName(u: Unicode, names: seq<string>): string {
    if names == [] then ""
    else
      var least := LeastName(u, names[..|names| - 1]);
      var x := u.Normalize(names[|names| - 1]);
      if x != "" && (least == "" || Before(x, least)) then x else least
  }

  function Names(e: Entity): seq<string> {
    [e.name] + e.aliases
  }

  function IdentityKey(u: Unicode, e: Entity): string {
    if !u.Blank(e.businessKey) then "business:" + e.typeId + ":" + u.Normalize(e.businessKey)
    else
      var name := LeastName(u, Names(e));
      if name == "" then "id:" + e.id else "name:" + e.typeId + ":" + name
  }

  // ---------- Merging ----------

  function NormalizedValue(u: Unicode, v: Value): string {
    u.Normalize(v.text)
  }

  predicate Differs(u: Unicode, dst: Entity, src: Entity, p: string) {
    p in dst.properties && p in src.properties
    && NormalizedValue(u, dst.properties[p]) != NormalizedValue(u, src.properties[p])
  }

  /** The evidence of both lists, the first of each id kept. */
  function MergeEvidence(all: seq<Evidence>): seq<Evidence> {
    if all == [] then []
    else
      var kept := MergeEvidence(all[..|all| - 1]);
      var e := all[|all| - 1];
      if exists i :: 0 <= i < |kept| && kept[i].id == e.id then kept else kept + [e]
  }

  /** The properties once those of `src` named in `done` have been merged. */
  function MergeProperties(u: Unicode, dst: Entity, src: Entity, done: set<string>): map<string, Value> {
    map p | p in dst.properties.Keys + (src.properties.Keys * done) ::
      if p in src.properties && p in done && !Differs(u, dst, src, p) then src.properties[p] else dst.properties[p]
  }

  function Merge(u: Unicode, dst: Entity, src: Entity): Entity {
    dst.(aliases := SortStrings(UniqueNonEmpty(u, dst.aliases + src.aliases + [src.name])),
         evidence := MergeEvidence(dst.evidence + src.evidence),
         properties := MergeProperties(u, dst, src, src.properties.Keys))
  }

  function ConflictOn(dst: Entity, src: Entity, p: string): Conflict
    requires p in dst.properties && p in src.properties
  {
    Conflict(dst.id, p, dst.properties[p], src.properties[p], src.id)
  }

  /** The clashes found once the properties of `src` named in `done` have been merged. */
  function MergeConflicts(u: Unicode, dst: Entity, src: Entity, done: set<string>): set<Conflict> {
    set p | p in done && Differs(u, dst, src, p) :: ConflictOn(dst, src, p)
  }

  // ---------- The pass ----------

  /** Adds a merged member to the first group of that canonical id, or opens one. */
  function AddMember(groups: seq<Group>, canonical: Entity, member: Entity): seq<Group> {
    if groups == [] then [Group(canonical, [member])]
    else if groups[0].canonical.id == canonical.id then [Group(canonical, groups[0].members + [member])] + groups[1..]
    else [groups[0]] + AddMember(groups[1..], canonical, member)
  }

  const Nothing := Resolution([], map[], [], multiset{}, map[])

  function Step(u: Unicode, r: Resolution, e: Entity): Resolution {
    var key := IdentityKey(u, e);
    if key in r.index && r.index[key] < |r.entities| then
      var canonical := r.entities[r.index[key]];
      var merged := Merge(u, canonical, e);
      r.(entities := r.entities[r.index[key] := merged],
         idMap := r.idMap[e.id := canonical.id],
         conflicts := r.conflicts + multiset(MergeConflicts(u, canonical, e, e.properties.Keys)),
         groups := AddMember(r.groups, merged, e))
    else
      r.(entities := r.entities + [e], idMap := r.idMap[e.id := e.id], index := r.index[key := |r.entities|])
  }

  function Folded(u: Unicode, input: seq<Entity>): Resolution {
    if input == [] then Nothing else Step(u, Folded(u, input[..|input| - 1]), input[|input| - 1])
  }

  function IdOrder(): (Entity, Entity) -> bool {
    (a: Entity, b: Entity) => Before(a.id, b.id)
  }

  function Resolved(u: Unicode, input: seq<Entity>): Resolution {
    var r := Folded(u, input);
    r.(entities := Sort(r.entities, IdOrder()))
  }

  /** The key index always points into the entity list. */
  ghost predicate IndexInRange(r: Resolution) {
    forall k :: k in r.index ==> r.index[k] < |r.entities|
  }

  lemma {:induction false} FoldedIndexInRange(u: Unicode, input: seq<Entity>)
    ensures IndexInRange(Folded(u, input))
  {
    if input != [] {
      FoldedIndexInRange(u, input[..|input| - 1]);
    }
  }

  // ---------- The pass as the source runs it ----------

  lemma MergeOneProperty(u: Unicode, dst: Entity, src: Entity, done: set<string>, p: string)
    requires done <= src.properties.Keys && p in src.properties && p !in done
    ensures p in MergeProperties(u, dst, src, done) <==> p in dst.properties
    ensures p in dst.properties ==> MergeProperties(u, dst, src, done)[p] == dst.properties[p]
    ensures MergeProperties(u, dst, src, done + {p}) ==
            if Differs(u, dst, src, p) then MergeProperties(u, dst, src, done)
            else MergeProperties(u, dst, src, done)[p := src.properties[p]]
  {
  }

  lemma ClashOnOneProperty(u: Unicode, dst: Entity, src: Entity, done: set<string>, p: string)
    requires done <= src.properties.Keys && p in src.properties && p !in done
    ensures MergeConflicts(u, dst, src, done + {p}) ==
            MergeConflicts(u, dst, src, done) + if Differs(u, dst, src, p) then {ConflictOn(dst, src, p)} else {}
    ensures Differs(u, dst, src, p) ==> ConflictOn(dst, src, p) !in MergeConflicts(u, dst, src, done)
  {
  }

  lemma MergeNothing(u: Unicode, dst: Entity, src: Entity)
    ensures MergeProperties(u, dst, src, {}) == dst.properties
    ensures MergeConflicts(u, dst, src, {}) == {}
  {
  }

  /** Merges `src` into `dst`, visiting the properties of `src` in an arbitrary order. */
  method MergeEntity(u: Unicode, dst: Entity, src: Entity) returns (merged: Entity, conflicts: seq<Conflict>)
    ensures merged == Merge(u, dst, src)
    ensures multiset(conflicts) == multiset(MergeConflicts(u, dst, src, src.properties.Keys))
  {
    hide MergeProperties;
    hide MergeConflicts;
    hide MergeEvidence;
    hide UniqueNonEmpty;
    hide SortStrings;
    var aliases := SortStrings(UniqueNonEmpty(u, dst.aliases + src.aliases + [src.name]));
    var properties := dst.properties;
    conflicts := [];
    var todo := src.properties.Keys;
    MergeNothing(u, dst, src);
    assert src.properties.Keys - todo == {};
    while todo != {}
      invariant todo <= src.properties.Keys
      invariant properties == MergeProperties(u, dst, src, src.properties.Keys - todo)
      invariant multiset(conflicts) == multiset(MergeConflicts(u, dst, src, src.properties.Keys - todo))
      decreases |todo|
    {
      var p :| p in todo;
      var v := src.properties[p];
      ghost var done := src.properties.Keys - todo;
      MergeOneProperty(u, dst, src, done, p);
      ClashOnOneProperty(u, dst, src, done, p);
      todo := todo - {p};
      assert src.properties.Keys - todo == done + {p};
      if p in properties && NormalizedValue(u, properties[p]) != NormalizedValue(u, v) {
        conflicts := conflicts + [Conflict(dst.id, p, properties[p], v, src.id)];
      } else {
        properties := properties[p := v];
      }
    }
    merged := dst.(aliases := aliases, evidence := MergeEvidence(dst.evidence + src.evidence),
                   properties := properties);
    assert src.properties.Keys - todo == src.properties.Keys;
  }

  lemma {:induction false} AddMemberAt(groups: seq<Group>, canonical: Entity, member: Entity, i: nat)
    requires i <= |groups|
    requires forall j :: 0 <= j < i ==> groups[j].canonical.id != canonical.id
    requires i < |groups| ==> groups[i].canonical.id == canonical.id
    ensures AddMember(groups, canonical, member) ==
            if i < |groups| then groups[i := Group(canonical, groups[i].members + [member])]
            else groups + [Group(canonical, [member])]
  {
    if i > 0 {
      AddMemberAt(groups[1..], canonical, member, i - 1);
    }
  }

  /** Looks for the group of the merged entity and records the member there. */
  method RecordMember(groups: seq<Group>, merged: Entity, member: Entity) returns (r: seq<Group>)
    ensures r == AddMember(groups, merged, member)
  {
    var i := 0;
    while i < |groups| && groups[i].canonical.id != merged.id
      invariant i <= |groups|
      invariant forall j :: 0 <= j < i ==> groups[j].canonical.id != merged.id
    {
      i := i + 1;
    }
    AddMemberAt(groups, merged, member, i);
    if i < |groups| {
      r := groups[i := Group(merged, groups[i].members + [member])];
    } else {
      r := groups + [Group(merged, [member])];
    }
  }

  method Resolve(u: Unicode, input: seq<Entity>)
    returns (entities: seq<Entity>, idMap: map<string, string>, groups: seq<Group>, conflicts: seq<Conflict>)
    ensures var r := Resolved(u, input);
            entities == r.entities && idMap == r.idMap && groups == r.groups && multiset(conflicts) == r.conflicts
  {
    entities, idMap, groups, conflicts := [], map[], [], [];
    var canonicalByKey: map<string, nat> := map[];
    for n := 0 to |input|
      invariant Folded(u, input[..n]) == Resolution(entities, idMap, groups, multiset(conflicts), canonicalByKey)
    {
      hide MergeConflicts;
      hide Merge;
      hide IdentityKey;
      hide AddMember;
      var entity := input[n];
      assert input[..n + 1][..n] == input[..n];
      FoldedIndexInRange(u, input[..n]);
      var key := IdentityKey(u, entity);
      if key in canonicalByKey {
        var at := canonicalByKey[key];
        idMap := idMap[entity.id := entities[at].id];
        var merged, clashes := MergeEntity(u, entities[at], entity);
        entities := entities[at := merged];
        conflicts := conflicts + clashes;
        groups := RecordMember(groups, merged, entity);
      } else {
        canonicalByKey := canonicalByKey[key := |entities|];
        entities := entities + [entity];
        idMap := idMap[entity.id := entity.id];
      }
    }
    assert input[..|input|] == input;
    entities := Sort(entities, IdOrder());
  }
}
