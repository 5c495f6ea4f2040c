/**
 What entity resolution as a whole guarantees: it groups by identity and merges each group in arrival
 order, resolving its own output changes nothing, and no member, property or evidence id is lost.
 */
module ResolverTheorems {
  import opened Text
  import opened Sorting
  import opened GraphModel
  import opened EntityResolver
  import opened ResolverIdentity

  // ---------- The index is a bijection between keys and canonical entities ----------

  ghost predicate Indexed(u: Unicode, r: Resolution) {
    && IndexInRange(r)
    && (forall k :: k in r.index ==> IdentityKey(u, r.entities[r.index[k]]) == k)
    && (forall i :: 0 <= i < |r.entities| ==>
          IdentityKey(u, r.entities[i]) in r.index && r.index[IdentityKey(u, r.entities[i])] == i)
  }

  lemma StepKeepsIndex(u: Unicode, r: Resolution, e: Entity)
    requires u.Lawful() && Indexed(u, r)
    ensures Indexed(u, Step(u, r, e))
    ensures IdentityKey(u, e) in Step(u, r, e).index
    ensures forall k :: k in r.index ==> k in Step(u, r, e).index && Step(u, r, e).index[k] == r.index[k]
  {
    hide IdentityKey;
    hide Merge;
    hide MergeConflicts;
    hide AddMember;
    var key := IdentityKey(u, e);
    if key in r.index {
      MergeKeepsKey(u, r.entities[r.index[key]], e);
    }
  }

  lemma {:induction false} FoldedIsIndexed(u: Unicode, input: seq<Entity>)
    requires u.Lawful()
    ensures Indexed(u, Folded(u, input))
    ensures forall e :: e in input ==> IdentityKey(u, e) in Folded(u, input).index
  {
    hide IdentityKey;
    hide Step;
    if input != [] {
      var init, last := input[..|input| - 1], input[|input| - 1];
      FoldedIsIndexed(u, init);
      StepKeepsIndex(u, Folded(u, init), last);
      assert input == init + [last];
    }
  }

  // ---------- Resolving resolved entities ----------

  ghost predicate DistinctKeys(u: Unicode, s: seq<Entity>) {
    forall i, j :: 0 <= i < j < |s| ==> IdentityKey(u, s[i]) != IdentityKey(u, s[j])
  }

  ghost function Keys(u: Unicode, s: seq<Entity>): set<string> {
    set e | e in s :: IdentityKey(u, e)
  }

  lemma KeysExtend(u: Unicode, s: seq<Entity>, e: Entity)
    ensures Keys(u, s + [e]) == Keys(u, s) + {IdentityKey(u, e)}
  {
    hide IdentityKey;
    forall k | k in Keys(u, s) + {IdentityKey(u, e)}
      ensures k in Keys(u, s + [e])
    {
      if k == IdentityKey(u, e) {
        assert e in s + [e];
      } else {
        var x :| x in s && IdentityKey(u, x) == k;
        assert x in s + [e];
      }
    }
  }

  lemma StepOnNewKey(u: Unicode, r: Resolution, e: Entity)
    requires IdentityKey(u, e) !in r.index
    ensures Step(u, r, e) == Resolution(
              r.entities + [e], r.idMap[e.id := e.id], r.groups, r.conflicts,
              r.index[IdentityKey(u, e) := |r.entities|])
  {
    hide IdentityKey;
  }

  lemma StepOnKnownKey(u: Unicode, r: Resolution, e: Entity)
    requires IndexInRange(r) && IdentityKey(u, e) in r.index
    ensures var i := r.index[IdentityKey(u, e)];
            var merged := Merge(u, r.entities[i], e);
            Step(u, r, e) == Resolution(
              r.entities[i := merged], r.idMap[e.id := r.entities[i].id], AddMember(r.groups, merged, e),
              r.conflicts + multiset(MergeConflicts(u, r.entities[i], e, e.properties.Keys)), r.index)
  {
    hide IdentityKey;
    hide Merge;
    hide MergeConflicts;
    hide AddMember;
  }

  lemma {:induction false} DistinctKeysFoldUnchanged(u: Unicode, s: seq<Entity>)
    requires DistinctKeys(u, s)
    ensures var r := Folded(u, s);
            && r.entities == s && r.groups == [] && r.conflicts == multiset{}
            && r.index.Keys == Keys(u, s) && r.idMap.Keys == Ids(s)
            && (forall id :: id in r.idMap ==> r.idMap[id] == id)
  {
    hide IdentityKey;
    hide Step;
    if s != [] {
      var init, last := s[..|s| - 1], s[|s| - 1];
      assert s == init + [last];
      forall i, j | 0 <= i < j < |init|
        ensures IdentityKey(u, init[i]) != IdentityKey(u, init[j])
      {
        assert IdentityKey(u, s[i]) != IdentityKey(u, s[j]);
      }
      DistinctKeysFoldUnchanged(u, init);
      KeysExtend(u, init, last);
      IdsExtend(init, last);
      StepOnNewKey(u, Folded(u, init), last);
    }
  }

  lemma IdOrderIsStrictWeak()
    ensures StrictWeakOrder(IdOrder())
  {
    KeyOrderIsStrictWeak((e: Entity) => e.id, IdOrder());
  }

  /** Any rearrangement of entities with distinct keys has distinct keys. */
  lemma DistinctKeysPermute(u: Unicode, s: seq<Entity>, t: seq<Entity>)
    requires DistinctKeys(u, s) && multiset(s) == multiset(t)
    ensures DistinctKeys(u, t)
  {
    hide IdentityKey;
    forall i, j | 0 <= i < j < |t|
      ensures IdentityKey(u, t[i]) != IdentityKey(u, t[j])
    {
      var a, b := PermutedPlaces(s, t, i, j);
      assert a < b || b < a;
    }
  }

  /** Resolving the output again merges nothing, maps every id to itself and returns the same entities. */
  lemma ResolutionIsIdempotent(u: Unicode, input: seq<Entity>)
    requires u.Lawful()
    ensures var out := Resolved(u, input).entities;
            var again := Resolved(u, out);
            && again.entities == out && again.groups == [] && again.conflicts == multiset{}
            && again.idMap.Keys == Ids(out)
            && (forall id :: id in again.idMap ==> again.idMap[id] == id)
  {
    hide IdentityKey;
    var r := Folded(u, input);
    FoldedIsIndexed(u, input);
    SortMultiset(r.entities, IdOrder());
    var out := Sort(r.entities, IdOrder());
    DistinctKeysPermute(u, r.entities, out);
    DistinctKeysFoldUnchanged(u, out);
    IdOrderIsStrictWeak();
    SortSorted(r.entities, IdOrder());
    SortOfSorted(out, IdOrder());
  }

  // ---------- The quotient ----------

  /** Every input id is mapped to the id of the canonical entity of its key. */
  ghost predicate Mapped(u: Unicode, input: seq<Entity>, r: Resolution)
    requires IndexInRange(r)
  {
    && r.idMap.Keys == Ids(input)
    && (forall e :: e in input ==> MappedEntity(u, r, e))
    && (forall i :: 0 <= i < |r.entities| ==> FromInput(u, input, r.entities[i]))
  }

  ghost predicate MappedEntity(u: Unicode, r: Resolution, e: Entity)
    requires IndexInRange(r)
  {
    && e.id in r.idMap && IdentityKey(u, e) in r.index
    && r.idMap[e.id] == r.entities[r.index[IdentityKey(u, e)]].id
  }

  /** The entity carries the id and the key of one of the input entities. */
  ghost predicate FromInput(u: Unicode, input: seq<Entity>, x: Entity) {
    exists e :: e in input && e.id == x.id && IdentityKey(u, e) == IdentityKey(u, x)
  }

  lemma FromInputExtends(u: Unicode, init: seq<Entity>, last: Entity, x: Entity)
    requires FromInput(u, init, x)
    ensures FromInput(u, init + [last], x)
  {
    hide IdentityKey;
    var e :| e in init && e.id == x.id && IdentityKey(u, e) == IdentityKey(u, x);
    assert e in init + [last];
  }

  lemma NewKeyMaps(u: Unicode, init: seq<Entity>, r: Resolution, last: Entity)
    requires Indexed(u, r) && Mapped(u, init, r) && last.id !in Ids(init) && IdentityKey(u, last) !in r.index
    ensures var t := Step(u, r, last);
            IndexInRange(t) && Mapped(u, init + [last], t)
  {
    hide IdentityKey;
    hide Step;
    hide FromInput;
    var t := Step(u, r, last);
    StepOnNewKey(u, r, last);
    IdsExtend(init, last);
    forall e | e in init + [last]
      ensures MappedEntity(u, t, e)
    {
      if e in init {
        assert MappedEntity(u, r, e);
      }
    }
    forall i | 0 <= i < |t.entities|
      ensures FromInput(u, init + [last], t.entities[i])
    {
      if i < |r.entities| {
        FromInputExtends(u, init, last, r.entities[i]);
      } else {
        CameFromInput(u, init + [last], last, last);
      }
    }
  }

  lemma CameFromInput(u: Unicode, input: seq<Entity>, e: Entity, x: Entity)
    requires e in input && e.id == x.id && IdentityKey(u, e) == IdentityKey(u, x)
    ensures FromInput(u, input, x)
  {
    hide IdentityKey;
  }

  lemma KnownKeyMaps(u: Unicode, init: seq<Entity>, r: Resolution, last: Entity)
    requires u.Lawful()
    requires Indexed(u, r) && Mapped(u, init, r) && last.id !in Ids(init) && IdentityKey(u, last) in r.index
    ensures var t := Step(u, r, last);
            IndexInRange(t) && Mapped(u, init + [last], t)
  {
    hide IdentityKey;
    hide Step;
    hide FromInput;
    hide Merge;
    var t := Step(u, r, last);
    var at := r.index[IdentityKey(u, last)];
    StepOnKnownKey(u, r, last);
    MergeKeepsKey(u, r.entities[at], last);
    MergeKeepsId(u, r.entities[at], last);
    IdsExtend(init, last);
    forall e | e in init + [last]
      ensures MappedEntity(u, t, e)
    {
      if e in init {
        assert MappedEntity(u, r, e);
      }
    }
    forall i | 0 <= i < |t.entities|
      ensures FromInput(u, init + [last], t.entities[i])
    {
      FromInputExtends(u, init, last, r.entities[i]);
      if i == at {
        SameOrigin(u, init + [last], r.entities[at], t.entities[at]);
      }
    }
  }

  lemma SameOrigin(u: Unicode, input: seq<Entity>, x: Entity, y: Entity)
    requires FromInput(u, input, x) && x.id == y.id && IdentityKey(u, x) == IdentityKey(u, y)
    ensures FromInput(u, input, y)
  {
    hide IdentityKey;
  }

  lemma MergeKeepsId(u: Unicode, dst: Entity, src: Entity)
    ensures Merge(u, dst, src).id == dst.id && Merge(u, dst, src).typeId == dst.typeId
  {
  }

  lemma {:induction false} FoldedIsMapped(u: Unicode, input: seq<Entity>)
    requires u.Lawful() && DistinctIds(input)
    ensures Indexed(u, Folded(u, input)) && Mapped(u, input, Folded(u, input))
  {
    hide IdentityKey;
    hide Step;
    FoldedIsIndexed(u, input);
    if input != [] {
      var init, last := input[..|input| - 1], input[|input| - 1];
      assert input == init + [last];
      FoldedIsIndexed(u, init);
      FoldedIsMapped(u, init);
      if IdentityKey(u, last) in Folded(u, init).index {
        KnownKeyMaps(u, init, Folded(u, init), last);
      } else {
        NewKeyMaps(u, init, Folded(u, init), last);
      }
    }
  }

  lemma CanonicalIdsDiffer(u: Unicode, input: seq<Entity>, i: nat, j: nat)
    requires u.Lawful() && DistinctIds(input)
    requires i < |Folded(u, input).entities| && j < |Folded(u, input).entities|
    requires Folded(u, input).entities[i].id == Folded(u, input).entities[j].id
    ensures i == j
  {
    hide IdentityKey;
    hide Folded;
    var r := Folded(u, input);
    FoldedIsMapped(u, input);
    assert FromInput(u, input, r.entities[i]) && FromInput(u, input, r.entities[j]);
  }

  lemma SameMapSameKey(u: Unicode, input: seq<Entity>, e: Entity, f: Entity)
    requires u.Lawful() && DistinctIds(input) && e in input && f in input
    ensures var r := Folded(u, input);
            && e.id in r.idMap && f.id in r.idMap
            && (r.idMap[e.id] == r.idMap[f.id] <==> IdentityOf(u, e) == IdentityOf(u, f))
  {
    hide IdentityKey;
    hide IdentityOf;
    hide Folded;
    var r := Folded(u, input);
    FoldedIsMapped(u, input);
    assert MappedEntity(u, r, e) && MappedEntity(u, r, f);
    KeyStandsForIdentity(u, e, f);
    if r.idMap[e.id] == r.idMap[f.id] {
      CanonicalIdsDiffer(u, input, r.index[IdentityKey(u, e)], r.index[IdentityKey(u, f)]);
    }
  }

  lemma MapLandsOnFixedPoint(u: Unicode, input: seq<Entity>, e: Entity)
    requires u.Lawful() && DistinctIds(input) && e in input
    ensures var r := Folded(u, input);
            && e.id in r.idMap && r.idMap[e.id] in Ids(r.entities)
            && r.idMap[e.id] in r.idMap && r.idMap[r.idMap[e.id]] == r.idMap[e.id]
  {
    hide IdentityKey;
    hide Folded;
    var r := Folded(u, input);
    FoldedIsMapped(u, input);
    assert MappedEntity(u, r, e);
    var canonical := r.entities[r.index[IdentityKey(u, e)]];
    assert canonical in r.entities;
    assert FromInput(u, input, canonical);
    var origin :| origin in input && origin.id == canonical.id && IdentityKey(u, origin) == IdentityKey(u, canonical);
    assert MappedEntity(u, r, origin);
  }

  lemma SortedFold(u: Unicode, input: seq<Entity>)
    ensures var f, r := Folded(u, input), Resolved(u, input);
            && r == f.(entities := r.entities)
            && multiset(r.entities) == multiset(f.entities)
            && Ids(r.entities) == Ids(f.entities)
  {
    hide Folded;
    SortMultiset(Folded(u, input).entities, IdOrder());
    SortMembers(Folded(u, input).entities, IdOrder());
  }

  lemma CanonicalsHaveDistinctIds(u: Unicode, input: seq<Entity>)
    requires u.Lawful() && DistinctIds(input)
    ensures DistinctIds(Resolved(u, input).entities)
  {
    hide Folded;
    hide Resolved;
    var f := Folded(u, input);
    forall i, j | 0 <= i < j < |f.entities|
      ensures f.entities[i].id != f.entities[j].id
    {
      if f.entities[i].id == f.entities[j].id {
        CanonicalIdsDiffer(u, input, i, j);
      }
    }
    SortedFold(u, input);
    DistinctIdsPermute(f.entities, Resolved(u, input).entities);
  }

  lemma MapCoversInput(u: Unicode, input: seq<Entity>)
    requires u.Lawful() && DistinctIds(input)
    ensures Folded(u, input).idMap.Keys == Ids(input)
  {
    hide Folded;
    hide IdentityKey;
    FoldedIsMapped(u, input);
  }

  /** The id is mapped to an output id that is mapped to itself. */
  ghost predicate LandsOnOutput(r: Resolution, id: string) {
    && id in r.idMap && r.idMap[id] in Ids(r.entities)
    && r.idMap[id] in r.idMap && r.idMap[r.idMap[id]] == r.idMap[id]
  }

  /** The two entities are sent to one id exactly when they have one identity. */
  ghost predicate SplitByIdentity(u: Unicode, r: Resolution, e: Entity, f: Entity) {
    && e.id in r.idMap && f.id in r.idMap
    && (r.idMap[e.id] == r.idMap[f.id] <==> IdentityOf(u, e) == IdentityOf(u, f))
  }

  /**
   Resolution is a quotient: the id map is total on the input and idempotent, lands in the output ids, and
   sends two entities to one id exactly when they have one identity.
   */
  lemma ResolutionIsQuotient(u: Unicode, input: seq<Entity>)
    requires u.Lawful() && DistinctIds(input)
    ensures var r := Resolved(u, input);
            && DistinctIds(r.entities)
            && r.idMap.Keys == Ids(input)
            && (forall id :: id in Ids(input) ==> LandsOnOutput(r, id))
            && (forall e, f :: e in input && f in input ==> SplitByIdentity(u, r, e, f))
  {
    hide IdentityKey;
    hide IdentityOf;
    hide Folded;
    hide Resolved;
    var r := Resolved(u, input);
    SortedFold(u, input);
    CanonicalsHaveDistinctIds(u, input);
    MapCoversInput(u, input);
    forall id | id in Ids(input)
      ensures LandsOnOutput(r, id)
    {
      var e :| e in input && e.id == id;
      MapLandsOnFixedPoint(u, input, e);
    }
    forall e, f | e in input && f in input
      ensures SplitByIdentity(u, r, e, f)
    {
      SameMapSameKey(u, input, e, f);
    }
  }

  lemma DistinctIdsPermute(s: seq<Entity>, t: seq<Entity>)
    requires DistinctIds(s) && multiset(s) == multiset(t)
    ensures DistinctIds(t)
  {
    forall i, j | 0 <= i < j < |t|
      ensures t[i].id != t[j].id
    {
      var a, b := PermutedPlaces(s, t, i, j);
      assert a < b || b < a;
    }
  }
}
