/**
 Nothing is lost in resolution: each canonical entity is the merge of all entities with its key in
 arrival order, carries a value for every property any of them had and every evidence id, and every
 value that differs from the first one is recorded as a conflict.
 */
module ResolverGroups {
  import opened Wrappers
  import opened Text
  import opened Sorting
  import opened GraphModel
  import opened EntityResolver
  import opened ResolverIdentity
  import opened ResolverTheorems

  // ---------- Grouping ----------

  /** The input entities with one key, in arrival order. */
  function Members(u: Unicode, input: seq<Entity>, key: string): seq<Entity> {
    if input == [] then []
    else
      var init := Members(u, input[..|input| - 1], key);
      if IdentityKey(u, input[|input| - 1]) == key then init + [input[|input| - 1]] else init
  }

  function MergedAll(u: Unicode, ms: seq<Entity>): Entity
    requires ms != []
  {
    if |ms| == 1 then ms[0] else Merge(u, MergedAll(u, ms[..|ms| - 1]), ms[|ms| - 1])
  }

  lemma MembersExtend(u: Unicode, init: seq<Entity>, last: Entity, key: string)
    ensures Members(u, init + [last], key) ==
            if IdentityKey(u, last) == key then Members(u, init, key) + [last] else Members(u, init, key)
  {
    hide IdentityKey;
    assert (init + [last])[..|init|] == init;
  }

  lemma MergedAllExtend(u: Unicode, ms: seq<Entity>, last: Entity)
    requires ms != []
    ensures MergedAll(u, ms + [last]) == Merge(u, MergedAll(u, ms), last)
  {
    hide Merge;
    assert (ms + [last])[..|ms|] == ms;
  }

  /** One pass over everything computes, for every key at once, the merge of that key's members. */
  lemma {:induction false} CanonicalIsMergeOfMembers(u: Unicode, input: seq<Entity>, key: string)
    requires u.Lawful()
    ensures var r := Folded(u, input);
            && IndexInRange(r)
            && (key in r.index <==> Members(u, input, key) != [])
            && (key in r.index ==> r.entities[r.index[key]] == MergedAll(u, Members(u, input, key)))
  {
    hide IdentityKey;
    hide Merge;
    hide Step;
    FoldedIndexInRange(u, input);
    if input != [] {
      var init, last := input[..|input| - 1], input[|input| - 1];
      assert input == init + [last];
      var r := Folded(u, init);
      var k := IdentityKey(u, last);
      CanonicalIsMergeOfMembers(u, init, key);
      FoldedIsIndexed(u, init);
      MembersExtend(u, init, last, key);
      if k in r.index {
        StepOnKnownKey(u, r, last);
        if k == key {
          MergedAllExtend(u, Members(u, init, key), last);
        } else if key in r.index {
          assert r.index[key] != r.index[k];
        }
      } else {
        StepOnNewKey(u, r, last);
      }
    }
  }

  // ---------- Properties and evidence ----------

  /** The value the first member having the property gives it. */
  function FirstValue(ms: seq<Entity>, p: string): Option<Value> {
    if ms == [] then None
    else
      var first := FirstValue(ms[..|ms| - 1], p);
      var last := ms[|ms| - 1];
      if first.Some? then first else if p in last.properties then Some(last.properties[p]) else None
  }

  lemma FirstValueExtend(ms: seq<Entity>, last: Entity, p: string)
    ensures FirstValue(ms + [last], p) ==
            if FirstValue(ms, p).Some? then FirstValue(ms, p)
            else if p in last.properties then Some(last.properties[p]) else None
  {
    assert (ms + [last])[..|ms|] == ms;
  }

  lemma {:induction false} FirstValueFound(ms: seq<Entity>, e: Entity, p: string)
    requires e in ms && p in e.properties
    ensures FirstValue(ms, p).Some?
  {
    var init := ms[..|ms| - 1];
    assert ms == init + [ms[|ms| - 1]];
    if e in init {
      FirstValueFound(init, e, p);
    }
  }

  /** A merged entity has a property when some member has it, with the first such member's value up to normalization. */
  lemma {:induction false} MergedValueIsFirstValue(u: Unicode, ms: seq<Entity>, p: string)
    requires ms != []
    ensures p in MergedAll(u, ms).properties <==> FirstValue(ms, p).Some?
    ensures p in MergedAll(u, ms).properties ==>
              NormalizedValue(u, MergedAll(u, ms).properties[p]) == NormalizedValue(u, FirstValue(ms, p).value)
  {
    hide NormalizedValue;
    var init, last := ms[..|ms| - 1], ms[|ms| - 1];
    assert ms == init + [last];
    FirstValueExtend(init, last, p);
    if |ms| > 1 {
      MergedValueIsFirstValue(u, init, p);
      MergedAllExtend(u, init, last);
    } else {
      assert FirstValue(init, p).None?;
    }
  }

  ghost function EvidenceIds(s: seq<Evidence>): set<string> {
    set e | e in s :: e.id
  }

  lemma {:induction false} MergeEvidenceKeepsIds(all: seq<Evidence>)
    ensures EvidenceIds(MergeEvidence(all)) == EvidenceIds(all)
  {
    if all != [] {
      var init, last := all[..|all| - 1], all[|all| - 1];
      MergeEvidenceKeepsIds(init);
      assert all == init + [last];
      var kept := MergeEvidence(init);
      assert EvidenceIds(all) == EvidenceIds(init) + {last.id};
      if exists i :: 0 <= i < |kept| && kept[i].id == last.id {
        var i :| 0 <= i < |kept| && kept[i].id == last.id;
        assert kept[i] in kept;
      } else {
        assert EvidenceIds(kept + [last]) == EvidenceIds(kept) + {last.id};
      }
    }
  }

  lemma {:induction false} MergedEvidenceIsUnion(u: Unicode, ms: seq<Entity>)
    requires ms != []
    ensures EvidenceIds(MergedAll(u, ms).evidence) == set m, e | m in ms && e in m.evidence :: e.id
  {
    var init, last := ms[..|ms| - 1], ms[|ms| - 1];
    assert ms == init + [last];
    if |ms| > 1 {
      MergedEvidenceIsUnion(u, init);
      MergedAllExtend(u, init, last);
      var a, b := MergedAll(u, init).evidence, last.evidence;
      MergeEvidenceKeepsIds(a + b);
      assert EvidenceIds(a + b) == EvidenceIds(a) + EvidenceIds(b);
    }
  }

  lemma MemberHasKey(u: Unicode, input: seq<Entity>, e: Entity)
    requires e in input
    ensures e in Members(u, input, IdentityKey(u, e))
    decreases |input|
  {
    hide IdentityKey;
    var init, last := input[..|input| - 1], input[|input| - 1];
    assert input == init + [last];
    MembersExtend(u, init, last, IdentityKey(u, e));
    if e in init {
      MemberHasKey(u, init, e);
    }
  }

  /** Every input entity's properties and evidence ids survive in the canonical entity of its key. */
  lemma NothingIsLost(u: Unicode, input: seq<Entity>, e: Entity)
    requires u.Lawful() && e in input
    ensures var r := Folded(u, input);
            var key := IdentityKey(u, e);
            && IndexInRange(r) && key in r.index
            && var canonical := r.entities[r.index[key]];
            && canonical in Resolved(u, input).entities
            && (forall p :: p in e.properties ==>
                  && p in canonical.properties && FirstValue(Members(u, input, key), p).Some?
                  && NormalizedValue(u, canonical.properties[p])
                     == NormalizedValue(u, FirstValue(Members(u, input, key), p).value))
            && EvidenceIds(e.evidence) <= EvidenceIds(canonical.evidence)
  {
    hide IdentityKey;
    hide NormalizedValue;
    hide Folded;
    var key := IdentityKey(u, e);
    var ms := Members(u, input, key);
    MemberHasKey(u, input, e);
    CanonicalIsMergeOfMembers(u, input, key);
    MergedEvidenceIsUnion(u, ms);
    var r := Folded(u, input);
    SortMembers(r.entities, IdOrder());
    assert r.entities[r.index[key]] in r.entities;
    forall p | p in e.properties
      ensures p in MergedAll(u, ms).properties && FirstValue(ms, p).Some?
      ensures NormalizedValue(u, MergedAll(u, ms).properties[p]) == NormalizedValue(u, FirstValue(ms, p).value)
    {
      FirstValueFound(ms, e, p);
      MergedValueIsFirstValue(u, ms, p);
    }
  }

  // ---------- Conflicts ----------

  ghost predicate Recorded(conflicts: multiset<Conflict>, e: Entity, p: string) {
    exists c :: c in conflicts && c.sourceId == e.id && c.property == p
  }

  ghost predicate DiffersFromFirst(u: Unicode, ms: seq<Entity>, e: Entity, p: string) {
    && p in e.properties && FirstValue(ms, p).Some?
    && NormalizedValue(u, FirstValue(ms, p).value) != NormalizedValue(u, e.properties[p])
  }

  lemma ClashIsRecorded(u: Unicode, dst: Entity, src: Entity, p: string)
    ensures (exists c :: c in MergeConflicts(u, dst, src, src.properties.Keys) && c.property == p) <==>
        Differs(u, dst, src, p)
  {
    hide NormalizedValue;
    if Differs(u, dst, src, p) {
      assert ConflictOn(dst, src, p) in MergeConflicts(u, dst, src, src.properties.Keys);
    }
  }

  /** Every conflict names an input entity as its source. */
  lemma {:induction false} ConflictSources(u: Unicode, input: seq<Entity>)
    ensures forall c :: c in Folded(u, input).conflicts ==> c.sourceId in Ids(input)
  {
    hide IdentityKey;
    hide Step;
    if input != [] {
      var init, last := input[..|input| - 1], input[|input| - 1];
      assert input == init + [last];
      ConflictSources(u, init);
      IdsExtend(init, last);
      FoldedIndexInRange(u, init);
      if IdentityKey(u, last) in Folded(u, init).index {
        StepOnKnownKey(u, Folded(u, init), last);
      } else {
        StepOnNewKey(u, Folded(u, init), last);
      }
    }
  }

  /** A conflict is recorded for an entity and a property exactly when its value differs from the first member's. */
  lemma {:induction false} ConflictsAreExact(u: Unicode, input: seq<Entity>, e: Entity, p: string)
    requires u.Lawful() && DistinctIds(input) && e in input
    ensures Recorded(Folded(u, input).conflicts, e, p) <==>
            DiffersFromFirst(u, Members(u, input, IdentityKey(u, e)), e, p)
  {
    hide IdentityKey;
    hide Step;
    hide NormalizedValue;
    hide MergeConflicts;
    hide Merge;
    var init, last := input[..|input| - 1], input[|input| - 1];
    assert input == init + [last];
    var r := Folded(u, init);
    var k := IdentityKey(u, last);
    FoldedIndexInRange(u, init);
    MembersExtend(u, init, last, IdentityKey(u, e));
    if e in init {
      ConflictsAreExact(u, init, e, p);
      EarlierConflictsStay(u, init, last, e, p);
      MemberHasKey(u, init, e);
      if p in e.properties {
        FirstValueFound(Members(u, init, IdentityKey(u, e)), e, p);
        FirstValueExtend(Members(u, init, IdentityKey(u, e)), last, p);
      }
    } else {
      LatestConflicts(u, init, last, p);
    }
  }

  lemma EarlierConflictsStay(u: Unicode, init: seq<Entity>, last: Entity, e: Entity, p: string)
    requires e.id != last.id
    ensures Recorded(Step(u, Folded(u, init), last).conflicts, e, p) <==> Recorded(Folded(u, init).conflicts, e, p)
  {
    hide IdentityKey;
    hide Step;
    hide Merge;
    hide NormalizedValue;
    var r := Folded(u, init);
    FoldedIndexInRange(u, init);
    if IdentityKey(u, last) in r.index {
      StepOnKnownKey(u, r, last);
    } else {
      StepOnNewKey(u, r, last);
    }
  }

  lemma LatestConflicts(u: Unicode, init: seq<Entity>, last: Entity, p: string)
    requires u.Lawful() && last.id !in Ids(init)
    ensures Recorded(Step(u, Folded(u, init), last).conflicts, last, p) <==>
            DiffersFromFirst(u, Members(u, init + [last], IdentityKey(u, last)), last, p)
  {
    hide IdentityKey;
    hide Step;
    hide Merge;
    hide NormalizedValue;
    var r := Folded(u, init);
    var key := IdentityKey(u, last);
    var ms := Members(u, init, key);
    ConflictSources(u, init);
    CanonicalIsMergeOfMembers(u, init, key);
    MembersExtend(u, init, last, key);
    FirstValueExtend(ms, last, p);
    if key in r.index {
      StepOnKnownKey(u, r, last);
      var canonical := r.entities[r.index[key]];
      ClashIsRecorded(u, canonical, last, p);
      MergedValueIsFirstValue(u, ms, p);
    } else {
      StepOnNewKey(u, r, last);
      assert FirstValue(ms, p).None?;
    }
  }

  // ---------- Groups ----------

  function GroupOf(groups: seq<Group>, id: string): Option<Group> {
    if groups == [] then None
    else if groups[0].canonical.id == id then Some(groups[0]) else GroupOf(groups[1..], id)
  }

  lemma {:induction false} AddMemberToGroup(groups: seq<Group>, c: Entity, m: Entity, id: string)
    ensures GroupOf(AddMember(groups, c, m), id) ==
            if id != c.id then GroupOf(groups, id)
            else
              var g := GroupOf(groups, id);
              Some(Group(c, (if g.Some? then g.value.members else []) + [m]))
  {
    if groups == [] {
      var none: seq<Entity> := [];
      assert none + [m] == [m];
      assert AddMember(groups, c, m)[1..] == [];
    } else if groups[0].canonical.id == c.id {
      assert AddMember(groups, c, m)[1..] == groups[1..];
    } else {
      AddMemberToGroup(groups[1..], c, m, id);
      assert AddMember(groups, c, m)[1..] == AddMember(groups[1..], c, m);
    }
  }

  function Counted(groups: seq<Group>): nat {
    if groups == [] then 0 else |groups[0].members| + Counted(groups[1..])
  }

  lemma {:induction false} AddMemberCounts(groups: seq<Group>, c: Entity, m: Entity)
    ensures Counted(AddMember(groups, c, m)) == Counted(groups) + 1
  {
    if groups != [] && groups[0].canonical.id != c.id {
      AddMemberCounts(groups[1..], c, m);
    }
  }

  /** Every input entity is either canonical or counted once as a grouped member, whatever the ids. */
  lemma {:induction false} EntitiesAreConserved(u: Unicode, input: seq<Entity>)
    ensures |input| == |Resolved(u, input).entities| + Counted(Resolved(u, input).groups)
    ensures |Resolved(u, input).entities| == |Folded(u, input).entities|
  {
    hide IdentityKey;
    hide Step;
    hide Merge;
    SortMultiset(Folded(u, input).entities, IdOrder());
    if input != [] {
      var init, last := input[..|input| - 1], input[|input| - 1];
      var r := Folded(u, init);
      EntitiesAreConserved(u, init);
      FoldedIndexInRange(u, init);
      if IdentityKey(u, last) in r.index {
        StepOnKnownKey(u, r, last);
        AddMemberCounts(r.groups, Merge(u, r.entities[r.index[IdentityKey(u, last)]], last), last);
      } else {
        StepOnNewKey(u, r, last);
      }
    }
  }

  /** The group of a key: its canonical entity and its later members, present when there are any. */
  ghost predicate Grouped(u: Unicode, input: seq<Entity>, r: Resolution, key: string)
    requires IndexInRange(r) && key in r.index
  {
    var ms := Members(u, input, key);
    var canonical := r.entities[r.index[key]];
    && ms != []
    && GroupOf(r.groups, canonical.id) == if |ms| == 1 then None else Some(Group(canonical, ms[1..]))
  }

  lemma MemberJoinsGroup(u: Unicode, init: seq<Entity>, last: Entity, key: string)
    requires u.Lawful() && DistinctIds(init)
    requires var r := Folded(u, init);
             && IndexInRange(r) && key in r.index && IdentityKey(u, last) in r.index
             && Grouped(u, init, r, key)
    ensures var t := Step(u, Folded(u, init), last);
            IndexInRange(t) && key in t.index && Grouped(u, init + [last], t, key)
  {
    hide Members;
    var r := Folded(u, init);
    var k := IdentityKey(u, last);
    var canonical := r.entities[r.index[k]];
    var merged := Merge(u, canonical, last);
    StepOnKnownKey(u, r, last);
    MembersExtend(u, init, last, key);
    MergeKeepsId(u, canonical, last);
    AddMemberToGroup(r.groups, merged, last, r.entities[r.index[key]].id);
    if key != k {
      KeysHaveOwnIds(u, init, key, k);
    } else {
      var ms := Members(u, init, key);
      assert (ms + [last])[1..] == ms[1..] + [last];
    }
  }

  lemma KeysHaveOwnIds(u: Unicode, input: seq<Entity>, a: string, b: string)
    requires u.Lawful() && DistinctIds(input) && a != b
    requires a in Folded(u, input).index && b in Folded(u, input).index
    ensures var r := Folded(u, input);
            IndexInRange(r) && r.index[a] != r.index[b] && r.entities[r.index[a]].id != r.entities[r.index[b]].id
  {
    hide IdentityKey;
    hide Folded;
    var r := Folded(u, input);
    FoldedIsIndexed(u, input);
    if r.entities[r.index[a]].id == r.entities[r.index[b]].id {
      CanonicalIdsDiffer(u, input, r.index[a], r.index[b]);
    }
  }

  lemma NewKeyHasNoGroup(u: Unicode, init: seq<Entity>, last: Entity, key: string)
    requires u.Lawful() && DistinctIds(init) && last.id !in Ids(init)
    requires var r := Folded(u, init);
             && IndexInRange(r) && IdentityKey(u, last) !in r.index
             && (key in r.index ==> Grouped(u, init, r, key))
             && (key !in r.index ==> key == IdentityKey(u, last))
    ensures var t := Step(u, Folded(u, init), last);
            IndexInRange(t) && key in t.index && Grouped(u, init + [last], t, key)
  {
    hide IdentityKey;
    hide Step;
    hide Folded;
    var r := Folded(u, init);
    StepOnNewKey(u, r, last);
    MembersExtend(u, init, last, key);
    CanonicalIsMergeOfMembers(u, init, key);
    NoGroupYet(u, init, last.id);
  }

  /** With distinct ids, each key with several members has one group holding exactly the later ones. */
  lemma {:induction false} GroupsAreExact(u: Unicode, input: seq<Entity>, key: string)
    requires u.Lawful() && DistinctIds(input) && key in Folded(u, input).index
    ensures IndexInRange(Folded(u, input)) && Grouped(u, input, Folded(u, input), key)
  {
    hide IdentityKey;
    hide Step;
    hide Grouped;
    var init, last := input[..|input| - 1], input[|input| - 1];
    assert input == init + [last];
    var r := Folded(u, init);
    FoldedIndexInRange(u, init);
    if key in r.index {
      GroupsAreExact(u, init, key);
    }
    if IdentityKey(u, last) in r.index {
      StepOnKnownKey(u, r, last);
      MemberJoinsGroup(u, init, last, key);
    } else {
      StepOnNewKey(u, r, last);
      NewKeyHasNoGroup(u, init, last, key);
    }
  }

  /** Groups only ever carry ids of input entities. */
  lemma {:induction false} NoGroupYet(u: Unicode, input: seq<Entity>, id: string)
    requires u.Lawful() && DistinctIds(input) && id !in Ids(input)
    ensures GroupOf(Folded(u, input).groups, id).None?
  {
    hide IdentityKey;
    hide Step;
    hide Merge;
    if input != [] {
      var init, last := input[..|input| - 1], input[|input| - 1];
      assert input == init + [last];
      IdsExtend(init, last);
      var r := Folded(u, init);
      var k := IdentityKey(u, last);
      NoGroupYet(u, init, id);
      FoldedIsMapped(u, init);
      if k in r.index {
        StepOnKnownKey(u, r, last);
        var canonical := r.entities[r.index[k]];
        MergeKeepsId(u, canonical, last);
        assert FromInput(u, init, canonical);
        AddMemberToGroup(r.groups, Merge(u, canonical, last), last, id);
      } else {
        StepOnNewKey(u, r, last);
      }
    }
  }
}
