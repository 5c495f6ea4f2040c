/**
 What becomes of the entities that are resolved to one: its names, evidence, values and conflicts, all in
 terms of the input entities with one identity and the order they came in.
 */
module ResolverNames {
  import opened Wrappers
  import opened Text
  import opened Sorting
  import opened GraphModel
  import opened EntityResolver
  import opened ResolverIdentity
  import opened ResolverTheorems
  import opened ResolverGroups

  // ---------- Names ----------

  /** What a member brings as another name: its aliases, and its own name unless it came first. */
  function OtherNames(ms: seq<Entity>, i: nat): seq<string>
    requires i < |ms|
  {
    if i == 0 then ms[i].aliases else ms[i].aliases + [ms[i].name]
  }

  /** Some member brings this name, up to outer white space. */
  ghost predicate Brought(u: Unicode, ms: seq<Entity>, a: string) {
    a != "" && exists i: nat, x :: i < |ms| && x in OtherNames(ms, i) && u.Trim(x) == a
  }

  lemma BroughtExtend(u: Unicode, ms: seq<Entity>, last: Entity, a: string)
    requires ms != []
    ensures Brought(u, ms + [last], a) <==>
              || Brought(u, ms, a)
              || (a != "" && exists x :: x in last.aliases + [last.name] && u.Trim(x) == a)
  {
    hide Unicode.Trim;
    var all := ms + [last];
    assert forall i: nat :: i < |ms| ==> OtherNames(all, i) == OtherNames(ms, i);
    assert OtherNames(all, |ms|) == last.aliases + [last.name];
  }

  /** The aliases are the other names of all members, each once and in order. */
  ghost predicate NamedByAll(u: Unicode, ms: seq<Entity>, aliases: seq<string>) {
    && Sorted(aliases, StringOrder()) && NoRepeats(aliases)
    && forall a :: a in aliases <==> Brought(u, ms, a)
  }

  lemma BroughtIsTrimmed(u: Unicode, ms: seq<Entity>, a: string)
    requires Brought(u, ms, a)
    ensures u.Trim(a) == a && a != ""
  {
    var i: nat, x :| i < |ms| && x in OtherNames(ms, i) && u.Trim(x) == a;
    TrimIdempotent(u, x);
  }

  lemma AliasesOfMerge(u: Unicode, ms: seq<Entity>, dst: Entity, last: Entity)
    requires ms != [] && (if |ms| == 1 then dst == ms[0] else NamedByAll(u, ms, dst.aliases))
    ensures NamedByAll(u, ms + [last], Merge(u, dst, last).aliases)
  {
    hide Unicode.Trim;
    hide UniqueNonEmpty;
    hide SortStrings;
    hide Brought;
    var all := dst.aliases + last.aliases + [last.name];
    UniqueSortedListing(u, all);
    var aliases := Merge(u, dst, last).aliases;
    assert aliases == SortStrings(UniqueNonEmpty(u, all));
    forall a
      ensures a in aliases <==> Brought(u, ms + [last], a)
    {
      BroughtExtend(u, ms, last, a);
      BroughtBefore(u, ms, dst, a);
      assert forall x :: x in all <==> x in dst.aliases || x in last.aliases + [last.name];
    }
  }

  lemma BroughtBefore(u: Unicode, ms: seq<Entity>, dst: Entity, a: string)
    requires ms != [] && (if |ms| == 1 then dst == ms[0] else NamedByAll(u, ms, dst.aliases))
    ensures Brought(u, ms, a) <==> a != "" && exists x :: x in dst.aliases && u.Trim(x) == a
  {
    hide Unicode.Trim;
    if |ms| == 1 {
      assert OtherNames(ms, 0) == dst.aliases;
    } else {
      if Brought(u, ms, a) {
        BroughtIsTrimmed(u, ms, a);
        assert a in dst.aliases;
      }
      if a != "" && exists x :: x in dst.aliases && u.Trim(x) == a {
        var x :| x in dst.aliases && u.Trim(x) == a;
        assert Brought(u, ms, x);
        BroughtIsTrimmed(u, ms, x);
      }
    }
  }

  /** Named after the first of these entities, with the other names of all as aliases. */
  ghost predicate NamedAfter(u: Unicode, ms: seq<Entity>, c: Entity)
    requires ms != []
  {
    && c.id == ms[0].id && c.name == ms[0].name && c.typeId == ms[0].typeId
    && c.businessType == ms[0].businessType && c.businessKey == ms[0].businessKey
    && (if |ms| == 1 then c == ms[0] else NamedByAll(u, ms, c.aliases))
  }

  lemma {:induction false} MergedNames(u: Unicode, ms: seq<Entity>)
    requires ms != []
    ensures NamedAfter(u, ms, MergedAll(u, ms))
  {
    hide NamedByAll;
    if |ms| > 1 {
      var init, last := ms[..|ms| - 1], ms[|ms| - 1];
      assert ms == init + [last];
      MergedNames(u, init);
      AliasesOfMerge(u, init, MergedAll(u, init), last);
    }
  }

  // ---------- Evidence ----------

  /** All evidence of the members, in order. */
  function AllEvidence(ms: seq<Entity>): seq<Evidence> {
    if ms == [] then [] else AllEvidence(ms[..|ms| - 1]) + ms[|ms| - 1].evidence
  }

  /** The place of the first evidence with this id, or the number of all. */
  function FirstPlace(all: seq<Evidence>, id: string): nat {
    if all == [] || all[0].id == id then 0 else 1 + FirstPlace(all[1..], id)
  }

  lemma {:induction false} FirstPlaceIsFirst(all: seq<Evidence>, id: string, k: nat)
    requires k <= |all| && (k < |all| ==> all[k].id == id)
    requires forall j :: 0 <= j < k ==> all[j].id != id
    ensures FirstPlace(all, id) == k
  {
    if k > 0 {
      FirstPlaceIsFirst(all[1..], id, k - 1);
    }
  }

  lemma {:induction false} FirstPlaceBounds(all: seq<Evidence>, id: string)
    ensures FirstPlace(all, id) <= |all|
    ensures FirstPlace(all, id) < |all| ==> all[FirstPlace(all, id)].id == id
    ensures forall j :: 0 <= j < FirstPlace(all, id) ==> all[j].id != id
  {
    if all != [] && all[0].id != id {
      FirstPlaceBounds(all[1..], id);
      forall j | 0 <= j < FirstPlace(all, id)
        ensures all[j].id != id
      {
        assert j > 0 ==> all[j] == all[1..][j - 1];
      }
    }
  }

  /** The first evidence of each id, in the order these come. */
  ghost predicate FirstOfEach(all: seq<Evidence>, kept: seq<Evidence>) {
    && (forall i :: 0 <= i < |kept| ==>
          FirstPlace(all, kept[i].id) < |all| && all[FirstPlace(all, kept[i].id)] == kept[i])
    && (forall i, j :: 0 <= i < j < |kept| ==> FirstPlace(all, kept[i].id) < FirstPlace(all, kept[j].id))
    && (forall e :: e in all ==> exists i :: 0 <= i < |kept| && kept[i].id == e.id)
  }

  lemma {:induction false} FirstPlaceConcat(a: seq<Evidence>, b: seq<Evidence>, id: string)
    ensures FirstPlace(a + b, id) ==
            if FirstPlace(a, id) < |a| then FirstPlace(a, id) else |a| + FirstPlace(b, id)
  {
    if a == [] {
      assert a + b == b;
    } else if a[0].id != id {
      assert (a + b)[1..] == a[1..] + b;
      FirstPlaceConcat(a[1..], b, id);
    }
  }

  lemma KeptBefore(init: seq<Evidence>, last: Evidence, kept: seq<Evidence>)
    requires FirstOfEach(init, kept)
    ensures forall i :: 0 <= i < |kept| ==>
              FirstPlace(init + [last], kept[i].id) == FirstPlace(init, kept[i].id) < |init|
  {
    forall i | 0 <= i < |kept|
      ensures FirstPlace(init + [last], kept[i].id) == FirstPlace(init, kept[i].id) < |init|
    {
      FirstPlaceConcat(init, [last], kept[i].id);
    }
  }

  lemma KeptNoMore(init: seq<Evidence>, last: Evidence, kept: seq<Evidence>, k: nat)
    requires FirstOfEach(init, kept) && k < |kept| && kept[k].id == last.id
    ensures FirstOfEach(init + [last], kept)
  {
    hide FirstPlace;
    KeptBefore(init, last, kept);
  }

  lemma KeptOneMore(init: seq<Evidence>, last: Evidence, kept: seq<Evidence>)
    requires FirstOfEach(init, kept) && forall i :: 0 <= i < |kept| ==> kept[i].id != last.id
    ensures FirstOfEach(init + [last], kept + [last])
  {
    hide FirstPlace;
    KeptBefore(init, last, kept);
    assert forall e :: e in init ==> e.id != last.id;
    FirstPlaceIsFirst(init + [last], last.id, |init|);
    var r := kept + [last];
    forall e | e in init + [last]
      ensures exists i :: 0 <= i < |r| && r[i].id == e.id
    {
      if e in init {
        var i :| 0 <= i < |kept| && kept[i].id == e.id;
        assert r[i].id == e.id;
      } else {
        assert r[|kept|].id == e.id;
      }
    }
  }

  lemma {:induction false} MergeEvidenceIsFirstOfEach(all: seq<Evidence>)
    ensures FirstOfEach(all, MergeEvidence(all))
  {
    hide FirstOfEach;
    if all == [] {
      NothingIsFirstOfEach();
    } else {
      var init, last := all[..|all| - 1], all[|all| - 1];
      assert all == init + [last];
      MergeEvidenceIsFirstOfEach(init);
      var kept := MergeEvidence(init);
      if exists i :: 0 <= i < |kept| && kept[i].id == last.id {
        var i :| 0 <= i < |kept| && kept[i].id == last.id;
        KeptNoMore(init, last, kept, i);
      } else {
        KeptOneMore(init, last, kept);
      }
    }
  }

  lemma NothingIsFirstOfEach()
    ensures FirstOfEach([], [])
  {
  }

  lemma {:induction false} MergeEvidenceConcat(a: seq<Evidence>, b: seq<Evidence>)
    ensures MergeEvidence(MergeEvidence(a) + b) == MergeEvidence(a + b)
  {
    if b == [] {
      assert MergeEvidence(a) + b == MergeEvidence(a) && a + b == a;
      MergeEvidenceTwice(a);
    } else {
      var init, last := b[..|b| - 1], b[|b| - 1];
      MergeEvidenceConcat(a, init);
      assert (MergeEvidence(a) + b)[..|MergeEvidence(a) + b| - 1] == MergeEvidence(a) + init;
      assert (a + b)[..|a + b| - 1] == a + init;
    }
  }

  lemma {:induction false} MergeEvidenceTwice(a: seq<Evidence>)
    ensures MergeEvidence(MergeEvidence(a)) == MergeEvidence(a)
  {
    if a != [] {
      var kept := MergeEvidence(a[..|a| - 1]);
      MergeEvidenceTwice(a[..|a| - 1]);
      assert (kept + [a[|a| - 1]])[..|kept|] == kept;
    }
  }

  lemma {:induction false} MergedEvidence(u: Unicode, ms: seq<Entity>)
    requires |ms| > 1
    ensures MergedAll(u, ms).evidence == MergeEvidence(AllEvidence(ms))
  {
    hide MergeEvidence;
    var init, last := ms[..|ms| - 1], ms[|ms| - 1];
    if |ms| > 2 {
      MergedEvidence(u, init);
      MergeEvidenceConcat(AllEvidence(init), last.evidence);
    } else {
      var none: seq<Evidence> := [];
      assert AllEvidence(init) == none + ms[0].evidence == ms[0].evidence;
    }
  }

  /** Merged entities carry the first evidence of each id, in the order in which their members give it. */
  lemma MergedEvidenceInOrder(u: Unicode, ms: seq<Entity>)
    requires |ms| > 1
    ensures FirstOfEach(AllEvidence(ms), MergedAll(u, ms).evidence)
  {
    hide FirstOfEach;
    MergedEvidence(u, ms);
    MergeEvidenceIsFirstOfEach(AllEvidence(ms));
  }

  // ---------- Values ----------

  /** The member's value of the property reads like the first value given for it. */
  ghost predicate Agrees(u: Unicode, ms: seq<Entity>, p: string, i: nat)
    requires i < |ms|
  {
    && p in ms[i].properties && FirstValue(ms, p).Some?
    && NormalizedValue(u, ms[i].properties[p]) == NormalizedValue(u, FirstValue(ms, p).value)
  }

  /** The value is that of the last member that agrees with the first. */
  ghost predicate LastAgreeing(u: Unicode, ms: seq<Entity>, p: string, v: Value) {
    exists i: nat :: i < |ms| && Agrees(u, ms, p, i) && ms[i].properties[p] == v
                     && forall j: nat :: i < j < |ms| ==> !Agrees(u, ms, p, j)
  }

  lemma {:induction false} MergedValue(u: Unicode, ms: seq<Entity>, p: string)
    requires ms != []
    ensures p in MergedAll(u, ms).properties <==> FirstValue(ms, p).Some?
    ensures p in MergedAll(u, ms).properties ==> LastAgreeing(u, ms, p, MergedAll(u, ms).properties[p])
  {
    hide NormalizedValue;
    var init, last := ms[..|ms| - 1], ms[|ms| - 1];
    assert ms == init + [last];
    FirstValueExtend(init, last, p);
    MergedValueIsFirstValue(u, ms, p);
    if |ms| == 1 {
      assert FirstValue(init, p).None?;
      assert p in ms[0].properties ==> Agrees(u, ms, p, 0);
    } else {
      MergedValue(u, init, p);
      MergedAllExtend(u, init, last);
      ValueExtends(u, init, last, p, MergedAll(u, init));
    }
  }

  lemma ValueExtends(u: Unicode, init: seq<Entity>, last: Entity, p: string, dst: Entity)
    requires p in dst.properties <==> FirstValue(init, p).Some?
    requires p in dst.properties ==> LastAgreeing(u, init, p, dst.properties[p])
    ensures var c := Merge(u, dst, last); p in c.properties ==> LastAgreeing(u, init + [last], p, c.properties[p])
  {
    hide NormalizedValue;
    hide FirstValue;
    hide UniqueNonEmpty;
    hide SortStrings;
    hide MergeEvidence;
    var ms, c := init + [last], Merge(u, dst, last);
    FirstValueExtend(init, last, p);
    if p in c.properties {
      if p in dst.properties {
        var i: nat :| i < |init| && Agrees(u, init, p, i) && init[i].properties[p] == dst.properties[p]
                      && forall j: nat :: i < j < |init| ==> !Agrees(u, init, p, j);
        assert Agrees(u, ms, p, i);
        assert forall j: nat :: i < j < |init| && Agrees(u, ms, p, j) ==> Agrees(u, init, p, j);
        if Agrees(u, ms, p, |init|) {
          assert c.properties[p] == ms[|init|].properties[p];
        } else {
          assert c.properties[p] == ms[i].properties[p];
        }
      } else {
        assert Agrees(u, ms, p, |init|);
      }
    }
  }

  // ---------- The entity put out ----------

  /**
   Named after the first; and, for several, with the first evidence of each id in the order of the members.
   Each property has the value of the last member that agrees with the first value given for it.
   */
  ghost predicate Represents(u: Unicode, ms: seq<Entity>, c: Entity) {
    && ms != [] && NamedAfter(u, ms, c)
    && (|ms| > 1 ==> FirstOfEach(AllEvidence(ms), c.evidence))
    && (forall p :: p in c.properties <==> exists i :: 0 <= i < |ms| && p in ms[i].properties)
    && (forall p :: p in c.properties ==> LastAgreeing(u, ms, p, c.properties[p]))
  }

  lemma {:induction false} FirstValueGiven(ms: seq<Entity>, p: string)
    ensures FirstValue(ms, p).Some? <==> exists i :: 0 <= i < |ms| && p in ms[i].properties
  {
    if ms != [] {
      var init, last := ms[..|ms| - 1], ms[|ms| - 1];
      FirstValueGiven(init, p);
      if exists i :: 0 <= i < |ms| && p in ms[i].properties {
        var i :| 0 <= i < |ms| && p in ms[i].properties;
        FirstValueFound(ms, ms[i], p);
      }
      if FirstValue(init, p).Some? {
        var i :| 0 <= i < |init| && p in init[i].properties;
        assert p in ms[i].properties;
      }
    }
  }

  lemma MergedAllRepresents(u: Unicode, ms: seq<Entity>)
    requires ms != []
    ensures Represents(u, ms, MergedAll(u, ms))
  {
    hide NamedAfter;
    hide FirstOfEach;
    hide LastAgreeing;
    hide MergedAll;
    MergedNames(u, ms);
    if |ms| > 1 {
      MergedEvidenceInOrder(u, ms);
    }
    forall p
      ensures p in MergedAll(u, ms).properties <==> exists i :: 0 <= i < |ms| && p in ms[i].properties
      ensures p in MergedAll(u, ms).properties ==> LastAgreeing(u, ms, p, MergedAll(u, ms).properties[p])
    {
      MergedValue(u, ms, p);
      FirstValueGiven(ms, p);
    }
  }

  /**
   The entities put out are exactly one for each identity of the input, and each is made from all the input
   entities of its identity, in the order they came in.
   */
  lemma ResolvedRepresents(u: Unicode, input: seq<Entity>)
    requires u.Lawful()
    ensures var out := Resolved(u, input).entities;
            && (forall c :: c in out ==> Represents(u, Members(u, input, IdentityKey(u, c)), c))
            && (forall e :: e in input ==>
                  e in Members(u, input, IdentityKey(u, e))
                  && exists c :: c in out && IdentityKey(u, c) == IdentityKey(u, e))
  {
    hide IdentityKey;
    hide Folded;
    hide Represents;
    hide Members;
    var r := Folded(u, input);
    var out := Resolved(u, input).entities;
    FoldedIsIndexed(u, input);
    SortMembers(r.entities, IdOrder());
    forall c | c in out
      ensures Represents(u, Members(u, input, IdentityKey(u, c)), c)
    {
      CanonicalIsMergeOfMembers(u, input, IdentityKey(u, c));
      MergedAllRepresents(u, Members(u, input, IdentityKey(u, c)));
    }
    forall e | e in input
      ensures e in Members(u, input, IdentityKey(u, e))
      ensures exists c :: c in out && IdentityKey(u, c) == IdentityKey(u, e)
    {
      MemberHasKey(u, input, e);
      assert r.entities[r.index[IdentityKey(u, e)]] in out;
    }
  }

  // ---------- Conflicts ----------

  /** The conflict tells of an input entity whose value differs from the first one given for its identity. */
  ghost predicate TellsOf(u: Unicode, input: seq<Entity>, c: Conflict, e: Entity) {
    var ms := Members(u, input, IdentityKey(u, e));
    && ms != [] && c.sourceId == e.id && c.canonicalId == ms[0].id
    && c.property in e.properties && c.incoming == e.properties[c.property]
    && FirstValue(ms, c.property).Some?
    && NormalizedValue(u, c.existing) == NormalizedValue(u, FirstValue(ms, c.property).value)
    && NormalizedValue(u, c.existing) != NormalizedValue(u, c.incoming)
  }

  lemma StillTellsOf(u: Unicode, init: seq<Entity>, last: Entity, c: Conflict, e: Entity)
    requires TellsOf(u, init, c, e)
    ensures TellsOf(u, init + [last], c, e)
  {
    hide IdentityKey;
    hide NormalizedValue;
    hide Members;
    hide FirstValue;
    var key := IdentityKey(u, e);
    MembersExtend(u, init, last, key);
    FirstValueExtend(Members(u, init, key), last, c.property);
  }

  lemma LatestTellsOf(u: Unicode, init: seq<Entity>, last: Entity, c: Conflict)
    requires u.Lawful()
    requires var r := Folded(u, init);
             && IndexInRange(r) && IdentityKey(u, last) in r.index
             && c in MergeConflicts(u, r.entities[r.index[IdentityKey(u, last)]], last, last.properties.Keys)
    ensures TellsOf(u, init + [last], c, last)
  {
    hide IdentityKey;
    hide NormalizedValue;
    hide Members;
    hide FirstValue;
    hide Folded;
    hide NamedByAll;
    hide MergedAll;
    var key := IdentityKey(u, last);
    var ms := Members(u, init, key);
    CanonicalIsMergeOfMembers(u, init, key);
    MergedNames(u, ms);
    MergedValueIsFirstValue(u, ms, c.property);
    MembersExtend(u, init, last, key);
    FirstValueExtend(ms, last, c.property);
  }

  /** Every conflict tells of one of the input entities, whatever the ids. */
  lemma {:induction false} ConflictsTellOfInput(u: Unicode, input: seq<Entity>, c: Conflict)
    requires u.Lawful() && c in Folded(u, input).conflicts
    ensures exists e :: e in input && TellsOf(u, input, c, e)
  {
    hide IdentityKey;
    hide TellsOf;
    hide Step;
    hide MergeConflicts;
    hide Merge;
    if input != [] {
      var init, last := input[..|input| - 1], input[|input| - 1];
      assert input == init + [last];
      FoldedIndexInRange(u, init);
      var r := Folded(u, init);
      if c in r.conflicts {
        ConflictsTellOfInput(u, init, c);
        var e :| e in init && TellsOf(u, init, c, e);
        StillTellsOf(u, init, last, c, e);
      } else if IdentityKey(u, last) in r.index {
        StepOnKnownKey(u, r, last);
        LatestTellsOf(u, init, last, c);
      } else {
        StepOnNewKey(u, r, last);
      }
    }
  }

  /** With distinct ids no conflict is recorded twice. */
  lemma {:induction false} EachConflictOnce(u: Unicode, input: seq<Entity>, c: Conflict)
    requires DistinctIds(input)
    ensures Folded(u, input).conflicts[c] <= 1
  {
    hide IdentityKey;
    hide Step;
    hide Merge;
    hide NormalizedValue;
    if input != [] {
      var init, last := input[..|input| - 1], input[|input| - 1];
      EachConflictOnce(u, init, c);
      ConflictSources(u, init);
      FoldedIndexInRange(u, init);
      var r := Folded(u, init);
      if IdentityKey(u, last) in r.index {
        StepOnKnownKey(u, r, last);
        assert last.id !in Ids(init);
        assert r.conflicts[c] > 0 ==> c in r.conflicts;
      } else {
        StepOnNewKey(u, r, last);
      }
    }
  }

  // ---------- Identities ----------

  /** The least of the entity's names once normalized, if any is left. */
  ghost predicate KnownBy(u: Unicode, e: Entity, name: string) {
    && name != ""
    && (exists n :: n in [e.name] + e.aliases && u.Normalize(n) == name)
    && (forall n :: n in [e.name] + e.aliases && u.Normalize(n) != "" ==> !Before(u.Normalize(n), name))
  }

  /** One type, and one business key or else one least name; or no usable identity but one id. */
  ghost predicate SameIdentity(u: Unicode, e: Entity, f: Entity) {
    || (e.typeId == f.typeId && !u.Blank(e.businessKey) && !u.Blank(f.businessKey)
        && u.Normalize(e.businessKey) == u.Normalize(f.businessKey))
    || (e.typeId == f.typeId && u.Blank(e.businessKey) && u.Blank(f.businessKey)
        && exists name :: KnownBy(u, e, name) && KnownBy(u, f, name))
    || (e.id == f.id && u.Blank(e.businessKey) && u.Blank(f.businessKey)
        && (forall n :: n in [e.name] + e.aliases + [f.name] + f.aliases ==> u.Normalize(n) == ""))
  }

  lemma KnownByLeastName(u: Unicode, e: Entity, name: string)
    ensures KnownBy(u, e, name) <==> name != "" && name == LeastName(u, Names(e))
    ensures LeastName(u, Names(e)) == "" <==> forall n :: n in [e.name] + e.aliases ==> u.Normalize(n) == ""
  {
    hide LeastName;
    hide Unicode.Normalize;
    LeastNameIsLeast(u, Names(e));
    if KnownBy(u, e, name) {
      LeastIsUnique(u, Names(e), name);
    }
  }

  lemma IdentityInWords(u: Unicode, e: Entity, f: Entity)
    ensures IdentityOf(u, e) == IdentityOf(u, f) <==> SameIdentity(u, e, f)
  {
    hide LeastName;
    hide Unicode.Normalize;
    hide Unicode.Trim;
    hide KnownBy;
    KnownByLeastName(u, e, LeastName(u, Names(e)));
    KnownByLeastName(u, f, LeastName(u, Names(f)));
    forall name
      ensures KnownBy(u, e, name) <==> name != "" && name == LeastName(u, Names(e))
      ensures KnownBy(u, f, name) <==> name != "" && name == LeastName(u, Names(f))
    {
      KnownByLeastName(u, e, name);
      KnownByLeastName(u, f, name);
    }
    assert forall n :: n in [e.name] + e.aliases + [f.name] + f.aliases <==>
                       n in [e.name] + e.aliases || n in [f.name] + f.aliases;
  }

  /** Two entities are resolved to one exactly when they have the same identity. */
  lemma ResolvedTogetherExactly(u: Unicode, input: seq<Entity>, e: Entity, f: Entity)
    requires u.Lawful() && DistinctIds(input) && e in input && f in input
    ensures var r := Resolved(u, input);
            && e.id in r.idMap && f.id in r.idMap
            && (r.idMap[e.id] == r.idMap[f.id] <==> SameIdentity(u, e, f))
  {
    hide SameIdentity;
    hide IdentityOf;
    hide Resolved;
    IdentityInWords(u, e, f);
    ResolutionIsQuotient(u, input);
    assert SplitByIdentity(u, Resolved(u, input), e, f);
  }
}
