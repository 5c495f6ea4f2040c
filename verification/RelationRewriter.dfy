/**
 Rewriting relations onto canonical entities. Output triples are the images of input triples without
 repetition. Repetition is detected on a key that joins the three ids with NUL characters, so distinct
 triples are confused exactly when their joined keys coincide, which ids free of NUL rule out.
 */
module RelationRewriter {
  import opened Text
  import opened Sorting
  import opened GraphModel
  import opened EntityResolver
  import opened ResolverTheorems

  datatype Triple = Triple(sourceId: string, typeId: string, targetId: string)

  function TripleOf(r: Relation): Triple {
    Triple(r.sourceId, r.typeId, r.targetId)
  }

  function Redirected(idMap: map<string, string>, r: Relation): Relation {
    r.(sourceId := if r.sourceId in idMap then idMap[r.sourceId] else r.sourceId,
       targetId := if r.targetId in idMap then idMap[r.targetId] else r.targetId)
  }

  function Image(idMap: map<string, string>, r: Relation): Triple {
    TripleOf(Redirected(idMap, r))
  }

  function Joined(t: Triple): string {
    t.sourceId + "\0" + t.typeId + "\0" + t.targetId
  }

  ghost function JoinedKeys(rels: seq<Relation>): set<string> {
    set r | r in rels :: Joined(TripleOf(r))
  }

  /** The relations kept before sorting, each with its new id. */
  function Kept(rels: seq<Relation>, idMap: map<string, string>, stableId: string -> string): seq<Relation> {
    if rels == [] then []
    else
      var kept := Kept(rels[..|rels| - 1], idMap, stableId);
      var r := Redirected(idMap, rels[|rels| - 1]);
      var key := Joined(TripleOf(r));
      if exists i :: 0 <= i < |kept| && Joined(TripleOf(kept[i])) == key then kept
      else kept + [r.(id := stableId(key))]
  }

  function RelationOrder(): (Relation, Relation) -> bool {
    (a: Relation, b: Relation) => Before(a.id, b.id)
  }

  function Rewritten(rels: seq<Relation>, idMap: map<string, string>, stableId: string -> string): seq<Relation> {
    Sort(Kept(rels, idMap, stableId), RelationOrder())
  }

  lemma KeysAfterKeeping(kept: seq<Relation>, r: Relation, id: string)
    ensures JoinedKeys(kept + [r.(id := id)]) == JoinedKeys(kept) + {Joined(TripleOf(r))}
    ensures Joined(TripleOf(r)) in JoinedKeys(kept)
            <==> exists i :: 0 <= i < |kept| && Joined(TripleOf(kept[i])) == Joined(TripleOf(r))
  {
    var more := kept + [r.(id := id)];
    assert TripleOf(r.(id := id)) == TripleOf(r);
    forall k | k in JoinedKeys(kept) + {Joined(TripleOf(r))}
      ensures k in JoinedKeys(more)
    {
      if k in JoinedKeys(kept) {
        var x :| x in kept && Joined(TripleOf(x)) == k;
        assert x in more;
      } else {
        assert r.(id := id) in more;
      }
    }
    if Joined(TripleOf(r)) in JoinedKeys(kept) {
      var x :| x in kept && Joined(TripleOf(x)) == Joined(TripleOf(r));
      var i :| 0 <= i < |kept| && kept[i] == x;
    }
  }

  method RewriteRelations(rels: seq<Relation>, idMap: map<string, string>, stableId: string -> string)
    returns (out: seq<Relation>)
    ensures out == Rewritten(rels, idMap, stableId)
  {
    hide Joined;
    var seen: set<string> := {};
    out := [];
    for n := 0 to |rels|
      invariant out == Kept(rels[..n], idMap, stableId)
      invariant seen == JoinedKeys(out)
    {
      assert rels[..n + 1][..n] == rels[..n];
      var rel := rels[n];
      if rel.sourceId in idMap {
        rel := rel.(sourceId := idMap[rel.sourceId]);
      }
      if rel.targetId in idMap {
        rel := rel.(targetId := idMap[rel.targetId]);
      }
      assert rel == Redirected(idMap, rels[n]);
      var key := Joined(TripleOf(rel));
      KeysAfterKeeping(out, rel, stableId(key));
      hide JoinedKeys;
      hide Redirected;
      if key !in seen {
        seen := seen + {key};
        out := out + [rel.(id := stableId(key))];
      }
    }
    assert rels[..|rels|] == rels;
    out := Sort(out, RelationOrder());
  }

  // ---------- Which triples come out ----------

  ghost function Triples(rels: seq<Relation>): set<Triple> {
    set r | r in rels :: TripleOf(r)
  }

  ghost function Images(rels: seq<Relation>, idMap: map<string, string>): set<Triple> {
    set r | r in rels :: Image(idMap, r)
  }

  ghost predicate KeysDiffer(rels: seq<Relation>) {
    forall i, j :: 0 <= i < j < |rels| ==> Joined(TripleOf(rels[i])) != Joined(TripleOf(rels[j]))
  }

  /** Two different triples among the images share a joined key. */
  ghost predicate KeysCollide(images: set<Triple>) {
    exists s, t :: s in images && t in images && s != t && Joined(s) == Joined(t)
  }

  /** The kept relations have keys of their own, stem from the images, and cover the images' keys. */
  ghost predicate Shaped(kept: seq<Relation>, images: set<Triple>) {
    && KeysDiffer(kept)
    && Triples(kept) <= images
    && (forall t :: t in images ==> Joined(t) in JoinedKeys(kept))
  }

  lemma KeepOne(kept: seq<Relation>, r: Relation, id: string, images: set<Triple>)
    requires Shaped(kept, images)
    ensures var key := Joined(TripleOf(r));
            Shaped(if key in JoinedKeys(kept) then kept else kept + [r.(id := id)], images + {TripleOf(r)})
  {
    hide Joined;
    KeysAfterKeeping(kept, r, id);
    TriplesExtend(kept, r.(id := id));
    var key := Joined(TripleOf(r));
    if key !in JoinedKeys(kept) {
      var more := kept + [r.(id := id)];
      forall i, j | 0 <= i < j < |more|
        ensures Joined(TripleOf(more[i])) != Joined(TripleOf(more[j]))
      {
        if j < |kept| {
          assert more[i] == kept[i] && more[j] == kept[j];
        } else {
          assert more[i] == kept[i] && kept[i] in kept && TripleOf(more[j]) == TripleOf(r);
        }
      }
    }
  }

  lemma {:induction false} KeptShape(rels: seq<Relation>, idMap: map<string, string>, stableId: string -> string)
    ensures Shaped(Kept(rels, idMap, stableId), Images(rels, idMap))
  {
    if rels != [] {
      hide Joined;
      hide Shaped;
      hide Images;
      hide Redirected;
      var init, last := rels[..|rels| - 1], rels[|rels| - 1];
      assert rels == init + [last];
      KeptShape(init, idMap, stableId);
      var kept := Kept(init, idMap, stableId);
      var r := Redirected(idMap, last);
      var id := stableId(Joined(TripleOf(r)));
      KeysAfterKeeping(kept, r, id);
      ImagesExtend(init, last, idMap);
      KeepOne(kept, r, id, Images(init, idMap));
    }
  }

  lemma ImagesExtend(init: seq<Relation>, last: Relation, idMap: map<string, string>)
    ensures Images(init + [last], idMap) == Images(init, idMap) + {Image(idMap, last)}
  {
    hide Image;
    forall t | t in Images(init, idMap) + {Image(idMap, last)}
      ensures t in Images(init + [last], idMap)
    {
      if t in Images(init, idMap) {
        var x :| x in init && Image(idMap, x) == t;
        assert x in init + [last];
      } else {
        assert last in init + [last];
      }
    }
  }

  lemma TriplesExtend(init: seq<Relation>, last: Relation)
    ensures Triples(init + [last]) == Triples(init) + {TripleOf(last)}
  {
    forall t | t in Triples(init) + {TripleOf(last)}
      ensures t in Triples(init + [last])
    {
      if t in Triples(init) {
        var x :| x in init && TripleOf(x) == t;
        assert x in init + [last];
      } else {
        assert last in init + [last];
      }
    }
  }

  /**
   No triple comes out twice, and none comes out that is not an image. Every image comes out exactly when
   no two different images share a joined key.
   */
  lemma RewritingKeepsImages(rels: seq<Relation>, idMap: map<string, string>, stableId: string -> string)
    ensures var out := Rewritten(rels, idMap, stableId);
            && (forall i, j :: 0 <= i < j < |out| ==> TripleOf(out[i]) != TripleOf(out[j]))
            && Triples(out) <= Images(rels, idMap)
            && (Triples(out) == Images(rels, idMap) <==> !KeysCollide(Images(rels, idMap)))
  {
    hide Kept;
    hide Joined;
    hide Image;
    var kept := Kept(rels, idMap, stableId);
    var out := Rewritten(rels, idMap, stableId);
    var images := Images(rels, idMap);
    KeptShape(rels, idMap, stableId);
    SortMultiset(kept, RelationOrder());
    SortMembers(kept, RelationOrder());
    assert Triples(out) == Triples(kept);
    forall i, j | 0 <= i < j < |out|
      ensures TripleOf(out[i]) != TripleOf(out[j])
    {
      var a, b := PermutedPlaces(kept, out, i, j);
      assert a < b || b < a;
    }
    if KeysCollide(images) {
      MissingImage(kept, images);
    } else {
      forall t | t in images
        ensures t in Triples(kept)
      {
        var r :| r in kept && Joined(TripleOf(r)) == Joined(t);
        assert TripleOf(r) in Triples(kept);
      }
    }
  }

  lemma MissingImage(kept: seq<Relation>, images: set<Triple>)
    requires KeysDiffer(kept) && KeysCollide(images)
    ensures Triples(kept) != images
  {
  }

  // ---------- When joined keys are unambiguous ----------

  predicate PlainTriple(t: Triple) {
    '\0' !in t.sourceId && '\0' !in t.typeId && '\0' !in t.targetId
  }

  lemma FirstNulSplits(a: string, m: string, b: string, n: string)
    requires '\0' !in a && '\0' !in b && a + "\0" + m == b + "\0" + n
    ensures a == b && m == n
  {
    var s, t := a + "\0" + m, b + "\0" + n;
    assert forall i :: 0 <= i < |a| ==> s[i] in a;
    assert forall i :: 0 <= i < |b| ==> t[i] in b;
    assert s[|a|] == '\0' && t[|b|] == '\0';
    assert a == s[..|a|] && b == t[..|b|];
    assert m == s[|a| + 1..] && n == t[|b| + 1..];
  }

  lemma PlainKeysAreInjective(s: Triple, t: Triple)
    requires PlainTriple(s) && PlainTriple(t) && Joined(s) == Joined(t)
    ensures s == t
  {
    assert Joined(s) == s.sourceId + "\0" + (s.typeId + "\0" + s.targetId);
    assert Joined(t) == t.sourceId + "\0" + (t.typeId + "\0" + t.targetId);
    FirstNulSplits(s.sourceId, s.typeId + "\0" + s.targetId, t.sourceId, t.typeId + "\0" + t.targetId);
    FirstNulSplits(s.typeId, s.targetId, t.typeId, t.targetId);
  }

  /** Ids free of NUL never collide, so then exactly the images come out. */
  lemma PlainIdsKeepEveryImage(rels: seq<Relation>, idMap: map<string, string>, stableId: string -> string)
    requires forall t :: t in Images(rels, idMap) ==> PlainTriple(t)
    ensures Triples(Rewritten(rels, idMap, stableId)) == Images(rels, idMap)
  {
    RewritingKeepsImages(rels, idMap, stableId);
    if KeysCollide(Images(rels, idMap)) {
      var s, t :| s in Images(rels, idMap) && t in Images(rels, idMap) && s != t && Joined(s) == Joined(t);
      PlainKeysAreInjective(s, t);
    }
  }

  /** Two different relations whose ids contain NUL: only one of them is kept. */
  lemma NulInIdsLosesARelation(stableId: string -> string)
    ensures var rels := [Relation("1", "a\0b", "d", "", "c", []), Relation("2", "a", "d", "", "b\0c", [])];
            && Image(map[], rels[0]) != Image(map[], rels[1])
            && Triples(Rewritten(rels, map[], stableId)) != Images(rels, map[])
  {
    var x, y := Relation("1", "a\0b", "d", "", "c", []), Relation("2", "a", "d", "", "b\0c", []);
    var rels := [x, y];
    var s, t := Triple("a\0b", "c", "d"), Triple("a", "b\0c", "d");
    assert Image(map[], x) == s && Image(map[], y) == t;
    assert x in rels && y in rels;
    assert |"a\0b"| == 3 && |"a"| == 1;
    assert Joined(s) == "a\0b\0c\0d" == Joined(t);
    RewritingKeepsImages(rels, map[], stableId);
    assert KeysCollide(Images(rels, map[]));
  }

  // ---------- No dangling endpoints ----------

  /** Relations between input entities are rewritten to relations between resolved entities. */
  lemma NoDanglingEndpoints(u: Unicode, input: seq<Entity>, rels: seq<Relation>, stableId: string -> string,
                            r: Relation)
    requires u.Lawful() && DistinctIds(input)
    requires forall x :: x in rels ==> x.sourceId in Ids(input) && x.targetId in Ids(input)
    requires r in Rewritten(rels, Resolved(u, input).idMap, stableId)
    ensures r.sourceId in Ids(Resolved(u, input).entities) && r.targetId in Ids(Resolved(u, input).entities)
  {
    hide Resolved;
    var resolution := Resolved(u, input);
    var idMap := resolution.idMap;
    ResolutionIsQuotient(u, input);
    RewritingKeepsImages(rels, idMap, stableId);
    assert TripleOf(r) in Images(rels, idMap);
    var x :| x in rels && Image(idMap, x) == TripleOf(r);
    assert LandsOnOutput(resolution, x.sourceId) && LandsOnOutput(resolution, x.targetId);
  }

  // ---------- Where rewritten relations come from ----------

  function Canonical(idMap: map<string, string>, id: string): string {
    if id in idMap then idMap[id] else id
  }

  /** The key under which a relation is taken for another, by the canonical ids of its end points. */
  function KeyOf(idMap: map<string, string>, r: Relation): string {
    Canonical(idMap, r.sourceId) + "\0" + r.typeId + "\0" + Canonical(idMap, r.targetId)
  }

  /** The relation between the canonical end points, in the same direction, under the id of its key. */
  predicate RewrittenFrom(idMap: map<string, string>, stableId: string -> string, r: Relation, x: Relation) {
    && x.sourceId == Canonical(idMap, r.sourceId) && x.targetId == Canonical(idMap, r.targetId)
    && x.typeId == r.typeId && x.businessType == r.businessType && x.evidence == r.evidence
    && x.id == stableId(KeyOf(idMap, r))
  }

  /** It is rewritten from the first relation with its key. */
  ghost predicate FromFirst(rels: seq<Relation>, idMap: map<string, string>, stableId: string -> string, x: Relation) {
    exists i :: 0 <= i < |rels| && RewrittenFrom(idMap, stableId, rels[i], x)
                && forall j :: 0 <= j < i ==> KeyOf(idMap, rels[j]) != KeyOf(idMap, rels[i])
  }

  lemma FromFirstExtends(rels: seq<Relation>, idMap: map<string, string>, stableId: string -> string, last: Relation,
                         x: Relation)
    ensures FromFirst(rels + [last], idMap, stableId, x) <==>
              || FromFirst(rels, idMap, stableId, x)
              || (RewrittenFrom(idMap, stableId, last, x)
                  && forall j :: 0 <= j < |rels| ==> KeyOf(idMap, rels[j]) != KeyOf(idMap, last))
  {
    hide RewrittenFrom;
    hide KeyOf;
    var more := rels + [last];
    assert more[|rels|] == last && forall j :: 0 <= j < |rels| ==> more[j] == rels[j];
    if FromFirst(rels, idMap, stableId, x) {
      var i :| 0 <= i < |rels| && RewrittenFrom(idMap, stableId, rels[i], x)
               && forall j :: 0 <= j < i ==> KeyOf(idMap, rels[j]) != KeyOf(idMap, rels[i]);
      assert RewrittenFrom(idMap, stableId, more[i], x);
    }
  }

  lemma {:induction false} KeptKeys(rels: seq<Relation>, idMap: map<string, string>, stableId: string -> string,
                                    key: string)
    ensures key in JoinedKeys(Kept(rels, idMap, stableId)) <==> exists r :: r in rels && KeyOf(idMap, r) == key
  {
    if rels != [] {
      var init, last := rels[..|rels| - 1], rels[|rels| - 1];
      assert rels == init + [last];
      KeptKeys(init, idMap, stableId, key);
      KeptKeys(init, idMap, stableId, KeyOf(idMap, last));
      var r := Redirected(idMap, last);
      assert Joined(TripleOf(r)) == KeyOf(idMap, last);
      KeysAfterKeeping(Kept(init, idMap, stableId), r, stableId(KeyOf(idMap, last)));
      hide Redirected;
      hide Joined;
      hide KeyOf;
      hide JoinedKeys;
    }
  }

  lemma {:induction false} KeptFromFirst(rels: seq<Relation>, idMap: map<string, string>, stableId: string -> string,
                                         x: Relation)
    ensures x in Kept(rels, idMap, stableId) <==> FromFirst(rels, idMap, stableId, x)
  {
    if rels != [] {
      var init, last := rels[..|rels| - 1], rels[|rels| - 1];
      assert rels == init + [last];
      KeptFromFirst(init, idMap, stableId, x);
      FromFirstExtends(init, idMap, stableId, last, x);
      KeptKeys(init, idMap, stableId, KeyOf(idMap, last));
      var r := Redirected(idMap, last);
      var key := Joined(TripleOf(r));
      assert key == KeyOf(idMap, last);
      KeysAfterKeeping(Kept(init, idMap, stableId), r, stableId(key));
      assert RewrittenFrom(idMap, stableId, last, x) <==> x == r.(id := stableId(key));
      hide Redirected;
      hide Joined;
      hide JoinedKeys;
      hide FromFirst;
    }
  }

  /** Out come, by id, exactly the relations rewritten from the first one with each key. */
  lemma RewrittenExactly(rels: seq<Relation>, idMap: map<string, string>, stableId: string -> string, x: Relation)
    ensures x in Rewritten(rels, idMap, stableId) <==> FromFirst(rels, idMap, stableId, x)
    ensures var out := Rewritten(rels, idMap, stableId);
            forall i, j :: 0 <= i < j < |out| ==> !Before(out[j].id, out[i].id)
  {
    hide Kept;
    hide FromFirst;
    var kept := Kept(rels, idMap, stableId);
    KeptFromFirst(rels, idMap, stableId, x);
    SortMembers(kept, RelationOrder());
    KeyOrderIsStrictWeak((r: Relation) => r.id, RelationOrder());
    SortSorted(kept, RelationOrder());
    var out := Rewritten(rels, idMap, stableId);
    forall i, j | 0 <= i < j < |out|
      ensures !Before(out[j].id, out[i].id)
    {
      assert !RelationOrder()(out[j], out[i]);
    }
  }
}
