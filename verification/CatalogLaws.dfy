/**
 What a query is planned with: the ontologies that are bound to the requested knowledge bases, and for each
 of their classes, properties and relations the term that the overlay makes of it.
 */
module CatalogLaws {
  import opened Wrappers
  import opened Text
  import opened Sorting
  import opened OntologyModel
  import R = OntologyRegistry
  import Inv = RegistryInvariants
  import opened RetrievalModel
  import opened Federation
  import opened RuntimeContext

  // ---------- Terms ----------

  /** The values that are not blank, trimmed, in order. */
  function Filled(u: Unicode, values: seq<string>): seq<string> {
    if values == [] then []
    else (if u.Blank(values[0]) then [] else [u.Trim(values[0])]) + Filled(u, values[1..])
  }

  lemma {:induction false} FilledSplit(u: Unicode, a: seq<string>, b: seq<string>)
    ensures Filled(u, a + b) == Filled(u, a) + Filled(u, b)
  {
    if a == [] {
      assert a + b == b;
    } else {
      assert (a + b)[1..] == a[1..] + b;
      FilledSplit(u, a[1..], b);
    }
  }

  lemma {:induction false} TrimmedAreFilled(u: Unicode, sources: seq<string>)
    ensures TrimmedSources(u, sources) == Filled(u, sources)
  {
    if sources != [] {
      var init, last := sources[..|sources| - 1], sources[|sources| - 1];
      assert sources == init + [last];
      TrimmedAreFilled(u, init);
      FilledSplit(u, init, [last]);
    }
  }

  /**
   The term has the element's id and label, its aliases with those the overlay adds, sorted and once each, and
   the sources the overlay names, or else the given ones.
   */
  ghost predicate Stands(u: Unicode, t: Term, id: string, name: string, aliases: seq<string>, kind: string,
                         overlay: map<string, TermOverlay>, sources: seq<string>) {
    var added := if name in overlay then overlay[name].aliases else [];
    var named := if name in overlay then overlay[name].preferredSources else [];
    && t.id == id && t.name == name && t.kind == kind
    && Sorted(t.aliases, StringOrder()) && NoRepeats(t.aliases)
    && (forall a :: a in t.aliases <==> a != "" && exists x :: (x in aliases || x in added) && u.Trim(x) == a)
    && t.preferredSources == if named == [] then sources else Filled(u, named)
  }

  lemma TermStands(u: Unicode, id: string, name: string, aliases: seq<string>, kind: string,
                   overlay: map<string, TermOverlay>, sources: seq<string>)
    ensures Stands(u, TermFor(u, id, name, aliases, kind, OverlayAt(overlay, name), sources), id, name, aliases, kind,
                   overlay, sources)
  {
    var ov := OverlayAt(overlay, name);
    UniqueSortedListing(u, aliases + ov.aliases);
    TrimmedAreFilled(u, ov.preferredSources);
    assert forall x :: x in aliases + ov.aliases <==> x in aliases || x in ov.aliases;
    hide UniqueSorted;
    hide Filled;
    hide TrimmedSources;
    hide Unicode.Trim;
  }

  /** Where a property's values are found: where its policy says, or else in the entity graph. */
  function PropertySources(u: Unicode, ov: Overlay, id: string): seq<string> {
    if id !in ov.policies || |ov.policies[id]| == 0 then [ENTITY_GRAPH]
    else seq(|ov.policies[id]|, i requires 0 <= i < |ov.policies[id]| => u.Trim(ov.policies[id][i]))
  }

  ghost predicate ForClass(u: Unicode, ov: Overlay, c: OntologyClass, t: Term) {
    Stands(u, t, c.id, c.name, c.aliases, "class", ov.classes, [ENTITY_GRAPH])
  }

  ghost predicate ForProperty(u: Unicode, ov: Overlay, p: DataProperty, t: Term) {
    Stands(u, t, p.id, p.name, p.aliases, "property", ov.properties, PropertySources(u, ov, p.id))
  }

  ghost predicate ForRelation(u: Unicode, ov: Overlay, r: ObjectRelation, t: Term) {
    Stands(u, t, r.id, r.name, r.aliases, "relation", ov.relations, [ENTITY_GRAPH])
  }

  lemma SortedTerms(terms: seq<Term>)
    ensures var sorted := Sort(terms, TermOrder());
            && |sorted| == |terms| && (forall t :: t in sorted <==> t in terms)
            && forall i, j :: 0 <= i < j < |sorted| ==> !Before(sorted[j].name, sorted[i].name)
  {
    SortMembers(terms, TermOrder());
    SortMultiset(terms, TermOrder());
    KeyOrderIsStrictWeak((t: Term) => t.name, TermOrder());
    SortSorted(terms, TermOrder());
    var sorted := Sort(terms, TermOrder());
    forall i, j | 0 <= i < j < |sorted|
      ensures !Before(sorted[j].name, sorted[i].name)
    {
      assert !TermOrder()(sorted[j], sorted[i]);
    }
  }

  /** The terms of the catalog are one for each element of the ontology, by label. */
  ghost predicate Ordered(terms: seq<Term>, n: nat) {
    |terms| == n && forall i, j :: 0 <= i < j < |terms| ==> !Before(terms[j].name, terms[i].name)
  }

  lemma ClassTermAt(u: Unicode, ov: Overlay, o: Ontology, i: nat)
    requires i < |o.classes|
    ensures ForClass(u, ov, o.classes[i], ClassTerms(u, ov, o.classes)[i])
  {
    var c := o.classes[i];
    TermStands(u, c.id, c.name, c.aliases, "class", ov.classes, [ENTITY_GRAPH]);
    hide Stands;
    hide TermFor;
  }

  /** The classes of an ontology and the terms of its catalog stand for each other. */
  lemma ClassesInCatalog(u: Unicode, ov: Overlay, o: Ontology, c: OntologyClass, t: Term)
    ensures Ordered(CatalogOf(u, ov, o).classes, |o.classes|)
    ensures c in o.classes ==> exists x :: x in CatalogOf(u, ov, o).classes && ForClass(u, ov, c, x)
    ensures t in CatalogOf(u, ov, o).classes ==> exists x :: x in o.classes && ForClass(u, ov, x, t)
  {
    hide ForClass;
    hide TermFor;
    var all := ClassTerms(u, ov, o.classes);
    SortedTerms(all);
    hide Sort;
    if c in o.classes {
      var i :| 0 <= i < |o.classes| && o.classes[i] == c;
      ClassTermAt(u, ov, o, i);
      assert all[i] in all;
    }
    if t in CatalogOf(u, ov, o).classes {
      var i :| 0 <= i < |all| && all[i] == t;
      ClassTermAt(u, ov, o, i);
      assert o.classes[i] in o.classes;
    }
  }

  lemma PropertyTermAt(u: Unicode, ov: Overlay, o: Ontology, i: nat)
    requires i < |o.properties|
    ensures ForProperty(u, ov, o.properties[i], PropertyTerms(u, ov, o.properties)[i])
  {
    var p := o.properties[i];
    assert PolicySources(u, ov, p) == PropertySources(u, ov, p.id);
    TermStands(u, p.id, p.name, p.aliases, "property", ov.properties, PropertySources(u, ov, p.id));
    hide Stands;
    hide TermFor;
  }

  /** The properties of an ontology and the terms of its catalog stand for each other. */
  lemma PropertiesInCatalog(u: Unicode, ov: Overlay, o: Ontology, p: DataProperty, t: Term)
    ensures Ordered(CatalogOf(u, ov, o).properties, |o.properties|)
    ensures p in o.properties ==> exists x :: x in CatalogOf(u, ov, o).properties && ForProperty(u, ov, p, x)
    ensures t in CatalogOf(u, ov, o).properties ==> exists x :: x in o.properties && ForProperty(u, ov, x, t)
  {
    hide ForProperty;
    hide TermFor;
    var all := PropertyTerms(u, ov, o.properties);
    SortedTerms(all);
    hide Sort;
    if p in o.properties {
      var i :| 0 <= i < |o.properties| && o.properties[i] == p;
      PropertyTermAt(u, ov, o, i);
      assert all[i] in all;
    }
    if t in CatalogOf(u, ov, o).properties {
      var i :| 0 <= i < |all| && all[i] == t;
      PropertyTermAt(u, ov, o, i);
      assert o.properties[i] in o.properties;
    }
  }

  lemma RelationTermAt(u: Unicode, ov: Overlay, o: Ontology, i: nat)
    requires i < |o.relations|
    ensures ForRelation(u, ov, o.relations[i], RelationTerms(u, ov, o.relations)[i])
  {
    var r := o.relations[i];
    TermStands(u, r.id, r.name, r.aliases, "relation", ov.relations, [ENTITY_GRAPH]);
    hide Stands;
    hide TermFor;
  }

  /** The relations of an ontology and the terms of its catalog stand for each other. */
  lemma RelationsInCatalog(u: Unicode, ov: Overlay, o: Ontology, r: ObjectRelation, t: Term)
    ensures Ordered(CatalogOf(u, ov, o).relations, |o.relations|)
    ensures r in o.relations ==> exists x :: x in CatalogOf(u, ov, o).relations && ForRelation(u, ov, r, x)
    ensures t in CatalogOf(u, ov, o).relations ==> exists x :: x in o.relations && ForRelation(u, ov, x, t)
  {
    hide ForRelation;
    hide TermFor;
    var all := RelationTerms(u, ov, o.relations);
    SortedTerms(all);
    hide Sort;
    if r in o.relations {
      var i :| 0 <= i < |o.relations| && o.relations[i] == r;
      RelationTermAt(u, ov, o, i);
      assert all[i] in all;
    }
    if t in CatalogOf(u, ov, o).relations {
      var i :| 0 <= i < |all| && all[i] == t;
      RelationTermAt(u, ov, o, i);
      assert o.relations[i] in o.relations;
    }
  }

  // ---------- Ontologies ----------

  /** The trimmed ids under which something is bound, in order. */
  function BoundIds(env: R.Env, r: R.Registry, ids: seq<string>): seq<string> {
    if ids == [] then []
    else
      var id := env.u.Trim(ids[0]);
      (if id != "" && R.Sanitize(env.u, id) in r.bindings then [id] else []) + BoundIds(env, r, ids[1..])
  }

  lemma {:induction false} BoundIdsSplit(env: R.Env, r: R.Registry, a: seq<string>, b: seq<string>)
    ensures BoundIds(env, r, a + b) == BoundIds(env, r, a) + BoundIds(env, r, b)
  {
    hide R.Sanitize;
    if a == [] {
      assert a + b == b;
    } else {
      assert (a + b)[1..] == a[1..] + b;
      BoundIdsSplit(env, r, a[1..], b);
    }
  }

  /** A query draws on exactly the ontologies its knowledge bases resolve to, in the order they are asked for. */
  lemma {:induction false} OntologiesExactly(env: R.Env, r: R.Registry, ids: seq<string>)
    requires Inv.RegistryInv(env, r)
    ensures var out, bound := OntologiesOf(env, r, ids), BoundIds(env, r, ids);
            && out.Success? && |out.value| == |bound|
            && forall i :: 0 <= i < |bound| ==>
                 && R.Resolved(env, r, bound[i]).Success?
                 && out.value[i] == Bound(bound[i], R.Resolved(env, r, bound[i]).value.ontology)
  {
    hide Inv.RegistryInv;
    hide R.Publishable;
    if ids != [] {
      var init, last := ids[..|ids| - 1], ids[|ids| - 1];
      assert ids == init + [last];
      OntologiesExactly(env, r, init);
      BoundIdsSplit(env, r, init, [last]);
      var id := env.u.Trim(last);
      if R.Sanitize(env.u, id) in r.bindings {
        Inv.BindingResolves(env, r, id);
      }
      UnboundIsNotFound(env, r, id);
      hide R.Resolved;
      hide R.Sanitize;
      hide Unicode.Trim;
      assert [last][1..] == [];
    }
  }

  /** Loading fails exactly when an id that is not blank meets an error other than that nothing is bound or found. */
  lemma {:induction false} LoadingFailsExactly(env: R.Env, r: R.Registry, ids: seq<string>)
    ensures OntologiesOf(env, r, ids).Failure? <==>
              exists i :: 0 <= i < |ids| && env.u.Trim(ids[i]) != "" && Obstructed(env, r, env.u.Trim(ids[i]))
  {
    hide R.Resolved;
    hide Obstructed;
    if ids != [] {
      var init, id := ids[..|ids| - 1], env.u.Trim(ids[|ids| - 1]);
      LoadingFailsExactly(env, r, init);
      ObstructedExactly(env, r, id);
      hide Unicode.Trim;
      assert forall i :: 0 <= i < |init| ==> init[i] == ids[i];
      if i :| 0 <= i < |init| && env.u.Trim(init[i]) != "" && Obstructed(env, r, env.u.Trim(init[i])) {
        assert Obstructed(env, r, env.u.Trim(ids[i]));
      }
    }
  }

  /** Resolving the knowledge base fails for another reason than that something is missing. */
  predicate Obstructed(env: R.Env, r: R.Registry, id: string) {
    var got := R.Resolved(env, r, id);
    && got.Failure?
    && got.error != R.BindingNotFound && got.error != R.OntologyNotFound && got.error != R.VersionNotFound
  }

  lemma ObstructedExactly(env: R.Env, r: R.Registry, id: string)
    ensures Obstructed(env, r, id) <==> R.Resolved(env, r, id).Failure? && !Unbound(R.Resolved(env, r, id).error)
  {
    hide R.Resolved;
  }
}
