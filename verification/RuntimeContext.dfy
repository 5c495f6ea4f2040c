/**
 The runtime side of a query: the ontologies bound to the requested knowledge bases are resolved, compiled
 into catalogs and federated before the query is planned.
 */
module RuntimeContext {
  import opened Wrappers
  import opened Text
  import opened Sorting
  import opened OntologyModel
  import R = OntologyRegistry
  import Inv = RegistryInvariants
  import opened RetrievalModel
  import opened Federation
  import opened Planner
  import opened Assembler
  import opened ContextTheorems
  import opened FederationTheorems

  // ---------- Catalogs ----------

  datatype TermOverlay = TermOverlay(aliases: seq<string>, preferredSources: seq<string>)

  /** Overrides by label, and the sources that the retrieval policies of properties name, by property id. */
  datatype Overlay = Overlay(
    classes: map<string, TermOverlay>, properties: map<string, TermOverlay>, relations: map<string, TermOverlay>,
    policies: map<string, seq<string>>)

  const NO_OVERLAY := TermOverlay([], [])

  function OverlayAt(m: map<string, TermOverlay>, name: string): TermOverlay {
    if name in m then m[name] else NO_OVERLAY
  }

  function TrimmedSources(u: Unicode, sources: seq<string>): seq<string> {
    if sources == [] then []
    else
      var init, s := TrimmedSources(u, sources[..|sources| - 1]), u.Trim(sources[|sources| - 1]);
      if s != "" then init + [s] else init
  }

  function TermFor(u: Unicode, id: string, name: string, aliases: seq<string>, kind: string, ov: TermOverlay,
                   sources: seq<string>): Term {
    Term(id, name, UniqueSorted(u, aliases + ov.aliases), kind,
         if ov.preferredSources == [] then sources else TrimmedSources(u, ov.preferredSources))
  }

  function PolicySources(u: Unicode, ov: Overlay, p: DataProperty): seq<string> {
    var named := if p.id in ov.policies then ov.policies[p.id] else [];
    if named == [] then [ENTITY_GRAPH] else seq(|named|, i requires 0 <= i < |named| => u.Trim(named[i]))
  }

  function ClassTerms(u: Unicode, ov: Overlay, classes: seq<OntologyClass>): seq<Term> {
    seq(|classes|, i requires 0 <= i < |classes| =>
      TermFor(u, classes[i].id, classes[i].name, classes[i].aliases, "class", OverlayAt(ov.classes, classes[i].name),
              [ENTITY_GRAPH]))
  }

  function PropertyTerms(u: Unicode, ov: Overlay, properties: seq<DataProperty>): seq<Term> {
    seq(|properties|, i requires 0 <= i < |properties| =>
      TermFor(u, properties[i].id, properties[i].name, properties[i].aliases, "property",
              OverlayAt(ov.properties, properties[i].name), PolicySources(u, ov, properties[i])))
  }

  function RelationTerms(u: Unicode, ov: Overlay, relations: seq<ObjectRelation>): seq<Term> {
    seq(|relations|, i requires 0 <= i < |relations| =>
      TermFor(u, relations[i].id, relations[i].name, relations[i].aliases, "relation",
              OverlayAt(ov.relations, relations[i].name), [ENTITY_GRAPH]))
  }

  function CatalogOf(u: Unicode, ov: Overlay, o: Ontology): Catalog {
    Catalog(o.domain, [], Sort(ClassTerms(u, ov, o.classes), TermOrder()),
            Sort(PropertyTerms(u, ov, o.properties), TermOrder()),
            Sort(RelationTerms(u, ov, o.relations), TermOrder()), [])
  }

  method CompileCatalog(u: Unicode, ov: Overlay, o: Ontology) returns (c: Catalog)
    ensures c == CatalogOf(u, ov, o)
  {
    hide TermFor;
    hide PolicySources;
    var classes: seq<Term>, properties: seq<Term>, relations: seq<Term> := [], [], [];
    for i := 0 to |o.classes|
      invariant classes == ClassTerms(u, ov, o.classes[..i])
    {
      var x := o.classes[i];
      classes := classes + [TermFor(u, x.id, x.name, x.aliases, "class", OverlayAt(ov.classes, x.name),
                                    [ENTITY_GRAPH])];
    }
    assert o.classes[..|o.classes|] == o.classes;
    for i := 0 to |o.properties|
      invariant properties == PropertyTerms(u, ov, o.properties[..i])
    {
      var x := o.properties[i];
      properties := properties + [TermFor(u, x.id, x.name, x.aliases, "property", OverlayAt(ov.properties, x.name),
                                          PolicySources(u, ov, x))];
    }
    assert o.properties[..|o.properties|] == o.properties;
    for i := 0 to |o.relations|
      invariant relations == RelationTerms(u, ov, o.relations[..i])
    {
      var x := o.relations[i];
      relations := relations + [TermFor(u, x.id, x.name, x.aliases, "relation", OverlayAt(ov.relations, x.name),
                                        [ENTITY_GRAPH])];
    }
    assert o.relations[..|o.relations|] == o.relations;
    c := Catalog(o.domain, [], Sort(classes, TermOrder()), Sort(properties, TermOrder()),
                 Sort(relations, TermOrder()), []);
  }

  // ---------- Bound ontologies ----------

  datatype Bound = Bound(knowledgeBaseId: string, ontology: Ontology)

  /** Errors that only mean that nothing is bound. */
  predicate Unbound(e: R.Error) {
    e == R.BindingNotFound || e == R.OntologyNotFound || e == R.VersionNotFound
  }

  /** The ontologies of the knowledge bases in order; an error other than a missing binding ends the request. */
  function OntologiesOf(env: R.Env, r: R.Registry, ids: seq<string>): Result<seq<Bound>, R.Error> {
    if ids == [] then Success([])
    else
      var init, id := OntologiesOf(env, r, ids[..|ids| - 1]), env.u.Trim(ids[|ids| - 1]);
      if init.Failure? || id == "" then init
      else
        var got := R.Resolved(env, r, id);
        if got.Success? then Success(init.value + [Bound(id, got.value.ontology)])
        else if Unbound(got.error) then init
        else Failure(got.error)
  }

  lemma {:induction false} FailureStays(env: R.Env, r: R.Registry, ids: seq<string>, n: nat)
    requires n <= |ids| && OntologiesOf(env, r, ids[..n]).Failure?
    ensures OntologiesOf(env, r, ids) == OntologiesOf(env, r, ids[..n])
  {
    hide R.Resolved;
    if n == |ids| {
      assert ids[..n] == ids;
    } else {
      var init := ids[..|ids| - 1];
      assert init[..n] == ids[..n];
      FailureStays(env, r, init, n);
    }
  }

  method OntologiesFor(registry: R.FSRegistry, ids: seq<string>) returns (out: Result<seq<Bound>, R.Error>)
    ensures out == OntologiesOf(registry.env, registry.Contents(), ids)
  {
    hide R.Resolved;
    var items: seq<Bound> := [];
    for i := 0 to |ids|
      invariant OntologiesOf(registry.env, registry.Contents(), ids[..i]) == Success(items)
    {
      assert ids[..i + 1][..i] == ids[..i];
      var id := registry.env.u.Trim(ids[i]);
      if id == "" {
        continue;
      }
      var got := registry.ResolveForKnowledgeBase(id);
      if got.Failure? {
        if Unbound(got.error) {
          continue;
        }
        FailureStays(registry.env, registry.Contents(), ids, i + 1);
        return Failure(got.error);
      }
      items := items + [Bound(id, got.value.ontology)];
    }
    assert ids[..|ids|] == ids;
    out := Success(items);
  }

  lemma UnboundIsNotFound(env: R.Env, r: R.Registry, id: string)
    ensures R.Sanitize(env.u, id) !in r.bindings ==> R.Resolved(env, r, id) == Failure(R.BindingNotFound)
  {
  }

  /** The registry's invariant leaves no other error: each bound knowledge base contributes its released ontology. */
  lemma {:induction false} OntologiesAlwaysLoad(env: R.Env, r: R.Registry, ids: seq<string>)
    requires Inv.RegistryInv(env, r)
    ensures OntologiesOf(env, r, ids).Success?
    ensures forall b :: b in OntologiesOf(env, r, ids).value ==> R.Publishable(b.ontology)
    ensures forall i :: 0 <= i < |ids| ==>
              var id := env.u.Trim(ids[i]);
              id != "" && R.Sanitize(env.u, id) in r.bindings ==>
                && R.Resolved(env, r, id).Success?
                && Bound(id, R.Resolved(env, r, id).value.ontology) in OntologiesOf(env, r, ids).value
  {
    hide Inv.RegistryInv;
    hide R.Publishable;
    if ids != [] {
      OntologiesAlwaysLoad(env, r, ids[..|ids| - 1]);
      var id := env.u.Trim(ids[|ids| - 1]);
      if R.Sanitize(env.u, id) in r.bindings {
        Inv.BindingResolves(env, r, id);
      }
      UnboundIsNotFound(env, r, id);
      hide R.Resolved;
      hide R.Sanitize;
    }
  }

  // ---------- From ontologies to packs ----------

  function CatalogsOf(u: Unicode, ov: Overlay, items: seq<Bound>): seq<NamedCatalog> {
    seq(|items|, i requires 0 <= i < |items| => NamedCatalog(items[i].knowledgeBaseId,
                                                             CatalogOf(u, ov, items[i].ontology)))
  }

  lemma {:induction false} EntryOfCatalog(u: Unicode, kind: Kind, inputs: seq<NamedCatalog>, i: nat, t: Term)
    requires i < |inputs| && t in Terms(kind, inputs[i].catalog)
    ensures Entry(u.Trim(inputs[i].namespace), t) in Entries(u, kind, inputs)
  {
    var last := |inputs| - 1;
    if i == last {
      var terms := Terms(kind, inputs[i].catalog);
      var k :| 0 <= k < |terms| && terms[k] == t;
      assert EntriesOf(u.Trim(inputs[i].namespace), terms)[k] == Entry(u.Trim(inputs[i].namespace), t);
    } else {
      EntryOfCatalog(u, kind, inputs[..last], i, t);
    }
  }

  function ClassTerm(u: Unicode, ov: Overlay, c: OntologyClass): Term {
    TermFor(u, c.id, c.name, c.aliases, "class", OverlayAt(ov.classes, c.name), [ENTITY_GRAPH])
  }

  lemma ClassTermListed(u: Unicode, ov: Overlay, o: Ontology, c: OntologyClass)
    requires c in o.classes
    ensures ClassTerm(u, ov, c) in Terms(ClassKind, CatalogOf(u, ov, o))
  {
    hide TermFor;
    var i :| 0 <= i < |o.classes| && o.classes[i] == c;
    var terms := ClassTerms(u, ov, o.classes);
    assert terms[i] == ClassTerm(u, ov, c);
    SortMembers(terms, TermOrder());
  }

  /**
   Several bound ontologies are drawn on, and they, or one of them, use a class label for different classes. A
   query that mentions the label never gets a complete pack, whatever is retrieved and even with the fallback.
   */
  lemma LabelClashBlocksQuery(f: Folding, ov: Overlay, items: seq<Bound>, federated: Catalog, i: nat, j: nat,
                              c: OntologyClass, d: OntologyClass, query: string, task: string)
    requires IsFederation(f, CatalogsOf(f.u, ov, items), federated)
    requires |items| != 1 && i < |items| && j < |items|
    requires c in items[i].ontology.classes && d in items[j].ontology.classes
    requires f.u.Trim(c.name) != "" && f.u.Trim(c.id) != "" && f.u.Trim(d.id) != "" && f.u.Trim(c.id) != f.u.Trim(d.id)
    requires Trimmed(f.u, c.name) && Trimmed(f.u, d.name) && f.u.Lower(c.name) == f.u.Lower(d.name)
    requires Mentions(f.u, f.u.Trim(query), c.name)
    ensures forall limit, results, arbitration, found ::
              var plan := Planned(f.u, federated, query, task);
              !WithFallback(Assembled(limit, plan, results, arbitration), found).complete
  {
    hide WithFallback;
    var inputs := CatalogsOf(f.u, ov, items);
    var a := Entry(f.u.Trim(items[i].knowledgeBaseId), ClassTerm(f.u, ov, c));
    var b := Entry(f.u.Trim(items[j].knowledgeBaseId), ClassTerm(f.u, ov, d));
    ClassTermListed(f.u, ov, items[i].ontology, c);
    ClassTermListed(f.u, ov, items[j].ontology, d);
    EntryOfCatalog(f.u, ClassKind, inputs, i, a.term);
    EntryOfCatalog(f.u, ClassKind, inputs, j, b.term);
    ClassTermsClash(f.u, ov, c, d);
    AmbiguousTrimmedLabelBlocks(f, inputs, federated, ClassKind, a, b, query, task);
  }

  lemma ClassTermsClash(u: Unicode, ov: Overlay, c: OntologyClass, d: OntologyClass)
    requires u.Trim(c.name) != "" && u.Trim(c.id) != "" && u.Trim(d.id) != "" && u.Trim(c.id) != u.Trim(d.id)
    requires Trimmed(u, c.name) && Trimmed(u, d.name) && u.Lower(c.name) == u.Lower(d.name)
    ensures var a, b := ClassTerm(u, ov, c), ClassTerm(u, ov, d);
            a.name == c.name && b.name == d.name && Ambiguous(u, a, b)
  {
    hide UniqueSorted;
    TrimmedIsFixed(u, c.name);
    TrimmedIsFixed(u, d.name);
    assert |u.Lower(c.name)| == |c.name|;
  }

  /** A query is blocked exactly when it draws on several bound ontologies and mentions a conflicting label. */
  lemma QueryBlockedExactly(f: Folding, ov: Overlay, items: seq<Bound>, federated: Catalog, query: string, task: string)
    requires IsFederation(f, CatalogsOf(f.u, ov, items), federated)
    ensures Planned(f.u, federated, query, task).blockingIssues != [] <==>
              |items| != 1 && MentionsConflict(f, CatalogsOf(f.u, ov, items), f.u.Trim(query))
  {
    hide MentionsConflict;
    hide Planned;
    hide IsFederation;
    BlocksExactly(f, CatalogsOf(f.u, ov, items), federated, query, task);
  }

  /**
   One ontology uses a label for two classes. Drawn on alone it raises no issue for any query; drawn on together
   with any other bound ontology, or bound twice, it blocks every query that mentions the label.
   */
  lemma OneOntologyIsNotChecked(f: Folding, ov: Overlay, b: Bound, other: Bound, alone: Catalog, both: Catalog,
                                c: OntologyClass, d: OntologyClass, query: string, task: string)
    requires IsFederation(f, CatalogsOf(f.u, ov, [b]), alone) && IsFederation(f, CatalogsOf(f.u, ov, [b, other]), both)
    requires c in b.ontology.classes && d in b.ontology.classes
    requires f.u.Trim(c.name) != "" && f.u.Trim(c.id) != "" && f.u.Trim(d.id) != "" && f.u.Trim(c.id) != f.u.Trim(d.id)
    requires Trimmed(f.u, c.name) && Trimmed(f.u, d.name) && f.u.Lower(c.name) == f.u.Lower(d.name)
    requires Mentions(f.u, f.u.Trim(query), c.name)
    ensures Planned(f.u, alone, query, task).blockingIssues == []
    ensures forall limit, results, arbitration, found ::
              !WithFallback(Assembled(limit, Planned(f.u, both, query, task), results, arbitration), found).complete
  {
    hide WithFallback;
    hide Assembled;
    hide IsFederation;
    hide Planned;
    hide Mentions;
    QueryBlockedExactly(f, ov, [b], alone, query, task);
    LabelClashBlocksQuery(f, ov, [b, other], both, 0, 0, c, d, query, task);
  }
}
