/**
 Discovery always ends in a well-formed ontology: whatever the graph and the suggestions, the candidate
 passes validation, its property domains cover the required share of the uses, and what stays open is
 queued for review.
 */
module DiscoveryTheorems {
  import opened Wrappers
  import opened Text
  import opened Sorting
  import opened Identity
  import opened GraphModel
  import opened OntologyModel
  import opened OntologyValidator
  import opened Discovery
  import opened Candidate

  // ---------- Labels of a report ----------

  ghost predicate PlainLabel(u: Unicode, name: string) {
    name != "" && Trimmed(u, name)
  }

  ghost predicate DistinctPlain(u: Unicode, names: seq<string>) {
    && (forall i :: 0 <= i < |names| ==> PlainLabel(u, names[i]))
    && NoRepeats(names)
  }

  lemma {:induction false} CountedType(u: Unicode, es: seq<Entity>, name: string) returns (e: Entity)
    requires ClassCount(u, es, name) > 0
    ensures e in es && Type(u, e) == name
  {
    hide Type;
    var last := es[|es| - 1];
    if Type(u, last) == name {
      e := last;
    } else {
      e := CountedType(u, es[..|es| - 1], name);
    }
  }

  lemma {:induction false} CountedUse(u: Unicode, es: seq<Entity>, sel: Selector) returns (e: Entity, p: string)
    requires Uses(u, es, sel) > 0
    ensures e in es && p in e.properties && sel(Type(u, e), p, e.properties[p])
  {
    hide Type;
    var last := es[|es| - 1];
    if Selected(u, last, sel) != {} {
      p :| p in Selected(u, last, sel);
      e := last;
    } else {
      e, p := CountedUse(u, es[..|es| - 1], sel);
    }
  }

  lemma {:induction false} CountedRelation(u: Unicode, es: seq<Entity>, rs: seq<Relation>, name: string)
    returns (r: Relation)
    requires RelationTotal(u, es, rs, name) > 0
    ensures RelationUse(u, es, r).Some? && RelationUse(u, es, r).value.0 == name
  {
    hide RelationUse;
    var last := rs[|rs| - 1];
    var use := RelationUse(u, es, last);
    if use.Some? && use.value.0 == name {
      r := last;
    } else {
      r := CountedRelation(u, es, rs[..|rs| - 1], name);
    }
  }

  lemma TypeIsPlain(u: Unicode, e: Entity)
    requires u.Lawful()
    ensures PlainLabel(u, Type(u, e))
  {
    TrimIsTrimmed(u, e.businessType);
    assert UNCLASSIFIED[0] == '未' && UNCLASSIFIED[|UNCLASSIFIED| - 1] == '体';
  }

  lemma ReportLabels(r: Rules, g: Snapshot, report: Report)
    requires r.u.Lawful() && IsReport(r, g, report)
    ensures DistinctPlain(r.u, ClassNames(report.classes))
    ensures DistinctPlain(r.u, PropertyNames(report.properties))
    ensures DistinctPlain(r.u, RelationNames(report.relations))
  {
    hide Increasing;
    IncreasingIsSorted(ClassNames(report.classes));
    IncreasingIsSorted(PropertyNames(report.properties));
    IncreasingIsSorted(RelationNames(report.relations));
    forall name | name in ClassNames(report.classes)
      ensures PlainLabel(r.u, name)
    {
      var e := CountedType(r.u, g.entities, name);
      TypeIsPlain(r.u, e);
    }
    forall name | name in PropertyNames(report.properties)
      ensures PlainLabel(r.u, name)
    {
      var e, p := CountedUse(r.u, g.entities, OfKey(r, name));
      TrimIsTrimmed(r.u, p);
    }
    forall name | name in RelationNames(report.relations)
      ensures PlainLabel(r.u, name)
    {
      var x := CountedRelation(r.u, g.entities, g.relations, name);
      TrimIsTrimmed(r.u, x.businessType);
    }
  }

  lemma ReportIsOrdered(r: Rules, g: Snapshot, report: Report)
    requires IsReport(r, g, report)
    ensures Increasing(ClassNames(report.classes)) && Increasing(PropertyNames(report.properties))
    ensures Increasing(RelationNames(report.relations))
  {
  }

  // ---------- The candidate in report order ----------

  lemma ClassesInOrder(n: Naming, report: Report, s: Suggestions)
    requires Increasing(ClassNames(report.classes))
    ensures CandidateOf(n, report, s).classes == ClassesFor(n, report, s)
  {
    hide SuggestedAliases;
    hide Parent;
    var cs := ClassesFor(n, report, s);
    IncreasingIsSorted(ClassNames(report.classes));
    forall i, j | 0 <= i < j < |cs|
      ensures !ByClassName()(cs[j], cs[i])
    {
      assert cs[i] == ClassFor(n, report, s, report.classes[i]) && cs[j] == ClassFor(n, report, s, report.classes[j]);
      assert !StringOrder()(ClassNames(report.classes)[j], ClassNames(report.classes)[i]);
    }
    SortOfSorted(cs, ByClassName());
  }

  lemma PropertiesInOrder(n: Naming, report: Report, s: Suggestions)
    requires Increasing(PropertyNames(report.properties))
    ensures CandidateOf(n, report, s).properties == PropertiesFor(n, report, s)
  {
    hide SuggestedAliases;
    hide PropertyDomain;
    hide Dominant;
    var ps := PropertiesFor(n, report, s);
    IncreasingIsSorted(PropertyNames(report.properties));
    forall i, j | 0 <= i < j < |ps|
      ensures !ByPropertyName()(ps[j], ps[i])
    {
      assert ps[i] == PropertyFor(n, report, s, report.properties[i]) && ps[j]
          == PropertyFor(n, report, s, report.properties[j]);
      assert !StringOrder()(PropertyNames(report.properties)[j], PropertyNames(report.properties)[i]);
    }
    SortOfSorted(ps, ByPropertyName());
  }

  lemma RelationsInOrder(n: Naming, report: Report, s: Suggestions)
    requires Increasing(RelationNames(report.relations))
    ensures CandidateOf(n, report, s).relations == RelationsFor(n, report, s)
  {
    hide SuggestedAliases;
    hide RelationEnds;
    var rs := RelationsFor(n, report, s);
    IncreasingIsSorted(RelationNames(report.relations));
    forall i, j | 0 <= i < j < |rs|
      ensures !ByRelationName()(rs[j], rs[i])
    {
      assert rs[i] == RelationFor(n, report, s, report.relations[i]) && rs[j]
          == RelationFor(n, report, s, report.relations[j]);
      assert !StringOrder()(RelationNames(report.relations)[j], RelationNames(report.relations)[i]);
    }
    SortOfSorted(rs, ByRelationName());
  }

  // ---------- Well-formedness ----------

  lemma DistinctIdsOfNames(n: Naming, prefix: string, domain: string, names: seq<string>, i: nat, j: nat)
    requires n.Injective() && DistinctPlain(n.u, names) && i < j < |names|
    ensures n.StableId(prefix, domain, names[i]) != n.StableId(prefix, domain, names[j])
  {
    StableIdNames(n, prefix, domain, names[i], names[j]);
    TrimmedIsFixed(n.u, names[i]);
    TrimmedIsFixed(n.u, names[j]);
  }

  lemma ListedIdIsKnown(n: Naming, report: Report, s: Suggestions, name: string)
    requires DistinctPlain(n.u, ClassNames(report.classes)) && Listed(report, name)
    ensures ClassId(n, report, name) in ClassIds(ClassesFor(n, report, s))
  {
    var i :| 0 <= i < |report.classes| && ClassNames(report.classes)[i] == name;
    var c := ClassesFor(n, report, s)[i];
    assert c in ClassesFor(n, report, s);
    assert PlainLabel(n.u, ClassNames(report.classes)[i]);
    StableIdKinds(n, "cls", "prop", report.domain, name, name);
    assert c.id == ClassId(n, report, name) && c.id != "" && c.name == name;
  }

  lemma SingleIdStays(n: Naming, report: Report, name: string)
    requires n.u.Lawful() && n.Hexadecimal()
    ensures UniqueSorted(n.u, LabelIds(n, report, name)) == LabelIds(n, report, name)
  {
    if Listed(report, name) {
      var id := ClassId(n, report, name);
      StableIdTrimmed(n, "cls", report.domain, name);
      TrimmedIsFixed(n.u, id);
      assert [id][..0] == [];
      assert UniqueNonEmpty(n.u, [id]) == [id];
      SortOfSorted([id], StringOrder());
    } else {
      assert UniqueNonEmpty(n.u, []) == [];
    }
  }

  lemma CandidateClassesConform(n: Naming, report: Report, s: Suggestions)
    requires n.Injective() && DistinctPlain(n.u, ClassNames(report.classes))
    ensures var cs := ClassesFor(n, report, s);
            ClassesNamed(cs) && ParentsKnown(cs, ClassIds(cs))
  {
    hide SuggestedAliases;
    hide Parent;
    var cs := ClassesFor(n, report, s);
    var names := ClassNames(report.classes);
    forall i | 0 <= i < |cs|
      ensures cs[i].id != "" && cs[i].name != "" && Known(cs[i].parentIds, ClassIds(cs))
    {
      assert PlainLabel(n.u, names[i]);
      StableIdKinds(n, "cls", "prop", report.domain, names[i], names[i]);
      var parent := Parent(n.u, s, names[i]);
      if parent != "" && Listed(report, parent) {
        ListedIdIsKnown(n, report, s, parent);
      }
    }
    forall i, j | 0 <= i < j < |cs|
      ensures cs[i].id != cs[j].id
    {
      DistinctIdsOfNames(n, "cls", report.domain, names, i, j);
    }
  }

  lemma NotAClassId(n: Naming, report: Report, s: Suggestions, prefix: string, name: string)
    requires prefix != "" && prefix[0] != 'c'
    ensures n.StableId(prefix, report.domain, name) !in ClassIds(ClassesFor(n, report, s))
  {
    hide SuggestedAliases;
    hide Parent;
    var cs := ClassesFor(n, report, s);
    if n.StableId(prefix, report.domain, name) in ClassIds(cs) {
      var c :| c in cs && c.id == n.StableId(prefix, report.domain, name);
      var i :| 0 <= i < |cs| && cs[i] == c;
      StableIdKinds(n, "cls", prefix, report.domain, report.classes[i].name, name);
    }
  }

  lemma LabelIdsKnown(n: Naming, report: Report, s: Suggestions, name: string)
    requires DistinctPlain(n.u, ClassNames(report.classes))
    ensures Known(LabelIds(n, report, name), ClassIds(ClassesFor(n, report, s)))
  {
    if Listed(report, name) {
      ListedIdIsKnown(n, report, s, name);
    }
  }

  lemma CandidatePropertiesConform(n: Naming, report: Report, s: Suggestions)
    requires n.u.Lawful() && n.Injective() && n.Hexadecimal()
    requires DistinctPlain(n.u, ClassNames(report.classes)) && DistinctPlain(n.u, PropertyNames(report.properties))
    ensures PropertiesSound(PropertiesFor(n, report, s), ClassIds(ClassesFor(n, report, s)))
  {
    hide SuggestedAliases;
    hide ClassesFor;
    hide ClassIds;
    hide UniqueSorted;
    hide Dominant;
    hide DistinctPlain;
    var ps, known := PropertiesFor(n, report, s), ClassIds(ClassesFor(n, report, s));
    var names := PropertyNames(report.properties);
    forall i | 0 <= i < |ps|
      ensures ps[i].id !in known && Known(ps[i].domainIds, known)
    {
      NotAClassId(n, report, s, "prop", names[i]);
      var pp := report.properties[i];
      if pp.domains != map[] {
        SingleIdStays(n, report, Dominant(pp.domains));
        LabelIdsKnown(n, report, s, Dominant(pp.domains));
      }
    }
    forall i, j | 0 <= i < j < |ps|
      ensures ps[i].id != ps[j].id
    {
      DistinctIdsOfNames(n, "prop", report.domain, names, i, j);
    }
  }

  lemma CandidateRelationsConform(n: Naming, report: Report, s: Suggestions)
    requires n.Injective()
    requires DistinctPlain(n.u, ClassNames(report.classes)) && DistinctPlain(n.u, RelationNames(report.relations))
    ensures RelationsSound(RelationsFor(n, report, s), ClassIds(ClassesFor(n, report, s)),
                           PropertyIds(PropertiesFor(n, report, s)))
  {
    hide Halves;
    var rs, known, taken := RelationsFor(n, report, s), ClassIds(ClassesFor(n, report, s)),
        PropertyIds(PropertiesFor(n, report, s));
    var names := RelationNames(report.relations);
    forall i | 0 <= i < |rs|
      ensures rs[i].id !in known && rs[i].id !in taken && Known(rs[i].domainIds, known) && Known(rs[i].rangeIds, known)
    {
      NotAClassId(n, report, s, "obj", names[i]);
      NotAPropertyId(n, report, s, names[i]);
      var rp := report.relations[i];
      var halves := Halves(if rp.domainRange == map[] then "" else Dominant(rp.domainRange));
      if halves.Some? {
        LabelIdsKnown(n, report, s, halves.value.0);
        LabelIdsKnown(n, report, s, halves.value.1);
      }
    }
    forall i, j | 0 <= i < j < |rs|
      ensures rs[i].id != rs[j].id
    {
      DistinctIdsOfNames(n, "obj", report.domain, names, i, j);
    }
  }

  lemma NotAPropertyId(n: Naming, report: Report, s: Suggestions, name: string)
    ensures n.StableId("obj", report.domain, name) !in PropertyIds(PropertiesFor(n, report, s))
  {
    hide SuggestedAliases;
    hide PropertyDomain;
    hide Dominant;
    var ps := PropertiesFor(n, report, s);
    if n.StableId("obj", report.domain, name) in PropertyIds(ps) {
      var p :| p in ps && p.id == n.StableId("obj", report.domain, name);
      var i :| 0 <= i < |ps| && ps[i] == p;
      StableIdKinds(n, "prop", "obj", report.domain, report.properties[i].name, name);
    }
  }

  /** For every graph and every suggestion the candidate passes validation without errors. */
  lemma CandidateConforms(n: Naming, r: Rules, g: Snapshot, report: Report, s: Suggestions)
    requires n.u == r.u && n.u.Lawful() && n.Injective() && n.Hexadecimal() && IsReport(r, g, report)
    ensures Conformant(CandidateOf(n, report, s)) && !HasErrors(OntologyFindings(CandidateOf(n, report, s)))
  {
    hide RelationsSound;
    var o := CandidateOf(n, report, s);
    ReportIsOrdered(r, g, report);
    ReportLabels(r, g, report);
    ClassesInOrder(n, report, s);
    PropertiesInOrder(n, report, s);
    RelationsInOrder(n, report, s);
    CandidateClassesConform(n, report, s);
    CandidatePropertiesConform(n, report, s);
    CandidateRelationsConform(n, report, s);
    ErrorsExactlyWhenNotConformant(o);
  }

  // ---------- Coverage ----------

  /** Uses in two different types together are at most all uses. */
  lemma {:induction false} DomainsShareUses(r: Rules, es: seq<Entity>, key: string, a: string, b: string)
    requires a != b
    ensures Uses(r.u, es, OfDomain(r, key, a)) + Uses(r.u, es, OfDomain(r, key, b)) <= Uses(r.u, es, OfKey(r, key))
  {
    hide Type;
    if es != [] {
      DomainsShareUses(r, es[..|es| - 1], key, a, b);
      var e := es[|es| - 1];
      var x, y, all := Selected(r.u, e, OfDomain(r, key, a)), Selected(r.u, e, OfDomain(r, key, b)),
          Selected(r.u, e, OfKey(r, key));
      assert x + y <= all && x * y == {};
      SmallerSet(x + y, all);
      assert |x + y| == |x| + |y|;
    }
  }

  lemma SmallerSet(a: set<string>, b: set<string>)
    requires a <= b
    ensures |a| <= |b|
  {
    assert b == a + (b - a);
  }

  lemma UsedTypeIsListed(r: Rules, g: Snapshot, report: Report, key: string, domain: string)
    requires IsReport(r, g, report) && Uses(r.u, g.entities, OfDomain(r, key, domain)) > 0
    ensures Listed(report, domain)
  {
    hide PropertyRight;
    hide RelationRight;
    hide Increasing;
    hide Type;
    hide Uses;
    hide RelationTotal;
    var e, p := CountedUse(r.u, g.entities, OfDomain(r, key, domain));
    TypeIsCounted(r.u, g.entities, e);
  }

  lemma {:induction false} TypeIsCounted(u: Unicode, es: seq<Entity>, e: Entity)
    requires e in es
    ensures ClassCount(u, es, Type(u, e)) > 0
  {
    hide Type;
    if e != es[|es| - 1] {
      assert e in es[..|es| - 1];
      TypeIsCounted(u, es[..|es| - 1], e);
    }
  }

  /** The uses of the property in the type are the required share of all its uses. */
  ghost predicate Covers(r: Rules, g: Snapshot, key: string, domain: string) {
    Uses(r.u, g.entities, OfDomain(r, key, domain)) as real >= SHARE * Uses(r.u, g.entities, OfKey(r, key)) as real
  }

  lemma CoveringIsDominant(r: Rules, es: seq<Entity>, pp: PropertyPattern, domain: string)
    requires PropertyRight(r, es, pp) && pp.total > 0
    requires Uses(r.u, es, OfDomain(r, pp.name, domain)) as real >= SHARE * pp.total as real
    ensures domain in pp.domains && domain == Dominant(pp.domains)
  {
    hide Uses;
    assert Count(pp.domains, domain) == Uses(r.u, es, OfDomain(r, pp.name, domain));
    assert domain in pp.domains;
    forall other | other in pp.domains && other != domain
      ensures pp.domains[other] < pp.domains[domain]
    {
      DomainsShareUses(r, es, pp.name, domain, other);
      assert Count(pp.domains, other) == Uses(r.u, es, OfDomain(r, pp.name, other));
    }
    BeforeIrreflexive(domain);
    assert IsDominant(pp.domains, domain);
    DominantIsUnique(pp.domains, domain, Dominant(pp.domains));
  }

  lemma ShareOf(count: nat, total: nat)
    requires total > 0
    ensures count as real / total as real < SHARE <==> !(count as real >= SHARE * total as real)
  {
  }

  lemma PropertyInUse(r: Rules, g: Snapshot, report: Report, i: nat)
    requires IsReport(r, g, report) && i < |report.properties|
    ensures Increasing(PropertyNames(report.properties))
    ensures PropertyRight(r, g.entities, report.properties[i]) && report.properties[i].total > 0
  {
    hide ClassCount;
    hide RelationTotal;
    hide RelationRight;
    hide Increasing;
    hide Uses;
    assert PropertyNames(report.properties)[i] == report.properties[i].name;
  }

  /** A property belongs to a type in the candidate exactly when that type covers the required share of its uses. */
  lemma DomainExactlyWhenCovering(n: Naming, r: Rules, g: Snapshot, report: Report, s: Suggestions, i: nat,
                                  domain: string)
    requires n.u == r.u && n.u.Lawful() && n.Injective() && n.Hexadecimal() && IsReport(r, g, report)
        && i < |report.properties|
    requires Listed(report, domain)
    ensures |CandidateOf(n, report, s).properties| == |report.properties|
    ensures var p := CandidateOf(n, report, s).properties[i];
            && p.name == report.properties[i].name
            && (p.domainIds == [ClassId(n, report, domain)] <==> Covers(r, g, p.name, domain))
            && (p.domainIds == [] || exists d :: Listed(report, d) && p.domainIds == [ClassId(n, report, d)])
  {
    hide SuggestedAliases;
    var pp := report.properties[i];
    PropertyInUse(r, g, report, i);
    PropertiesInOrder(n, report, s);
    ReportLabels(r, g, report);
    DomainChosen(n, r, g, report, pp, domain);
    var p := PropertyFor(n, report, s, pp);
    assert p.domainIds == PropertyDomain(n, report, pp).0 && p.name == pp.name;
    hide PropertyFor;
    assert CandidateOf(n, report, s).properties[i] == p;
  }

  lemma DomainChosen(n: Naming, r: Rules, g: Snapshot, report: Report, pp: PropertyPattern, domain: string)
    requires n.u == r.u && n.u.Lawful() && n.Injective() && n.Hexadecimal() && IsReport(r, g, report)
    requires PropertyRight(r, g.entities, pp) && pp.total > 0 && Listed(report, domain)
    requires DistinctPlain(n.u, ClassNames(report.classes))
    ensures var ids := PropertyDomain(n, report, pp).0;
            && (ids == [ClassId(n, report, domain)] <==> Covers(r, g, pp.name, domain))
            && (ids == [] || exists d :: Listed(report, d) && ids == [ClassId(n, report, d)])
  {
    hide Uses;
    hide IsReport;
    hide UniqueSorted;
    hide Dominant;
    hide DistinctPlain;
    hide Listed;
    if Covers(r, g, pp.name, domain) {
      CoveringIsDominant(r, g.entities, pp, domain);
    }
    if pp.domains != map[] {
      var top := Dominant(pp.domains);
      assert Count(pp.domains, top) == Uses(r.u, g.entities, OfDomain(r, pp.name, top));
      UsedTypeIsListed(r, g, report, pp.name, top);
      ShareOf(pp.domains[top], pp.total);
      SingleIdStays(n, report, top);
      if ClassId(n, report, top) == ClassId(n, report, domain) {
        SameClassId(n, report, top, domain);
      }
    }
  }

  lemma SameClassId(n: Naming, report: Report, a: string, b: string)
    requires n.Injective() && DistinctPlain(n.u, ClassNames(report.classes)) && Listed(report, a) && Listed(report, b)
    requires ClassId(n, report, a) == ClassId(n, report, b)
    ensures a == b
  {
    StableIdNames(n, "cls", report.domain, a, b);
    assert PlainLabel(n.u, a) && PlainLabel(n.u, b);
    TrimmedIsFixed(n.u, a);
    TrimmedIsFixed(n.u, b);
  }

  // ---------- Open questions ----------

  lemma {:induction false} OpenRelationIsQueued(n: Naming, report: Report, relations: seq<RelationPattern>,
                                                rp: RelationPattern)
    requires rp in relations && (RelationEnds(n, report, rp).domainIds == [] || RelationEnds(n, report, rp).rangeIds
                                 == [])
    ensures exists item :: item in RelationItems(n, report, relations)
                           && item.risk == "high" && item.status == "pending"
                           && item.subjectIds == [n.StableId("obj", report.domain, rp.name)]
  {
    hide RelationEnds;
    var last := relations[|relations| - 1];
    var items := RelationItems(n, report, relations);
    if last == rp {
      assert items[|items| - 1] in items;
    } else {
      var init := relations[..|relations| - 1];
      assert relations == init + [last];
      OpenRelationIsQueued(n, report, init, rp);
      var item :| item in RelationItems(n, report, init) && item.risk == "high" && item.status == "pending"
                  && item.subjectIds == [n.StableId("obj", report.domain, rp.name)];
      assert item in items;
    }
  }

  /** A relation left without a domain or a range is queued as a pending high-risk question about it. */
  lemma OpenEndsAreReviewed(n: Naming, r: Rules, g: Snapshot, report: Report, s: Suggestions, i: nat)
    requires IsReport(r, g, report) && i < |report.relations|
    ensures var o := CandidateOf(n, report, s);
            && i < |o.relations|
            && (o.relations[i].domainIds == [] || o.relations[i].rangeIds == [] ==>
                  exists item :: item in o.reviewQueue && item.risk == "high" && item.status == "pending"
                                 && item.subjectIds == [o.relations[i].id])
  {
    hide SuggestedAliases;
    ReportIsOrdered(r, g, report);
    RelationsInOrder(n, report, s);
    var rp := report.relations[i];
    var ends := RelationEnds(n, report, rp);
    if ends.domainIds == [] || ends.rangeIds == [] {
      OpenRelationIsQueued(n, report, report.relations, rp);
      var item :| item in RelationItems(n, report, report.relations) && item.risk == "high" && item.status == "pending"
                  && item.subjectIds == [n.StableId("obj", report.domain, rp.name)];
      assert item in CandidateOf(n, report, s).reviewQueue;
    }
  }

  /** The graph and the suggestions determine the candidate: visiting counters in another order changes nothing. */
  lemma DiscoveryIsDeterministic(n: Naming, r: Rules, g: Snapshot, a: Report, b: Report, s: Suggestions)
    requires IsReport(r, g, a) && IsReport(r, g, b)
    ensures CandidateOf(n, a, s) == CandidateOf(n, b, s)
  {
    hide *;
    ReportIsUnique(r, g, a, b);
  }

  /** Discovery from end to end. */
  method Discover(n: Naming, r: Rules, g: Snapshot, s: Suggestions) returns (o: Ontology, report: Report)
    requires n.u == r.u && n.u.Lawful() && n.Injective() && n.Hexadecimal()
    ensures IsReport(r, g, report) && o == CandidateOf(n, report, s)
    ensures Conformant(o) && o.status == Proposed
  {
    hide IsReport;
    hide Conformant;
    report := Analyze(r, g);
    o := BuildCandidate(n, report, s);
    CandidateConforms(n, r, g, report, s);
  }
}
