/**
 The candidate in terms of the graph and the suggestions: which class becomes a parent, between which types a
 relation runs, which data type a property gets, and exactly which questions are queued.
 */
module CandidateLaws {
  import opened Wrappers
  import opened Text
  import opened Sorting
  import opened Identity
  import opened GraphModel
  import opened OntologyModel
  import opened Discovery
  import opened Candidate
  import opened DiscoveryTheorems

  // ---------- Relations ----------

  /** The last entity with the id is of this type. */
  predicate Typed(u: Unicode, es: seq<Entity>, id: string, t: string) {
    EntityAt(es, id).Some? && u.Trim(EntityAt(es, id).value.businessType) == t
  }

  /** The relation has the label and runs between known entities, from the one type to the other. */
  predicate Runs(u: Unicode, es: seq<Entity>, r: Relation, name: string, from: string, to: string) {
    u.Trim(r.businessType) == name && Typed(u, es, r.sourceId, from) && Typed(u, es, r.targetId, to)
  }

  function RunsCount(u: Unicode, es: seq<Entity>, rs: seq<Relation>, name: string, from: string, to: string): nat {
    if rs == [] then 0
    else RunsCount(u, es, rs[..|rs| - 1], name, from, to) + if Runs(u, es, rs[|rs| - 1], name, from, to) then 1 else 0
  }

  lemma PairsSplit(a: string, b: string, c: string, d: string)
    requires '\0' !in c && '\0' !in d && a + "\0" + b == c + "\0" + d
    ensures a == c && b == d
  {
    var s, t := a + "\0" + b, c + "\0" + d;
    assert s[|a|] == '\0' && t[|c|] == '\0';
    assert forall i :: 0 <= i < |c| ==> t[i] == c[i];
    assert forall i :: |c| < i < |t| ==> t[i] == d[i - |c| - 1];
    assert |a| == |c|;
    assert a == s[..|a|] && c == t[..|c|] && b == s[|a| + 1..] && d == t[|c| + 1..];
  }

  lemma UseRuns(u: Unicode, es: seq<Entity>, r: Relation, name: string, from: string, to: string)
    requires name != "" && '\0' !in from && '\0' !in to
    ensures RelationUse(u, es, r) == Some((name, from + "\0" + to)) <==> Runs(u, es, r, name, from, to)
  {
    hide EntityAt;
    hide Unicode.Trim;
    var source, target := EntityAt(es, r.sourceId), EntityAt(es, r.targetId);
    if source.Some? && target.Some? && Pair(u, source.value, target.value) == from + "\0" + to {
      PairsSplit(u.Trim(source.value.businessType), u.Trim(target.value.businessType), from, to);
    }
  }

  lemma {:induction false} PairsRun(u: Unicode, es: seq<Entity>, rs: seq<Relation>, name: string, from: string,
                                    to: string)
    requires name != "" && '\0' !in from && '\0' !in to
    ensures RelationPairs(u, es, rs, name, from + "\0" + to) == RunsCount(u, es, rs, name, from, to)
    ensures RelationPairs(u, es, rs, name, from + "\0" + to) <= RelationTotal(u, es, rs, name)
  {
    hide RelationUse;
    hide Runs;
    if rs != [] {
      PairsRun(u, es, rs[..|rs| - 1], name, from, to);
      UseRuns(u, es, rs[|rs| - 1], name, from, to);
    }
  }

  lemma {:induction false} PairsShareTotal(u: Unicode, es: seq<Entity>, rs: seq<Relation>, name: string, a: string,
                                           b: string)
    requires a != b
    ensures RelationPairs(u, es, rs, name, a) + RelationPairs(u, es, rs, name, b) <= RelationTotal(u, es, rs, name)
  {
    hide RelationUse;
    if rs != [] {
      PairsShareTotal(u, es, rs[..|rs| - 1], name, a, b);
    }
  }

  lemma CoveringPairIsDominant(u: Unicode, es: seq<Entity>, rs: seq<Relation>, rp: RelationPattern, pair: string)
    requires RelationRight(u, es, rs, rp) && rp.total > 0
    requires RelationPairs(u, es, rs, rp.name, pair) as real >= SHARE * rp.total as real
    ensures pair in rp.domainRange && pair == Dominant(rp.domainRange)
    ensures rp.domainRange[pair] == RelationPairs(u, es, rs, rp.name, pair)
  {
    hide RelationPairs;
    hide RelationTotal;
    assert Count(rp.domainRange, pair) == RelationPairs(u, es, rs, rp.name, pair);
    assert pair in rp.domainRange;
    forall other | other in rp.domainRange && other != pair
      ensures rp.domainRange[other] < rp.domainRange[pair]
    {
      PairsShareTotal(u, es, rs, rp.name, pair, other);
      assert Count(rp.domainRange, other) == RelationPairs(u, es, rs, rp.name, other);
    }
    BeforeIrreflexive(pair);
    assert IsDominant(rp.domainRange, pair);
    DominantIsUnique(rp.domainRange, pair, Dominant(rp.domainRange));
  }

  lemma {:induction false} PlainHalves(a: string, b: string)
    requires '\0' !in a && '\0' !in b
    ensures Halves(a + "\0" + b) == Some((a, b))
  {
    var s := a + "\0" + b;
    IndexOfBounds(s, '\0');
    assert s[|a|] == '\0';
    assert forall i :: 0 <= i < |a| ==> s[i] == a[i];
    assert IndexOf(s, '\0') == |a|;
    assert s[..|a|] == a && s[|a| + 1..] == b;
  }

  lemma HalvesJoin(s: string)
    requires Halves(s).Some?
    ensures s == Halves(s).value.0 + "\0" + Halves(s).value.1
    ensures '\0' !in Halves(s).value.0 && '\0' !in Halves(s).value.1
  {
    IndexOfBounds(s, '\0');
  }

  /** Of all uses of the relation, the required share run from the one type to the other. */
  ghost predicate Mostly(u: Unicode, g: Snapshot, name: string, from: string, to: string) {
    RunsCount(u, g.entities, g.relations, name, from, to) as real
    >= SHARE * RelationTotal(u, g.entities, g.relations, name) as real
  }

  /** The ids of the class with this label, if there is one. */
  function ClassIn(n: Naming, g: Snapshot, t: string): seq<string> {
    if ClassCount(n.u, g.entities, t) > 0 then [n.StableId("cls", g.domain, t)] else []
  }

  lemma EndsOfPattern(n: Naming, r: Rules, g: Snapshot, report: Report, rp: RelationPattern, from: string, to: string)
    requires n.u == r.u && RelationRight(r.u, g.entities, g.relations, rp) && rp.total > 0 && rp.name != ""
    requires '\0' !in from && '\0' !in to
    ensures var ends := RelationEnds(n, report, rp);
            && (Mostly(r.u, g, rp.name, from, to) ==>
                  ends.domainIds == LabelIds(n, report, from) && ends.rangeIds == LabelIds(n, report, to))
            && (ends.domainIds != [] || ends.rangeIds != [] ==>
                  exists a, b :: '\0' !in a && '\0' !in b && Mostly(r.u, g, rp.name, a, b)
                                 && ends.domainIds == LabelIds(n, report, a) && ends.rangeIds == LabelIds(n, report, b))
  {
    hide RelationPairs;
    hide RelationTotal;
    hide RunsCount;
    hide LabelIds;
    PairsRun(r.u, g.entities, g.relations, rp.name, from, to);
    if Mostly(r.u, g, rp.name, from, to) {
      var pair := from + "\0" + to;
      CoveringPairIsDominant(r.u, g.entities, g.relations, rp, pair);
      PlainHalves(from, to);
      ShareOf(rp.domainRange[pair], rp.total);
    }
    var ends := RelationEnds(n, report, rp);
    if (ends.domainIds != [] || ends.rangeIds != []) && rp.domainRange != map[] {
      var pair := Dominant(rp.domainRange);
      HalvesJoin(pair);
      var a, b := Halves(pair).value.0, Halves(pair).value.1;
      PairsRun(r.u, g.entities, g.relations, rp.name, a, b);
      assert Count(rp.domainRange, pair) == RelationPairs(r.u, g.entities, g.relations, rp.name, pair);
      ShareOf(rp.domainRange[pair], rp.total);
      assert Mostly(r.u, g, rp.name, a, b);
    }
  }

  lemma RelationInUse(r: Rules, g: Snapshot, report: Report, i: nat)
    requires IsReport(r, g, report) && i < |report.relations|
    ensures RelationRight(r.u, g.entities, g.relations, report.relations[i]) && report.relations[i].total > 0
  {
    hide ClassCount;
    hide Uses;
    hide PropertyRight;
    hide Increasing;
    hide RelationPairs;
    assert RelationNames(report.relations)[i] == report.relations[i].name;
  }

  lemma ListedIsCounted(n: Naming, r: Rules, g: Snapshot, report: Report, t: string)
    requires n.u == r.u && IsReport(r, g, report)
    ensures LabelIds(n, report, t) == ClassIn(n, g, t)
  {
    hide ClassCount;
    hide Uses;
    hide PropertyRight;
    hide RelationRight;
    hide Increasing;
    hide RelationTotal;
  }

  /**
   A relation of the candidate starts at the class of one type and ends at that of another if the required
   share of its uses runs between these types, and is left open where no two types are so.
   */
  lemma RelationEndsExactly(n: Naming, r: Rules, g: Snapshot, report: Report, s: Suggestions, i: nat, from: string,
                            to: string)
    requires n.u == r.u && n.u.Lawful() && IsReport(r, g, report) && i < |report.relations|
    requires '\0' !in from && '\0' !in to
    ensures |CandidateOf(n, report, s).relations| == |report.relations|
    ensures var x, name := CandidateOf(n, report, s).relations[i], report.relations[i].name;
            && x.name == name && x.id == n.StableId("obj", g.domain, name)
            && x.support == RelationTotal(r.u, g.entities, g.relations, name)
            && (Mostly(r.u, g, name, from, to) ==>
                  x.domainIds == ClassIn(n, g, from) && x.rangeIds == ClassIn(n, g, to))
            && (x.domainIds != [] || x.rangeIds != [] ==>
                  exists a, b :: Mostly(r.u, g, name, a, b)
                                 && x.domainIds == ClassIn(n, g, a) && x.rangeIds == ClassIn(n, g, b))
  {
    var rp := report.relations[i];
    ReportIsOrdered(r, g, report);
    RelationsInOrder(n, report, s);
    RelationInUse(r, g, report, i);
    ReportLabels(r, g, report);
    assert rp.name != "" by {
      assert RelationNames(report.relations)[i] == rp.name;
    }
    EndsOfPattern(n, r, g, report, rp, from, to);
    forall t
      ensures LabelIds(n, report, t) == ClassIn(n, g, t)
    {
      ListedIsCounted(n, r, g, report, t);
    }
    assert report.domain == g.domain;
    hide *;
    PartsOfRelation(n, report, s, i);
  }

  lemma {:induction false} SomePair(u: Unicode, es: seq<Entity>, rs: seq<Relation>, name: string) returns (pair: string)
    requires RelationTotal(u, es, rs, name) > 0
    ensures RelationPairs(u, es, rs, name, pair) > 0
  {
    var init, use := rs[..|rs| - 1], RelationUse(u, es, rs[|rs| - 1]);
    if use.Some? && use.value.0 == name {
      pair := use.value.1;
    } else {
      pair := SomePair(u, es, init, name);
    }
  }

  /** Of all uses, no pair of types has a larger share, and one has this share. */
  ghost predicate LargestShare(u: Unicode, g: Snapshot, name: string, share: real) {
    var all := RelationTotal(u, g.entities, g.relations, name) as real;
    && (forall pair :: RelationPairs(u, g.entities, g.relations, name, pair) as real <= share * all)
    && exists pair :: RelationPairs(u, g.entities, g.relations, name, pair) as real == share * all
  }

  /** The confidence in a relation is the largest share of its uses that one pair of types has. */
  lemma RelationConfidence(n: Naming, r: Rules, g: Snapshot, report: Report, s: Suggestions, i: nat)
    requires n.u == r.u && IsReport(r, g, report) && i < |report.relations|
    ensures |CandidateOf(n, report, s).relations| == |report.relations|
    ensures LargestShare(r.u, g, report.relations[i].name, CandidateOf(n, report, s).relations[i].confidence)
  {
    hide *;
    ReportIsOrdered(r, g, report);
    RelationsInOrder(n, report, s);
    RelationInUse(r, g, report, i);
    PairShares(n, r, g, report, report.relations[i]);
    PartsOfRelation(n, report, s, i);
  }

  lemma PairShares(n: Naming, r: Rules, g: Snapshot, report: Report, rp: RelationPattern)
    requires RelationRight(r.u, g.entities, g.relations, rp) && rp.total > 0
    ensures LargestShare(r.u, g, rp.name, RelationEnds(n, report, rp).share)
  {
    var some := SomePair(r.u, g.entities, g.relations, rp.name);
    DominantShare(r.u, g, rp, some);
    EndsShare(n, report, rp);
  }

  lemma EndsShare(n: Naming, report: Report, rp: RelationPattern)
    requires rp.total > 0 && rp.domainRange != map[]
    ensures RelationEnds(n, report, rp).share == rp.domainRange[Dominant(rp.domainRange)] as real / rp.total as real
  {
    hide Halves;
    hide LabelIds;
  }

  lemma DominantShare(u: Unicode, g: Snapshot, rp: RelationPattern, some: string)
    requires RelationRight(u, g.entities, g.relations, rp) && rp.total > 0
    requires RelationPairs(u, g.entities, g.relations, rp.name, some) > 0
    ensures rp.domainRange != map[]
    ensures LargestShare(u, g, rp.name, rp.domainRange[Dominant(rp.domainRange)] as real / rp.total as real)
  {
    hide RelationPairs;
    hide RelationTotal;
    assert Count(rp.domainRange, some) == RelationPairs(u, g.entities, g.relations, rp.name, some);
    assert some in rp.domainRange;
    var top := Dominant(rp.domainRange);
    ShareTimesTotal(rp.domainRange[top], rp.total);
    ShareOfTop(u, g, rp, top, rp.domainRange[top] as real / rp.total as real);
    hide LargestShare;
  }

  lemma ShareOfTop(u: Unicode, g: Snapshot, rp: RelationPattern, top: string, share: real)
    requires RelationRight(u, g.entities, g.relations, rp) && IsDominant(rp.domainRange, top)
    requires share * rp.total as real == rp.domainRange[top] as real
    ensures LargestShare(u, g, rp.name, share)
  {
    hide RelationPairs;
    hide RelationTotal;
    forall pair
      ensures RelationPairs(u, g.entities, g.relations, rp.name, pair) <= rp.domainRange[top]
    {
      assert Count(rp.domainRange, pair) == RelationPairs(u, g.entities, g.relations, rp.name, pair);
    }
    assert Count(rp.domainRange, top) == RelationPairs(u, g.entities, g.relations, rp.name, top);
  }

  lemma ShareTimesTotal(count: nat, total: nat)
    requires total > 0
    ensures count as real / total as real * total as real == count as real
  {
  }

  lemma PartsOfRelation(n: Naming, report: Report, s: Suggestions, i: nat)
    requires i < |report.relations|
    ensures var rp := report.relations[i];
            var x, ends := RelationsFor(n, report, s)[i], RelationEnds(n, report, rp);
            && |RelationsFor(n, report, s)| == |report.relations|
            && x.name == rp.name && x.id == n.StableId("obj", report.domain, rp.name) && x.support == rp.total
            && x.domainIds == ends.domainIds && x.rangeIds == ends.rangeIds && x.confidence == ends.share
  {
    hide RelationEnds;
    hide SuggestedAliases;
  }

  // ---------- Classes and properties ----------

  /** The label suggested as the parent of a class, "" if there is none. */
  function Suggested(u: Unicode, s: Suggestions, name: string): string {
    if name in s.parentByClass then u.Trim(s.parentByClass[name]) else ""
  }

  /** The aliases suggested for the label, trimmed and sorted, once each. */
  ghost predicate AliasesSuggested(u: Unicode, suggested: map<string, seq<string>>, name: string,
                                   aliases: seq<string>)
  {
    && Sorted(aliases, StringOrder()) && NoRepeats(aliases)
    && forall a :: a in aliases <==> a != "" && name in suggested && exists x :: x in suggested[name] && u.Trim(x) == a
  }

  lemma AliasesAreSuggested(u: Unicode, suggested: map<string, seq<string>>, name: string)
    ensures AliasesSuggested(u, suggested, name, SuggestedAliases(u, suggested, name))
  {
    UniqueSortedListing(u, if name in suggested then suggested[name] else []);
    hide UniqueSorted;
  }

  /** The confidence in a class by the number of its entities. */
  function Trust(support: int): real {
    if support < 1 then 0.0
    else if support < 2 then 0.65
    else if support < 5 then 0.78
    else if support < 10 then 0.88
    else if support < 20 then 0.94
    else 0.98
  }

  /**
   Each type of the graph becomes a class with as much support as it has entities, under the class suggested
   as its parent if that is a type of the graph.
   */
  lemma ClassesExactly(n: Naming, r: Rules, g: Snapshot, report: Report, s: Suggestions, i: nat)
    requires n.u == r.u && IsReport(r, g, report) && i < |report.classes|
    ensures |CandidateOf(n, report, s).classes| == |report.classes|
    ensures var x, name := CandidateOf(n, report, s).classes[i], report.classes[i].name;
            && x.name == name && [x.id] == ClassIn(n, g, name)
            && x.support == ClassCount(r.u, g.entities, name) > 0
            && x.confidence == Trust(x.support)
            && x.parentIds == ClassIn(n, g, Suggested(n.u, s, name))
            && AliasesSuggested(n.u, s.classAliases, name, x.aliases)
  {
    hide *;
    var cp := report.classes[i];
    ReportIsOrdered(r, g, report);
    ClassesInOrder(n, report, s);
    ListedIsCounted(n, r, g, report, cp.name);
    ListedIsCounted(n, r, g, report, Suggested(n.u, s, cp.name));
    AliasesAreSuggested(n.u, s.classAliases, cp.name);
    UnnamedIsNoClass(n, g);
    CountedClass(r, g, report, i);
    ClassParts(n, report, s, i);
  }

  lemma CountedClass(r: Rules, g: Snapshot, report: Report, i: nat)
    requires IsReport(r, g, report) && i < |report.classes|
    ensures Listed(report, report.classes[i].name)
    ensures report.classes[i].count == ClassCount(r.u, g.entities, report.classes[i].name) > 0
  {
    hide ClassCount;
    hide Uses;
    hide PropertyRight;
    hide RelationRight;
    hide RelationTotal;
    hide Increasing;
    assert ClassNames(report.classes)[i] == report.classes[i].name;
  }

  lemma ClassParts(n: Naming, report: Report, s: Suggestions, i: nat)
    requires i < |report.classes| && Listed(report, report.classes[i].name)
    ensures |ClassesFor(n, report, s)| == |report.classes|
    ensures var x, name := ClassesFor(n, report, s)[i], report.classes[i].name;
            var parent := Suggested(n.u, s, name);
            && x.name == name && [x.id] == LabelIds(n, report, name)
            && x.support == report.classes[i].count && x.confidence == Trust(x.support)
            && x.parentIds == (if parent == "" then [] else LabelIds(n, report, parent))
            && x.aliases == SuggestedAliases(n.u, s.classAliases, name)
  {
    hide SuggestedAliases;
    hide ClassId;
    EmptyTrims(n.u);
    hide Unicode.Trim;
    assert ClassesFor(n, report, s)[i] == ClassFor(n, report, s, report.classes[i]);
  }

  lemma EmptyTrims(u: Unicode)
    ensures u.Trim("") == ""
  {
  }

  lemma UnnamedIsNoClass(n: Naming, g: Snapshot)
    ensures ClassIn(n, g, "") == []
  {
    if ClassCount(n.u, g.entities, "") > 0 {
      var e := CountedType(n.u, g.entities, "");
    }
  }

  /** Of all uses, no type has a larger share, and one has this share, unless it is none. */
  ghost predicate LargestPart(r: Rules, g: Snapshot, name: string, share: real) {
    var all := Uses(r.u, g.entities, OfKey(r, name)) as real;
    && (forall t :: Uses(r.u, g.entities, OfDomain(r, name, t)) as real <= share * all)
    && (share == 0.0 || exists t :: Uses(r.u, g.entities, OfDomain(r, name, t)) as real == share * all)
  }

  /** The confidence in a property is the largest share of its uses that one type has. */
  lemma PropertyConfidence(n: Naming, r: Rules, g: Snapshot, report: Report, s: Suggestions, i: nat)
    requires n.u == r.u && IsReport(r, g, report) && i < |report.properties|
    ensures |CandidateOf(n, report, s).properties| == |report.properties|
    ensures LargestPart(r, g, report.properties[i].name, CandidateOf(n, report, s).properties[i].confidence)
  {
    hide *;
    PropertyInUse(r, g, report, i);
    PropertiesInOrder(n, report, s);
    TypeShares(n, r, g, report, report.properties[i]);
    PartsOfProperty(n, report, s, i);
  }

  lemma TypeShares(n: Naming, r: Rules, g: Snapshot, report: Report, pp: PropertyPattern)
    requires PropertyRight(r, g.entities, pp) && pp.total > 0
    ensures LargestPart(r, g, pp.name, PropertyDomain(n, report, pp).1)
  {
    hide Uses;
    hide UniqueSorted;
    hide LabelIds;
    var share := PropertyDomain(n, report, pp).1;
    if pp.domains != map[] {
      var top := Dominant(pp.domains);
      assert IsDominant(pp.domains, top);
      ShareTimesTotal(pp.domains[top], pp.total);
      assert Count(pp.domains, top) == Uses(r.u, g.entities, OfDomain(r, pp.name, top));
    }
    forall t
      ensures Uses(r.u, g.entities, OfDomain(r, pp.name, t)) as real <= share * pp.total as real
    {
      assert Count(pp.domains, t) == Uses(r.u, g.entities, OfDomain(r, pp.name, t));
    }
  }

  /** Each property's data type is the most common of its values, the earliest of several, and all its uses count. */
  lemma PropertiesExactly(n: Naming, r: Rules, g: Snapshot, report: Report, s: Suggestions, i: nat, other: string)
    requires n.u == r.u && IsReport(r, g, report) && i < |report.properties|
    ensures |CandidateOf(n, report, s).properties| == |report.properties|
    ensures var x, name := CandidateOf(n, report, s).properties[i], report.properties[i].name;
            var uses := Uses(r.u, g.entities, OfDataType(r, name, x.dataType));
            && x.name == name && x.id == n.StableId("prop", g.domain, name)
            && x.support == Uses(r.u, g.entities, OfKey(r, name)) > 0
            && AliasesSuggested(n.u, s.propertyAliases, name, x.aliases)
            && Uses(r.u, g.entities, OfDataType(r, name, other)) <= uses
            && (other != x.dataType && Uses(r.u, g.entities, OfDataType(r, name, other)) == uses > 0 ==>
                  Before(x.dataType, other))
  {
    var pp := report.properties[i];
    PropertyInUse(r, g, report, i);
    PropertiesInOrder(n, report, s);
    AliasesAreSuggested(n.u, s.propertyAliases, pp.name);
    MostCommonType(r, g.entities, pp, other);
    assert report.domain == g.domain;
    assert PropertyNames(report.properties)[i] == pp.name;
    hide *;
    PartsOfProperty(n, report, s, i);
    UsedExactly(r, g, report, i);
  }

  lemma UsedExactly(r: Rules, g: Snapshot, report: Report, i: nat)
    requires IsReport(r, g, report) && i < |report.properties|
    ensures report.properties[i].total == Uses(r.u, g.entities, OfKey(r, report.properties[i].name))
  {
    hide Uses;
  }

  /** The data type a property gets. */
  ghost function TypeGiven(pp: PropertyPattern): string {
    if pp.dataTypes == map[] then "string" else Dominant(pp.dataTypes)
  }

  lemma PartsOfProperty(n: Naming, report: Report, s: Suggestions, i: nat)
    requires i < |report.properties|
    ensures var pp := report.properties[i];
            var x := PropertiesFor(n, report, s)[i];
            && |PropertiesFor(n, report, s)| == |report.properties|
            && x.name == pp.name && x.id == n.StableId("prop", report.domain, pp.name) && x.support == pp.total
            && x.dataType == TypeGiven(pp) && x.confidence == PropertyDomain(n, report, pp).1
            && x.aliases == SuggestedAliases(n.u, s.propertyAliases, pp.name)
  {
    hide PropertyDomain;
    hide SuggestedAliases;
    hide Dominant;
  }

  lemma MostCommonType(r: Rules, es: seq<Entity>, pp: PropertyPattern, other: string)
    requires PropertyRight(r, es, pp)
    ensures var best := TypeGiven(pp);
            var uses := Uses(r.u, es, OfDataType(r, pp.name, best));
            && Uses(r.u, es, OfDataType(r, pp.name, other)) <= uses
            && (other != best && Uses(r.u, es, OfDataType(r, pp.name, other)) == uses > 0 ==> Before(best, other))
  {
    hide Uses;
    var best := TypeGiven(pp);
    assert Count(pp.dataTypes, best) == Uses(r.u, es, OfDataType(r, pp.name, best));
    assert Count(pp.dataTypes, other) == Uses(r.u, es, OfDataType(r, pp.name, other));
    if pp.dataTypes != map[] {
      assert IsDominant(pp.dataTypes, best);
      BeforeTotal(best, other);
    }
  }

  // ---------- Questions ----------

  /** The type is to go under a suggested parent that the graph does not know. */
  ghost predicate AsksParent(n: Naming, report: Report, s: Suggestions, item: ReviewItem) {
    exists cp :: cp in report.classes && var parent := Suggested(n.u, s, cp.name);
      && parent != "" && parent !in ClassNames(report.classes)
      && item == ReviewItem(n.StableId("review", report.domain, "missing-parent\0" + cp.name), "hierarchy",
                            [n.StableId("cls", report.domain, cp.name)], "medium", "pending")
  }

  /** No type has the required share of the property's uses. */
  ghost predicate AsksDomain(n: Naming, report: Report, item: ReviewItem) {
    exists pp :: pp in report.properties && PropertyDomain(n, report, pp).0 == []
      && item == ReviewItem(n.StableId("review", report.domain, "property-domain\0" + pp.name), "property_domain", [],
                            "medium", "pending")
  }

  /** The relation is open at one end. */
  ghost predicate AsksEnds(n: Naming, report: Report, item: ReviewItem) {
    exists rp :: rp in report.relations
      && (RelationEnds(n, report, rp).domainIds == [] || RelationEnds(n, report, rp).rangeIds == [])
      && item == ReviewItem(n.StableId("review", report.domain, "relation-domain-range\0" + rp.name),
                            "relation_domain_range", [n.StableId("obj", report.domain, rp.name)], "high", "pending")
  }

  /** The classes of the labels in the group that are types of the graph. */
  function ClassesOf(n: Naming, report: Report, group: seq<string>): seq<string> {
    if group == [] then []
    else
      (if group[0] in ClassNames(report.classes) then [n.StableId("cls", report.domain, group[0])] else [])
      + ClassesOf(n, report, group[1..])
  }

  lemma {:induction false} ClassesOfSplit(n: Naming, report: Report, a: seq<string>, b: seq<string>)
    ensures ClassesOf(n, report, a + b) == ClassesOf(n, report, a) + ClassesOf(n, report, b)
  {
    hide ClassNames;
    if a == [] {
      assert a + b == b;
    } else {
      assert (a + b)[1..] == a[1..] + b;
      ClassesOfSplit(n, report, a[1..], b);
    }
  }

  lemma {:induction false} GroupIdsAreClasses(n: Naming, report: Report, group: seq<string>)
    ensures GroupIds(n, report, group) == ClassesOf(n, report, group)
  {
    if group != [] {
      var init, last := group[..|group| - 1], group[|group| - 1];
      assert group == init + [last];
      GroupIdsAreClasses(n, report, init);
      ClassesOfSplit(n, report, init, [last]);
      hide ClassNames;
      assert [last][1..] == [];
    }
  }

  /** At least two classes are suggested to be one. */
  ghost predicate AsksMerge(n: Naming, report: Report, s: Suggestions, item: ReviewItem) {
    exists group :: group in s.mergeClasses && |ClassesOf(n, report, group)| >= 2
      && item == ReviewItem(n.StableId("review", report.domain, "merge\0" + Joined(group)), "class_merge",
                            ClassesOf(n, report, group), "high", "pending")
  }

  ghost predicate AsksQuestion(n: Naming, report: Report, s: Suggestions, item: ReviewItem) {
    exists q :: q in s.reviewQuestions
      && item == ReviewItem(n.StableId("review", report.domain, q), "semantic", [], "medium", "pending")
  }

  lemma {:induction false} ParentQuestions(n: Naming, report: Report, s: Suggestions, classes: seq<ClassPattern>,
                                           item: ReviewItem)
    requires forall cp :: cp in classes ==> cp in report.classes
    ensures item in ParentItems(n, report, s, classes) <==>
              exists cp :: cp in classes && var parent := Suggested(n.u, s, cp.name);
                && parent != "" && !Listed(report, parent) && item == MissingParent(n, report, cp)
  {
    EmptyTrims(n.u);
    hide MissingParent;
    hide Listed;
    hide Unicode.Trim;
    if classes != [] {
      var init, last := classes[..|classes| - 1], classes[|classes| - 1];
      assert classes == init + [last];
      ParentQuestions(n, report, s, init, item);
    }
  }

  lemma {:induction false} DomainQuestions(n: Naming, report: Report, properties: seq<PropertyPattern>,
                                           item: ReviewItem)
    ensures item in PropertyItems(n, report, properties) <==>
              exists pp :: pp in properties && PropertyDomain(n, report, pp).0 == []
                           && item == OpenDomain(n, report, pp)
  {
    hide PropertyDomain;
    hide OpenDomain;
    if properties != [] {
      var init, last := properties[..|properties| - 1], properties[|properties| - 1];
      assert properties == init + [last];
      DomainQuestions(n, report, init, item);
    }
  }

  lemma {:induction false} EndQuestions(n: Naming, report: Report, relations: seq<RelationPattern>, item: ReviewItem)
    ensures item in RelationItems(n, report, relations) <==>
              exists rp :: rp in relations && item == OpenEnds(n, report, rp)
                && (RelationEnds(n, report, rp).domainIds == [] || RelationEnds(n, report, rp).rangeIds == [])
  {
    hide RelationEnds;
    hide OpenEnds;
    if relations != [] {
      var init, last := relations[..|relations| - 1], relations[|relations| - 1];
      assert relations == init + [last];
      EndQuestions(n, report, init, item);
    }
  }

  lemma {:induction false} MergeQuestions(n: Naming, report: Report, groups: seq<seq<string>>, item: ReviewItem)
    ensures item in MergeItems(n, report, groups) <==>
              exists group :: group in groups && |GroupIds(n, report, group)| >= 2
                && item == MergeQuestion(n, report, group)
  {
    hide MergeQuestion;
    if groups != [] {
      var init, last := groups[..|groups| - 1], groups[|groups| - 1];
      assert groups == init + [last];
      MergeQuestions(n, report, init, item);
      FewIds(n, report, last);
      hide GroupIds;
    }
  }

  lemma {:induction false} FewIds(n: Naming, report: Report, group: seq<string>)
    ensures |GroupIds(n, report, group)| <= |group|
  {
    hide LabelIds;
    if group != [] {
      FewIds(n, report, group[..|group| - 1]);
      AtMostOne(n, report, group[|group| - 1]);
    }
  }

  lemma AtMostOne(n: Naming, report: Report, name: string)
    ensures |LabelIds(n, report, name)| <= 1
  {
  }

  lemma SemanticQuestions(n: Naming, report: Report, questions: seq<string>, item: ReviewItem)
    ensures item in QuestionItems(n, report, questions) <==>
              exists q :: q in questions && item == Pending(n, report, q, "semantic", [], "medium")
  {
    hide Pending;
    var items := QuestionItems(n, report, questions);
    if q :| q in questions && item == Pending(n, report, q, "semantic", [], "medium") {
      var i :| 0 <= i < |questions| && questions[i] == q;
      assert items[i] == item;
    }
    if item in items {
      var i :| 0 <= i < |items| && items[i] == item;
      assert questions[i] in questions;
    }
  }

  /** Queued for review are exactly these five kinds of questions. */
  lemma QueueExactly(n: Naming, report: Report, s: Suggestions, item: ReviewItem)
    ensures item in CandidateOf(n, report, s).reviewQueue <==>
              || AsksParent(n, report, s, item) || AsksDomain(n, report, item) || AsksEnds(n, report, item)
              || AsksMerge(n, report, s, item) || AsksQuestion(n, report, s, item)
  {
    ParentQuestions(n, report, s, report.classes, item);
    DomainQuestions(n, report, report.properties, item);
    EndQuestions(n, report, report.relations, item);
    MergeQuestions(n, report, s.mergeClasses, item);
    SemanticQuestions(n, report, s.reviewQuestions, item);
    AsksAlike(n, report, s, item);
    QueueParts(n, report, s, item);
    hide *;
  }

  lemma QueueParts(n: Naming, report: Report, s: Suggestions, item: ReviewItem)
    ensures item in CandidateOf(n, report, s).reviewQueue <==>
              || item in ParentItems(n, report, s, report.classes)
              || item in PropertyItems(n, report, report.properties)
              || item in RelationItems(n, report, report.relations) || item in MergeItems(n, report, s.mergeClasses)
              || item in QuestionItems(n, report, s.reviewQuestions)
  {
    hide ParentItems;
    hide PropertyItems;
    hide RelationItems;
    hide MergeItems;
    hide QuestionItems;
    hide Sort;
    hide ClassesFor;
    hide PropertiesFor;
    hide RelationsFor;
  }

  /** The items queued are those of these questions. */
  lemma AsksAlike(n: Naming, report: Report, s: Suggestions, item: ReviewItem)
    ensures AsksParent(n, report, s, item) <==>
              exists cp :: cp in report.classes && var parent := Suggested(n.u, s, cp.name);
                && parent != "" && !Listed(report, parent) && item == MissingParent(n, report, cp)
    ensures AsksDomain(n, report, item) <==>
              exists pp :: pp in report.properties && PropertyDomain(n, report, pp).0 == []
                           && item == OpenDomain(n, report, pp)
    ensures AsksEnds(n, report, item) <==>
              exists rp :: rp in report.relations && item == OpenEnds(n, report, rp)
                && (RelationEnds(n, report, rp).domainIds == [] || RelationEnds(n, report, rp).rangeIds == [])
    ensures AsksMerge(n, report, s, item) <==>
              exists group :: group in s.mergeClasses && |GroupIds(n, report, group)| >= 2
                && item == MergeQuestion(n, report, group)
    ensures AsksQuestion(n, report, s, item) <==>
              exists q :: q in s.reviewQuestions && item == Pending(n, report, q, "semantic", [], "medium")
  {
    forall group
      ensures GroupIds(n, report, group) == ClassesOf(n, report, group)
    {
      GroupIdsAreClasses(n, report, group);
    }
    hide GroupIds;
    hide ClassesOf;
    hide PropertyDomain;
    hide RelationEnds;
    hide Suggested;
    hide ClassNames;
    hide Joined;
    hide Naming.StableId;
  }
}
