/**
 Building a candidate ontology from a pattern report and the suggestions of a semantic inducer, with a
 review item for everything that did not come out clearly.
 */
module Candidate {
  import opened Wrappers
  import opened Text
  import opened Sorting
  import opened Identity
  import opened GraphModel
  import opened OntologyModel
  import opened Discovery

  datatype Suggestions = Suggestions(
    classAliases: map<string, seq<string>>, propertyAliases: map<string, seq<string>>, relationAliases: map<string,
        seq<string>>,
    parentByClass: map<string, string>, mergeClasses: seq<seq<string>>, reviewQuestions: seq<string>)

  const SHARE := 0.8

  // ---------- Dominant keys ----------

  /** No key has a higher count, and no key with the same count comes earlier. */
  ghost predicate IsDominant(counts: map<string, nat>, key: string) {
    && key in counts
    && forall other :: other in counts ==>
         counts[other] < counts[key] || (counts[other] == counts[key] && !Before(other, key))
  }

  lemma DominantIsUnique(counts: map<string, nat>, a: string, b: string)
    requires IsDominant(counts, a) && IsDominant(counts, b)
    ensures a == b
  {
    BeforeTotal(a, b);
  }

  lemma DominantIn(counts: map<string, nat>, keys: set<string>) returns (key: string)
    requires keys != {} && keys <= counts.Keys
    ensures key in keys
    ensures forall other :: other in keys ==>
              counts[other] < counts[key] || (counts[other] == counts[key] && !Before(other, key))
  {
    key :| key in keys;
    BeforeIrreflexive(key);
    if keys != {key} {
      var best := DominantIn(counts, keys - {key});
      BeforeIrreflexive(best);
      BeforeTotal(best, key);
      if counts[best] > counts[key] || (counts[best] == counts[key] && Before(best, key)) {
        BeforeIsStrictWeak(key, best, key);
        key := best;
      } else {
        forall other | other in keys && other != key && counts[other] == counts[key]
          ensures !Before(other, key)
        {
          BeforeIsStrictWeak(other, best, key);
          BeforeIsStrictWeak(best, other, key);
        }
      }
    }
  }

  ghost function Dominant(counts: map<string, nat>): (key: string)
    requires counts != map[]
    ensures IsDominant(counts, key)
  {
    assert exists k :: IsDominant(counts, k) by {
      var k :| k in counts;
      var best := DominantIn(counts, counts.Keys);
      assert IsDominant(counts, best);
    }
    var k :| IsDominant(counts, k);
    k
  }

  /** The keys come in an arbitrary order. */
  method FindDominant(counts: map<string, nat>, start: string) returns (best: string, max: int)
    ensures counts == map[] ==> best == start && max == -1
    ensures counts != map[] ==> best == Dominant(counts) && max == counts[best]
  {
    best, max := start, -1;
    var todo := counts.Keys;
    while todo != {}
      invariant todo <= counts.Keys
      invariant max == -1 ==> todo == counts.Keys && best == start
      invariant max != -1 ==> best in counts && best !in todo && counts[best] == max
      invariant max != -1 ==> forall other :: other in counts && other !in todo ==>
                  counts[other] < max || (counts[other] == max && !Before(other, best))
      decreases |todo|
    {
      var k :| k in todo;
      todo := todo - {k};
      BeforeIrreflexive(k);
      forall other | other in counts
        ensures max != -1 && !Before(other, best) && Before(k, best) ==> !Before(other, k)
      {
        BeforeIsStrictWeak(other, k, best);
      }
      if counts[k] > max || (counts[k] == max && Before(k, best)) {
        best, max := k, counts[k];
      }
    }
    if counts != map[] {
      var k :| k in counts;
      assert IsDominant(counts, best);
      DominantIsUnique(counts, best, Dominant(counts));
    }
  }

  // ---------- Parts of a candidate ----------

  function ClassId(n: Naming, report: Report, name: string): string {
    n.StableId("cls", report.domain, name)
  }

  predicate Listed(report: Report, name: string) {
    name in ClassNames(report.classes)
  }

  function SuggestedAliases(u: Unicode, suggested: map<string, seq<string>>, name: string): seq<string> {
    UniqueSorted(u, if name in suggested then suggested[name] else [])
  }

  function Parent(u: Unicode, s: Suggestions, name: string): string {
    u.Trim(if name in s.parentByClass then s.parentByClass[name] else "")
  }

  function SupportConfidence(count: int): real {
    if count <= 0 then 0.0 else if count >= 20 then 0.98 else if count >= 10 then 0.94
    else if count >= 5 then 0.88 else if count >= 2 then 0.78 else 0.65
  }

  function ClassFor(n: Naming, report: Report, s: Suggestions, cp: ClassPattern): OntologyClass {
    var parent := Parent(n.u, s, cp.name);
    OntologyClass(ClassId(n, report, cp.name), cp.name, SuggestedAliases(n.u, s.classAliases, cp.name),
                  if parent != "" && Listed(report, parent) then [ClassId(n, report, parent)] else [],
                  cp.count, SupportConfidence(cp.count), Proposed)
  }

  function LabelIds(n: Naming, report: Report, name: string): seq<string> {
    if Listed(report, name) then [ClassId(n, report, name)] else []
  }

  /** The type that a property mostly belongs to, if it covers the required share of the uses. */
  ghost function PropertyDomain(n: Naming, report: Report, pp: PropertyPattern): (seq<string>, real) {
    if pp.total == 0 || pp.domains == map[] then ([], 0.0)
    else
      var top := Dominant(pp.domains);
      var share := pp.domains[top] as real / pp.total as real;
      if share < SHARE then ([], share) else (UniqueSorted(n.u, LabelIds(n, report, top)), share)
  }

  function PropertyWith(n: Naming, report: Report, s: Suggestions, pp: PropertyPattern, domainIds: seq<string>,
                        share: real,
                        dataType: string): DataProperty {
    DataProperty(n.StableId("prop", report.domain, pp.name), pp.name, SuggestedAliases(n.u, s.propertyAliases, pp.name),
                 domainIds, dataType, pp.total, share, Proposed)
  }

  ghost function PropertyFor(n: Naming, report: Report, s: Suggestions, pp: PropertyPattern): DataProperty {
    var (domainIds, share) := PropertyDomain(n, report, pp);
    PropertyWith(n, report, s, pp, domainIds, share, if pp.dataTypes == map[] then "string" else Dominant(pp.dataTypes))
  }

  /** The two halves of a text with exactly one separator. */
  function Halves(s: string): Option<(string, string)> {
    var at := IndexOf(s, '\0');
    IndexOfBounds(s, '\0');
    if at == |s| || '\0' in s[at + 1..] then None else Some((s[..at], s[at + 1..]))
  }

  datatype Ends = Ends(domainIds: seq<string>, rangeIds: seq<string>, share: real)

  function EndsOf(n: Naming, report: Report, pair: string, share: real): Ends {
    var halves := Halves(pair);
    if halves.Some? && share >= SHARE
    then Ends(LabelIds(n, report, halves.value.0), LabelIds(n, report, halves.value.1), share)
    else Ends([], [], share)
  }

  ghost function RelationEnds(n: Naming, report: Report, rp: RelationPattern): Ends {
    var pair := if rp.domainRange == map[] then "" else Dominant(rp.domainRange);
    var count := if rp.domainRange == map[] then -1 else rp.domainRange[pair] as int;
    EndsOf(n, report, pair, if rp.total > 0 then count as real / rp.total as real else 0.0)
  }

  function RelationWith(n: Naming, report: Report, s: Suggestions, rp: RelationPattern, ends: Ends): ObjectRelation {
    ObjectRelation(n.StableId("obj", report.domain, rp.name), rp.name,
                   SuggestedAliases(n.u, s.relationAliases, rp.name), ends.domainIds, ends.rangeIds, rp.total,
                   ends.share, Proposed)
  }

  ghost function RelationFor(n: Naming, report: Report, s: Suggestions, rp: RelationPattern): ObjectRelation {
    RelationWith(n, report, s, rp, RelationEnds(n, report, rp))
  }

  // ---------- Review items ----------

  function Pending(n: Naming, report: Report, subject: string, kind: string, subjectIds: seq<string>,
                   risk: string): ReviewItem {
    ReviewItem(n.StableId("review", report.domain, subject), kind, subjectIds, risk, "pending")
  }

  function MissingParent(n: Naming, report: Report, cp: ClassPattern): ReviewItem {
    Pending(n, report, "missing-parent\0" + cp.name, "hierarchy", [ClassId(n, report, cp.name)], "medium")
  }

  function OpenDomain(n: Naming, report: Report, pp: PropertyPattern): ReviewItem {
    Pending(n, report, "property-domain\0" + pp.name, "property_domain", [], "medium")
  }

  function OpenEnds(n: Naming, report: Report, rp: RelationPattern): ReviewItem {
    Pending(n, report, "relation-domain-range\0" + rp.name, "relation_domain_range",
            [n.StableId("obj", report.domain, rp.name)], "high")
  }

  function MergeQuestion(n: Naming, report: Report, group: seq<string>): ReviewItem {
    Pending(n, report, "merge\0" + Joined(group), "class_merge", GroupIds(n, report, group), "high")
  }

  function ParentItems(n: Naming, report: Report, s: Suggestions, classes: seq<ClassPattern>): seq<ReviewItem> {
    if classes == [] then []
    else
      var cp := classes[|classes| - 1];
      var parent := Parent(n.u, s, cp.name);
      ParentItems(n, report, s, classes[..|classes| - 1])
      + if parent != "" && !Listed(report, parent)
        then [MissingParent(n, report, cp)] else []
  }

  ghost function PropertyItems(n: Naming, report: Report, properties: seq<PropertyPattern>): seq<ReviewItem> {
    if properties == [] then []
    else
      var pp := properties[|properties| - 1];
      PropertyItems(n, report, properties[..|properties| - 1])
      + if PropertyDomain(n, report, pp).0 == []
        then [OpenDomain(n, report, pp)] else []
  }

  ghost function RelationItems(n: Naming, report: Report, relations: seq<RelationPattern>): seq<ReviewItem> {
    if relations == [] then []
    else
      var rp := relations[|relations| - 1];
      var ends := RelationEnds(n, report, rp);
      RelationItems(n, report, relations[..|relations| - 1])
      + if ends.domainIds == [] || ends.rangeIds == []
        then [OpenEnds(n, report, rp)] else []
  }

  function GroupIds(n: Naming, report: Report, group: seq<string>): seq<string> {
    if group == [] then [] else GroupIds(n, report, group[..|group| - 1]) + LabelIds(n, report, group[|group| - 1])
  }

  function Joined(group: seq<string>): string {
    if group == [] then ""
    else if |group| == 1 then group[0]
    else Joined(group[..|group| - 1]) + "|" + group[|group| - 1]
  }

  function MergeItems(n: Naming, report: Report, groups: seq<seq<string>>): seq<ReviewItem> {
    if groups == [] then []
    else
      var group := groups[|groups| - 1];
      MergeItems(n, report, groups[..|groups| - 1])
      + if |group| >= 2 && |GroupIds(n, report, group)| >= 2
        then [MergeQuestion(n, report, group)] else []
  }

  function QuestionItems(n: Naming, report: Report, questions: seq<string>): seq<ReviewItem> {
    seq(|questions|, i requires 0 <= i < |questions| => Pending(n, report, questions[i], "semantic", [], "medium"))
  }

  ghost function ReviewQueue(n: Naming, report: Report, s: Suggestions): seq<ReviewItem> {
    ParentItems(n, report, s, report.classes) + PropertyItems(n, report, report.properties)
    + RelationItems(n, report, report.relations) + MergeItems(n, report, s.mergeClasses)
    + QuestionItems(n, report, s.reviewQuestions)
  }

  // ---------- The candidate ----------

  function ByClassName(): (OntologyClass, OntologyClass) -> bool {
    (a: OntologyClass, b: OntologyClass) => Before(a.name, b.name)
  }

  function ByPropertyName(): (DataProperty, DataProperty) -> bool {
    (a: DataProperty, b: DataProperty) => Before(a.name, b.name)
  }

  function ByRelationName(): (ObjectRelation, ObjectRelation) -> bool {
    (a: ObjectRelation, b: ObjectRelation) => Before(a.name, b.name)
  }

  function ClassesFor(n: Naming, report: Report, s: Suggestions): seq<OntologyClass> {
    seq(|report.classes|, i requires 0 <= i < |report.classes| => ClassFor(n, report, s, report.classes[i]))
  }

  ghost function PropertiesFor(n: Naming, report: Report, s: Suggestions): seq<DataProperty> {
    seq(|report.properties|, i requires 0 <= i < |report.properties| => PropertyFor(n, report, s, report.properties[i]))
  }

  ghost function RelationsFor(n: Naming, report: Report, s: Suggestions): seq<ObjectRelation> {
    seq(|report.relations|, i requires 0 <= i < |report.relations| => RelationFor(n, report, s, report.relations[i]))
  }

  ghost function CandidateOf(n: Naming, report: Report, s: Suggestions): Ontology {
    Ontology(n.StableId("ont", report.domain, report.domain), report.domain, "0.1.0-candidate", Proposed, "",
             Sort(ClassesFor(n, report, s), ByClassName()), Sort(PropertiesFor(n, report, s), ByPropertyName()),
             Sort(RelationsFor(n, report, s), ByRelationName()), ReviewQueue(n, report, s))
  }

  // ---------- Building as the source does it ----------

  /** A class before its parent is looked up. */
  function RootFor(n: Naming, report: Report, s: Suggestions, cp: ClassPattern): OntologyClass {
    OntologyClass(ClassId(n, report, cp.name), cp.name, SuggestedAliases(n.u, s.classAliases, cp.name), [],
                  cp.count, SupportConfidence(cp.count), Proposed)
  }

  lemma RootWithParent(n: Naming, report: Report, s: Suggestions, cp: ClassPattern)
    ensures var root, parent := RootFor(n, report, s, cp), Parent(n.u, s, cp.name);
            && root.name == cp.name
            && ClassFor(n, report, s, cp)
               == if parent != "" && Listed(report, parent) then root.(parentIds := [ClassId(n, report,
                     parent)]) else root
  {
  }

  method BuildClasses(n: Naming, report: Report, s: Suggestions)
    returns (classes: seq<OntologyClass>, queue: seq<ReviewItem>)
    ensures classes == ClassesFor(n, report, s) && queue == ParentItems(n, report, s, report.classes)
  {
    classes := [];
    hide ClassFor;
    hide ClassId;
    hide Listed;
    hide MissingParent;
    hide Parent;
    hide RootFor;
    for i := 0 to |report.classes|
      invariant |classes| == i && forall j :: 0 <= j < i ==> classes[j] == RootFor(n, report, s, report.classes[j])
    {
      classes := classes + [RootFor(n, report, s, report.classes[i])];
    }
    queue := [];
    for i := 0 to |classes|
      invariant |classes| == |report.classes|
      invariant forall j :: 0 <= j < i ==> classes[j] == ClassFor(n, report, s, report.classes[j])
      invariant forall j :: i <= j < |classes| ==> classes[j] == RootFor(n, report, s, report.classes[j])
      invariant queue == ParentItems(n, report, s, report.classes[..i])
    {
      assert report.classes[..i + 1][..i] == report.classes[..i];
      RootWithParent(n, report, s, report.classes[i]);
      var parent := Parent(n.u, s, classes[i].name);
      if parent == "" {
        continue;
      }
      if Listed(report, parent) {
        classes := classes[i := classes[i].(parentIds := [ClassId(n, report, parent)])];
      } else {
        queue := queue + [MissingParent(n, report, report.classes[i])];
      }
    }
    assert report.classes[..|classes|] == report.classes;
  }

  method ChooseDomain(n: Naming, report: Report, pp: PropertyPattern) returns (domainIds: seq<string>, share: real)
    ensures (domainIds, share) == PropertyDomain(n, report, pp)
  {
    if pp.total == 0 {
      return [], 0.0;
    }
    var top, max := FindDominant(pp.domains, "");
    if max == -1 {
      return [], 0.0;
    }
    share := max as real / pp.total as real;
    if share < SHARE {
      return [], share;
    }
    domainIds := UniqueSorted(n.u, LabelIds(n, report, top));
  }

  method BuildProperties(n: Naming, report: Report, s: Suggestions)
    returns (properties: seq<DataProperty>, queue: seq<ReviewItem>)
    ensures properties == PropertiesFor(n, report, s) && queue == PropertyItems(n, report, report.properties)
  {
    hide Dominant;
    hide OpenDomain;
    hide PropertyDomain;
    hide PropertyWith;
    properties, queue := [], [];
    for i := 0 to |report.properties|
      invariant |properties| == i
      invariant forall j :: 0 <= j < i ==> properties[j] == PropertyFor(n, report, s, report.properties[j])
      invariant queue == PropertyItems(n, report, report.properties[..i])
    {
      assert report.properties[..i + 1][..i] == report.properties[..i];
      var pp := report.properties[i];
      var domainIds, share := ChooseDomain(n, report, pp);
      var dataType, max := FindDominant(pp.dataTypes, "string");
      properties := properties + [PropertyWith(n, report, s, pp, domainIds, share, dataType)];
      if |domainIds| == 0 {
        queue := queue + [OpenDomain(n, report, pp)];
      }
    }
    assert report.properties[..|report.properties|] == report.properties;
  }

  method ChooseEnds(n: Naming, report: Report, rp: RelationPattern) returns (ends: Ends)
    ensures ends == RelationEnds(n, report, rp)
  {
    hide EndsOf;
    var pair, count := FindDominant(rp.domainRange, "");
    var share := 0.0;
    if rp.total > 0 {
      share := count as real / rp.total as real;
    }
    ends := EndsOf(n, report, pair, share);
  }

  method BuildRelations(n: Naming, report: Report, s: Suggestions)
    returns (relations: seq<ObjectRelation>, queue: seq<ReviewItem>)
    ensures relations == RelationsFor(n, report, s) && queue == RelationItems(n, report, report.relations)
  {
    hide OpenEnds;
    hide RelationEnds;
    hide RelationWith;
    relations, queue := [], [];
    for i := 0 to |report.relations|
      invariant |relations| == i
      invariant forall j :: 0 <= j < i ==> relations[j] == RelationFor(n, report, s, report.relations[j])
      invariant queue == RelationItems(n, report, report.relations[..i])
    {
      assert report.relations[..i + 1][..i] == report.relations[..i];
      var rp := report.relations[i];
      var ends := ChooseEnds(n, report, rp);
      relations := relations + [RelationWith(n, report, s, rp, ends)];
      if |ends.domainIds| == 0 || |ends.rangeIds| == 0 {
        queue := queue + [OpenEnds(n, report, rp)];
      }
    }
    assert report.relations[..|report.relations|] == report.relations;
  }

  method AskToMerge(n: Naming, report: Report, groups: seq<seq<string>>) returns (queue: seq<ReviewItem>)
    ensures queue == MergeItems(n, report, groups)
  {
    hide Pending;
    hide MergeQuestion;
    hide LabelIds;
    queue := [];
    for i := 0 to |groups|
      invariant queue == MergeItems(n, report, groups[..i])
    {
      assert groups[..i + 1][..i] == groups[..i];
      var group := groups[i];
      if |group| < 2 {
        continue;
      }
      var ids: seq<string> := [];
      for k := 0 to |group|
        invariant ids == GroupIds(n, report, group[..k])
      {
        assert group[..k + 1][..k] == group[..k];
        ids := ids + LabelIds(n, report, group[k]);
      }
      assert group[..|group|] == group;
      if |ids| >= 2 {
        queue := queue + [MergeQuestion(n, report, group)];
      }
    }
    assert groups[..|groups|] == groups;
  }

  method AskQuestions(n: Naming, report: Report, questions: seq<string>) returns (queue: seq<ReviewItem>)
    ensures queue == QuestionItems(n, report, questions)
  {
    hide Pending;
    queue := [];
    for i := 0 to |questions|
      invariant queue == QuestionItems(n, report, questions[..i])
    {
      queue := queue + [Pending(n, report, questions[i], "semantic", [], "medium")];
    }
    assert questions[..|questions|] == questions;
  }

  method BuildCandidate(n: Naming, report: Report, s: Suggestions) returns (o: Ontology)
    ensures o == CandidateOf(n, report, s)
  {
    hide Sort;
    hide ClassesFor;
    hide PropertiesFor;
    hide RelationsFor;
    hide ParentItems;
    hide PropertyItems;
    hide RelationItems;
    var classes, parentItems := BuildClasses(n, report, s);
    var properties, propertyItems := BuildProperties(n, report, s);
    var relations, relationItems := BuildRelations(n, report, s);
    var mergeItems := AskToMerge(n, report, s.mergeClasses);
    var questions := AskQuestions(n, report, s.reviewQuestions);
    var queue := parentItems + propertyItems + relationItems + mergeItems + questions;
    o := Ontology(n.StableId("ont", report.domain, report.domain), report.domain, "0.1.0-candidate", Proposed, "",
                  Sort(classes, ByClassName()), Sort(properties, ByPropertyName()),
                      Sort(relations, ByRelationName()), queue);
  }
}
