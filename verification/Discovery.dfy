/**
 Pattern analysis of a graph: how often each type occurs, and how often each property and relation is
 used with which types. A report is specified by counting; it is computed with counter maps whose keys
 come in an arbitrary order. Examples and warnings are not part of this model.
 */
module Discovery {
  import opened Wrappers
  import opened Text
  import opened Sorting
  import opened GraphModel

  datatype ClassPattern = ClassPattern(name: string, count: nat)

  datatype PropertyPattern = PropertyPattern(name: string, domains: map<string, nat>, dataTypes: map<string, nat>,
                                             total: nat)

  datatype RelationPattern = RelationPattern(name: string, domainRange: map<string, nat>, total: nat)

  datatype Report = Report(
    domain: string, classes: seq<ClassPattern>, properties: seq<PropertyPattern>, relations: seq<RelationPattern>)

  /** The text tables and the rule that infers a data type from a value. */
  datatype Rules = Rules(u: Unicode, infer: Value -> string)

  // ---------- Counting ----------

  function Type(u: Unicode, e: Entity): string {
    if u.Blank(e.businessType) then UNCLASSIFIED else u.Trim(e.businessType)
  }

  function ClassCount(u: Unicode, es: seq<Entity>, name: string): nat {
    if es == [] then 0
    else ClassCount(u, es[..|es| - 1], name) + if Type(u, es[|es| - 1]) == name then 1 else 0
  }

  /** Whether a use of a property counts, by the entity's type, the property as written and its value. */
  type Selector = (string, string, Value) -> bool

  function Selected(u: Unicode, e: Entity, sel: Selector): set<string> {
    set p | p in e.properties && sel(Type(u, e), p, e.properties[p])
  }

  function Uses(u: Unicode, es: seq<Entity>, sel: Selector): nat {
    if es == [] then 0 else Uses(u, es[..|es| - 1], sel) + |Selected(u, es[|es| - 1], sel)|
  }

  function OfKey(r: Rules, key: string): Selector {
    (t: string, p: string, v: Value) => r.u.Trim(p) == key
  }

  function OfDomain(r: Rules, key: string, domain: string): Selector {
    (t: string, p: string, v: Value) => r.u.Trim(p) == key && t == domain
  }

  function OfDataType(r: Rules, key: string, dataType: string): Selector {
    (t: string, p: string, v: Value) => r.u.Trim(p) == key && r.infer(v) == dataType
  }

  function EntityAt(es: seq<Entity>, id: string): Option<Entity> {
    if es == [] then None
    else if es[|es| - 1].id == id then Some(es[|es| - 1]) else EntityAt(es[..|es| - 1], id)
  }

  function Pair(u: Unicode, source: Entity, target: Entity): string {
    u.Trim(source.businessType) + "\0" + u.Trim(target.businessType)
  }

  /** The label and the pair of types a relation is counted under, if its end points are known. */
  function RelationUse(u: Unicode, es: seq<Entity>, r: Relation): Option<(string, string)> {
    var source, target := EntityAt(es, r.sourceId), EntityAt(es, r.targetId);
    if source.None? || target.None? || u.Blank(r.businessType) then None
    else Some((u.Trim(r.businessType), Pair(u, source.value, target.value)))
  }

  function RelationTotal(u: Unicode, es: seq<Entity>, rs: seq<Relation>, name: string): nat {
    if rs == [] then 0
    else
      var use := RelationUse(u, es, rs[|rs| - 1]);
      RelationTotal(u, es, rs[..|rs| - 1], name) + if use.Some? && use.value.0 == name then 1 else 0
  }

  function RelationPairs(u: Unicode, es: seq<Entity>, rs: seq<Relation>, name: string, pair: string): nat {
    if rs == [] then 0
    else
      var use := RelationUse(u, es, rs[|rs| - 1]);
      RelationPairs(u, es, rs[..|rs| - 1], name, pair) + if use == Some((name, pair)) then 1 else 0
  }

  // ---------- Reports ----------

  function Count(m: map<string, nat>, key: string): nat {
    if key in m then m[key] else 0
  }

  ghost predicate Positive(m: map<string, nat>) {
    forall key :: key in m ==> m[key] > 0
  }

  ghost predicate PropertyRight(r: Rules, es: seq<Entity>, pp: PropertyPattern) {
    && pp.total == Uses(r.u, es, OfKey(r, pp.name))
    && Positive(pp.domains) && (forall d :: Count(pp.domains, d) == Uses(r.u, es, OfDomain(r, pp.name, d)))
    && Positive(pp.dataTypes) && (forall t :: Count(pp.dataTypes, t) == Uses(r.u, es, OfDataType(r, pp.name, t)))
  }

  ghost predicate RelationRight(u: Unicode, es: seq<Entity>, rs: seq<Relation>, rp: RelationPattern) {
    && rp.total == RelationTotal(u, es, rs, rp.name)
    && Positive(rp.domainRange)
    && (forall pair :: Count(rp.domainRange, pair) == RelationPairs(u, es, rs, rp.name, pair))
  }

  ghost predicate Increasing(names: seq<string>) {
    forall i, j :: 0 <= i < j < |names| ==> Before(names[i], names[j])
  }

  function ClassNames(classes: seq<ClassPattern>): seq<string> {
    seq(|classes|, i requires 0 <= i < |classes| => classes[i].name)
  }

  function PropertyNames(properties: seq<PropertyPattern>): seq<string> {
    seq(|properties|, i requires 0 <= i < |properties| => properties[i].name)
  }

  function RelationNames(relations: seq<RelationPattern>): seq<string> {
    seq(|relations|, i requires 0 <= i < |relations| => relations[i].name)
  }

  /**
   What a report on a graph is: every type, property and relation in use, by label, with its exact counts.
   Exactly one report meets this, so the order in which counters are visited cannot matter.
   */
  ghost predicate IsReport(r: Rules, g: Snapshot, report: Report) {
    && report.domain == g.domain
    && Increasing(ClassNames(report.classes))
    && (forall name :: name in ClassNames(report.classes) <==> ClassCount(r.u, g.entities, name) > 0)
    && (forall i :: 0 <= i < |report.classes| ==>
          report.classes[i].count == ClassCount(r.u, g.entities, report.classes[i].name))
    && Increasing(PropertyNames(report.properties))
    && (forall key :: key in PropertyNames(report.properties) <==>
                        key != "" && Uses(r.u, g.entities, OfKey(r, key)) > 0)
    && (forall i :: 0 <= i < |report.properties| ==> PropertyRight(r, g.entities, report.properties[i]))
    && Increasing(RelationNames(report.relations))
    && (forall name :: name in RelationNames(report.relations) <==>
                         RelationTotal(r.u, g.entities, g.relations, name) > 0)
    && (forall i :: 0 <= i < |report.relations| ==> RelationRight(r.u, g.entities, g.relations, report.relations[i]))
  }

  lemma {:induction false} IncreasingIsUnique(a: seq<string>, b: seq<string>)
    requires Increasing(a) && Increasing(b) && forall x :: x in a <==> x in b
    ensures a == b
  {
    IncreasingIsSorted(a);
    IncreasingIsSorted(b);
    SortedListingIsUnique(a, b);
  }

  lemma IncreasingIsSorted(a: seq<string>)
    requires Increasing(a)
    ensures Sorted(a, StringOrder()) && NoRepeats(a)
  {
    forall i, j | 0 <= i < j < |a|
      ensures !StringOrder()(a[j], a[i]) && a[i] != a[j]
    {
      assert Before(a[i], a[j]);
      BeforeIsStrictWeak(a[i], a[j], a[i]);
    }
  }

  lemma SortedIsIncreasing(a: seq<string>)
    requires Sorted(a, StringOrder()) && NoRepeats(a)
    ensures Increasing(a)
  {
    forall i, j | 0 <= i < j < |a|
      ensures Before(a[i], a[j])
    {
      assert !StringOrder()(a[j], a[i]);
      BeforeTotal(a[i], a[j]);
    }
  }

  lemma SameCounts(a: map<string, nat>, b: map<string, nat>)
    requires Positive(a) && Positive(b) && forall key :: Count(a, key) == Count(b, key)
    ensures a == b
  {
    forall key
      ensures key in a <==> key in b
      ensures key in a ==> a[key] == b[key]
    {
      assert Count(a, key) == Count(b, key);
    }
  }

  lemma SamePropertyPattern(r: Rules, es: seq<Entity>, a: PropertyPattern, b: PropertyPattern)
    requires PropertyRight(r, es, a) && PropertyRight(r, es, b) && a.name == b.name
    ensures a == b
  {
    hide Uses;
    SameCounts(a.domains, b.domains);
    SameCounts(a.dataTypes, b.dataTypes);
  }

  lemma SameRelationPattern(u: Unicode, es: seq<Entity>, rs: seq<Relation>, a: RelationPattern, b: RelationPattern)
    requires RelationRight(u, es, rs, a) && RelationRight(u, es, rs, b) && a.name == b.name
    ensures a == b
  {
    hide RelationPairs;
    SameCounts(a.domainRange, b.domainRange);
  }

  /** The graph determines its report. */
  lemma ReportIsUnique(r: Rules, g: Snapshot, a: Report, b: Report)
    requires IsReport(r, g, a) && IsReport(r, g, b)
    ensures a == b
  {
    hide Uses;
    hide ClassCount;
    hide RelationTotal;
    hide PropertyRight;
    hide RelationRight;
    hide Increasing;
    IncreasingIsUnique(ClassNames(a.classes), ClassNames(b.classes));
    IncreasingIsUnique(PropertyNames(a.properties), PropertyNames(b.properties));
    IncreasingIsUnique(RelationNames(a.relations), RelationNames(b.relations));
    assert a.classes == b.classes by {
      forall i | 0 <= i < |a.classes|
        ensures a.classes[i] == b.classes[i]
      {
        assert ClassNames(a.classes)[i] == ClassNames(b.classes)[i];
      }
      assert |ClassNames(a.classes)| == |ClassNames(b.classes)|;
    }
    assert a.properties == b.properties by {
      forall i | 0 <= i < |a.properties|
        ensures a.properties[i] == b.properties[i]
      {
        assert PropertyNames(a.properties)[i] == PropertyNames(b.properties)[i];
        SamePropertyPattern(r, g.entities, a.properties[i], b.properties[i]);
      }
      assert |PropertyNames(a.properties)| == |PropertyNames(b.properties)|;
    }
    assert a.relations == b.relations by {
      forall i | 0 <= i < |a.relations|
        ensures a.relations[i] == b.relations[i]
      {
        assert RelationNames(a.relations)[i] == RelationNames(b.relations)[i];
        SameRelationPattern(r.u, g.entities, g.relations, a.relations[i], b.relations[i]);
      }
      assert |RelationNames(a.relations)| == |RelationNames(b.relations)|;
    }
  }

  // ---------- Counter maps ----------

  function Inc(m: map<string, nat>, key: string): map<string, nat> {
    m[key := Count(m, key) + 1]
  }

  lemma IncCounts(m: map<string, nat>, key: string)
    ensures forall k :: Count(Inc(m, key), k) == Count(m, k) + if k == key then 1 else 0
    ensures Positive(m) ==> Positive(Inc(m, key))
  {
  }

  function Bumped(pp: PropertyPattern, domain: string, dataType: string): PropertyPattern {
    PropertyPattern(pp.name, Inc(pp.domains, domain), Inc(pp.dataTypes, dataType), pp.total + 1)
  }

  /** The counters of the properties agree with the uses. */
  ghost predicate Tallied(r: Rules, es: seq<Entity>, patterns: map<string, PropertyPattern>) {
    && (forall key :: key in patterns <==> key != "" && Uses(r.u, es, OfKey(r, key)) > 0)
    && (forall key :: key in patterns ==> patterns[key].name == key && PropertyRight(r, es, patterns[key]))
  }

  /** The entity with the properties visited so far. */
  function Visited(e: Entity, done: set<string>): Entity {
    e.(properties := map p | p in e.properties && p in done :: e.properties[p])
  }

  lemma OneMoreUse(u: Unicode, es: seq<Entity>, e: Entity, done: set<string>, p: string, sel: Selector)
    requires p in e.properties && p !in done
    ensures Uses(u, es + [Visited(e, done + {p})], sel)
         == Uses(u, es + [Visited(e, done)], sel) + if sel(Type(u, e), p, e.properties[p]) then 1 else 0
  {
    var before, after := Visited(e, done), Visited(e, done + {p});
    assert (es + [before])[..|es|] == es && (es + [after])[..|es|] == es;
    assert Type(u, before) == Type(u, e) && Type(u, after) == Type(u, e);
    if sel(Type(u, e), p, e.properties[p]) {
      assert Selected(u, after, sel) == Selected(u, before, sel) + {p};
      assert p !in Selected(u, before, sel);
    } else {
      assert Selected(u, after, sel) == Selected(u, before, sel);
    }
  }

  lemma {:induction false} NoUses(r: Rules, es: seq<Entity>, key: string)
    requires Uses(r.u, es, OfKey(r, key)) == 0
    ensures forall d :: Uses(r.u, es, OfDomain(r, key, d)) == 0
    ensures forall t :: Uses(r.u, es, OfDataType(r, key, t)) == 0
  {
    if es != [] {
      NoUses(r, es[..|es| - 1], key);
      var e := es[|es| - 1];
      forall d
        ensures Selected(r.u, e, OfDomain(r, key, d)) == {}
      {
        assert Selected(r.u, e, OfDomain(r, key, d)) <= Selected(r.u, e, OfKey(r, key));
      }
      forall t
        ensures Selected(r.u, e, OfDataType(r, key, t)) == {}
      {
        assert Selected(r.u, e, OfDataType(r, key, t)) <= Selected(r.u, e, OfKey(r, key));
      }
    }
  }

  function PatternAt(patterns: map<string, PropertyPattern>, key: string): PropertyPattern {
    if key in patterns then patterns[key] else PropertyPattern(key, map[], map[], 0)
  }

  lemma PatternIsRight(r: Rules, es: seq<Entity>, patterns: map<string, PropertyPattern>, key: string)
    requires Tallied(r, es, patterns) && key != ""
    ensures PatternAt(patterns, key).name == key && PropertyRight(r, es, PatternAt(patterns, key))
  {
    hide Uses;
    if key !in patterns {
      NoUses(r, es, key);
    }
  }

  /** One more use changes the counters of its property and no others. */
  lemma UseIsTallied(r: Rules, es: seq<Entity>, e: Entity, done: set<string>, p: string, patterns: map<string,
                     PropertyPattern>)
    requires p in e.properties && p !in done && Tallied(r, es + [Visited(e, done)], patterns)
    ensures var key := r.u.Trim(p);
            var pp := Bumped(PatternAt(patterns, key), Type(r.u, e), r.infer(e.properties[p]));
            Tallied(r, es + [Visited(e, done + {p})], if key == "" then patterns else patterns[key := pp])
  {
    hide Uses;
    hide Type;
    hide PropertyRight;
    hide Visited;
    var key := r.u.Trim(p);
    var before, after := es + [Visited(e, done)], es + [Visited(e, done + {p})];
    if key != "" {
      PatternIsRight(r, before, patterns, key);
      BumpedIsRight(r, es, e, done, p, PatternAt(patterns, key));
    }
    forall other
      ensures Uses(r.u, after, OfKey(r, other)) == Uses(r.u, before, OfKey(r, other)) + if other == key then 1 else 0
    {
      OneMoreUse(r.u, es, e, done, p, OfKey(r, other));
    }
    forall other | other in patterns && other != key
      ensures PropertyRight(r, after, patterns[other])
    {
      OtherPatternStaysRight(r, es, e, done, p, patterns[other]);
    }
  }

  lemma BumpedIsRight(r: Rules, es: seq<Entity>, e: Entity, done: set<string>, p: string, pp: PropertyPattern)
    requires p in e.properties && p !in done && pp.name == r.u.Trim(p) && PropertyRight(r, es + [Visited(e, done)], pp)
    ensures PropertyRight(r, es + [Visited(e, done + {p})], Bumped(pp, Type(r.u, e), r.infer(e.properties[p])))
  {
    hide Uses;
    hide Type;
    hide Visited;
    var domain, dataType := Type(r.u, e), r.infer(e.properties[p]);
    IncCounts(pp.domains, domain);
    IncCounts(pp.dataTypes, dataType);
    OneMoreUse(r.u, es, e, done, p, OfKey(r, pp.name));
    forall d
      ensures Count(Inc(pp.domains, domain), d) == Uses(r.u, es + [Visited(e, done + {p})], OfDomain(r, pp.name, d))
    {
      OneMoreUse(r.u, es, e, done, p, OfDomain(r, pp.name, d));
    }
    forall t
      ensures Count(Inc(pp.dataTypes, dataType), t)
           == Uses(r.u, es + [Visited(e, done + {p})], OfDataType(r, pp.name, t))
    {
      OneMoreUse(r.u, es, e, done, p, OfDataType(r, pp.name, t));
    }
  }

  lemma OtherPatternStaysRight(r: Rules, es: seq<Entity>, e: Entity, done: set<string>, p: string, pp: PropertyPattern)
    requires p in e.properties && p !in done && pp.name != r.u.Trim(p) && PropertyRight(r, es + [Visited(e, done)], pp)
    ensures PropertyRight(r, es + [Visited(e, done + {p})], pp)
  {
    hide Uses;
    hide Type;
    hide Visited;
    OneMoreUse(r.u, es, e, done, p, OfKey(r, pp.name));
    forall d
      ensures Count(pp.domains, d) == Uses(r.u, es + [Visited(e, done + {p})], OfDomain(r, pp.name, d))
    {
      OneMoreUse(r.u, es, e, done, p, OfDomain(r, pp.name, d));
    }
    forall t
      ensures Count(pp.dataTypes, t) == Uses(r.u, es + [Visited(e, done + {p})], OfDataType(r, pp.name, t))
    {
      OneMoreUse(r.u, es, e, done, p, OfDataType(r, pp.name, t));
    }
  }

  lemma NothingVisited(r: Rules, es: seq<Entity>, e: Entity, patterns: map<string, PropertyPattern>)
    requires Tallied(r, es, patterns)
    ensures Tallied(r, es + [Visited(e, {})], patterns)
  {
    forall sel: Selector
      ensures Uses(r.u, es + [Visited(e, {})], sel) == Uses(r.u, es, sel)
    {
      assert (es + [Visited(e, {})])[..|es|] == es;
      assert Selected(r.u, Visited(e, {}), sel) == {};
    }
    hide Uses;
    hide Visited;
    hide OfKey;
    hide OfDomain;
    hide OfDataType;
  }

  // ---------- Analysis as the source runs it ----------

  method CountProperties(r: Rules, ghost es: seq<Entity>, e: Entity, patterns: map<string, PropertyPattern>)
    returns (out: map<string, PropertyPattern>)
    requires Tallied(r, es, patterns)
    ensures Tallied(r, es + [e], out)
  {
    hide Tallied;
    hide PatternAt;
    hide Type;
    out := patterns;
    var domain := Type(r.u, e);
    var todo := e.properties.Keys;
    NothingVisited(r, es, e, patterns);
    assert e.properties.Keys - todo == {};
    while todo != {}
      invariant todo <= e.properties.Keys
      invariant Tallied(r, es + [Visited(e, e.properties.Keys - todo)], out)
      decreases |todo|
    {
      var p :| p in todo;
      UseIsTallied(r, es, e, e.properties.Keys - todo, p, out);
      assert e.properties.Keys - (todo - {p}) == e.properties.Keys - todo + {p};
      todo := todo - {p};
      var key := r.u.Trim(p);
      if key == "" {
        continue;
      }
      out := out[key := Bumped(PatternAt(out, key), domain, r.infer(e.properties[p]))];
    }
    assert e.properties.Keys - todo == e.properties.Keys;
    assert Visited(e, e.properties.Keys) == e;
  }

  method CountEntities(r: Rules, es: seq<Entity>)
    returns (classCounts: map<string, nat>, patterns: map<string, PropertyPattern>, entityById: map<string, Entity>)
    ensures Positive(classCounts) && forall name :: Count(classCounts, name) == ClassCount(r.u, es, name)
    ensures Tallied(r, es, patterns)
    ensures forall id :: (if id in entityById then Some(entityById[id]) else None) == EntityAt(es, id)
  {
    hide Type;
    classCounts, patterns, entityById := map[], map[], map[];
    assert Tallied(r, es[..0], patterns);
    hide Tallied;
    for n := 0 to |es|
      invariant Positive(classCounts) && forall name :: Count(classCounts, name) == ClassCount(r.u, es[..n], name)
      invariant Tallied(r, es[..n], patterns)
      invariant forall id :: (if id in entityById then Some(entityById[id]) else None) == EntityAt(es[..n], id)
    {
      assert es[..n + 1][..n] == es[..n] && es[..n + 1] == es[..n] + [es[n]];
      var e := es[n];
      entityById := entityById[e.id := e];
      IncCounts(classCounts, Type(r.u, e));
      classCounts := Inc(classCounts, Type(r.u, e));
      patterns := CountProperties(r, es[..n], e, patterns);
    }
    assert es[..|es|] == es;
  }

  /** The counters of the relations agree with the uses. */
  ghost predicate RelationsTallied(u: Unicode, es: seq<Entity>, rs: seq<Relation>, patterns: map<string,
                                   RelationPattern>) {
    && (forall name :: name in patterns <==> RelationTotal(u, es, rs, name) > 0)
    && (forall name :: name in patterns ==> patterns[name].name == name && RelationRight(u, es, rs, patterns[name]))
  }

  lemma {:induction false} NoPairs(u: Unicode, es: seq<Entity>, rs: seq<Relation>, name: string)
    requires RelationTotal(u, es, rs, name) == 0
    ensures forall pair :: RelationPairs(u, es, rs, name, pair) == 0
  {
    hide RelationUse;
    if rs != [] {
      NoPairs(u, es, rs[..|rs| - 1], name);
    }
  }

  function RelationPatternAt(patterns: map<string, RelationPattern>, name: string): RelationPattern {
    if name in patterns then patterns[name] else RelationPattern(name, map[], 0)
  }

  lemma RelationIsTallied(u: Unicode, es: seq<Entity>, rs: seq<Relation>, x: Relation, patterns: map<string,
                          RelationPattern>)
    requires RelationsTallied(u, es, rs, patterns)
    ensures var use := RelationUse(u, es, x);
            if use.None? then RelationsTallied(u, es, rs + [x], patterns)
            else
              var rp := RelationPatternAt(patterns, use.value.0);
              RelationsTallied(u, es, rs + [x], patterns[use.value.0 := RelationPattern(rp.name,
                    Inc(rp.domainRange, use.value.1), rp.total + 1)])
  {
    hide RelationUse;
    hide RelationRight;
    var use := RelationUse(u, es, x);
    assert (rs + [x])[..|rs|] == rs;
    forall name | name in patterns && (use.None? || name != use.value.0)
      ensures RelationRight(u, es, rs + [x], patterns[name])
    {
      OtherRelationStaysRight(u, es, rs, x, patterns[name]);
    }
    if use.Some? {
      RelationPatternIsRight(u, es, rs, patterns, use.value.0);
      BumpedRelationIsRight(u, es, rs, x, RelationPatternAt(patterns, use.value.0));
    }
  }

  lemma RelationPatternIsRight(u: Unicode, es: seq<Entity>, rs: seq<Relation>, patterns: map<string,
                               RelationPattern>, name: string)
    requires RelationsTallied(u, es, rs, patterns)
    ensures var rp := RelationPatternAt(patterns, name);
            rp.name == name && RelationRight(u, es, rs, rp)
  {
    hide RelationUse;
    if name !in patterns {
      NoPairs(u, es, rs, name);
    }
  }

  lemma BumpedRelationIsRight(u: Unicode, es: seq<Entity>, rs: seq<Relation>, x: Relation, rp: RelationPattern)
    requires RelationUse(u, es, x).Some? && RelationUse(u, es, x).value.0 == rp.name && RelationRight(u, es, rs, rp)
    ensures RelationRight(u, es, rs + [x],
                          RelationPattern(rp.name, Inc(rp.domainRange, RelationUse(u, es, x).value.1), rp.total + 1))
  {
    hide RelationUse;
    assert (rs + [x])[..|rs|] == rs;
    IncCounts(rp.domainRange, RelationUse(u, es, x).value.1);
  }

  lemma OtherRelationStaysRight(u: Unicode, es: seq<Entity>, rs: seq<Relation>, x: Relation, rp: RelationPattern)
    requires RelationUse(u, es, x).Some? ==> RelationUse(u, es, x).value.0 != rp.name
    requires RelationRight(u, es, rs, rp)
    ensures RelationRight(u, es, rs + [x], rp)
  {
    hide RelationUse;
    assert (rs + [x])[..|rs|] == rs;
  }

  method CountRelations(u: Unicode, es: seq<Entity>, rs: seq<Relation>, entityById: map<string, Entity>)
    returns (patterns: map<string, RelationPattern>)
    requires forall id :: (if id in entityById then Some(entityById[id]) else None) == EntityAt(es, id)
    ensures RelationsTallied(u, es, rs, patterns)
  {
    patterns := map[];
    assert RelationsTallied(u, es, rs[..0], patterns);
    hide RelationsTallied;
    hide EntityAt;
    for n := 0 to |rs|
      invariant RelationsTallied(u, es, rs[..n], patterns)
    {
      assert rs[..n + 1] == rs[..n] + [rs[n]];
      RelationIsTallied(u, es, rs[..n], rs[n], patterns);
      assert (if rs[n].sourceId in entityById then Some(entityById[rs[n].sourceId]) else None)
          == EntityAt(es, rs[n].sourceId);
      assert (if rs[n].targetId in entityById then Some(entityById[rs[n].targetId]) else None)
          == EntityAt(es, rs[n].targetId);
      if rs[n].sourceId !in entityById || rs[n].targetId !in entityById {
        continue;
      }
      var name := u.Trim(rs[n].businessType);
      if name == "" {
        continue;
      }
      var rp := RelationPatternAt(patterns, name);
      var pair := Pair(u, entityById[rs[n].sourceId], entityById[rs[n].targetId]);
      patterns := patterns[name := RelationPattern(rp.name, Inc(rp.domainRange, pair), rp.total + 1)];
    }
    assert rs[..|rs|] == rs;
  }

  method Analyze(r: Rules, g: Snapshot) returns (report: Report)
    ensures IsReport(r, g, report)
  {
    var classCounts, patterns, entityById := CountEntities(r, g.entities);
    var relationPatterns := CountRelations(r.u, g.entities, g.relations, entityById);
    var classes := ListClasses(r, g.entities, classCounts);
    var properties := ListProperties(r, g.entities, patterns);
    var relations := ListRelations(r.u, g.entities, g.relations, relationPatterns);
    report := Report(g.domain, classes, properties, relations);
  }

  method ListClasses(r: Rules, ghost es: seq<Entity>, classCounts: map<string, nat>)
    returns (classes: seq<ClassPattern>)
    requires Positive(classCounts) && forall name :: Count(classCounts, name) == ClassCount(r.u, es, name)
    ensures Increasing(ClassNames(classes))
    ensures forall name :: name in ClassNames(classes) <==> ClassCount(r.u, es, name) > 0
    ensures forall i :: 0 <= i < |classes| ==> classes[i].count == ClassCount(r.u, es, classes[i].name)
  {
    hide ClassCount;
    var names := SortedKeys(classCounts.Keys);
    SortedIsIncreasing(names);
    classes := [];
    for n := 0 to |names|
      invariant |classes| == n
      invariant forall i :: 0 <= i < n ==>
                  classes[i].name == names[i] && classes[i].count == Count(classCounts, names[i])
    {
      assert names[n] in names;
      classes := classes + [ClassPattern(names[n], classCounts[names[n]])];
    }
    assert ClassNames(classes) == names;
    forall name
      ensures name in names <==> ClassCount(r.u, es, name) > 0
    {
      assert Count(classCounts, name) == ClassCount(r.u, es, name);
    }
  }

  method ListProperties(r: Rules, ghost es: seq<Entity>, patterns: map<string, PropertyPattern>)
    returns (properties: seq<PropertyPattern>)
    requires Tallied(r, es, patterns)
    ensures Increasing(PropertyNames(properties))
    ensures forall key :: key in PropertyNames(properties) <==> key != "" && Uses(r.u, es, OfKey(r, key)) > 0
    ensures forall i :: 0 <= i < |properties| ==> PropertyRight(r, es, properties[i])
  {
    hide Uses;
    hide PropertyRight;
    var names := SortedKeys(patterns.Keys);
    SortedIsIncreasing(names);
    properties := [];
    for n := 0 to |names|
      invariant |properties| == n
      invariant forall i :: 0 <= i < n ==> properties[i].name == names[i] && PropertyRight(r, es, properties[i])
    {
      assert names[n] in names;
      properties := properties + [patterns[names[n]]];
    }
    assert PropertyNames(properties) == names;
  }

  method ListRelations(u: Unicode, ghost es: seq<Entity>, ghost rs: seq<Relation>,
                       patterns: map<string, RelationPattern>)
    returns (relations: seq<RelationPattern>)
    requires RelationsTallied(u, es, rs, patterns)
    ensures Increasing(RelationNames(relations))
    ensures forall name :: name in RelationNames(relations) <==> RelationTotal(u, es, rs, name) > 0
    ensures forall i :: 0 <= i < |relations| ==> RelationRight(u, es, rs, relations[i])
  {
    hide RelationRight;
    hide RelationTotal;
    var names := SortedKeys(patterns.Keys);
    SortedIsIncreasing(names);
    relations := [];
    for n := 0 to |names|
      invariant |relations| == n
      invariant forall i :: 0 <= i < n ==> relations[i].name == names[i] && RelationRight(u, es, rs, relations[i])
    {
      assert names[n] in names;
      relations := relations + [patterns[names[n]]];
    }
    assert RelationNames(relations) == names;
  }
}
