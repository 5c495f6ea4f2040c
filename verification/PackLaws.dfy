/**
 What a context pack holds, in terms of the results of the steps and the verdicts: which facts and documents
 it carries, which documents a limit leaves out, what evidence it lists, and how its steps are reported.
 */
module PackLaws {
  import opened Wrappers
  import opened Text
  import opened Sorting
  import opened GraphModel
  import opened Arbiter
  import opened RetrievalModel
  import opened Assembler
  import FanOut
  import opened ContextTheorems

  // ---------- Documents ----------

  /** The documents of all results, in order. */
  function Documents(results: seq<StepResult>): seq<Knowledge> {
    if results == [] then [] else Documents(results[..|results| - 1]) + results[|results| - 1].knowledge
  }

  /** One id, or one content for want of an id. */
  function Title(k: Knowledge): string {
    if k.id != "" then k.id else k.content
  }

  /** The document came before any other of its title. */
  ghost predicate CameFirst(all: seq<Knowledge>, k: Knowledge) {
    exists i :: 0 <= i < |all| && all[i] == k && forall j :: 0 <= j < i ==> Title(all[j]) != Title(k)
  }

  /** The documents that came first, and no title twice. */
  ghost predicate FirstOfTitles(all: seq<Knowledge>, kept: seq<Knowledge>) {
    && (forall k :: k in kept <==> CameFirst(all, k))
    && (forall i, j :: 0 <= i < j < |kept| ==> Title(kept[i]) != Title(kept[j]))
  }

  lemma {:induction false} TitleCame(all: seq<Knowledge>, k: Knowledge) returns (first: Knowledge)
    requires k in all
    ensures CameFirst(all, first) && Title(first) == Title(k)
  {
    hide Title;
    var init, last := all[..|all| - 1], all[|all| - 1];
    assert all == init + [last];
    if x :| x in init && Title(x) == Title(k) {
      first := TitleCame(init, x);
      var i :| 0 <= i < |init| && init[i] == first && forall j :: 0 <= j < i ==> Title(init[j]) != Title(first);
      assert all[i] == first && forall j :: 0 <= j < i ==> all[j] == init[j];
    } else {
      first := last;
      assert forall j :: 0 <= j < |init| ==> all[j] == init[j] && init[j] in init;
      assert all[|init|] == first;
    }
  }

  lemma CameFirstExtend(all: seq<Knowledge>, last: Knowledge, k: Knowledge)
    ensures CameFirst(all + [last], k) <==>
              CameFirst(all, k) || (k == last && forall x :: x in all ==> Title(x) != Title(last))
  {
    hide Title;
    var more := all + [last];
    assert more[|all|] == last && forall j :: 0 <= j < |all| ==> more[j] == all[j] && all[j] in all;
    if CameFirst(all, k) {
      var i :| 0 <= i < |all| && all[i] == k && forall j :: 0 <= j < i ==> Title(all[j]) != Title(k);
      assert more[i] == k;
    }
    if CameFirst(more, k) {
      var i :| 0 <= i < |more| && more[i] == k && forall j :: 0 <= j < i ==> Title(more[j]) != Title(k);
      if i < |all| {
        assert all[i] == k;
      }
    }
  }

  lemma OneMoreDocument(all: seq<Knowledge>, g: Gathered, last: Knowledge)
    requires FirstOfTitles(all, g.knowledge)
    ensures FirstOfTitles(all + [last], WithKnowledge(g, [last]).knowledge)
  {
    hide Title;
    hide CameFirst;
    hide WithEvidence;
    assert [last][..0] == [] && WithKnowledge(g, []) == g;
    var kept := g.knowledge;
    forall k
      ensures CameFirst(all + [last], k) <==>
                CameFirst(all, k) || (k == last && forall x :: x in all ==> Title(x) != Title(last))
    {
      CameFirstExtend(all, last, k);
    }
    TitleIsKey(last);
    forall x | x in kept
      ensures KnowledgeKey(x) == Title(x) && x in all
    {
      TitleIsKey(x);
      CameFromAll(all, x);
    }
    if KnowledgeKey(last) in KnowledgeKeys(kept) {
      var x :| x in kept && KnowledgeKey(x) == KnowledgeKey(last);
      assert x in all && Title(x) == Title(last);
    } else {
      forall x | x in all
        ensures Title(x) != Title(last)
      {
        var first := TitleCame(all, x);
        assert first in kept && KnowledgeKey(first) == Title(x);
      }
      var more := kept + [last];
      forall i | 0 <= i < |kept|
        ensures Title(more[i]) != Title(last)
      {
        assert more[i] in kept;
      }
    }
  }

  lemma TitleIsKey(k: Knowledge)
    ensures KnowledgeKey(k) == Title(k)
  {
  }

  lemma CameFromAll(all: seq<Knowledge>, k: Knowledge)
    requires CameFirst(all, k)
    ensures k in all
  {
  }

  lemma {:induction false} MoreDocuments(all: seq<Knowledge>, g: Gathered, items: seq<Knowledge>)
    requires FirstOfTitles(all, g.knowledge)
    ensures FirstOfTitles(all + items, WithKnowledge(g, items).knowledge)
  {
    hide FirstOfTitles;
    if items == [] {
      assert all + items == all;
    } else {
      var init, last := items[..|items| - 1], items[|items| - 1];
      MoreDocuments(all, g, init);
      OneMoreDocument(all + init, WithKnowledge(g, init), last);
      assert all + items == all + init + [last];
      assert [last][..0] == [] && WithKnowledge(WithKnowledge(g, init), []) == WithKnowledge(g, init);
      assert WithKnowledge(g, items) == WithKnowledge(WithKnowledge(g, init), [last]);
    }
  }

  lemma {:induction false} GatheredDocuments(start: Gathered, results: seq<StepResult>)
    requires start.knowledge == []
    ensures FirstOfTitles(Documents(results), GatheredFrom(start, results).knowledge)
  {
    hide FirstOfTitles;
    if results == [] {
      NoDocuments();
    } else {
      hide WithKnowledge;
      hide WithPaths;
      var init, r := results[..|results| - 1], results[|results| - 1];
      GatheredDocuments(start, init);
      MoreDocuments(Documents(init), GatheredFrom(start, init), r.knowledge);
      PathsExist(WithKnowledge(GatheredFrom(start, init), r.knowledge), r.paths);
    }
  }

  lemma NoDocuments()
    ensures FirstOfTitles([], [])
  {
  }

  /** The best documents first, no title twice, and none left out unless that many others score as high. */
  ghost predicate BestOf(limit: int, all: seq<Knowledge>, kept: seq<Knowledge>) {
    && (forall k :: k in kept ==> CameFirst(all, k))
    && (forall i, j :: 0 <= i < j < |kept| ==> Title(kept[i]) != Title(kept[j]) && kept[i].score >= kept[j].score)
    && (limit > 0 ==> |kept| <= limit)
    && (forall k :: CameFirst(all, k) && k !in kept ==>
          limit > 0 && |kept| == limit && forall x :: x in kept ==> x.score >= k.score)
  }

  /** A pack carries the first document of each title, or as many of them as the limit allows, the best ones first. */
  lemma KnowledgeInPack(limit: int, plan: Plan, results: seq<StepResult>, arbitration: seq<Verdict>)
    ensures BestOf(limit, Documents(results), Assembled(limit, plan, results, arbitration).knowledge)
  {
    hide GatheredFrom;
    hide Blocking;
    hide CameFirst;
    hide Title;
    hide Sort;
    var g := GatheredFrom(Gathered([], [], EvidenceOfFacts(FactsOf(arbitration))), results);
    GatheredDocuments(Gathered([], [], EvidenceOfFacts(FactsOf(arbitration))), results);
    BestAreKept(limit, Documents(results), g.knowledge);
  }

  lemma RankedDocuments(all: seq<Knowledge>, found: seq<Knowledge>)
    requires FirstOfTitles(all, found)
    ensures var sorted := Sort(found, KnowledgeOrder());
            && (forall k :: k in sorted <==> CameFirst(all, k))
            && (forall i, j :: 0 <= i < j < |sorted| ==>
                  Title(sorted[i]) != Title(sorted[j]) && sorted[i].score >= sorted[j].score)
  {
    hide CameFirst;
    hide Title;
    hide Sort;
    var sorted := Sort(found, KnowledgeOrder());
    SortSorted(found, KnowledgeOrder());
    SortMultiset(found, KnowledgeOrder());
    SortMembers(found, KnowledgeOrder());
    forall i, j | 0 <= i < j < |sorted|
      ensures sorted[i].score >= sorted[j].score && Title(sorted[i]) != Title(sorted[j])
    {
      assert !KnowledgeOrder()(sorted[j], sorted[i]);
      var a, b := PermutedPlaces(found, sorted, i, j);
      assert a < b || b < a;
    }
  }

  lemma BestAreKept(limit: int, all: seq<Knowledge>, found: seq<Knowledge>)
    requires FirstOfTitles(all, found)
    ensures BestOf(limit, all, Truncated(limit, Sort(found, KnowledgeOrder())))
  {
    RankedDocuments(all, found);
    hide FirstOfTitles;
    hide CameFirst;
    hide Title;
    var sorted := Sort(found, KnowledgeOrder());
    hide Sort;
    var kept := Truncated(limit, sorted);
    assert forall i :: 0 <= i < |kept| ==> kept[i] == sorted[i];
    forall k | CameFirst(all, k) && k !in kept
      ensures limit > 0 && |kept| == limit && forall x :: x in kept ==> x.score >= k.score
    {
      var n :| 0 <= n < |sorted| && sorted[n] == k;
      LeftOut(sorted, kept, n);
      forall x | x in kept
        ensures x.score >= k.score
      {
        var i :| 0 <= i < |kept| && kept[i] == x;
        assert sorted[i] == x;
      }
    }
  }

  lemma LeftOut(sorted: seq<Knowledge>, kept: seq<Knowledge>, n: nat)
    requires kept <= sorted && n < |sorted| && sorted[n] !in kept
    ensures n >= |kept|
  {
    assert forall m :: 0 <= m < |kept| ==> kept[m] == sorted[m] && kept[m] in kept;
  }

  // ---------- Facts, conflicts, paths and statuses ----------

  lemma {:induction false} FactMembers(arbitration: seq<Verdict>, x: Assertion)
    ensures x in FactsOf(arbitration) <==> exists v :: v in arbitration && v.accepted == Some(x)
  {
    if arbitration != [] {
      var init, last := arbitration[..|arbitration| - 1], arbitration[|arbitration| - 1];
      assert arbitration == init + [last] && last in arbitration;
      FactMembers(init, x);
    }
  }

  lemma {:induction false} UnresolvedMembers(arbitration: seq<Verdict>, v: Verdict)
    ensures v in Unresolved(arbitration) <==> v in arbitration && v.status == UnresolvedConflict
  {
    if arbitration != [] {
      var init, last := arbitration[..|arbitration| - 1], arbitration[|arbitration| - 1];
      assert arbitration == init + [last];
      UnresolvedMembers(init, v);
    }
  }

  /** The paths of all results, in order. */
  function Paths(results: seq<StepResult>): seq<Path> {
    if results == [] then [] else results[0].paths + Paths(results[1..])
  }

  lemma {:induction false} PathsSplit(a: seq<StepResult>, r: StepResult)
    ensures Paths(a + [r]) == Paths(a) + r.paths
  {
    if a == [] {
      assert a + [r] == [r] && [r][1..] == [];
    } else {
      assert (a + [r])[1..] == a[1..] + [r];
      PathsSplit(a[1..], r);
    }
  }

  lemma {:induction false} WithPathsAdds(g: Gathered, items: seq<Path>)
    ensures WithPaths(g, items).paths == g.paths + items
  {
    if items != [] {
      WithPathsAdds(g, items[..|items| - 1]);
      assert items == items[..|items| - 1] + [items[|items| - 1]];
    }
  }

  lemma {:induction false} GatheredPaths(start: Gathered, results: seq<StepResult>)
    ensures GatheredFrom(start, results).paths == start.paths + Paths(results)
  {
    if results != [] {
      hide WithKnowledge;
      hide WithPaths;
      var init, r := results[..|results| - 1], results[|results| - 1];
      assert results == init + [r];
      GatheredPaths(start, init);
      PathsSplit(init, r);
      var before := GatheredFrom(start, init);
      KnowledgeExists(before, r.knowledge);
      WithPathsAdds(WithKnowledge(before, r.knowledge), r.paths);
    }
  }

  /** The status is that of one of the results. */
  ghost predicate Reports(results: seq<StepResult>, s: SourceStatus) {
    exists r :: r in results && s == SourceStatus(r.stepId, r.source, r.required, r.satisfied, r.gaps)
  }

  /**
   Facts are the accepted assertions and conflicts the unresolved verdicts; all paths are taken over; and each
   result is reported once, by step id, with its source, whether it was required and satisfied, and its gaps.
   */
  lemma FindingsInPack(limit: int, plan: Plan, results: seq<StepResult>, arbitration: seq<Verdict>)
    ensures var pack := Assembled(limit, plan, results, arbitration);
            && pack.plan == plan && pack.arbitration == arbitration
            && (forall x :: x in pack.facts <==> exists v :: v in arbitration && v.accepted == Some(x))
            && (forall v :: v in pack.conflicts <==> v in arbitration && v.status == UnresolvedConflict)
            && pack.paths == Paths(results)
            && |pack.sourceStatus| == |results|
            && (forall s :: s in pack.sourceStatus <==> Reports(results, s))
            && (forall i, j :: 0 <= i < j < |pack.sourceStatus| ==>
                  !Before(pack.sourceStatus[j].stepId, pack.sourceStatus[i].stepId))
  {
    hide GatheredFrom;
    hide Blocking;
    hide FactsOf;
    hide Unresolved;
    hide Paths;
    hide Sort;
    forall x
      ensures x in FactsOf(arbitration) <==> exists v :: v in arbitration && v.accepted == Some(x)
    {
      FactMembers(arbitration, x);
    }
    forall v
      ensures v in Unresolved(arbitration) <==> v in arbitration && v.status == UnresolvedConflict
    {
      UnresolvedMembers(arbitration, v);
    }
    GatheredPaths(Gathered([], [], EvidenceOfFacts(FactsOf(arbitration))), results);
    StatusesInOrder(results);
  }

  lemma StatusesInOrder(results: seq<StepResult>)
    ensures var listed := Sort(Statuses(results), StatusOrder());
            && |listed| == |results|
            && (forall s :: s in listed <==> Reports(results, s))
            && (forall i, j :: 0 <= i < j < |listed| ==> !Before(listed[j].stepId, listed[i].stepId))
  {
    hide Sort;
    var all := Statuses(results);
    SortMultiset(all, StatusOrder());
    SortMembers(all, StatusOrder());
    KeyOrderIsStrictWeak((s: SourceStatus) => s.stepId, StatusOrder());
    SortSorted(all, StatusOrder());
    forall s
      ensures s in all <==> Reports(results, s)
    {
      if s in all {
        var i :| 0 <= i < |all| && all[i] == s;
        assert results[i] in results;
      }
      if r :| r in results && s == SourceStatus(r.stepId, r.source, r.required, r.satisfied, r.gaps) {
        var i :| 0 <= i < |results| && results[i] == r;
        assert all[i] == s;
      }
    }
    forall i, j | 0 <= i < j < |all|
      ensures !Before(Sort(all, StatusOrder())[j].stepId, Sort(all, StatusOrder())[i].stepId)
    {
      assert !StatusOrder()(Sort(all, StatusOrder())[j], Sort(all, StatusOrder())[i]);
    }
  }

  // ---------- Evidence ----------

  lemma {:induction false} WithEvidenceFrom(dst: seq<Evidence>, items: seq<Evidence>, e: Evidence)
    requires e in WithEvidence(dst, items)
    ensures e in dst || e in items
  {
    if items != [] && e !in WithEvidence(dst, items[..|items| - 1]) {
      assert e == items[|items| - 1];
    } else if items != [] {
      WithEvidenceFrom(dst, items[..|items| - 1], e);
    }
  }

  /** A fact, a document of the results or a path cites the evidence. */
  ghost predicate CitedBy(facts: seq<Assertion>, results: seq<StepResult>, e: Evidence) {
    || (exists x :: x in facts && e in x.evidence)
    || (exists k :: k in Documents(results) && e in k.evidence)
    || (exists p :: p in Paths(results) && e in p.evidence)
  }

  lemma {:induction false} FactsCite(facts: seq<Assertion>, e: Evidence)
    requires e in EvidenceOfFacts(facts)
    ensures exists x :: x in facts && e in x.evidence
  {
    var init, last := facts[..|facts| - 1], facts[|facts| - 1];
    assert facts == init + [last];
    WithEvidenceFrom(EvidenceOfFacts(init), last.evidence, e);
    if e in EvidenceOfFacts(init) {
      FactsCite(init, e);
    }
  }

  lemma {:induction false} KnowledgeCites(g: Gathered, items: seq<Knowledge>, e: Evidence)
    requires e in WithKnowledge(g, items).evidence
    ensures e in g.evidence || exists k :: k in items && e in k.evidence
  {
    hide KnowledgeKey;
    if items != [] {
      var init, last := items[..|items| - 1], items[|items| - 1];
      assert items == init + [last];
      if e in WithKnowledge(g, init).evidence {
        KnowledgeCites(g, init, e);
      } else {
        WithEvidenceFrom(WithKnowledge(g, init).evidence, last.evidence, e);
      }
    }
  }

  lemma {:induction false} PathsCite(g: Gathered, items: seq<Path>, e: Evidence)
    requires e in WithPaths(g, items).evidence
    ensures e in g.evidence || exists p :: p in items && e in p.evidence
  {
    if items != [] {
      var init, last := items[..|items| - 1], items[|items| - 1];
      assert items == init + [last];
      if e in WithPaths(g, init).evidence {
        PathsCite(g, init, e);
      } else {
        WithEvidenceFrom(WithPaths(g, init).evidence, last.evidence, e);
      }
    }
  }

  lemma {:induction false} GatheredCites(facts: seq<Assertion>, start: Gathered, results: seq<StepResult>, e: Evidence)
    requires start.evidence == EvidenceOfFacts(facts) && e in GatheredFrom(start, results).evidence
    ensures CitedBy(facts, results, e)
  {
    if results == [] {
      FactsCite(facts, e);
    } else {
      hide WithKnowledge;
      hide WithPaths;
      hide Paths;
      var init, r := results[..|results| - 1], results[|results| - 1];
      var before := GatheredFrom(start, init);
      assert results == init + [r];
      PathsSplit(init, r);
      if e in before.evidence {
        GatheredCites(facts, start, init, e);
      } else {
        PathsCite(WithKnowledge(before, r.knowledge), r.paths, e);
        if e in WithKnowledge(before, r.knowledge).evidence {
          KnowledgeCites(before, r.knowledge, e);
        }
      }
    }
  }

  /** A pack lists no evidence that nothing cites. */
  lemma EvidenceInPack(limit: int, plan: Plan, results: seq<StepResult>, arbitration: seq<Verdict>, e: Evidence)
    requires e in Assembled(limit, plan, results, arbitration).evidence
    ensures CitedBy(Assembled(limit, plan, results, arbitration).facts, results, e)
  {
    hide GatheredFrom;
    hide Blocking;
    hide CitedBy;
    GatheredCites(FactsOf(arbitration), Gathered([], [], EvidenceOfFacts(FactsOf(arbitration))), results, e);
  }

  /** Evidence with an id is told apart by it, and evidence without one by its source, document and chunk. */
  lemma EvidenceKeysAgree(a: Evidence, b: Evidence)
    ensures a.id != "" && b.id != "" ==> (EvidenceKey(a) == EvidenceKey(b) <==> a.id == b.id)
    ensures a.id == "" && b.id == "" && '\0' !in a.source + a.sourceId + b.source + b.sourceId ==>
              (EvidenceKey(a) == EvidenceKey(b) <==>
               a.source == b.source && a.sourceId == b.sourceId && a.chunkId == b.chunkId)
  {
    if a.id == "" && b.id == "" && '\0' !in a.source + a.sourceId + b.source + b.sourceId
       && EvidenceKey(a) == EvidenceKey(b) {
      assert EvidenceKey(a) == a.source + "\0" + (a.sourceId + "\0" + a.chunkId);
      assert EvidenceKey(b) == b.source + "\0" + (b.sourceId + "\0" + b.chunkId);
      FirstPartsAgree(a.source, a.sourceId + "\0" + a.chunkId, b.source, b.sourceId + "\0" + b.chunkId);
      FirstPartsAgree(a.sourceId, a.chunkId, b.sourceId, b.chunkId);
    }
  }

  lemma FirstPartsAgree(a: string, x: string, b: string, y: string)
    requires '\0' !in a && '\0' !in b && a + "\0" + x == b + "\0" + y
    ensures a == b && x == y
  {
    var s, t := a + "\0" + x, b + "\0" + y;
    assert s[|a|] == '\0' && t[|b|] == '\0';
    assert forall i :: 0 <= i < |a| ==> s[i] == a[i];
    assert forall i :: 0 <= i < |b| ==> t[i] == b[i];
    assert |a| == |b|;
    assert a == s[..|a|] && b == t[..|b|] && x == s[|a| + 1..] && y == t[|b| + 1..];
  }

  // ---------- Results of steps ----------

  /**
   A step is satisfied exactly when its retriever reports no error and finds something. What it found is kept
   even with an error, which becomes a gap; but only assertions that came without one are arbitrated.
   */
  lemma ResultsExactly(x: FanOut.Item)
    ensures var r, a := FanOut.Settled(x), x.reply.answer;
            var empty := a.assertions == [] && a.knowledge == [] && a.paths == [];
            && r.stepId == x.step.id && r.source == x.step.source && r.required == x.step.required
            && (r.satisfied <==> x.reply.error.None? && !empty)
            && r.knowledge == a.knowledge && r.paths == a.paths
            && (x.reply.error.Some? ==> r.gaps == a.gaps + [x.reply.error.value])
            && (x.reply.error.None? && empty && a.gaps == [] ==> |r.gaps| == 1)
            && (x.reply.error.None? && !(empty && a.gaps == []) ==> r.gaps == a.gaps)
            && FanOut.Contribution(x) == if x.reply.error.Some? then [] else a.assertions
  {
  }

  // ---------- The fallback ----------

  /** No evidence with its id comes before it. */
  ghost predicate FirstWithId(all: seq<Evidence>, e: Evidence) {
    exists i :: 0 <= i < |all| && all[i] == e && forall j :: 0 <= j < i ==> all[j].id != e.id
  }

  lemma FirstWithIdExtend(all: seq<Evidence>, last: Evidence, e: Evidence)
    ensures FirstWithId(all + [last], e) <==>
              FirstWithId(all, e) || (e == last && forall x :: x in all ==> x.id != last.id)
  {
    var more := all + [last];
    assert more[|all|] == last && forall j :: 0 <= j < |all| ==> more[j] == all[j] && all[j] in all;
    if FirstWithId(all, e) {
      var i :| 0 <= i < |all| && all[i] == e && forall j :: 0 <= j < i ==> all[j].id != e.id;
      assert more[i] == e;
    }
  }

  /** The first evidence of each id that is not "". */
  ghost predicate FirstOfIds(all: seq<Evidence>, kept: seq<Evidence>) {
    && (forall e :: e in kept <==> e.id != "" && FirstWithId(all, e))
    && (forall i, j :: 0 <= i < j < |kept| ==> kept[i].id != kept[j].id)
  }

  ghost predicate CoversIds(all: seq<Evidence>, kept: seq<Evidence>) {
    forall e :: e in all && e.id != "" ==> exists x :: x in kept && x.id == e.id
  }

  lemma FirstIsMember(all: seq<Evidence>, e: Evidence)
    requires FirstWithId(all, e)
    ensures e in all
  {
  }

  lemma OldEvidence(init: seq<Evidence>, last: Evidence, kept: seq<Evidence>)
    requires FirstOfIds(init, kept) && CoversIds(init, kept)
    requires last.id == "" || exists x :: x in kept && x.id == last.id
    ensures FirstOfIds(init + [last], kept) && CoversIds(init + [last], kept)
  {
    forall e: Evidence
      ensures e.id != "" ==> (FirstWithId(init + [last], e) <==> FirstWithId(init, e))
    {
      FirstWithIdExtend(init, last, e);
      if x :| x in kept && x.id == last.id {
        FirstIsMember(init, x);
      }
    }
    hide FirstWithId;
  }

  lemma FreshEvidence(init: seq<Evidence>, last: Evidence, kept: seq<Evidence>)
    requires FirstOfIds(init, kept) && CoversIds(init, kept)
    requires last.id != "" && forall x :: x in kept ==> x.id != last.id
    ensures FirstOfIds(init + [last], kept + [last]) && CoversIds(init + [last], kept + [last])
  {
    var more := kept + [last];
    assert forall x :: x in init ==> x.id != last.id;
    forall e
      ensures FirstWithId(init + [last], e) <==> FirstWithId(init, e) || e == last
    {
      FirstWithIdExtend(init, last, e);
    }
    hide FirstWithId;
    assert forall e :: e in more <==> e in kept || e == last;
    forall i, j | 0 <= i < j < |more|
      ensures more[i].id != more[j].id
    {
      assert kept[i] in kept;
    }
    forall e | e in init + [last] && e.id != ""
      ensures exists x :: x in more && x.id == e.id
    {
      if e in init {
        var x :| x in kept && x.id == e.id;
        assert x in more;
      } else {
        assert last in more;
      }
    }
  }

  lemma {:induction false} NewEvidenceIsFirst(all: seq<Evidence>)
    ensures FirstOfIds(all, NewEvidence(all)) && CoversIds(all, NewEvidence(all))
  {
    hide FirstOfIds;
    hide CoversIds;
    if all == [] {
      NothingFirst();
    } else {
      var init, last := all[..|all| - 1], all[|all| - 1];
      assert all == init + [last];
      NewEvidenceIsFirst(init);
      if last.id == "" || exists x :: x in NewEvidence(init) && x.id == last.id {
        OldEvidence(init, last, NewEvidence(init));
      } else {
        FreshEvidence(init, last, NewEvidence(init));
      }
    }
  }

  lemma NothingFirst()
    ensures FirstOfIds([], []) && CoversIds([], [])
  {
  }

  /**
   Only an empty pack whose plan allows it takes up documents found by the fallback: these become its
   knowledge, with the first evidence of each id, and one more step, not required and satisfied, is reported.
   */
  lemma FallbackExactly(pack: Pack, found: seq<Knowledge>)
    ensures var patched := WithFallback(pack, found);
            var applies := pack.plan.allowFallback && pack.facts == [] && pack.knowledge == [] && pack.paths == []
                           && found != [];
            && (!applies ==> patched == pack)
            && (applies ==>
                  && patched.knowledge == found
                  && pack.evidence <= patched.evidence
                  && FirstOfIds(AllEvidence(found), patched.evidence[|pack.evidence|..])
                  && patched.plan.steps == pack.plan.steps + [Step("fallback-rag", WIKI_RAG, false)]
                  && patched.sourceStatus ==
                     pack.sourceStatus + [SourceStatus("fallback-rag", WIKI_RAG, false, true, [])]
                  && patched == pack.(knowledge := found, evidence := patched.evidence, plan := patched.plan,
                                      sourceStatus := patched.sourceStatus))
  {
    NewEvidenceIsFirst(AllEvidence(found));
    hide NewEvidence;
    hide AllEvidence;
    hide FirstOfIds;
    assert (pack.evidence + NewEvidence(AllEvidence(found)))[|pack.evidence|..] == NewEvidence(AllEvidence(found));
  }
}
