/**
 What a context pack promises: when it is complete, what a schedule of the retrievers can change, and that
 the document fallback never makes an incomplete pack complete.
 */
module ContextTheorems {
  import opened Wrappers
  import opened Text
  import opened Sorting
  import opened GraphModel
  import opened Arbiter
  import opened ArbiterTheorems
  import opened ArbiterOrder
  import opened RetrievalModel
  import opened FanOut
  import opened Assembler

  // ---------- Blocking gaps ----------

  lemma {:induction false} AllUniqueMembers(dst: seq<string>, values: seq<string>, x: string)
    ensures x in WithAllUnique(dst, values) <==> x in dst || (x in values && x != "")
  {
    if values != [] {
      AllUniqueMembers(dst, values[..|values| - 1], x);
      assert values == values[..|values| - 1] + [values[|values| - 1]];
    }
  }

  lemma {:induction false} BlockedByStepsMembers(blocking: seq<string>, results: seq<StepResult>, x: string)
    ensures x in BlockedBySteps(blocking, results) <==>
              x in blocking || exists r :: r in results && r.required && !r.satisfied && x == RequiredGap(r.source)
  {
    if results != [] {
      BlockedByStepsMembers(blocking, results[..|results| - 1], x);
      assert results == results[..|results| - 1] + [results[|results| - 1]];
      assert results[|results| - 1] in results;
    }
  }

  lemma {:induction false} BlockedBySlotsMembers(blocking: seq<string>, arbitration: seq<Verdict>, x: string)
    ensures x in BlockedBySlots(blocking, arbitration) <==>
              || x in blocking
              || exists v :: v in arbitration && v.status == UnresolvedConflict && x == ConflictGap(v.slotId)
  {
    if arbitration != [] {
      BlockedBySlotsMembers(blocking, arbitration[..|arbitration| - 1], x);
      assert arbitration == arbitration[..|arbitration| - 1] + [arbitration[|arbitration| - 1]];
      assert arbitration[|arbitration| - 1] in arbitration;
    }
  }

  /** A blocking issue of the plan, a required source left unsatisfied, or an unresolved slot. */
  ghost predicate Blocks(plan: Plan, results: seq<StepResult>, arbitration: seq<Verdict>, gap: string) {
    || (gap in plan.blockingIssues && gap != "")
    || (exists r :: r in results && r.required && !r.satisfied && gap == RequiredGap(r.source))
    || (exists v :: v in arbitration && v.status == UnresolvedConflict && gap == ConflictGap(v.slotId))
  }

  /** The blocking gaps of a pack are exactly these. */
  lemma BlockingGapsExactly(limit: int, plan: Plan, results: seq<StepResult>, arbitration: seq<Verdict>, gap: string)
    ensures gap in Assembled(limit, plan, results, arbitration).blockingGaps <==>
              Blocks(plan, results, arbitration, gap)
  {
    hide WithAllUnique;
    AllUniqueMembers([], plan.blockingIssues, gap);
    BlockedByStepsMembers(WithAllUnique([], plan.blockingIssues), results, gap);
    BlockedBySlotsMembers(BlockedBySteps(WithAllUnique([], plan.blockingIssues), results), arbitration, gap);
  }

  // ---------- Complete packs ----------

  lemma {:induction false} FactsExist(arbitration: seq<Verdict>)
    ensures FactsOf(arbitration) != [] <==> exists v :: v in arbitration && v.accepted.Some?
  {
    if arbitration != [] {
      var last := arbitration[|arbitration| - 1];
      FactsExist(arbitration[..|arbitration| - 1]);
      assert arbitration == arbitration[..|arbitration| - 1] + [last];
      assert last in arbitration;
    }
  }

  lemma {:induction false} KnowledgeExists(g: Gathered, items: seq<Knowledge>)
    ensures WithKnowledge(g, items).knowledge == [] <==> g.knowledge == [] && items == []
    ensures WithKnowledge(g, items).paths == g.paths
  {
    hide KnowledgeKey;
    if items != [] {
      KnowledgeExists(g, items[..|items| - 1]);
      var before := WithKnowledge(g, items[..|items| - 1]);
      assert before.knowledge == [] ==> KnowledgeKeys(before.knowledge) == {};
    }
  }

  lemma {:induction false} PathsExist(g: Gathered, items: seq<Path>)
    ensures WithPaths(g, items).paths == [] <==> g.paths == [] && items == []
    ensures WithPaths(g, items).knowledge == g.knowledge
  {
    if items != [] {
      PathsExist(g, items[..|items| - 1]);
    }
  }

  lemma {:induction false} GatheredExists(start: Gathered, results: seq<StepResult>)
    requires start.knowledge == [] && start.paths == []
    ensures var g := GatheredFrom(start, results);
            && (g.knowledge != [] <==> exists r :: r in results && r.knowledge != [])
            && (g.paths != [] <==> exists r :: r in results && r.paths != [])
  {
    hide WithKnowledge;
    hide WithPaths;
    if results != [] {
      var init, r := results[..|results| - 1], results[|results| - 1];
      GatheredExists(start, init);
      KnowledgeExists(GatheredFrom(start, init), r.knowledge);
      PathsExist(WithKnowledge(GatheredFrom(start, init), r.knowledge), r.paths);
      assert results == init + [r] && r in results;
    }
  }

  ghost predicate Substantial(results: seq<StepResult>, arbitration: seq<Verdict>) {
    || (exists v :: v in arbitration && v.accepted.Some?)
    || (exists r :: r in results && r.knowledge != [])
    || (exists r :: r in results && r.paths != [])
  }

  /**
   A pack is complete exactly when the plan has no blocking issue, every required step is satisfied, no
   slot is unresolved, and some fact, knowledge or path was found.
   */
  lemma CompleteExactly(limit: int, plan: Plan, results: seq<StepResult>, arbitration: seq<Verdict>)
    ensures Assembled(limit, plan, results, arbitration).complete <==>
              && (forall issue :: issue in plan.blockingIssues ==> issue == "")
              && (forall r :: r in results && r.required ==> r.satisfied)
              && (forall v :: v in arbitration ==> v.status != UnresolvedConflict)
              && Substantial(results, arbitration)
  {
    hide Unresolved;
    var pack := Assembled(limit, plan, results, arbitration);
    var start := Gathered([], [], EvidenceOfFacts(FactsOf(arbitration)));
    FactsExist(arbitration);
    GatheredExists(start, results);
    SortMultiset(GatheredFrom(start, results).knowledge, KnowledgeOrder());
    NothingBlocking(limit, plan, results, arbitration);
  }

  lemma NothingBlocking(limit: int, plan: Plan, results: seq<StepResult>, arbitration: seq<Verdict>)
    ensures Assembled(limit, plan, results, arbitration).blockingGaps == [] <==>
              && (forall issue :: issue in plan.blockingIssues ==> issue == "")
              && (forall r :: r in results && r.required ==> r.satisfied)
              && (forall v :: v in arbitration ==> v.status != UnresolvedConflict)
  {
    hide Assembled;
    var gaps := Assembled(limit, plan, results, arbitration).blockingGaps;
    forall gap
      ensures gap in gaps <==> Blocks(plan, results, arbitration, gap)
    {
      BlockingGapsExactly(limit, plan, results, arbitration, gap);
    }
    if gaps != [] {
      assert gaps[0] in gaps;
    }
    forall r | r in results && r.required && !r.satisfied
      ensures gaps != []
    {
      assert Blocks(plan, results, arbitration, RequiredGap(r.source));
    }
    forall v | v in arbitration && v.status == UnresolvedConflict
      ensures gaps != []
    {
      assert Blocks(plan, results, arbitration, ConflictGap(v.slotId));
    }
    forall issue | issue in plan.blockingIssues && issue != ""
      ensures gaps != []
    {
      assert Blocks(plan, results, arbitration, issue);
    }
  }

  // ---------- Evidence ----------

  ghost predicate KeysDiffer(es: seq<Evidence>) {
    forall i, j :: 0 <= i < j < |es| ==> EvidenceKey(es[i]) != EvidenceKey(es[j])
  }

  lemma {:induction false} EvidenceJoined(dst: seq<Evidence>, items: seq<Evidence>)
    ensures EvidenceKeys(WithEvidence(dst, items)) == EvidenceKeys(dst) + EvidenceKeys(items)
    ensures KeysDiffer(dst) ==> KeysDiffer(WithEvidence(dst, items))
  {
    if items != [] {
      hide EvidenceKey;
      var init, e := items[..|items| - 1], items[|items| - 1];
      EvidenceJoined(dst, init);
      assert items == init + [e];
      EvidenceKeysExtend(init, e);
      var before := WithEvidence(dst, init);
      EvidenceKeysExtend(before, e);
      forall i | 0 <= i < |before|
        ensures EvidenceKey(before[i]) in EvidenceKeys(before)
      {
        assert before[i] in before;
      }
    }
  }

  ghost predicate Cited(es: seq<Evidence>, cited: seq<Evidence>) {
    EvidenceKeys(cited) <= EvidenceKeys(es)
  }

  /** Evidence is listed once, and all that the facts, knowledge and paths cite is listed. */
  ghost predicate Traceable(facts: seq<Assertion>, g: Gathered) {
    && KeysDiffer(g.evidence)
    && (forall x :: x in facts ==> Cited(g.evidence, x.evidence))
    && (forall k :: k in g.knowledge ==> Cited(g.evidence, k.evidence))
    && (forall p :: p in g.paths ==> Cited(g.evidence, p.evidence))
  }

  lemma {:induction false} FactsAreTraceable(facts: seq<Assertion>)
    ensures Traceable(facts, Gathered([], [], EvidenceOfFacts(facts)))
  {
    if facts != [] {
      hide WithEvidence;
      hide EvidenceKeys;
      var init, x := facts[..|facts| - 1], facts[|facts| - 1];
      FactsAreTraceable(init);
      assert facts == init + [x];
      EvidenceJoined(EvidenceOfFacts(init), x.evidence);
    }
  }

  lemma {:induction false} KnowledgeIsTraceable(facts: seq<Assertion>, g: Gathered, items: seq<Knowledge>)
    requires Traceable(facts, g)
    ensures Traceable(facts, WithKnowledge(g, items))
  {
    if items != [] {
      hide WithEvidence;
      hide EvidenceKeys;
      hide KeysDiffer;
      var init, k := items[..|items| - 1], items[|items| - 1];
      KnowledgeIsTraceable(facts, g, init);
      EvidenceJoined(WithKnowledge(g, init).evidence, k.evidence);
    }
  }

  lemma {:induction false} PathsAreTraceable(facts: seq<Assertion>, g: Gathered, items: seq<Path>)
    requires Traceable(facts, g)
    ensures Traceable(facts, WithPaths(g, items))
  {
    if items != [] {
      hide WithEvidence;
      hide EvidenceKeys;
      hide KeysDiffer;
      var init, p := items[..|items| - 1], items[|items| - 1];
      PathsAreTraceable(facts, g, init);
      EvidenceJoined(WithPaths(g, init).evidence, p.evidence);
    }
  }

  lemma {:induction false} GatheredIsTraceable(facts: seq<Assertion>, start: Gathered, results: seq<StepResult>)
    requires Traceable(facts, start)
    ensures Traceable(facts, GatheredFrom(start, results))
  {
    if results != [] {
      hide Traceable;
      hide WithKnowledge;
      hide WithPaths;
      var init, r := results[..|results| - 1], results[|results| - 1];
      GatheredIsTraceable(facts, start, init);
      KnowledgeIsTraceable(facts, GatheredFrom(start, init), r.knowledge);
      PathsAreTraceable(facts, WithKnowledge(GatheredFrom(start, init), r.knowledge), r.paths);
    }
  }

  /** A pack lists no evidence twice, and lists all that its facts, its knowledge and its paths cite. */
  lemma PackIsTraceable(limit: int, plan: Plan, results: seq<StepResult>, arbitration: seq<Verdict>)
    ensures var pack := Assembled(limit, plan, results, arbitration);
            Traceable(pack.facts, Gathered(pack.knowledge, pack.paths, pack.evidence))
  {
    hide GatheredFrom;
    hide EvidenceKeys;
    hide KeysDiffer;
    hide Blocking;
    var facts := FactsOf(arbitration);
    var start := Gathered([], [], EvidenceOfFacts(facts));
    var g := GatheredFrom(start, results);
    FactsAreTraceable(facts);
    GatheredIsTraceable(facts, start, results);
    SortMembers(g.knowledge, KnowledgeOrder());
    var sorted := Sort(g.knowledge, KnowledgeOrder());
    forall k | k in Truncated(limit, sorted)
      ensures k in sorted
    {
    }
  }

  // ---------- Schedules ----------

  function Packed(u: Unicode, policy: Policy, limit: int, plan: Plan, items: seq<Item>, now: int): Pack {
    Assembled(limit, plan, Results(items), Arbitrated(u, policy, Assertions(items), now))
  }

  /** What the caller does once the channel is closed. */
  method FanIn(u: Unicode, policy: Policy, limit: int, plan: Plan, items: seq<Item>, now: int) returns (pack: Pack)
    ensures pack == Packed(u, policy, limit, plan, items, now)
  {
    var results, assertions := Collect(items);
    var arbitration := Arbitrate(u, policy, assertions, now);
    pack := Assemble(limit, plan, results, arbitration);
  }

  lemma ResultMembers(items: seq<Item>, r: StepResult)
    ensures r in Results(items) <==> exists x :: x in items && r == Settled(x)
  {
    hide Settled;
    if r in Results(items) {
      var i :| 0 <= i < |items| && Results(items)[i] == r;
      assert items[i] in items;
    }
    if x :| x in items && r == Settled(x) {
      var i :| 0 <= i < |items| && items[i] == x;
      assert Results(items)[i] == r;
    }
  }

  lemma ResultsRearranged(a: seq<Item>, b: seq<Item>, r: StepResult)
    requires multiset(a) == multiset(b)
    ensures r in Results(a) <==> r in Results(b)
  {
    hide Settled;
    hide Results;
    ResultMembers(a, r);
    ResultMembers(b, r);
    SameMembers(a, b);
  }

  ghost predicate Finished(job: Job, schedule: seq<Move>) {
    Run(job, schedule).Some? && Joined(job, Run(job, schedule).value)
  }

  /** The items a finished schedule leaves in the channel. */
  ghost function Delivered(job: Job, replies: seq<Reply>, schedule: seq<Move>): seq<Item>
    requires |replies| == |job.steps| && Finished(job, schedule)
  {
    EachStepDeliversOnce(job, schedule);
    RunsOverSteps(job, Run(job, schedule).value.channel);
    Items(job, replies, Run(job, schedule).value.channel)
  }

  lemma DeliveredInAnyOrder(job: Job, replies: seq<Reply>, schedule: seq<Move>)
    requires |replies| == |job.steps| && Finished(job, schedule)
    ensures multiset(Delivered(job, replies, schedule)) == multiset(Items(job, replies, UpTo(|job.steps|)))
  {
    var channel := Run(job, schedule).value.channel;
    EachStepDeliversOnce(job, schedule);
    RunsOverSteps(job, channel);
    ItemsOfRearranged(job, replies, channel, UpTo(|job.steps|));
  }

  /** Only the gaps of unresolved slots can depend on the schedule. */
  lemma OnlyConflictsDependOnSchedule(u: Unicode, policy: Policy, limit: int, plan: Plan, configured: set<string>,
                                      replies: seq<Reply>, now: int, first: seq<Move>, second: seq<Move>, gap: string)
    requires var job := Job(plan.steps, configured);
             |replies| == |plan.steps| && Finished(job, first) && Finished(job, second)
    requires forall slot :: gap != ConflictGap(slot)
    ensures var job := Job(plan.steps, configured);
            var p := Packed(u, policy, limit, plan, Delivered(job, replies, first), now);
            var q := Packed(u, policy, limit, plan, Delivered(job, replies, second), now);
            gap in p.blockingGaps <==> gap in q.blockingGaps
  {
    hide UpTo;
    var job := Job(plan.steps, configured);
    var a, b := Delivered(job, replies, first), Delivered(job, replies, second);
    DeliveredInAnyOrder(job, replies, first);
    DeliveredInAnyOrder(job, replies, second);
    forall r
      ensures r in Results(a) <==> r in Results(b)
    {
      ResultsRearranged(a, b, r);
    }
    BlockingGapsExactly(limit, plan, Results(a), Arbitrated(u, policy, Assertions(a), now), gap);
    BlockingGapsExactly(limit, plan, Results(b), Arbitrated(u, policy, Assertions(b), now), gap);
  }

  // ---------- A schedule that matters ----------

  const TWO_STEPS := [Step("s1", ENTITY_GRAPH, false), Step("s2", WIKI_RAG, false)]

  function Says(x: Assertion): Reply {
    Reply(Answer([x], [], [], []), None)
  }

  lemma TwoStepRun(job: Job, k: nat)
    requires |job.steps| == 2 && job.steps[0].source in job.configured && job.steps[1].source in job.configured && k < 2
    ensures Run(job, [Dispatch, Dispatch, Finish(k), Finish(1 - k)]) == Some(Fan(2, {}, [k, 1 - k]))
  {
    var f1, f2, f3 := Fan(1, {0}, []), Fan(2, {0, 1}, []), Fan(2, {1 - k}, [k]);
    assert {} + {0} == {0} && {0} + {1} == {0, 1} && {0, 1} - {k} == {1 - k} && {1 - k} - {1 - k} == {};
    RunStep(job, [], Idle, Dispatch, f1);
    RunStep(job, [Dispatch], f1, Dispatch, f2);
    RunStep(job, [Dispatch, Dispatch], f2, Finish(k), f3);
    assert [Dispatch, Dispatch] + [Finish(k)] == [Dispatch, Dispatch, Finish(k)];
    RunStep(job, [Dispatch, Dispatch, Finish(k)], f3, Finish(1 - k), Fan(2, {}, [k, 1 - k]));
    assert [Dispatch, Dispatch, Finish(k)] + [Finish(1 - k)] == [Dispatch, Dispatch, Finish(k), Finish(1 - k)];
  }

  lemma RunStep(job: Job, schedule: seq<Move>, f: Fan, m: Move, t: Fan)
    requires Run(job, schedule) == Some(f) && Enabled(job, f, m) && Moved(job, f, m) == t
    ensures Run(job, schedule + [m]) == Some(t)
  {
    assert (schedule + [m])[..|schedule|] == schedule;
  }

  lemma PairInSlot(x: Assertion, y: Assertion)
    requires SlotOf(x) == "slot" && SlotOf(y) == "slot"
    ensures Slots([x, y]) == ["slot"] && InSlot([x, y], "slot") == [x, y]
  {
    hide SlotOf;
    var all, one := [x, y], [x];
    assert all[..1] == one && one[..0] == [];
    assert Slots(one) == Slots([]) + ["slot"] == ["slot"];
    assert "slot" in Slots(one);
    assert Slots(all) == Slots(one);
    assert InSlot(one, "slot") == InSlot([], "slot") + [x] == [x];
    assert InSlot(all, "slot") == InSlot(one, "slot") + [y];
  }

  /** Two assertions for one slot are arbitrated as that slot. */
  lemma OneSlot(u: Unicode, policy: Policy, x: Assertion, y: Assertion, now: int)
    requires x.slotId == "slot" && y.slotId == "slot"
    ensures Arbitrated(u, policy, [x, y], now) == [SlotVerdict(u, policy, "slot", [x, y], now)]
  {
    PairInSlot(x, y);
    hide SlotVerdict;
    hide Slots;
    hide InSlot;
    assert Sorted(["slot"], StringOrder());
    SortOfSorted(["slot"], StringOrder());
  }

  lemma TwoAnswers(u: Unicode, policy: Policy, limit: int, plan: Plan, steps: seq<Step>, x: Assertion, y: Assertion,
                   now: int)
    requires plan.blockingIssues == [] && |steps| == 2 && !steps[0].required && !steps[1].required
    requires x.slotId == "slot" && y.slotId == "slot"
    ensures var r := SlotVerdict(u, policy, "slot", [x, y], now);
            var pack := Packed(u, policy, limit, plan, [Item(steps[0], Says(x)), Item(steps[1], Says(y))], now);
            && (r.accepted.Some? && r.status != UnresolvedConflict ==> pack.complete)
            && (r.status == UnresolvedConflict ==> !pack.complete)
  {
    hide SlotVerdict;
    hide Assembled;
    hide Arbitrated;
    var items := [Item(steps[0], Says(x)), Item(steps[1], Says(y))];
    assert items[..1] == [items[0]] && [items[0]][..0] == [];
    assert Assertions([items[0]]) == [x];
    assert Assertions(items) == [x, y];
    OneSlot(u, policy, x, y, now);
    var arbitration := Arbitrated(u, policy, Assertions(items), now);
    assert arbitration[0] in arbitration;
    CompleteExactly(limit, plan, Results(items), arbitration);
  }

  /**
   The schedule can matter: when one answer declares the other superseded, the pack is complete if the
   superseding answer arrives first and incomplete if it arrives second.
   */
  lemma ScheduleCanMatter(u: Unicode, now: int)
    requires DistinctLetters(u)
    ensures var policy := Policy(map[], map[], 0.05);
            var plan := Plan("q", TWO_STEPS, true, []);
            var job := Job(TWO_STEPS, {ENTITY_GRAPH, WIKI_RAG});
            var replies := [Says(Contender("x", "a", map[], ["y"])), Says(Contender("y", "b", map[], []))];
            var first, second := [Dispatch, Dispatch, Finish(0), Finish(1)], [Dispatch, Dispatch, Finish(1), Finish(0)];
            && Finished(job, first) && Finished(job, second)
            && Packed(u, policy, 12, plan, Delivered(job, replies, first), now).complete
            && !Packed(u, policy, 12, plan, Delivered(job, replies, second), now).complete
  {
    hide Packed;
    hide SlotVerdict;
    hide DistinctLetters;
    hide Run;
    var policy := Policy(map[], map[], 0.05);
    var plan := Plan("q", TWO_STEPS, true, []);
    var job := Job(TWO_STEPS, {ENTITY_GRAPH, WIKI_RAG});
    var x, y := Contender("x", "a", map[], ["y"]), Contender("y", "b", map[], []);
    var replies := [Says(x), Says(y)];
    TwoStepRun(job, 0);
    TwoStepRun(job, 1);
    SupersessionMakesOrderMatter(u, now);
    SlotNamed(u, policy, "slot", [x, y], now);
    TwoAnswers(u, policy, 12, plan, TWO_STEPS, x, y, now);
    TwoAnswers(u, policy, 12, plan, [TWO_STEPS[1], TWO_STEPS[0]], y, x, now);
    assert Delivered(job, replies, [Dispatch, Dispatch, Finish(0), Finish(1)])
        == [Item(TWO_STEPS[0], Says(x)), Item(TWO_STEPS[1], Says(y))];
    assert Delivered(job, replies, [Dispatch, Dispatch, Finish(1), Finish(0)])
        == [Item(TWO_STEPS[1], Says(y)), Item(TWO_STEPS[0], Says(x))];
  }

  /** A required step whose retriever failed, found nothing or does not exist leaves every pack incomplete. */
  lemma RequiredStepMustAnswer(u: Unicode, policy: Policy, limit: int, plan: Plan, configured: set<string>,
                               replies: seq<Reply>, now: int, schedule: seq<Move>, k: nat)
    requires var job := Job(plan.steps, configured);
             |replies| == |plan.steps| && Finished(job, schedule)
    requires k < |plan.steps| && plan.steps[k].required
    requires plan.steps[k].source in configured ==> replies[k].error.Some? || !FanOut.Usable(replies[k].answer)
    ensures var pack := Packed(u, policy, limit, plan, Delivered(Job(plan.steps, configured), replies, schedule), now);
            !pack.complete && RequiredGap(plan.steps[k].source) in pack.blockingGaps
  {
    hide Arbitrated;
    hide Assembled;
    hide Finished;
    hide Delivered;
    var job := Job(plan.steps, configured);
    var items := Delivered(job, replies, schedule);
    var x := ItemOf(job, replies, k);
    DeliveredInAnyOrder(job, replies, schedule);
    assert Items(job, replies, UpTo(|plan.steps|))[k] == x;
    SameMembers(items, Items(job, replies, UpTo(|plan.steps|)));
    ResultMembers(items, Settled(x));
    var arbitration := Arbitrated(u, policy, Assertions(items), now);
    CompleteExactly(limit, plan, Results(items), arbitration);
    BlockingGapsExactly(limit, plan, Results(items), arbitration, RequiredGap(plan.steps[k].source));
  }

  // ---------- The document fallback ----------

  function NewEvidence(all: seq<Evidence>): seq<Evidence> {
    if all == [] then []
    else
      var kept, e := NewEvidence(all[..|all| - 1]), all[|all| - 1];
      if e.id == "" || (exists x :: x in kept && x.id == e.id) then kept else kept + [e]
  }

  function AllEvidence(items: seq<Knowledge>): seq<Evidence> {
    if items == [] then [] else AllEvidence(items[..|items| - 1]) + items[|items| - 1].evidence
  }

  predicate Bare(pack: Pack) {
    pack.facts == [] && pack.knowledge == [] && pack.paths == []
  }

  const FALLBACK := Step("fallback-rag", WIKI_RAG, false)

  /** The fallback search fills an empty pack with documents. A failed search finds nothing. */
  function WithFallback(pack: Pack, found: seq<Knowledge>): Pack {
    if pack.plan.allowFallback && Bare(pack) && found != [] then
      pack.(knowledge := found, evidence := pack.evidence + NewEvidence(AllEvidence(found)),
            plan := pack.plan.(steps := pack.plan.steps + [FALLBACK]),
            sourceStatus := pack.sourceStatus + [SourceStatus(FALLBACK.id, FALLBACK.source, false, true, [])])
    else pack
  }

  function EvidenceIds(es: seq<Evidence>): set<string> {
    set e | e in es :: e.id
  }

  lemma EvidenceIdsExtend(es: seq<Evidence>, e: Evidence)
    ensures EvidenceIds(es + [e]) == EvidenceIds(es) + {e.id}
  {
    var more := es + [e];
    assert more[|es|] == e;
    forall x | x in es
      ensures x in more
    {
    }
  }

  lemma NewEvidenceOfMore(all: seq<Evidence>, e: Evidence, seen: set<string>)
    requires seen == EvidenceIds(NewEvidence(all))
    ensures NewEvidence(all + [e]) == if e.id == "" || e.id in seen then NewEvidence(all) else NewEvidence(all) + [e]
  {
    assert (all + [e])[..|all|] == all;
  }

  lemma NoNewEvidence()
    ensures NewEvidence([]) == []
  {
  }

  method AddNewEvidence(items: seq<Evidence>, ghost all: seq<Evidence>, evidence: seq<Evidence>, seen: set<string>)
    returns (out: seq<Evidence>, nowSeen: set<string>)
    requires evidence == NewEvidence(all) && seen == EvidenceIds(evidence)
    ensures out == NewEvidence(all + items) && nowSeen == EvidenceIds(out)
  {
    hide NewEvidence;
    hide EvidenceIds;
    out, nowSeen := evidence, seen;
    assert all + items[..0] == all;
    for i := 0 to |items|
      invariant out == NewEvidence(all + items[..i]) && nowSeen == EvidenceIds(out)
    {
      var e := items[i];
      assert all + items[..i + 1] == all + items[..i] + [e];
      NewEvidenceOfMore(all + items[..i], e, nowSeen);
      if e.id != "" && e.id !in nowSeen {
        EvidenceIdsExtend(out, e);
        nowSeen := nowSeen + {e.id};
        out := out + [e];
      }
    }
    assert items[..|items|] == items;
  }

  method Fallback(pack: Pack, found: seq<Knowledge>) returns (patched: Pack)
    ensures patched == WithFallback(pack, found)
  {
    NoNewEvidence();
    hide NewEvidence;
    if !(pack.plan.allowFallback && |pack.facts| == 0 && |pack.knowledge| == 0 && |pack.paths| == 0 && |found| > 0) {
      return pack;
    }
    var added: seq<Evidence> := [];
    var seen: set<string> := {};
    for n := 0 to |found|
      invariant added == NewEvidence(AllEvidence(found[..n])) && seen == EvidenceIds(added)
    {
      assert found[..n + 1][..n] == found[..n];
      added, seen := AddNewEvidence(found[n].evidence, AllEvidence(found[..n]), added, seen);
    }
    assert found[..|found|] == found;
    patched := pack.(knowledge := found, evidence := pack.evidence + added,
                     plan := pack.plan.(steps := pack.plan.steps + [FALLBACK]),
                     sourceStatus := pack.sourceStatus + [SourceStatus(FALLBACK.id, FALLBACK.source, false, true, [])]);
  }

  /** The fallback applies only to packs that are incomplete, and leaves them incomplete with the same gaps. */
  lemma FallbackNeverCompletes(limit: int, plan: Plan, results: seq<StepResult>, arbitration: seq<Verdict>,
                               found: seq<Knowledge>)
    ensures var pack := Assembled(limit, plan, results, arbitration);
            var patched := WithFallback(pack, found);
            && patched.complete == pack.complete && patched.blockingGaps == pack.blockingGaps
            && (patched != pack ==> !pack.complete)
            && (patched.complete ==> Substantial(results, arbitration))
  {
    hide NewEvidence;
    hide AllEvidence;
    hide Blocking;
    CompleteExactly(limit, plan, results, arbitration);
  }

  // ---------- Evidence of patched packs ----------

  predicate Applies(pack: Pack, found: seq<Knowledge>) {
    pack.plan.allowFallback && Bare(pack) && found != []
  }

  /** Evidence without an id, unless its key happens to be the id of other evidence, is dropped by the fallback. */
  ghost predicate Identified(all: seq<Evidence>) {
    forall e :: e in all && e.id == "" ==> EvidenceKey(e) in EvidenceIds(all) && EvidenceKey(e) != ""
  }

  lemma {:induction false} NewEvidenceIds(all: seq<Evidence>)
    ensures EvidenceIds(NewEvidence(all)) == EvidenceIds(all) - {""}
    ensures EvidenceKeys(NewEvidence(all)) == EvidenceIds(all) - {""}
    ensures KeysDiffer(NewEvidence(all))
  {
    if all != [] {
      var init, e := all[..|all| - 1], all[|all| - 1];
      var kept := NewEvidence(init);
      NewEvidenceIds(init);
      assert all == init + [e];
      EvidenceIdsExtend(init, e);
      NewEvidenceOfMore(init, e, EvidenceIds(kept));
      hide NewEvidence;
      EvidenceIdsExtend(kept, e);
      EvidenceKeysExtend(kept, e);
      forall i | 0 <= i < |kept|
        ensures EvidenceKey(kept[i]) in EvidenceKeys(kept)
      {
        assert kept[i] in kept;
      }
    }
  }

  lemma {:induction false} AllEvidenceMembers(items: seq<Knowledge>, e: Evidence)
    ensures e in AllEvidence(items) <==> exists k :: k in items && e in k.evidence
  {
    if items != [] {
      var init, last := items[..|items| - 1], items[|items| - 1];
      AllEvidenceMembers(init, e);
      assert items == init + [last] && last in items;
    }
  }

  lemma FoundIsCitedExactly(found: seq<Knowledge>)
    ensures (forall k :: k in found ==> Cited(NewEvidence(AllEvidence(found)), k.evidence)) <==>
              Identified(AllEvidence(found))
  {
    hide NewEvidence;
    hide AllEvidence;
    hide EvidenceIds;
    var all := AllEvidence(found);
    NewEvidenceIds(all);
    forall e
      ensures e in all <==> exists k :: k in found && e in k.evidence
    {
      AllEvidenceMembers(found, e);
    }
    if Identified(all) {
      forall k, e | k in found && e in k.evidence
        ensures EvidenceKey(e) in EvidenceKeys(NewEvidence(all))
      {
        OwnId(all, e);
      }
    }
    if forall k :: k in found ==> Cited(NewEvidence(all), k.evidence) {
      forall e | e in all && e.id == ""
        ensures EvidenceKey(e) in EvidenceIds(all) && EvidenceKey(e) != ""
      {
        var k :| k in found && e in k.evidence;
        assert Cited(NewEvidence(all), k.evidence) && EvidenceKey(e) in EvidenceKeys(k.evidence);
      }
    }
  }

  lemma OwnId(all: seq<Evidence>, e: Evidence)
    requires e in all
    ensures e.id in EvidenceIds(all)
  {
  }

  /**
   A pack stays traceable under the fallback exactly when it does not apply or every evidence of the found
   documents has an id, or a key that is the id of other evidence found.
   */
  lemma PatchedPackIsTraceableExactly(limit: int, plan: Plan, results: seq<StepResult>, arbitration: seq<Verdict>,
                                      found: seq<Knowledge>)
    ensures var pack := Assembled(limit, plan, results, arbitration);
            var patched := WithFallback(pack, found);
            Traceable(patched.facts, Gathered(patched.knowledge, patched.paths, patched.evidence)) <==>
              !Applies(pack, found) || Identified(AllEvidence(found))
  {
    hide Identified;
    hide NewEvidence;
    hide AllEvidence;
    var pack := Assembled(limit, plan, results, arbitration);
    PackIsTraceable(limit, plan, results, arbitration);
    if Applies(pack, found) {
      BarePackHasNoEvidence(limit, plan, results, arbitration);
      hide Assembled;
      NewEvidenceIds(AllEvidence(found));
      FoundIsCitedExactly(found);
      hide KeysDiffer;
      hide Cited;
      assert [] + NewEvidence(AllEvidence(found)) == NewEvidence(AllEvidence(found));
    }
  }

  lemma {:induction false} NothingGathered(start: Gathered, results: seq<StepResult>)
    requires start == Gathered([], [], [])
    requires GatheredFrom(start, results).knowledge == [] && GatheredFrom(start, results).paths == []
    ensures GatheredFrom(start, results).evidence == []
  {
    if results != [] {
      hide WithKnowledge;
      hide WithPaths;
      var init, r := results[..|results| - 1], results[|results| - 1];
      var before := GatheredFrom(start, init);
      KnowledgeExists(before, r.knowledge);
      PathsExist(WithKnowledge(before, r.knowledge), r.paths);
      NothingGathered(start, init);
      NoItems(before);
    }
  }

  lemma NoItems(g: Gathered)
    ensures WithKnowledge(g, []) == g && WithPaths(g, []) == g
  {
  }

  lemma BarePackHasNoEvidence(limit: int, plan: Plan, results: seq<StepResult>, arbitration: seq<Verdict>)
    requires Bare(Assembled(limit, plan, results, arbitration))
    ensures Assembled(limit, plan, results, arbitration).evidence == []
  {
    hide GatheredFrom;
    hide Blocking;
    hide FactsOf;
    var start := Gathered([], [], EvidenceOfFacts(FactsOf(arbitration)));
    SortMultiset(GatheredFrom(start, results).knowledge, KnowledgeOrder());
    hide Sort;
    assert start == Gathered([], [], []);
    NothingGathered(start, results);
  }
}
