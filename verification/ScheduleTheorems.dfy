/**
 What the schedule of the retrievers can change about a pack: exactly when its blocking gaps and its
 completeness are the same for every schedule.
 */
module ScheduleTheorems {
  import opened Wrappers
  import opened Sorting
  import opened GraphModel
  import opened Arbiter
  import opened ArbiterTheorems
  import opened ArbiterOrder
  import opened RetrievalModel
  import opened FanOut
  import opened Assembler
  import opened ContextTheorems

  // ---------- Schedules for an order ----------

  /** An order in which the steps can be listed. */
  ghost predicate Ordering(job: Job, order: seq<nat>) {
    multiset(order) == multiset(UpTo(|job.steps|))
  }

  predicate IsConfigured(job: Job, k: nat) {
    k < |job.steps| && job.steps[k].source in job.configured
  }

  function DispatchAll(n: nat): seq<Move> {
    seq(n, i => Dispatch)
  }

  /** The configured steps finish in the given order. */
  function FinishAll(job: Job, order: seq<nat>): seq<Move> {
    if order == [] then []
    else
      var init, k := FinishAll(job, order[..|order| - 1]), order[|order| - 1];
      if IsConfigured(job, k) then init + [Finish(k)] else init
  }

  function Configured(job: Job, order: seq<nat>): seq<nat> {
    if order == [] then []
    else
      var init, k := Configured(job, order[..|order| - 1]), order[|order| - 1];
      if IsConfigured(job, k) then init + [k] else init
  }

  function Unconfigured(job: Job, n: nat): seq<nat> {
    if n == 0 then []
    else if IsConfigured(job, n - 1) then Unconfigured(job, n - 1) else Unconfigured(job, n - 1) + [n - 1]
  }

  function ConfiguredSet(job: Job, n: nat): set<nat> {
    set k: nat | k < n && IsConfigured(job, k)
  }

  lemma {:induction false} RunDispatchAll(job: Job, n: nat)
    requires n <= |job.steps|
    ensures Run(job, DispatchAll(n)) == Some(Fan(n, ConfiguredSet(job, n), Unconfigured(job, n)))
  {
    if n == 0 {
      assert DispatchAll(0) == [] && ConfiguredSet(job, 0) == {};
    } else {
      RunDispatchAll(job, n - 1);
      NothingBlocks(job, DispatchAll(n - 1), Dispatch);
      assert DispatchAll(n) == DispatchAll(n - 1) + [Dispatch];
      assert ConfiguredSet(job, n)
          == if IsConfigured(job, n - 1) then ConfiguredSet(job, n - 1) + {n - 1} else ConfiguredSet(job, n - 1);
      var f := Fan(n - 1, ConfiguredSet(job, n - 1), Unconfigured(job, n - 1));
      hide Run;
      RunStep(job, DispatchAll(n - 1), f, Dispatch, Moved(job, f, Dispatch));
    }
  }

  function Elements(order: seq<nat>): set<nat> {
    set k | k in order
  }

  lemma ElementsOfLast(order: seq<nat>)
    requires order != []
    ensures Elements(order) == Elements(order[..|order| - 1]) + {order[|order| - 1]}
    ensures NoRepeats(order) ==>
              order[|order| - 1] !in Elements(order[..|order| - 1]) && NoRepeats(order[..|order| - 1])
  {
    assert order == order[..|order| - 1] + [order[|order| - 1]];
  }

  lemma RunFinish(job: Job, schedule: seq<Move>, f: Fan, k: nat)
    requires Run(job, schedule) == Some(f) && k in f.running
    ensures Run(job, schedule + [Finish(k)]) == Some(Fan(f.dispatched, f.running - {k}, f.channel + [k]))
  {
    NothingBlocks(job, schedule, Finish(k));
    hide Run;
    RunStep(job, schedule, f, Finish(k), Moved(job, f, Finish(k)));
  }

  lemma {:induction false} RunFinishAll(job: Job, order: seq<nat>)
    requires NoRepeats(order)
    ensures Run(job, DispatchAll(|job.steps|) + FinishAll(job, order))
            == Some(Fan(|job.steps|, ConfiguredSet(job, |job.steps|) - Elements(order),
                        Unconfigured(job, |job.steps|) + Configured(job, order)))
  {
    hide Run;
    var n := |job.steps|;
    if order == [] {
      RunDispatchAll(job, n);
      assert DispatchAll(n) + [] == DispatchAll(n);
      assert Unconfigured(job, n) + [] == Unconfigured(job, n);
      assert ConfiguredSet(job, n) - Elements(order) == ConfiguredSet(job, n);
    } else {
      hide NoRepeats;
      hide Elements;
      hide DispatchAll;
      hide Unconfigured;
      var init, k := order[..|order| - 1], order[|order| - 1];
      ElementsOfLast(order);
      RunFinishAll(job, init);
      var before, running := DispatchAll(n) + FinishAll(job, init), ConfiguredSet(job, n) - Elements(init);
      var channel := Unconfigured(job, n) + Configured(job, init);
      assert ConfiguredSet(job, n) - Elements(order) == running - {k};
      if IsConfigured(job, k) {
        assert k in running;
        RunFinish(job, before, Fan(n, running, channel), k);
        assert before + [Finish(k)] == DispatchAll(n) + FinishAll(job, order);
        assert channel + [k] == Unconfigured(job, n) + Configured(job, order);
      } else {
        assert running - {k} == running;
      }
    }
  }

  // ---------- What a step contributes ----------

  /** The parameters of one retrieval. */
  datatype Query = Query(rules: Rules, limit: int, plan: Plan, configured: set<string>, replies: seq<Reply>) {
    function Job(): Job {
      FanOut.Job(plan.steps, configured)
    }

    predicate Valid() {
      |replies| == |plan.steps|
    }
  }

  function Sent(x: Query, k: nat): seq<Assertion>
    requires x.Valid()
  {
    if k < |x.plan.steps| then Contribution(ItemOf(x.Job(), x.replies, k)) else []
  }

  function AllSent(x: Query, order: seq<nat>): seq<Assertion>
    requires x.Valid()
  {
    if order == [] then [] else AllSent(x, order[..|order| - 1]) + Sent(x, order[|order| - 1])
  }

  lemma {:induction false} AllSentJoined(x: Query, a: seq<nat>, b: seq<nat>)
    requires x.Valid()
    ensures AllSent(x, a + b) == AllSent(x, a) + AllSent(x, b)
  {
    if b == [] {
      assert a + b == a;
    } else {
      AllSentJoined(x, a, b[..|b| - 1]);
      assert (a + b)[..|a + b| - 1] == a + b[..|b| - 1];
    }
  }

  lemma {:induction false} AssertionsAreSent(x: Query, order: seq<nat>)
    requires x.Valid() && forall i :: 0 <= i < |order| ==> order[i] < |x.plan.steps|
    ensures Assertions(Items(x.Job(), x.replies, order)) == AllSent(x, order)
  {
    if order != [] {
      AssertionsAreSent(x, order[..|order| - 1]);
      assert Items(x.Job(), x.replies, order)[..|order| - 1] == Items(x.Job(), x.replies, order[..|order| - 1]);
    }
  }

  /** Steps without a retriever contribute nothing. */
  lemma {:induction false} ConfiguredAreSent(x: Query, order: seq<nat>)
    requires x.Valid()
    ensures AllSent(x, Configured(x.Job(), order)) == AllSent(x, order)
  {
    if order != [] {
      var init, k := order[..|order| - 1], order[|order| - 1];
      ConfiguredAreSent(x, init);
      if IsConfigured(x.Job(), k) {
        assert (Configured(x.Job(), init) + [k])[..|Configured(x.Job(), init)|] == Configured(x.Job(), init);
      } else {
        assert Sent(x, k) == [];
      }
    }
  }

  lemma {:induction false} UnconfiguredAreEmpty(x: Query, n: nat)
    requires x.Valid()
    ensures AllSent(x, Unconfigured(x.Job(), n)) == []
  {
    if n > 0 {
      UnconfiguredAreEmpty(x, n - 1);
      var before := Unconfigured(x.Job(), n - 1);
      assert (before + [n - 1])[..|before|] == before;
    }
  }

  /** The assertions a finished schedule leaves, in arrival order. */
  ghost function Gathered(x: Query, schedule: seq<Move>): seq<Assertion>
    requires x.Valid() && Finished(x.Job(), schedule)
  {
    Assertions(Delivered(x.Job(), x.replies, schedule))
  }

  lemma OrderOf(x: Query, schedule: seq<Move>) returns (order: seq<nat>)
    requires x.Valid() && Finished(x.Job(), schedule)
    ensures Ordering(x.Job(), order) && Gathered(x, schedule) == AllSent(x, order)
  {
    order := Run(x.Job(), schedule).value.channel;
    EachStepDeliversOnce(x.Job(), schedule);
    RunsOverSteps(x.Job(), order);
    AssertionsAreSent(x, order);
  }

  lemma UpToIsDistinct(n: nat)
    ensures NoRepeats(UpTo(n))
  {
  }

  /** Every order of the steps is the order in which some schedule leaves their assertions. */
  lemma ScheduleOf(x: Query, order: seq<nat>) returns (schedule: seq<Move>)
    requires x.Valid() && Ordering(x.Job(), order)
    ensures Finished(x.Job(), schedule) && Gathered(x, schedule) == AllSent(x, order)
  {
    var job, n := x.Job(), |x.plan.steps|;
    UpToIsDistinct(n);
    NoRepeatsPermute(UpTo(n), order);
    RunFinishAll(job, order);
    RunsOverSteps(job, order);
    schedule := DispatchAll(n) + FinishAll(job, order);
    assert ConfiguredSet(job, n) - Elements(order) == {};
    assert Finished(job, schedule);
    var channel := Unconfigured(job, n) + Configured(job, order);
    EachStepDeliversOnce(job, schedule);
    RunsOverSteps(job, channel);
    AssertionsAreSent(x, channel);
    AllSentJoined(x, Unconfigured(job, n), Configured(job, order));
    UnconfiguredAreEmpty(x, n);
    ConfiguredAreSent(x, order);
  }

  // ---------- One slot ----------

  /** What a step contributes to a slot. */
  function Part(x: Query, k: nat, slot: string): seq<Assertion>
    requires x.Valid()
  {
    InSlot(Sent(x, k), slot)
  }

  function Parts(x: Query, order: seq<nat>, slot: string): seq<seq<Assertion>>
    requires x.Valid()
  {
    seq(|order|, i requires 0 <= i < |order| => Part(x, order[i], slot))
  }

  function SlotParts(x: Query, slot: string): seq<seq<Assertion>>
    requires x.Valid()
  {
    Parts(x, UpTo(|x.plan.steps|), slot)
  }

  lemma {:induction false} InSlotJoined(a: seq<Assertion>, b: seq<Assertion>, slot: string)
    ensures InSlot(a + b, slot) == InSlot(a, slot) + InSlot(b, slot)
  {
    hide SlotOf;
    if b == [] {
      assert a + b == a;
    } else {
      InSlotJoined(a, b[..|b| - 1], slot);
      assert (a + b)[..|a + b| - 1] == a + b[..|b| - 1];
    }
  }

  lemma {:induction false} SlotIsFlat(x: Query, order: seq<nat>, slot: string)
    requires x.Valid()
    ensures InSlot(AllSent(x, order), slot) == Flat(Parts(x, order, slot))
  {
    hide Sent;
    if order != [] {
      var init, k := order[..|order| - 1], order[|order| - 1];
      SlotIsFlat(x, init, slot);
      InSlotJoined(AllSent(x, init), Sent(x, k), slot);
      assert Parts(x, order, slot)[..|order| - 1] == Parts(x, init, slot);
    }
  }

  lemma {:induction false} PartsRearranged(x: Query, a: seq<nat>, b: seq<nat>, slot: string)
    requires x.Valid() && multiset(a) == multiset(b)
    ensures multiset(Parts(x, a, slot)) == multiset(Parts(x, b, slot))
  {
    hide Part;
    if a == [] {
      assert |multiset(b)| == 0;
    } else {
      var init, k := a[..|a| - 1], a[|a| - 1];
      var front, back := LastTakenOut(a, b, k);
      PartsRearranged(x, init, front + back, slot);
      assert Parts(x, a, slot) == Parts(x, init, slot) + [Part(x, k, slot)];
      assert Parts(x, b, slot) == Parts(x, front, slot) + [Part(x, k, slot)] + Parts(x, back, slot);
      assert Parts(x, front + back, slot) == Parts(x, front, slot) + Parts(x, back, slot);
    }
  }

  /** Rearranged parts come from rearranged steps. */
  lemma {:induction false} OrderOfParts(x: Query, a: seq<nat>, parts: seq<seq<Assertion>>, slot: string)
    returns (b: seq<nat>)
    requires x.Valid() && multiset(Parts(x, a, slot)) == multiset(parts)
    ensures multiset(b) == multiset(a) && Parts(x, b, slot) == parts
  {
    hide Part;
    if a == [] {
      assert |multiset(parts)| == 0;
      b := [];
    } else {
      var init, k := a[..|a| - 1], a[|a| - 1];
      assert Parts(x, a, slot)[..|a| - 1] == Parts(x, init, slot);
      var front, back := LastTakenOut(Parts(x, a, slot), parts, Part(x, k, slot));
      var rest := OrderOfParts(x, init, front + back, slot);
      assert |Parts(x, rest, slot)| == |rest| == |front| + |back|;
      b := rest[..|front|] + [k] + rest[|front|..];
      assert rest == rest[..|front|] + rest[|front|..] && a == init + [k];
      assert Parts(x, b, slot)
          == Parts(x, rest, slot)[..|front|] + [Part(x, k, slot)] + Parts(x, rest, slot)[|front|..];
    }
  }

  /** Under the schedule the slot gets a verdict, with this outcome. */
  ghost predicate SlotEnds(x: Query, schedule: seq<Move>, slot: string, o: Outcome)
    requires x.Valid() && Finished(x.Job(), schedule)
  {
    var r, cs := x.rules, InSlot(Gathered(x, schedule), slot);
    cs != [] && OutcomeOf(r.u, SlotVerdict(r.u, r.policy, slot, cs, r.now)) == o
  }

  ghost predicate ScheduleEnds(x: Query, slot: string, o: Outcome)
    requires x.Valid()
  {
    exists schedule :: Finished(x.Job(), schedule) && SlotEnds(x, schedule, slot, o)
  }

  lemma SlotEndsAsParts(x: Query, schedule: seq<Move>, slot: string, o: Outcome)
    requires x.Valid() && Finished(x.Job(), schedule) && SlotEnds(x, schedule, slot, o)
    ensures CanEnd(x.rules, SlotParts(x, slot), o)
  {
    hide SlotVerdict;
    hide CanEnd;
    hide Flat;
    hide Finished;
    hide AllSent;
    hide InSlot;
    var order := OrderOf(x, schedule);
    SlotIsFlat(x, order, slot);
    PartsRearranged(x, order, UpTo(|x.plan.steps|), slot);
    hide Gathered;
    hide Parts;
    ArrangementCanEnd(x.rules, slot, Parts(x, order, slot));
    CanEndRearranged(x.rules, Parts(x, order, slot), SlotParts(x, slot), o);
  }

  /** Schedules give a slot exactly the outcomes that the parts its steps contribute can end in. */
  lemma ScheduledOutcomesExactly(x: Query, slot: string, o: Outcome)
    requires x.Valid()
    ensures ScheduleEnds(x, slot, o) <==> CanEnd(x.rules, SlotParts(x, slot), o)
  {
    hide SlotVerdict;
    hide CanEnd;
    hide Flat;
    hide Finished;
    hide AllSent;
    hide InSlot;
    hide Gathered;
    hide Parts;
    if schedule :| Finished(x.Job(), schedule) && SlotEnds(x, schedule, slot, o) {
      SlotEndsAsParts(x, schedule, slot, o);
    }
    if CanEnd(x.rules, SlotParts(x, slot), o) {
      OutcomesExactly(x.rules, slot, SlotParts(x, slot), o);
      var parts :| multiset(parts) == multiset(SlotParts(x, slot)) && ArrangedEnds(x.rules, slot, parts, o);
      var order := OrderOfParts(x, UpTo(|x.plan.steps|), parts, slot);
      SlotIsFlat(x, order, slot);
      var schedule := ScheduleOf(x, order);
      assert SlotEnds(x, schedule, slot, o);
    }
  }

  // ---------- Blocking gaps ----------

  const Disputed := Outcome(UnresolvedConflict, None)

  ghost function PackOf(x: Query, schedule: seq<Move>): Pack
    requires x.Valid() && Finished(x.Job(), schedule)
  {
    Packed(x.rules.u, x.rules.policy, x.limit, x.plan, Delivered(x.Job(), x.replies, schedule), x.rules.now)
  }

  /** A required step that its answer leaves unsatisfied. */
  predicate Unmet(x: Query, k: nat)
    requires x.Valid()
  {
    k < |x.plan.steps| && x.plan.steps[k].required && !Settled(ItemOf(x.Job(), x.replies, k)).satisfied
  }

  /** Blocking whatever the schedule: an issue of the plan or a required step left unsatisfied. */
  ghost predicate AlwaysBlocks(x: Query, gap: string)
    requires x.Valid()
  {
    || (gap in x.plan.blockingIssues && gap != "")
    || (exists k: nat :: Unmet(x, k) && gap == RequiredGap(x.plan.steps[k].source))
  }

  lemma ResultsOfSteps(x: Query, schedule: seq<Move>, result: StepResult)
    requires x.Valid() && Finished(x.Job(), schedule)
    ensures result in Results(Delivered(x.Job(), x.replies, schedule)) <==>
              exists k :: 0 <= k < |x.plan.steps| && result == Settled(ItemOf(x.Job(), x.replies, k))
  {
    hide Settled;
    hide ItemOf;
    hide Finished;
    hide Results;
    var inOrder := Items(x.Job(), x.replies, UpTo(|x.plan.steps|));
    DeliveredInAnyOrder(x.Job(), x.replies, schedule);
    ResultsRearranged(Delivered(x.Job(), x.replies, schedule), inOrder, result);
    ResultMembers(inOrder, result);
    if k: nat :| k < |x.plan.steps| && result == Settled(ItemOf(x.Job(), x.replies, k)) {
      assert inOrder[k] in inOrder;
    }
  }

  lemma VerdictsOfSlots(r: Rules, all: seq<Assertion>, v: Verdict)
    ensures v in Arbitrated(r.u, r.policy, all, r.now) <==>
              InSlot(all, v.slotId) != [] && v == SlotVerdict(r.u, r.policy, v.slotId, InSlot(all, v.slotId), r.now)
  {
    hide SlotVerdict;
    hide InSlot;
    hide Slots;
    var verdicts, slots := Arbitrated(r.u, r.policy, all, r.now), SortStrings(Slots(all));
    SlotsRearranged(all, all);
    if v in verdicts {
      var i :| 0 <= i < |verdicts| && verdicts[i] == v;
      SlotNamed(r.u, r.policy, slots[i], InSlot(all, slots[i]), r.now);
    }
    if InSlot(all, v.slotId) != [] {
      var i :| 0 <= i < |slots| && slots[i] == v.slotId;
      assert verdicts[i] in verdicts;
    }
  }

  lemma DisputedSlots(x: Query, schedule: seq<Move>, slot: string)
    requires x.Valid() && Finished(x.Job(), schedule)
    ensures SlotEnds(x, schedule, slot, Disputed) <==>
              var r := x.rules;
              exists v :: v in Arbitrated(r.u, r.policy, Gathered(x, schedule), r.now)
                          && v.status == UnresolvedConflict && v.slotId == slot
  {
    hide SlotVerdict;
    hide InSlot;
    hide Gathered;
    hide Arbitrated;
    hide Finished;
    var r, all := x.rules, Gathered(x, schedule);
    if InSlot(all, slot) != [] {
      var v := SlotVerdict(r.u, r.policy, slot, InSlot(all, slot), r.now);
      SlotNamed(r.u, r.policy, slot, InSlot(all, slot), r.now);
      VerdictsOfSlots(r, all, v);
    }
    forall v | v in Arbitrated(r.u, r.policy, all, r.now) && v.slotId == slot
      ensures InSlot(all, slot) != [] && v == SlotVerdict(r.u, r.policy, slot, InSlot(all, slot), r.now)
    {
      VerdictsOfSlots(r, all, v);
    }
  }

  /** Under a schedule these block: what always does, and the slots that it leaves unresolved. */
  lemma GapsOfSchedule(x: Query, schedule: seq<Move>, gap: string)
    requires x.Valid() && Finished(x.Job(), schedule)
    ensures gap in PackOf(x, schedule).blockingGaps <==>
              AlwaysBlocks(x, gap) || exists slot :: SlotEnds(x, schedule, slot, Disputed) && gap == ConflictGap(slot)
  {
    hide Arbitrated;
    hide Assembled;
    hide Settled;
    hide Finished;
    hide Results;
    hide SlotEnds;
    var r, items := x.rules, Delivered(x.Job(), x.replies, schedule);
    var arbitration := Arbitrated(r.u, r.policy, Assertions(items), r.now);
    assert Assertions(items) == Gathered(x, schedule);
    BlockingGapsExactly(x.limit, x.plan, Results(items), arbitration, gap);
    forall slot
      ensures SlotEnds(x, schedule, slot, Disputed) <==>
                exists v :: v in arbitration && v.status == UnresolvedConflict && v.slotId == slot
    {
      DisputedSlots(x, schedule, slot);
    }
    forall result
      ensures result in Results(items) <==>
                exists k :: 0 <= k < |x.plan.steps| && result == Settled(ItemOf(x.Job(), x.replies, k))
    {
      ResultsOfSteps(x, schedule, result);
    }
    hide Gathered;
    UnmetResults(x, schedule, gap);
  }

  lemma UnmetResults(x: Query, schedule: seq<Move>, gap: string)
    requires x.Valid() && Finished(x.Job(), schedule)
    ensures (exists k: nat :: Unmet(x, k) && gap == RequiredGap(x.plan.steps[k].source)) <==>
              exists result :: result in Results(Delivered(x.Job(), x.replies, schedule))
                               && result.required && !result.satisfied && gap == RequiredGap(result.source)
  {
    hide Finished;
    hide Results;
    hide Delivered;
    hide RequiredGap;
    var items := Delivered(x.Job(), x.replies, schedule);
    if k: nat :| Unmet(x, k) && gap == RequiredGap(x.plan.steps[k].source) {
      ResultsOfSteps(x, schedule, Settled(ItemOf(x.Job(), x.replies, k)));
    }
    if result :| result in Results(items) && result.required && !result.satisfied && gap == RequiredGap(result.source) {
      ResultsOfSteps(x, schedule, result);
      var k: nat :| k < |x.plan.steps| && result == Settled(ItemOf(x.Job(), x.replies, k));
      assert Unmet(x, k);
    }
  }

  ghost predicate SameGaps(p: Pack, q: Pack) {
    forall gap :: gap in p.blockingGaps <==> gap in q.blockingGaps
  }

  ghost predicate GapsAgree(x: Query)
    requires x.Valid()
  {
    forall first, second :: Finished(x.Job(), first) && Finished(x.Job(), second) ==>
      SameGaps(PackOf(x, first), PackOf(x, second))
  }

  /** If parts can end in a dispute they end in nothing else. */
  ghost predicate AllOrNone(r: Rules, parts: seq<seq<Assertion>>) {
    CanEnd(r, parts, Disputed) ==> forall o :: CanEnd(r, parts, o) ==> o == Disputed
  }

  ghost predicate DisputesAgree(x: Query)
    requires x.Valid()
  {
    forall slot :: ConflictGap(slot) in x.plan.blockingIssues || AllOrNone(x.rules, SlotParts(x, slot))
  }

  lemma ConflictGapsDiffer(slot: string, other: string, source: string)
    ensures ConflictGap(slot) == ConflictGap(other) ==> slot == other
    ensures ConflictGap(slot) != RequiredGap(source) && ConflictGap(slot) != ""
  {
    var head := "unresolved fact conflict: ";
    assert ConflictGap(slot)[|head|..] == slot && ConflictGap(other)[|head|..] == other;
    assert ConflictGap(slot)[0] == 'u' && RequiredGap(source)[0] == 'r';
  }

  /** Every schedule gives a verdict on the same slots. */
  lemma SlotHasOutcome(x: Query, schedule: seq<Move>, slot: string, o: Outcome) returns (own: Outcome)
    requires x.Valid() && Finished(x.Job(), schedule) && CanEnd(x.rules, SlotParts(x, slot), o)
    ensures SlotEnds(x, schedule, slot, own) && CanEnd(x.rules, SlotParts(x, slot), own)
  {
    hide SlotVerdict;
    hide CanEnd;
    hide Finished;
    hide Gathered;
    hide InSlot;
    hide Assertions;
    ScheduledOutcomesExactly(x, slot, o);
    var other :| Finished(x.Job(), other) && SlotEnds(x, other, slot, o);
    SameGathered(x, schedule, other);
    InSlotRearranged(Gathered(x, schedule), Gathered(x, other), slot);
    var r, cs := x.rules, InSlot(Gathered(x, schedule), slot);
    SameMembers(cs, InSlot(Gathered(x, other), slot));
    own := OutcomeOf(r.u, SlotVerdict(r.u, r.policy, slot, cs, r.now));
    SlotEndsAsParts(x, schedule, slot, own);
  }

  lemma SameGathered(x: Query, first: seq<Move>, second: seq<Move>)
    requires x.Valid() && Finished(x.Job(), first) && Finished(x.Job(), second)
    ensures multiset(Gathered(x, first)) == multiset(Gathered(x, second))
  {
    hide Finished;
    hide Items;
    hide Delivered;
    DeliveredInAnyOrder(x.Job(), x.replies, first);
    DeliveredInAnyOrder(x.Job(), x.replies, second);
    AssertionsOfRearranged(Delivered(x.Job(), x.replies, first), Delivered(x.Job(), x.replies, second));
  }

  lemma DisputesKeepGaps(x: Query, first: seq<Move>, second: seq<Move>, gap: string)
    requires x.Valid() && Finished(x.Job(), first) && Finished(x.Job(), second) && DisputesAgree(x)
    requires gap in PackOf(x, first).blockingGaps
    ensures gap in PackOf(x, second).blockingGaps
  {
    hide SlotEnds;
    hide CanEnd;
    hide Finished;
    hide PackOf;
    hide SlotParts;
    hide ConflictGap;
    GapsOfSchedule(x, first, gap);
    GapsOfSchedule(x, second, gap);
    if !AlwaysBlocks(x, gap) {
      var slot :| SlotEnds(x, first, slot, Disputed) && gap == ConflictGap(slot);
      SlotEndsAsParts(x, first, slot, Disputed);
      ConflictGapsDiffer(slot, slot, "");
      var own := SlotHasOutcome(x, second, slot, Disputed);
    }
  }

  /**
   The blocking gaps are the same for every schedule exactly when no slot, unless the plan lists its gap
   anyway, can end both in a dispute and otherwise.
   */
  lemma GapsAgreeExactly(x: Query)
    requires x.Valid()
    ensures GapsAgree(x) <==> DisputesAgree(x)
  {
    hide SlotEnds;
    hide CanEnd;
    hide Finished;
    hide PackOf;
    hide SlotParts;
    hide ConflictGap;
    hide RequiredGap;
    if DisputesAgree(x) {
      forall first, second | Finished(x.Job(), first) && Finished(x.Job(), second)
        ensures SameGaps(PackOf(x, first), PackOf(x, second))
      {
        forall gap
          ensures gap in PackOf(x, first).blockingGaps <==> gap in PackOf(x, second).blockingGaps
        {
          if gap in PackOf(x, first).blockingGaps {
            DisputesKeepGaps(x, first, second, gap);
          }
          if gap in PackOf(x, second).blockingGaps {
            DisputesKeepGaps(x, second, first, gap);
          }
        }
      }
    }
    if GapsAgree(x) {
      forall slot | ConflictGap(slot) !in x.plan.blockingIssues && CanEnd(x.rules, SlotParts(x, slot), Disputed)
        ensures AllOrNone(x.rules, SlotParts(x, slot))
      {
        forall o | CanEnd(x.rules, SlotParts(x, slot), o)
          ensures o == Disputed
        {
          GapsTellDisputes(x, slot, o);
        }
      }
    }
  }

  lemma GapsTellDisputes(x: Query, slot: string, o: Outcome)
    requires x.Valid() && GapsAgree(x) && ConflictGap(slot) !in x.plan.blockingIssues
    requires CanEnd(x.rules, SlotParts(x, slot), Disputed) && CanEnd(x.rules, SlotParts(x, slot), o)
    ensures o == Disputed
  {
    hide CanEnd;
    hide Finished;
    hide PackOf;
    hide SlotParts;
    hide ConflictGap;
    hide RequiredGap;
    hide SlotVerdict;
    hide Gathered;
    hide InSlot;
    ScheduledOutcomesExactly(x, slot, Disputed);
    ScheduledOutcomesExactly(x, slot, o);
    var first :| Finished(x.Job(), first) && SlotEnds(x, first, slot, Disputed);
    var second :| Finished(x.Job(), second) && SlotEnds(x, second, slot, o);
    var gap := ConflictGap(slot);
    GapsOfSchedule(x, first, gap);
    GapsOfSchedule(x, second, gap);
    assert SameGaps(PackOf(x, first), PackOf(x, second));
    forall other, source
      ensures (gap == ConflictGap(other) ==> slot == other) && gap != RequiredGap(source) && gap != ""
    {
      ConflictGapsDiffer(slot, other, source);
    }
    assert !AlwaysBlocks(x, gap);
    var other :| SlotEnds(x, second, other, Disputed) && gap == ConflictGap(other);
    ConflictGapsDiffer(slot, other, "");
  }

  // ---------- Reported gaps ----------

  /** What a step has to say: the gaps of its answer, its error, or that it found nothing without saying why. */
  predicate Says(x: Query, k: nat, gap: string)
    requires x.Valid() && k < |x.plan.steps|
  {
    var reply := ItemOf(x.Job(), x.replies, k).reply;
    || gap in reply.answer.gaps
    || reply.error == Some(gap)
    || (reply.error.None? && !FanOut.Usable(reply.answer) && reply.answer.gaps == []
        && gap == "source returned no usable result: " + x.plan.steps[k].source)
  }

  lemma {:induction false} GapsOfResults(results: seq<StepResult>, gap: string)
    ensures gap in GapsOf(results) <==> gap != "" && exists result :: result in results && gap in result.gaps
  {
    hide WithAllUnique;
    if results != [] {
      var init, last := results[..|results| - 1], results[|results| - 1];
      GapsOfResults(init, gap);
      AllUniqueMembers(GapsOf(init), last.gaps, gap);
      assert results == init + [last] && last in results;
    }
  }

  lemma SettledSays(x: Query, k: nat, gap: string)
    requires x.Valid() && k < |x.plan.steps|
    ensures gap in Settled(ItemOf(x.Job(), x.replies, k)).gaps <==> Says(x, k, gap)
  {
    var item := ItemOf(x.Job(), x.replies, k);
    if item.reply.error.Some? {
      assert forall g :: g in item.reply.answer.gaps + [item.reply.error.value] <==>
                           g in item.reply.answer.gaps || g == item.reply.error.value;
    }
  }

  /**
   Whatever the schedule, a pack reports exactly what its steps have to say, each text once and no empty
   one; and a step that failed or found nothing always has something to say.
   */
  lemma GapsOfPackExactly(x: Query, schedule: seq<Move>, gap: string)
    requires x.Valid() && Finished(x.Job(), schedule)
    ensures gap in PackOf(x, schedule).gaps <==> gap != "" && exists k: nat :: k < |x.plan.steps| && Says(x, k, gap)
    ensures forall k: nat :: k < |x.plan.steps| && !Settled(ItemOf(x.Job(), x.replies, k)).satisfied ==>
              exists said :: Says(x, k, said)
  {
    GapsOfResults(Results(Delivered(x.Job(), x.replies, schedule)), gap);
    hide *;
    assert PackOf(x, schedule).gaps == GapsOf(Results(Delivered(x.Job(), x.replies, schedule))) by {
      GapsOfDelivered(x, schedule);
    }
    if result :| result in Results(Delivered(x.Job(), x.replies, schedule)) && gap in result.gaps {
      ResultsOfSteps(x, schedule, result);
      var k: nat :| k < |x.plan.steps| && result == Settled(ItemOf(x.Job(), x.replies, k));
      SettledSays(x, k, gap);
    }
    if k: nat :| k < |x.plan.steps| && Says(x, k, gap) {
      SettledSays(x, k, gap);
      ResultsOfSteps(x, schedule, Settled(ItemOf(x.Job(), x.replies, k)));
    }
    forall k: nat | k < |x.plan.steps| && !Settled(ItemOf(x.Job(), x.replies, k)).satisfied
      ensures exists said :: Says(x, k, said)
    {
      var said := UnsatisfiedSays(x, k);
    }
  }

  lemma GapsOfDelivered(x: Query, schedule: seq<Move>)
    requires x.Valid() && Finished(x.Job(), schedule)
    ensures PackOf(x, schedule).gaps == GapsOf(Results(Delivered(x.Job(), x.replies, schedule)))
  {
    hide Finished;
    hide Arbitrated;
    hide Results;
    hide Delivered;
  }

  lemma UnsatisfiedSays(x: Query, k: nat) returns (said: string)
    requires x.Valid() && k < |x.plan.steps| && !Settled(ItemOf(x.Job(), x.replies, k)).satisfied
    ensures Says(x, k, said)
  {
    said := Settled(ItemOf(x.Job(), x.replies, k)).gaps[0];
    SettledSays(x, k, said);
  }

  // ---------- Completeness ----------

  /** Nothing blocks the pack under any schedule. */
  ghost predicate Unblocked(x: Query)
    requires x.Valid()
  {
    && (forall issue :: issue in x.plan.blockingIssues ==> issue == "")
    && (forall k: nat :: k < |x.plan.steps| ==> !Unmet(x, k))
    && (forall slot :: !CanEnd(x.rules, SlotParts(x, slot), Disputed))
  }

  /** Some step brings knowledge or a path. */
  ghost predicate FindsDocuments(x: Query)
    requires x.Valid()
  {
    exists k: nat :: k < |x.plan.steps| && BringsDocuments(x, k)
  }

  predicate BringsDocuments(x: Query, k: nat)
    requires x.Valid() && k < |x.plan.steps|
  {
    var result := Settled(ItemOf(x.Job(), x.replies, k));
    result.knowledge != [] || result.paths != []
  }

  /** The step's first assertion for the slot has something ranked in its scope. */
  ghost predicate Fertile(x: Query, k: nat, slot: string)
    requires x.Valid()
  {
    var part := Part(x, k, slot);
    part != [] && !Barren(x.rules, Pool(SlotParts(x, slot)), part[0])
  }

  ghost predicate Touches(x: Query, k: nat, slots: set<string>)
    requires x.Valid()
  {
    k < |x.plan.steps| && exists slot :: slot in slots && Part(x, k, slot) != []
  }

  /** Whichever step is the first to reach these slots is fertile for one of them. */
  ghost predicate Secured(x: Query, slots: set<string>)
    requires x.Valid()
  {
    && (exists k :: Touches(x, k, slots))
    && forall k :: Touches(x, k, slots) ==> exists slot :: slot in slots && Fertile(x, k, slot)
  }

  ghost predicate HasFact(x: Query, schedule: seq<Move>)
    requires x.Valid() && Finished(x.Job(), schedule)
  {
    exists slot, o: Outcome :: SlotEnds(x, schedule, slot, o) && o.value.Some?
  }

  lemma FactsOfSlots(x: Query, schedule: seq<Move>)
    requires x.Valid() && Finished(x.Job(), schedule)
    ensures HasFact(x, schedule) <==>
              var r := x.rules;
              exists v :: v in Arbitrated(r.u, r.policy, Gathered(x, schedule), r.now) && v.accepted.Some?
  {
    hide SlotVerdict;
    hide InSlot;
    hide Gathered;
    hide Arbitrated;
    hide Finished;
    hide ValueKey;
    var r, all := x.rules, Gathered(x, schedule);
    if slot, o: Outcome :| SlotEnds(x, schedule, slot, o) && o.value.Some? {
      var v := SlotVerdict(r.u, r.policy, slot, InSlot(all, slot), r.now);
      SlotNamed(r.u, r.policy, slot, InSlot(all, slot), r.now);
      VerdictsOfSlots(r, all, v);
    }
    if v :| v in Arbitrated(r.u, r.policy, all, r.now) && v.accepted.Some? {
      VerdictsOfSlots(r, all, v);
      assert SlotEnds(x, schedule, v.slotId, OutcomeOf(r.u, v));
    }
  }

  lemma NoDisputes(x: Query, schedule: seq<Move>)
    requires x.Valid() && Finished(x.Job(), schedule)
    ensures (forall slot :: !SlotEnds(x, schedule, slot, Disputed)) <==>
              var r := x.rules;
              forall v :: v in Arbitrated(r.u, r.policy, Gathered(x, schedule), r.now) ==>
                v.status != UnresolvedConflict
  {
    hide Arbitrated;
    hide Finished;
    hide SlotEnds;
    hide Gathered;
    var r := x.rules;
    if v :| v in Arbitrated(r.u, r.policy, Gathered(x, schedule), r.now) && v.status == UnresolvedConflict {
      DisputedSlots(x, schedule, v.slotId);
    }
    if slot :| SlotEnds(x, schedule, slot, Disputed) {
      DisputedSlots(x, schedule, slot);
    }
  }

  /** Completeness under one schedule. */
  lemma CompleteUnder(x: Query, schedule: seq<Move>)
    requires x.Valid() && Finished(x.Job(), schedule)
    ensures PackOf(x, schedule).complete <==>
              && (forall issue :: issue in x.plan.blockingIssues ==> issue == "")
              && (forall k: nat :: k < |x.plan.steps| ==> !Unmet(x, k))
              && (forall slot :: !SlotEnds(x, schedule, slot, Disputed))
              && (HasFact(x, schedule) || FindsDocuments(x))
  {
    hide Arbitrated;
    hide Assembled;
    hide Settled;
    hide Finished;
    hide Results;
    hide SlotEnds;
    hide HasFact;
    var r, items := x.rules, Delivered(x.Job(), x.replies, schedule);
    var arbitration := Arbitrated(r.u, r.policy, Assertions(items), r.now);
    assert Assertions(items) == Gathered(x, schedule);
    CompleteExactly(x.limit, x.plan, Results(items), arbitration);
    FactsOfSlots(x, schedule);
    NoDisputes(x, schedule);
    forall result
      ensures result in Results(items) <==>
                exists k :: 0 <= k < |x.plan.steps| && result == Settled(ItemOf(x.Job(), x.replies, k))
    {
      ResultsOfSteps(x, schedule, result);
    }
    hide Gathered;
    hide Delivered;
    DocumentsOfResults(x, Results(items));
    UnmetOfResults(x, Results(items));
  }

  lemma DocumentsOfResults(x: Query, results: seq<StepResult>)
    requires x.Valid()
    requires forall result :: result in results <==>
               exists k :: 0 <= k < |x.plan.steps| && result == Settled(ItemOf(x.Job(), x.replies, k))
    ensures FindsDocuments(x) <==>
              exists result :: result in results && (result.knowledge != [] || result.paths != [])
  {
    hide Settled;
    hide ItemOf;
    if k: nat :| k < |x.plan.steps| && BringsDocuments(x, k) {
      assert Settled(ItemOf(x.Job(), x.replies, k)) in results;
    }
    if result :| result in results && (result.knowledge != [] || result.paths != []) {
      var k: nat :| k < |x.plan.steps| && result == Settled(ItemOf(x.Job(), x.replies, k));
      assert BringsDocuments(x, k);
    }
  }

  lemma UnmetOfResults(x: Query, results: seq<StepResult>)
    requires x.Valid()
    requires forall result :: result in results <==>
               exists k :: 0 <= k < |x.plan.steps| && result == Settled(ItemOf(x.Job(), x.replies, k))
    ensures (forall result :: result in results && result.required ==> result.satisfied) <==>
              forall k: nat :: k < |x.plan.steps| ==> !Unmet(x, k)
  {
    if result :| result in results && result.required && !result.satisfied {
      var k: nat :| k < |x.plan.steps| && result == Settled(ItemOf(x.Job(), x.replies, k));
      assert Unmet(x, k);
    }
    if k: nat :| k < |x.plan.steps| && Unmet(x, k) {
      assert Settled(ItemOf(x.Job(), x.replies, k)) in results;
    }
  }

  // ---------- Who reaches a slot first ----------

  ghost predicate FirstAt(x: Query, order: seq<nat>, i: nat, slot: string)
    requires x.Valid()
  {
    i < |order| && Part(x, order[i], slot) != [] && forall j :: 0 <= j < i ==> Part(x, order[j], slot) == []
  }

  lemma {:induction false} EmptyParts(parts: seq<seq<Assertion>>)
    requires forall i :: 0 <= i < |parts| ==> parts[i] == []
    ensures Flat(parts) == []
  {
    if parts != [] {
      EmptyParts(parts[..|parts| - 1]);
    }
  }

  lemma FirstArrival(x: Query, order: seq<nat>, i: nat, slot: string)
    requires x.Valid() && FirstAt(x, order, i, slot)
    ensures InSlot(AllSent(x, order), slot) != []
    ensures InSlot(AllSent(x, order), slot)[0] == Part(x, order[i], slot)[0]
  {
    hide Part;
    hide InSlot;
    hide AllSent;
    hide Flat;
    var parts := Parts(x, order, slot);
    SlotIsFlat(x, order, slot);
    EmptyParts(parts[..i]);
    FlatAt(parts, i);
  }

  /** The step that reaches a slot first decides whether anything is ranked there. */
  lemma FirstDecides(x: Query, schedule: seq<Move>, order: seq<nat>, i: nat, slot: string) returns (o: Outcome)
    requires x.Valid() && Finished(x.Job(), schedule) && Ordering(x.Job(), order)
    requires Gathered(x, schedule) == AllSent(x, order) && FirstAt(x, order, i, slot)
    ensures SlotEnds(x, schedule, slot, o)
    ensures o == Nothing <==> !Fertile(x, order[i], slot)
    ensures o.value.Some? <==> o != Nothing && o != Disputed
  {
    hide SlotVerdict;
    hide InSlot;
    hide AllSent;
    hide Finished;
    hide Gathered;
    hide Barren;
    hide Part;
    hide Flat;
    var r, cs := x.rules, InSlot(AllSent(x, order), slot);
    FirstArrival(x, order, i, slot);
    o := OutcomeOf(r.u, SlotVerdict(r.u, r.policy, slot, cs, r.now));
    SlotNamed(r.u, r.policy, slot, cs, r.now);
    VerdictIsLed(r, slot, cs);
    RankedOfMembers(r, cs, cs[0]);
    SlotIsFlat(x, order, slot);
    FlatMembers(Parts(x, order, slot));
    PartsRearranged(x, order, UpTo(|x.plan.steps|), slot);
    FlatRearranged(Parts(x, order, slot), SlotParts(x, slot));
    hide ValidOf;
    hide ValueKey;
  }

  lemma {:induction false} FirstTouch(x: Query, order: seq<nat>, slots: set<string>) returns (i: nat)
    requires x.Valid() && exists k :: k in order && Touches(x, k, slots)
    ensures i < |order| && Touches(x, order[i], slots)
    ensures forall j :: 0 <= j < i ==> !Touches(x, order[j], slots)
  {
    hide Touches;
    if Touches(x, order[0], slots) {
      i := 0;
    } else {
      var k :| k in order && Touches(x, k, slots);
      assert order == [order[0]] + order[1..];
      assert k in order[1..];
      var j := FirstTouch(x, order[1..], slots);
      i := j + 1;
      forall n | 0 <= n < i
        ensures !Touches(x, order[n], slots)
      {
        assert n > 0 ==> order[n] == order[1..][n - 1];
      }
    }
  }

  lemma SecuredHasFact(x: Query, schedule: seq<Move>, slots: set<string>)
    requires x.Valid() && Finished(x.Job(), schedule) && Secured(x, slots)
    requires forall slot :: !SlotEnds(x, schedule, slot, Disputed)
    ensures HasFact(x, schedule)
  {
    hide SlotEnds;
    hide Part;
    hide Barren;
    hide AllSent;
    hide Finished;
    hide Gathered;
    var order := OrderOf(x, schedule);
    RunsOverSteps(x.Job(), order);
    var k :| Touches(x, k, slots);
    assert k in order;
    var i := FirstTouch(x, order, slots);
    var slot :| slot in slots && Fertile(x, order[i], slot);
    forall j | 0 <= j < i
      ensures Part(x, order[j], slot) == []
    {
      assert !Touches(x, order[j], slots);
    }
    var o := FirstDecides(x, schedule, order, i, slot);
  }

  // ---------- Orders that rank nothing ----------

  /** The step that reaches the slot first finds nothing ranked there. */
  ghost predicate BarrenFirst(x: Query, order: seq<nat>, slot: string)
    requires x.Valid()
  {
    exists i: nat :: FirstAt(x, order, i, slot) && !Fertile(x, order[i], slot)
  }

  lemma BarrenFirstStays(x: Query, order: seq<nat>, more: seq<nat>, slot: string)
    requires x.Valid() && BarrenFirst(x, order, slot)
    ensures BarrenFirst(x, order + more, slot)
  {
    hide Part;
    hide Fertile;
    var i: nat :| FirstAt(x, order, i, slot) && !Fertile(x, order[i], slot);
    assert forall j :: 0 <= j < |order| ==> (order + more)[j] == order[j];
    assert FirstAt(x, order + more, i, slot);
  }

  /** Steps without repetition can be continued to an order of all. */
  lemma {:induction false} Continued(n: nat, order: seq<nat>) returns (rest: seq<nat>)
    requires NoRepeats(order) && forall k :: k in order ==> k < n
    ensures multiset(order + rest) == multiset(UpTo(n))
  {
    if order == [] {
      rest := UpTo(n);
      assert order + rest == rest;
    } else {
      var init, k := order[..|order| - 1], order[|order| - 1];
      assert order == init + [k] && k in order;
      assert NoRepeats(init) by {
        assert forall i :: 0 <= i < |init| ==> init[i] == order[i];
      }
      assert forall j :: j in init ==> j in order;
      var before := Continued(n, init);
      assert UpTo(n)[k] == k;
      assert k in multiset(init + before) && k !in init;
      rest := MovedToFront(before, k);
      assert order + rest == init + ([k] + rest);
      assert multiset(init + before) == multiset(init) + multiset(before);
    }
  }

  /**
   If no set of slots is secured, some order of the steps reaches every slot with a step that finds
   nothing ranked there: as long as slots are open, a step that is barren for all open ones goes next.
   */
  lemma BarrenOrder(x: Query, order: seq<nat>, open: set<string>) returns (full: seq<nat>)
    requires x.Valid() && NoRepeats(order) && forall k :: k in order ==> k < |x.plan.steps|
    requires forall slots :: !Secured(x, slots)
    requires forall k: nat, slot :: k < |x.plan.steps| && Part(x, k, slot) != [] ==>
               slot in open || BarrenFirst(x, order, slot)
    requires forall k :: k in order ==> !Touches(x, k, open)
    ensures Ordering(x.Job(), full)
    ensures forall k: nat, slot :: k < |x.plan.steps| && Part(x, k, slot) != [] ==> BarrenFirst(x, full, slot)
    decreases |open|
  {
    hide Part;
    hide Fertile;
    hide BarrenFirst;
    if exists k :: Touches(x, k, open) {
      assert !Secured(x, open);
      var k :| Touches(x, k, open) && forall slot :: slot in open ==> !Fertile(x, k, slot);
      var more, left := order + [k], set slot | slot in open && Part(x, k, slot) == [];
      OpenShrinks(x, k, open, left);
      forall j | j in more
        ensures j < |x.plan.steps| && !Touches(x, j, left)
      {
      }
      forall j: nat, slot | j < |x.plan.steps| && Part(x, j, slot) != []
        ensures slot in left || BarrenFirst(x, more, slot)
      {
        if slot !in left {
          Reached(x, order, k, open, slot);
        }
      }
      full := BarrenOrder(x, more, left);
    } else {
      var rest := Continued(|x.plan.steps|, order);
      full := order + rest;
      forall k: nat, slot | k < |x.plan.steps| && Part(x, k, slot) != []
        ensures BarrenFirst(x, full, slot)
      {
        assert !Touches(x, k, open);
        BarrenFirstStays(x, order, rest, slot);
      }
    }
  }

  lemma OpenShrinks(x: Query, k: nat, open: set<string>, left: set<string>)
    requires x.Valid() && Touches(x, k, open) && left == set slot | slot in open && Part(x, k, slot) == []
    ensures |left| < |open| && left <= open
  {
    hide Part;
    var slot :| slot in open && Part(x, k, slot) != [];
    assert left <= open - {slot};
    SmallerSet(left, open - {slot});
  }

  lemma {:induction false} SmallerSet(a: set<string>, b: set<string>)
    requires a <= b
    ensures |a| <= |b|
  {
    assert b == a + (b - a);
    assert |b| == |a| + |b - a|;
  }

  lemma Reached(x: Query, order: seq<nat>, k: nat, open: set<string>, slot: string)
    requires x.Valid() && (slot in open || BarrenFirst(x, order, slot))
    requires forall j :: j in order ==> j < |x.plan.steps| && !Touches(x, j, open)
    requires slot in open ==> Part(x, k, slot) != [] && !Fertile(x, k, slot)
    ensures BarrenFirst(x, order + [k], slot)
  {
    hide Part;
    hide Fertile;
    if slot in open {
      var more := order + [k];
      forall j | 0 <= j < |order|
        ensures Part(x, more[j], slot) == []
      {
        assert more[j] in order;
      }
      assert FirstAt(x, more, |order|, slot);
    } else {
      BarrenFirstStays(x, order, [k], slot);
    }
  }

  function AllSlots(x: Query): set<string>
    requires x.Valid()
  {
    set a | a in AllSent(x, UpTo(|x.plan.steps|)) :: SlotOf(a)
  }

  lemma PartsReachSlots(x: Query, k: nat, slot: string)
    requires x.Valid() && k < |x.plan.steps| && Part(x, k, slot) != []
    ensures slot in AllSlots(x)
  {
    hide SlotOf;
    var a := Part(x, k, slot)[0];
    OutSlotCounts(Sent(x, k), slot);
    assert a in Part(x, k, slot);
    assert a in multiset(Sent(x, k));
    var order := UpTo(|x.plan.steps|);
    assert order == order[..k] + [order[k]] + order[k + 1..];
    AllSentJoined(x, order[..k] + [order[k]], order[k + 1..]);
    AllSentJoined(x, order[..k], [order[k]]);
    assert [order[k]][..0] == [];
    assert AllSent(x, [order[k]]) == Sent(x, k);
  }

  /** Without a secured set of slots some schedule leaves a pack without facts. */
  lemma ScheduleWithoutFacts(x: Query) returns (schedule: seq<Move>)
    requires x.Valid() && forall slots :: !Secured(x, slots)
    ensures Finished(x.Job(), schedule) && !HasFact(x, schedule)
  {
    hide SlotVerdict;
    hide AllSent;
    hide Finished;
    hide Gathered;
    hide Fertile;
    hide Secured;
    hide Part;
    hide AllSlots;
    forall k: nat, slot | k < |x.plan.steps| && Part(x, k, slot) != []
      ensures slot in AllSlots(x)
    {
      PartsReachSlots(x, k, slot);
    }
    var order := BarrenOrder(x, [], AllSlots(x));
    schedule := ScheduleOf(x, order);
    forall slot, o: Outcome | SlotEnds(x, schedule, slot, o)
      ensures o.value.None?
    {
      var k := SomePart(x, order, slot);
      RunsOverSteps(x.Job(), order);
      assert order[k] < |x.plan.steps|;
      assert BarrenFirst(x, order, slot);
      var i: nat :| FirstAt(x, order, i, slot) && !Fertile(x, order[i], slot);
      var own := FirstDecides(x, schedule, order, i, slot);
    }
  }

  lemma SomePart(x: Query, order: seq<nat>, slot: string) returns (i: nat)
    requires x.Valid() && InSlot(AllSent(x, order), slot) != []
    ensures i < |order| && Part(x, order[i], slot) != []
  {
    hide Flat;
    hide AllSent;
    hide InSlot;
    SlotIsFlat(x, order, slot);
    i := FirstPart(Parts(x, order, slot));
  }

  // ---------- When the schedule does not matter ----------

  lemma SomeSchedule(x: Query) returns (schedule: seq<Move>)
    requires x.Valid()
    ensures Finished(x.Job(), schedule)
  {
    schedule := ScheduleOf(x, UpTo(|x.plan.steps|));
  }

  lemma NoDisputeUnder(x: Query, schedule: seq<Move>)
    requires x.Valid() && Finished(x.Job(), schedule) && Unblocked(x)
    ensures forall slot :: !SlotEnds(x, schedule, slot, Disputed)
    ensures PackOf(x, schedule).complete <==> HasFact(x, schedule) || FindsDocuments(x)
  {
    hide SlotEnds;
    hide CanEnd;
    hide Finished;
    hide PackOf;
    hide HasFact;
    hide FindsDocuments;
    hide Unmet;
    hide SlotParts;
    forall slot
      ensures !SlotEnds(x, schedule, slot, Disputed)
    {
      if SlotEnds(x, schedule, slot, Disputed) {
        SlotEndsAsParts(x, schedule, slot, Disputed);
      }
    }
    CompleteUnder(x, schedule);
  }

  ghost predicate AlwaysComplete(x: Query)
    requires x.Valid()
  {
    forall schedule :: Finished(x.Job(), schedule) ==> PackOf(x, schedule).complete
  }

  /**
   Every schedule ends in a complete pack exactly when nothing can block it and either some step finds
   knowledge or a path or, for some slots, whichever step reaches them first finds something ranked.
   */
  lemma AlwaysCompleteExactly(x: Query)
    requires x.Valid()
    ensures AlwaysComplete(x) <==> Unblocked(x) && (FindsDocuments(x) || exists slots :: Secured(x, slots))
  {
    hide SlotEnds;
    hide CanEnd;
    hide Finished;
    hide PackOf;
    hide HasFact;
    hide FindsDocuments;
    hide Unmet;
    hide Secured;
    hide SlotParts;
    if AlwaysComplete(x) {
      var schedule := SomeSchedule(x);
      CompleteUnder(x, schedule);
      forall slot
        ensures !CanEnd(x.rules, SlotParts(x, slot), Disputed)
      {
        ScheduledOutcomesExactly(x, slot, Disputed);
        if other :| Finished(x.Job(), other) && SlotEnds(x, other, slot, Disputed) {
          CompleteUnder(x, other);
        }
      }
      assert Unblocked(x);
      if forall slots :: !Secured(x, slots) {
        var bare := ScheduleWithoutFacts(x);
        NoDisputeUnder(x, bare);
      }
    }
    if Unblocked(x) && (FindsDocuments(x) || exists slots :: Secured(x, slots)) {
      forall schedule | Finished(x.Job(), schedule)
        ensures PackOf(x, schedule).complete
      {
        NoDisputeUnder(x, schedule);
        if slots :| Secured(x, slots) {
          SecuredHasFact(x, schedule, slots);
        }
      }
    }
  }

  /** No step finds anything ranked, whichever slot it reaches first. */
  ghost predicate NeverFertile(x: Query)
    requires x.Valid()
  {
    forall k: nat, slot :: k < |x.plan.steps| ==> !Fertile(x, k, slot)
  }

  lemma FertileHasFact(x: Query, k: nat, slot: string) returns (schedule: seq<Move>)
    requires x.Valid() && Unblocked(x) && k < |x.plan.steps| && Fertile(x, k, slot)
    ensures Finished(x.Job(), schedule) && HasFact(x, schedule)
  {
    hide SlotEnds;
    hide CanEnd;
    hide Finished;
    hide Gathered;
    hide AllSent;
    hide Barren;
    hide Part;
    hide SlotParts;
    var rest := Continued(|x.plan.steps|, [k]);
    schedule := ScheduleOf(x, [k] + rest);
    NoDisputeUnder(x, schedule);
    var o := FirstDecides(x, schedule, [k] + rest, 0, slot);
  }

  lemma NeverFertileHasNoFact(x: Query, schedule: seq<Move>)
    requires x.Valid() && Finished(x.Job(), schedule) && NeverFertile(x)
    ensures !HasFact(x, schedule)
  {
    hide SlotVerdict;
    hide Finished;
    hide Gathered;
    hide AllSent;
    hide Barren;
    hide Part;
    hide SlotParts;
    hide Fertile;
    var order := OrderOf(x, schedule);
    RunsOverSteps(x.Job(), order);
    forall slot, o: Outcome | SlotEnds(x, schedule, slot, o)
      ensures o.value.None?
    {
      var i := FirstOfSlot(x, order, slot);
      var own := FirstDecides(x, schedule, order, i, slot);
    }
  }

  lemma {:induction false} FirstOfSlot(x: Query, order: seq<nat>, slot: string) returns (i: nat)
    requires x.Valid() && InSlot(AllSent(x, order), slot) != []
    ensures FirstAt(x, order, i, slot)
  {
    hide Part;
    hide InSlot;
    hide AllSent;
    i := SomePart(x, order, slot);
    while exists j :: 0 <= j < i && Part(x, order[j], slot) != []
      invariant i < |order| && Part(x, order[i], slot) != []
      decreases i
    {
      var j :| 0 <= j < i && Part(x, order[j], slot) != [];
      i := j;
    }
  }

  /** A slot that can end in a dispute blocks every schedule, if disputes agree. */
  lemma BlockedStaysBlocked(x: Query, schedule: seq<Move>)
    requires x.Valid() && Finished(x.Job(), schedule) && DisputesAgree(x) && !Unblocked(x)
    ensures !PackOf(x, schedule).complete
  {
    hide SlotEnds;
    hide CanEnd;
    hide Finished;
    hide PackOf;
    hide HasFact;
    hide FindsDocuments;
    hide Unmet;
    hide SlotParts;
    hide ConflictGap;
    CompleteUnder(x, schedule);
    if slot :| CanEnd(x.rules, SlotParts(x, slot), Disputed) {
      ConflictGapsDiffer(slot, slot, "");
      var own := SlotHasOutcome(x, schedule, slot, Disputed);
    }
  }

  ghost predicate ScheduleIgnored(x: Query)
    requires x.Valid()
  {
    forall first, second :: Finished(x.Job(), first) && Finished(x.Job(), second) ==>
      SameGaps(PackOf(x, first), PackOf(x, second)) && PackOf(x, first).complete == PackOf(x, second).complete
  }

  /**
   The blocking gaps and the completeness are the same for every schedule exactly when disputes agree and
   the pack is blocked, or has documents, or has slots that are secured, or never has a fact.
   */
  lemma ScheduleIgnoredExactly(x: Query)
    requires x.Valid()
    ensures ScheduleIgnored(x) <==>
              && DisputesAgree(x)
              && (!Unblocked(x) || FindsDocuments(x) || (exists slots :: Secured(x, slots)) || NeverFertile(x))
  {
    hide SlotEnds;
    hide SameGaps;
    hide Finished;
    hide PackOf;
    hide HasFact;
    hide FindsDocuments;
    hide Unblocked;
    hide DisputesAgree;
    hide Secured;
    hide Fertile;
    GapsAgreeExactly(x);
    if ScheduleIgnored(x) && Unblocked(x) && !FindsDocuments(x) && forall slots :: !Secured(x, slots) {
      var bare := ScheduleWithoutFacts(x);
      NoDisputeUnder(x, bare);
      forall k: nat, slot | k < |x.plan.steps|
        ensures !Fertile(x, k, slot)
      {
        if Fertile(x, k, slot) {
          var schedule := FertileHasFact(x, k, slot);
          NoDisputeUnder(x, schedule);
        }
      }
    }
    if DisputesAgree(x)
      && (!Unblocked(x) || FindsDocuments(x) || (exists slots :: Secured(x, slots)) || NeverFertile(x)) {
      forall first, second | Finished(x.Job(), first) && Finished(x.Job(), second)
        ensures SameGaps(PackOf(x, first), PackOf(x, second))
        ensures PackOf(x, first).complete == PackOf(x, second).complete
      {
        if !Unblocked(x) {
          BlockedStaysBlocked(x, first);
          BlockedStaysBlocked(x, second);
        } else {
          AlwaysCompleteExactly(x);
          NoDisputeUnder(x, first);
          NoDisputeUnder(x, second);
          if NeverFertile(x) {
            NeverFertileHasNoFact(x, first);
            NeverFertileHasNoFact(x, second);
          }
        }
      }
    }
  }

  /**
   It suffices that in each slot the assertions share a scope, supersede nothing and have one threshold
   of at least zero.
   */
  lemma ScheduleDoesNotMatter(x: Query)
    requires x.Valid()
    requires forall slot :: OrderFree(x.rules.policy, Flat(SlotParts(x, slot)))
    ensures ScheduleIgnored(x)
  {
    hide OrderFree;
    hide CanEnd;
    hide Flat;
    hide SlotParts;
    hide Fertile;
    hide Unblocked;
    hide ConflictGap;
    ScheduleIgnoredExactly(x);
    forall slot
      ensures AllOrNone(x.rules, SlotParts(x, slot))
    {
      OrderFreeParts(x.rules, SlotParts(x, slot));
    }
    if k: nat, slot :| k < |x.plan.steps| && Fertile(x, k, slot) {
      FertileIsSecured(x, k, slot);
    }
  }

  lemma OrderFreeParts(r: Rules, parts: seq<seq<Assertion>>)
    requires OrderFree(r.policy, Flat(parts))
    ensures AllOrNone(r, parts)
  {
    hide OrderFree;
    hide Best;
    hide Led;
    hide Flat;
    FlatMembers(parts);
    hide Pool;
    forall o, other | CanEnd(r, parts, o) && CanEnd(r, parts, other)
      ensures o == other
    {
      OrderFreeEnds(r, parts, o, other);
    }
  }

  lemma OrderFreeEnds(r: Rules, parts: seq<seq<Assertion>>, o: Outcome, other: Outcome)
    requires OrderFree(r.policy, Flat(parts)) && CanEnd(r, parts, o) && CanEnd(r, parts, other)
    ensures o == other
  {
    hide OrderFree;
    hide Best;
    hide Led;
    hide Flat;
    hide Barren;
    hide Pool;
    var all := Flat(parts);
    FlatMembers(parts);
    forall p | p in parts && p != []
      ensures p[0] in all && (Barren(r, Pool(parts), p[0]) <==> Barren(r, Pool(parts), all[0]))
    {
      PartInFlat(parts, p);
      OneScope(r, all);
    }
    if p, q, i :| LeadsTo(r, parts, p, q, i, o) {
      BestIsRanked(r, all, p[0], q[i]);
      if p', q', i' :| LeadsTo(r, parts, p', q', i', other) {
        LeadersOfOrderFree(r, all, p[0], q[i], p'[0], q'[i']);
      }
    } else if p', q', i' :| LeadsTo(r, parts, p', q', i', other) {
      BestIsRanked(r, all, p'[0], q'[i']);
    }
  }

  lemma PartInFlat(parts: seq<seq<Assertion>>, p: seq<Assertion>)
    requires p in parts && p != []
    ensures p[0] in Flat(parts)
  {
    hide Flat;
    FlatMembers(parts);
    assert p[0] in p;
    assert p[0] in Pool(parts);
  }

  lemma FertileIsSecured(x: Query, k: nat, slot: string)
    requires x.Valid() && k < |x.plan.steps| && Fertile(x, k, slot)
    requires OrderFree(x.rules.policy, Flat(SlotParts(x, slot)))
    ensures Secured(x, {slot})
  {
    hide OrderFree;
    hide Flat;
    hide Barren;
    hide Part;
    var r, parts := x.rules, SlotParts(x, slot);
    assert Touches(x, k, {slot});
    FlatMembers(parts);
    hide Pool;
    assert parts[k] == Part(x, k, slot);
    PartInFlat(parts, parts[k]);
    OneScope(r, Flat(parts));
    forall j: nat | Touches(x, j, {slot})
      ensures Fertile(x, j, slot)
    {
      assert parts[j] == Part(x, j, slot);
      PartInFlat(parts, parts[j]);
    }
  }
}
