/**
 Concurrent retrieval: the caller dispatches one step after another, each dispatched step runs on its own
 and sends its item into a channel with room for all steps, and the caller waits for all of them before
 it reads the channel. A schedule is the order in which these moves happen.
 */
module FanOut {
  import opened Wrappers
  import opened Sorting
  import opened GraphModel
  import opened Arbiter
  import opened RetrievalModel

  // ---------- Schedules ----------

  /** The steps to run and the sources that have a retriever. */
  datatype Job = Job(steps: seq<Step>, configured: set<string>)

  /** The number of steps dispatched, the running ones, and the items sent, each given by its step. */
  datatype Fan = Fan(dispatched: nat, running: set<nat>, channel: seq<nat>)

  datatype Move = Dispatch | Finish(step: nat)

  const Idle := Fan(0, {}, [])

  predicate HasRoom(job: Job, f: Fan) {
    |f.channel| < |job.steps|
  }

  /** A step without a retriever is answered by the caller itself, which then has to send. */
  predicate Sends(job: Job, f: Fan, m: Move) {
    match m
    case Dispatch => f.dispatched < |job.steps| && job.steps[f.dispatched].source !in job.configured
    case Finish(k) => k in f.running
  }

  predicate Wanted(job: Job, f: Fan, m: Move) {
    match m
    case Dispatch => f.dispatched < |job.steps|
    case Finish(k) => k in f.running
  }

  /** A send blocks while the channel is full. */
  predicate Enabled(job: Job, f: Fan, m: Move) {
    Wanted(job, f, m) && (Sends(job, f, m) ==> HasRoom(job, f))
  }

  function Moved(job: Job, f: Fan, m: Move): Fan
    requires Enabled(job, f, m)
  {
    match m
    case Dispatch =>
      if job.steps[f.dispatched].source in job.configured
      then f.(dispatched := f.dispatched + 1, running := f.running + {f.dispatched})
      else f.(dispatched := f.dispatched + 1, channel := f.channel + [f.dispatched])
    case Finish(k) => f.(running := f.running - {k}, channel := f.channel + [k])
  }

  /** The state a schedule leads to, if every move was possible when it was made. */
  function Run(job: Job, schedule: seq<Move>): Option<Fan> {
    if schedule == [] then Some(Idle)
    else
      var before := Run(job, schedule[..|schedule| - 1]);
      var m := schedule[|schedule| - 1];
      if before.Some? && Enabled(job, before.value, m) then Some(Moved(job, before.value, m)) else None
  }

  /** Every dispatched step has sent its item: the caller stops waiting. */
  predicate Joined(job: Job, f: Fan) {
    f.dispatched == |job.steps| && f.running == {}
  }

  function UpTo(n: nat): seq<nat> {
    seq(n, i => i)
  }

  ghost predicate FanInv(job: Job, f: Fan) {
    && f.dispatched <= |job.steps|
    && multiset(f.channel) + multiset(f.running) == multiset(UpTo(f.dispatched))
    && |f.channel| + |f.running| == f.dispatched
  }

  lemma UpToExtends(n: nat)
    ensures multiset(UpTo(n + 1)) == multiset(UpTo(n)) + multiset{n} && n !in UpTo(n)
  {
    assert UpTo(n + 1) == UpTo(n) + [n];
  }

  lemma DispatchKeepsInv(job: Job, f: Fan)
    requires FanInv(job, f) && Enabled(job, f, Dispatch)
    ensures FanInv(job, Moved(job, f, Dispatch))
  {
    UpToExtends(f.dispatched);
    assert f.dispatched !in multiset(UpTo(f.dispatched));
    assert f.dispatched !in multiset(f.running);
    hide UpTo;
    if job.steps[f.dispatched].source in job.configured {
      assert multiset(f.running + {f.dispatched}) == multiset(f.running) + multiset{f.dispatched};
    }
  }

  lemma FinishKeepsInv(job: Job, f: Fan, k: nat)
    requires FanInv(job, f) && Enabled(job, f, Finish(k))
    ensures FanInv(job, Moved(job, f, Finish(k)))
  {
    hide UpTo;
    var rest := f.running - {k};
    assert f.running == rest + {k};
    assert multiset(f.running) == multiset(rest) + multiset{k};
  }

  lemma MoveKeepsInv(job: Job, f: Fan, m: Move)
    requires FanInv(job, f) && Enabled(job, f, m)
    ensures FanInv(job, Moved(job, f, m))
  {
    hide FanInv;
    hide Moved;
    match m
    case Dispatch => DispatchKeepsInv(job, f);
    case Finish(k) => FinishKeepsInv(job, f, k);
  }

  lemma {:induction false} ReachableInv(job: Job, schedule: seq<Move>)
    requires Run(job, schedule).Some?
    ensures FanInv(job, Run(job, schedule).value)
  {
    if schedule == [] {
      assert UpTo(0) == [];
    } else {
      ReachableInv(job, schedule[..|schedule| - 1]);
      MoveKeepsInv(job, Run(job, schedule[..|schedule| - 1]).value, schedule[|schedule| - 1]);
    }
  }

  /** No send ever waits for room, and unless all is done some move is possible. */
  lemma NothingBlocks(job: Job, schedule: seq<Move>, m: Move)
    requires Run(job, schedule).Some?
    ensures var f := Run(job, schedule).value;
            && (Wanted(job, f, m) ==> Enabled(job, f, m))
            && (Joined(job, f) || exists next :: Enabled(job, f, next))
  {
    var f := Run(job, schedule).value;
    ReachableInv(job, schedule);
    if m.Finish? && m.step in f.running {
      assert f.running == (f.running - {m.step}) + {m.step};
    }
    if !Joined(job, f) {
      if f.dispatched < |job.steps| {
        assert Enabled(job, f, Dispatch);
      } else {
        var k :| k in f.running;
        assert f.running == (f.running - {k}) + {k};
        assert Enabled(job, f, Finish(k));
      }
    }
  }

  /** The number of steps with a retriever. */
  function ConfiguredSteps(job: Job, n: nat): nat
    requires n <= |job.steps|
  {
    if n == 0 then 0 else ConfiguredSteps(job, n - 1) + if job.steps[n - 1].source in job.configured then 1 else 0
  }

  lemma MoveCount(job: Job, f: Fan, m: Move)
    requires FanInv(job, f) && Enabled(job, f, m)
    ensures var t := Moved(job, f, m);
            && t.dispatched <= |job.steps|
            && 1 + |t.running| + f.dispatched + ConfiguredSteps(job, f.dispatched)
               == |f.running| + t.dispatched + ConfiguredSteps(job, t.dispatched)
  {
    if m.Dispatch? {
      UpToExtends(f.dispatched);
      assert f.dispatched !in multiset(UpTo(f.dispatched));
      assert f.dispatched !in multiset(f.running);
    } else {
      assert f.running == (f.running - {m.step}) + {m.step};
    }
  }

  lemma {:induction false} MovesMade(job: Job, schedule: seq<Move>)
    requires Run(job, schedule).Some?
    ensures var f := Run(job, schedule).value;
            f.dispatched <= |job.steps| && |schedule| + |f.running| == f.dispatched + ConfiguredSteps(job, f.dispatched)
  {
    if schedule != [] {
      hide FanInv;
      hide Enabled;
      hide Moved;
      hide ConfiguredSteps;
      var init, m := schedule[..|schedule| - 1], schedule[|schedule| - 1];
      MovesMade(job, init);
      ReachableInv(job, init);
      MoveCount(job, Run(job, init).value, m);
    }
  }

  /**
   Whatever the schedule, waiting ends after the same number of moves, and the channel then holds the
   item of each step exactly once.
   */
  lemma EachStepDeliversOnce(job: Job, schedule: seq<Move>)
    requires Run(job, schedule).Some? && Joined(job, Run(job, schedule).value)
    ensures multiset(Run(job, schedule).value.channel) == multiset(UpTo(|job.steps|))
    ensures |schedule| == |job.steps| + ConfiguredSteps(job, |job.steps|)
  {
    ReachableInv(job, schedule);
    MovesMade(job, schedule);
  }

  // ---------- Reading the channel ----------

  datatype Item = Item(step: Step, reply: Reply)

  /** What a step without a retriever is answered with. */
  function NotConfigured(step: Step): Reply {
    Reply(Answer([], [], [], ["retriever not configured: " + step.source]), None)
  }

  function ItemOf(job: Job, replies: seq<Reply>, k: nat): Item
    requires |replies| == |job.steps| && k < |job.steps|
  {
    Item(job.steps[k], if job.steps[k].source in job.configured then replies[k] else NotConfigured(job.steps[k]))
  }

  predicate Usable(answer: Answer) {
    |answer.assertions| > 0 || |answer.knowledge| > 0 || |answer.paths| > 0
  }

  /** The result of a step: an error never satisfies it, and neither does an empty answer. */
  function Settled(x: Item): StepResult {
    var a := x.reply.answer;
    var satisfied := x.reply.error.None? && Usable(a);
    var gaps :=
      if x.reply.error.Some? then a.gaps + [x.reply.error.value]
      else if !satisfied && a.gaps == [] then ["source returned no usable result: " + x.step.source]
      else a.gaps;
    StepResult(x.step.id, x.step.source, x.step.required, satisfied, a.knowledge, a.paths, gaps)
  }

  function Results(items: seq<Item>): seq<StepResult> {
    seq(|items|, i requires 0 <= i < |items| => Settled(items[i]))
  }

  function Contribution(x: Item): seq<Assertion> {
    if x.reply.error.Some? then [] else x.reply.answer.assertions
  }

  function Assertions(items: seq<Item>): seq<Assertion> {
    if items == [] then [] else Assertions(items[..|items| - 1]) + Contribution(items[|items| - 1])
  }

  method Settle(x: Item) returns (result: StepResult)
    ensures result == Settled(x)
  {
    var answer, gaps := x.reply.answer, x.reply.answer.gaps;
    if x.reply.error.Some? {
      gaps := gaps + [x.reply.error.value];
      return StepResult(x.step.id, x.step.source, x.step.required, false, answer.knowledge, answer.paths, gaps);
    }
    var satisfied := Usable(answer);
    if !satisfied && |gaps| == 0 {
      gaps := gaps + ["source returned no usable result: " + x.step.source];
      assert gaps == ["source returned no usable result: " + x.step.source];
    }
    result := StepResult(x.step.id, x.step.source, x.step.required, satisfied, answer.knowledge, answer.paths, gaps);
  }

  method Collect(items: seq<Item>) returns (results: seq<StepResult>, assertions: seq<Assertion>)
    ensures results == Results(items) && assertions == Assertions(items)
  {
    hide Settled;
    results, assertions := [], [];
    for n := 0 to |items|
      invariant results == Results(items[..n]) && assertions == Assertions(items[..n])
    {
      assert items[..n + 1][..n] == items[..n];
      var x := items[n];
      var result := Settle(x);
      results := results + [result];
      if x.reply.error.Some? {
        continue;
      }
      assertions := assertions + x.reply.answer.assertions;
    }
    assert items[..|items|] == items;
  }

  // ---------- Rearranged channels ----------

  function Items(job: Job, replies: seq<Reply>, order: seq<nat>): seq<Item>
    requires |replies| == |job.steps| && forall i :: 0 <= i < |order| ==> order[i] < |job.steps|
  {
    seq(|order|, i requires 0 <= i < |order| => ItemOf(job, replies, order[i]))
  }

  lemma RunsOverSteps(job: Job, order: seq<nat>)
    requires multiset(order) == multiset(UpTo(|job.steps|))
    ensures forall k: nat :: k in order <==> k < |job.steps|
    ensures forall i :: 0 <= i < |order| ==> order[i] < |job.steps|
  {
    forall k: nat
      ensures k in order <==> k < |job.steps|
    {
      assert k in order <==> k in multiset(order);
      assert k < |job.steps| ==> UpTo(|job.steps|)[k] == k;
      assert k in UpTo(|job.steps|) <==> k in multiset(UpTo(|job.steps|));
    }
      forall i | 0 <= i < |order|
      ensures order[i] < |job.steps|
    {
      assert order[i] in order;
    }
  }

  lemma {:induction false} AssertionsOfSplit(a: seq<Item>, x: Item, b: seq<Item>)
    ensures multiset(Assertions(a + [x] + b)) == multiset(Assertions(a + b)) + multiset(Contribution(x))
  {
    hide Contribution;
    if b == [] {
      assert a + [x] + b == a + [x] && a + b == a;
      assert (a + [x])[..|a|] == a;
    } else {
      var init, last := b[..|b| - 1], b[|b| - 1];
      AssertionsOfSplit(a, x, init);
      AssertionsOfLast(a + [x] + init, last);
      AssertionsOfLast(a + init, last);
      assert a + [x] + b == a + [x] + init + [last];
      assert a + b == a + init + [last];
    }
  }

  lemma AssertionsOfLast(a: seq<Item>, x: Item)
    ensures multiset(Assertions(a + [x])) == multiset(Assertions(a)) + multiset(Contribution(x))
  {
    assert (a + [x])[..|a|] == a;
  }

  /** The assertions gathered do not depend on the order in which the items arrive. */
  lemma {:induction false} AssertionsOfRearranged(a: seq<Item>, b: seq<Item>)
    requires multiset(a) == multiset(b)
    ensures multiset(Assertions(a)) == multiset(Assertions(b))
  {
    if a == [] {
      assert |multiset(b)| == 0;
    } else {
      var init, x := a[..|a| - 1], a[|a| - 1];
      assert a == init + [x];
      var front, back := LastTakenOut(a, b, x);
      AssertionsOfRearranged(init, front + back);
      AssertionsOfSplit(front, x, back);
    }
  }

  lemma {:induction false} ItemsOfRearranged(job: Job, replies: seq<Reply>, a: seq<nat>, b: seq<nat>)
    requires |replies| == |job.steps| && multiset(a) == multiset(b)
    requires forall i :: 0 <= i < |a| ==> a[i] < |job.steps|
    requires forall i :: 0 <= i < |b| ==> b[i] < |job.steps|
    ensures multiset(Items(job, replies, a)) == multiset(Items(job, replies, b))
  {
    hide ItemOf;
    if a == [] {
      assert |multiset(b)| == 0;
    } else {
      var init, k := a[..|a| - 1], a[|a| - 1];
      assert a == init + [k];
      var front, back := LastTakenOut(a, b, k);
      forall i | 0 <= i < |front + back|
        ensures (front + back)[i] < |job.steps|
      {
        assert (front + back)[i] == if i < |front| then b[i] else b[i + 1];
      }
      assert forall i :: 0 <= i < |front| ==> front[i] == (front + back)[i];
      assert forall i :: 0 <= i < |back| ==> back[i] == (front + back)[|front| + i];
      ItemsOfRearranged(job, replies, init, front + back);
      assert Items(job, replies, a) == Items(job, replies, init) + [ItemOf(job, replies, k)];
      assert Items(job, replies, b)
          == Items(job, replies, front) + [ItemOf(job, replies, k)] + Items(job, replies, back);
      assert Items(job, replies, front + back) == Items(job, replies, front) + Items(job, replies, back);
    }
  }
}
