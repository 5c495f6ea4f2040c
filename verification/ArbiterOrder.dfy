/**
 What arrival order can do to arbitration: exactly which outcomes the arrangements of a slot's assertions
 lead to, and so exactly when the order does not matter.

 Assertions arrive in parts, the answers of retrieval steps, which keep their inner order.
 */
module ArbiterOrder {
  import opened Wrappers
  import opened Text
  import opened Sorting
  import opened GraphModel
  import opened Arbiter
  import opened ArbiterTheorems

  datatype Rules = Rules(u: Unicode, policy: Policy, now: int)

  // ---------- Outcomes ----------

  /** What a verdict says, up to the choice among assertions with one value. */
  datatype Outcome = Outcome(status: Status, value: Option<string>)

  function OutcomeOf(u: Unicode, v: Verdict): Outcome {
    Outcome(v.status, if v.accepted.Some? then Some(ValueKey(u, v.accepted.value.value)) else None)
  }

  predicate SameOutcome(u: Unicode, a: Verdict, b: Verdict) {
    a.slotId == b.slotId && OutcomeOf(u, a) == OutcomeOf(u, b)
  }

  const Nothing := Outcome(NoValidAssertion, None)

  function Members(cs: seq<Assertion>): set<Assertion> {
    set x | x in cs
  }

  /** In the scope of the first arrival, valid and fresh. */
  predicate Ranked(r: Rules, first: Assertion, x: Assertion) {
    ScopeCompatible(x.scope, first.scope) && Usable(r.policy, x, r.now)
  }

  ghost predicate Barren(r: Rules, pool: set<Assertion>, first: Assertion) {
    forall x :: x in pool ==> !Ranked(r, first, x)
  }

  /** Ranked, and scored as high as any ranked one. */
  ghost predicate Best(r: Rules, pool: set<Assertion>, first: Assertion, x: Assertion) {
    && x in pool && Ranked(r, first, x)
    && forall y :: y in pool && Ranked(r, first, y) ==> Score(r.policy, y, r.now) <= Score(r.policy, x, r.now)
  }

  /** The ranked assertions that rival the top. */
  function RivalsIn(r: Rules, pool: set<Assertion>, first: Assertion, top: Assertion): set<Assertion> {
    set x | x in pool && Ranked(r, first, x) && Rival(r.u, top, x)
  }

  /** Some rival comes within the threshold. */
  ghost predicate Close(r: Rules, rivals: set<Assertion>, top: Assertion) {
    exists x :: x in rivals && Score(r.policy, top, r.now) - Score(r.policy, x, r.now)
                               <= Threshold(r.policy, top.predicateId)
  }

  /** The outcome when one assertion arrives first and another is the first best one. */
  ghost function Led(r: Rules, pool: set<Assertion>, first: Assertion, top: Assertion): Outcome {
    var rivals, key := RivalsIn(r, pool, first, top), ValueKey(r.u, top.value);
    if rivals == {} then Outcome(Accepted, Some(key))
    else if Close(r, rivals, top) then Outcome(UnresolvedConflict, None)
    else Outcome(AcceptedWithConflict, Some(key))
  }

  // ---------- The verdict on one arrangement ----------

  /** The ranked assertions in arrival order. */
  function RankedOf(r: Rules, cs: seq<Assertion>, first: Assertion): seq<Assertion> {
    Select(r.policy, InScope(cs, first), r.now, true)
  }

  lemma RankedOfMore(r: Rules, cs: seq<Assertion>, first: Assertion)
    requires cs != []
    ensures var before := RankedOf(r, cs[..|cs| - 1], first);
            RankedOf(r, cs, first) == if Ranked(r, first, cs[|cs| - 1]) then before + [cs[|cs| - 1]] else before
  {
    hide Usable;
    hide ScopeCompatible;
    var scope := InScope(cs[..|cs| - 1], first);
    assert (scope + [cs[|cs| - 1]])[..|scope|] == scope;
  }

  lemma RankedOfMembers(r: Rules, cs: seq<Assertion>, first: Assertion)
    ensures forall x :: x in RankedOf(r, cs, first) <==> x in Members(cs) && Ranked(r, first, x)
    ensures RankedOf(r, cs, first) == [] <==> Barren(r, Members(cs), first)
  {
    hide Usable;
    hide ScopeCompatible;
    InScopeMembers(cs, first);
    SelectMembers(r.policy, InScope(cs, first), r.now, true);
    var ranked := RankedOf(r, cs, first);
    assert forall x :: x in ranked <==> x in Members(cs) && Ranked(r, first, x);
    if ranked != [] {
      assert ranked[0] in ranked;
    }
  }

  /** The first of the ranked assertions with the highest score. */
  ghost predicate IsTop(r: Rules, cs: seq<Assertion>, first: Assertion, i: nat) {
    && i < |cs| && Ranked(r, first, cs[i])
    && (forall j :: 0 <= j < |cs| && Ranked(r, first, cs[j]) ==>
          Score(r.policy, cs[j], r.now) <= Score(r.policy, cs[i], r.now))
    && (forall j :: 0 <= j < i && Ranked(r, first, cs[j]) ==>
          Score(r.policy, cs[j], r.now) < Score(r.policy, cs[i], r.now))
  }

  lemma OnlyTop(r: Rules, cs: seq<Assertion>, first: Assertion)
    requires cs != [] && Barren(r, Members(cs[..|cs| - 1]), first) && Ranked(r, first, cs[|cs| - 1])
    ensures IsTop(r, cs, first, |cs| - 1)
  {
    hide Score;
    hide Ranked;
    var init := cs[..|cs| - 1];
    assert forall j :: 0 <= j < |init| ==> cs[j] == init[j] && init[j] in Members(init);
  }

  lemma TopOfMore(r: Rules, cs: seq<Assertion>, first: Assertion, i: nat)
    requires cs != [] && IsTop(r, cs[..|cs| - 1], first, i)
    ensures var last := cs[|cs| - 1];
            var moves := Ranked(r, first, last) && Score(r.policy, last, r.now) > Score(r.policy, cs[i], r.now);
            IsTop(r, cs, first, if moves then |cs| - 1 else i)
  {
    hide Score;
    hide Ranked;
    var init := cs[..|cs| - 1];
    assert forall j :: 0 <= j < |init| ==> cs[j] == init[j];
  }

  lemma FirstBestOfMore(policy: Policy, cs: seq<Assertion>, x: Assertion, now: int)
    requires cs != []
    ensures var best := FirstBest(policy, cs, now);
            FirstBest(policy, cs + [x], now) == if Score(policy, x, now) > Score(policy, best, now) then x else best
  {
    hide Score;
    assert (cs + [x])[..|cs|] == cs;
  }

  /** The place of the first best assertion. */
  lemma {:induction false} FirstTop(r: Rules, cs: seq<Assertion>, first: Assertion) returns (i: nat)
    requires RankedOf(r, cs, first) != []
    ensures IsTop(r, cs, first, i) && cs[i] == FirstBest(r.policy, RankedOf(r, cs, first), r.now)
  {
    assert cs != [];
    RankedOfMore(r, cs, first);
    hide Score;
    hide Ranked;
    hide RankedOf;
    var init, x := cs[..|cs| - 1], cs[|cs| - 1];
    var before := RankedOf(r, init, first);
    RankedOfMembers(r, init, first);
    if before == [] {
      assert [] + [x] == [x];
      OnlyTop(r, cs, first);
      i := |cs| - 1;
    } else {
      hide FirstBest;
      i := FirstTop(r, init, first);
      FirstBestOfMore(r.policy, before, x, r.now);
      TopOfMore(r, cs, first, i);
      hide IsTop;
      assert cs[i] == init[i];
      if Ranked(r, first, x) && Score(r.policy, x, r.now) > Score(r.policy, cs[i], r.now) {
        i := |cs| - 1;
      }
    }
  }

  /** A verdict depends on the order only through the first arrival and the first best assertion. */
  lemma VerdictIsLed(r: Rules, slot: string, cs: seq<Assertion>)
    requires cs != []
    ensures var valid := ValidOf(r.policy, cs, r.now);
            OutcomeOf(r.u, SlotVerdict(r.u, r.policy, slot, cs, r.now))
            == if valid == [] then Nothing else Led(r, Members(cs), cs[0], FirstBest(r.policy, valid, r.now))
  {
    hide Score;
    hide Rival;
    hide Threshold;
    hide ValueKey;
    hide ValidAt;
    hide IsStale;
    hide ScopeCompatible;
    var valid := ValidOf(r.policy, cs, r.now);
    AcceptedExactlyWhenDecisive(r.u, r.policy, slot, cs, r.now);
    hide SlotVerdict;
    if valid != [] {
      var top := FirstBest(r.policy, valid, r.now);
      forall x
        ensures x in valid <==> x in Members(cs) && Ranked(r, cs[0], x)
      {
        RankedAreUsable(r.policy, cs, r.now, x);
      }
      hide ValidOf;
      assert forall x :: x in RivalsIn(r, Members(cs), cs[0], top) <==> x in valid && Rival(r.u, top, x);
    }
  }

  // ---------- Parts ----------

  function Flat(parts: seq<seq<Assertion>>): seq<Assertion> {
    if parts == [] then [] else Flat(parts[..|parts| - 1]) + parts[|parts| - 1]
  }

  lemma {:induction false} FlatSplit(a: seq<seq<Assertion>>, b: seq<seq<Assertion>>)
    ensures Flat(a + b) == Flat(a) + Flat(b)
  {
    if b == [] {
      assert a + b == a;
    } else {
      FlatSplit(a, b[..|b| - 1]);
      assert (a + b)[..|a + b| - 1] == a + b[..|b| - 1];
    }
  }

  lemma FlatOne(p: seq<Assertion>)
    ensures Flat([p]) == p
  {
    assert [p][..0] == [];
  }

  lemma FlatCons(p: seq<Assertion>, rest: seq<seq<Assertion>>)
    ensures Flat([p] + rest) == p + Flat(rest)
  {
    FlatSplit([p], rest);
    FlatOne(p);
  }

  function Pool(parts: seq<seq<Assertion>>): set<Assertion> {
    set p, x | p in parts && x in p :: x
  }

  lemma {:induction false} FlatMembers(parts: seq<seq<Assertion>>)
    ensures Members(Flat(parts)) == Pool(parts)
  {
    if parts != [] {
      var init, p := parts[..|parts| - 1], parts[|parts| - 1];
      FlatMembers(init);
      assert parts == init + [p];
      hide Flat;
      assert forall x :: x in Members(Flat(init) + p) <==> x in Members(Flat(init)) || x in p;
      assert forall x :: x in Pool(parts) <==> x in Pool(init) || x in p;
    }
  }

  lemma FlatAround(front: seq<seq<Assertion>>, p: seq<Assertion>, back: seq<seq<Assertion>>)
    ensures Flat(front + [p] + back) == Flat(front) + p + Flat(back)
    ensures multiset(Flat(front + [p] + back)) == multiset(Flat(front + back)) + multiset(p)
    ensures Pool(front + [p] + back) == Pool(front + back) + Members(p)
  {
    FlatSplit(front + [p], back);
    FlatSplit(front, [p]);
    FlatSplit(front, back);
    FlatOne(p);
    hide Flat;
    assert forall q :: q in front + [p] + back <==> q in front + back || q == p;
  }

  lemma PartsOfLast(a: seq<seq<Assertion>>)
    requires a != []
    ensures var init, x := a[..|a| - 1], a[|a| - 1];
            multiset(Flat(a)) == multiset(Flat(init)) + multiset(x) && Pool(a) == Pool(init) + Members(x)
  {
    var init, x := a[..|a| - 1], a[|a| - 1];
    FlatAround(init, x, []);
    assert init + [x] + [] == a && init + [] == init;
    hide Flat;
    hide Pool;
  }

  lemma {:induction false} FlatRearranged(a: seq<seq<Assertion>>, b: seq<seq<Assertion>>)
    requires multiset(a) == multiset(b)
    ensures multiset(Flat(a)) == multiset(Flat(b)) && Pool(a) == Pool(b)
  {
    if a == [] {
      assert |multiset(b)| == 0;
    } else {
      hide Flat;
      hide Pool;
      var init, x := a[..|a| - 1], a[|a| - 1];
      var front, back := LastTakenOut(a, b, x);
      FlatRearranged(init, front + back);
      FlatAround(front, x, back);
      PartsOfLast(a);
      calc {
        multiset(Flat(a));
        multiset(Flat(init)) + multiset(x);
        multiset(Flat(front + back)) + multiset(x);
        multiset(Flat(b));
      }
    }
  }

  /** Where the parts put the element at a place: what precedes its part, and its place there. */
  lemma {:induction false} PartOf(parts: seq<seq<Assertion>>, i: nat) returns (m: nat, j: nat)
    requires i < |Flat(parts)|
    ensures m < |parts| && j < |parts[m]| && parts[m][j] == Flat(parts)[i] && i == |Flat(parts[..m])| + j
  {
    var init := parts[..|parts| - 1];
    if i < |Flat(init)| {
      m, j := PartOf(init, i);
      assert parts[..m] == init[..m];
    } else {
      m, j := |parts| - 1, i - |Flat(init)|;
    }
  }

  lemma FlatAt(parts: seq<seq<Assertion>>, m: nat)
    requires m < |parts|
    ensures Flat(parts) == Flat(parts[..m]) + parts[m] + Flat(parts[m + 1..])
  {
    var rest := parts[m..];
    assert parts == parts[..m] + rest && rest == [parts[m]] + parts[m + 1..];
    FlatSplit(parts[..m], rest);
    FlatCons(parts[m], parts[m + 1..]);
    hide Flat;
  }

  // ---------- The outcomes that arrangements lead to ----------

  ghost predicate FirstBestAt(r: Rules, pool: set<Assertion>, first: Assertion, part: seq<Assertion>, i: nat) {
    i < |part| && Best(r, pool, first, part[i]) && forall j :: 0 <= j < i ==> !Best(r, pool, first, part[j])
  }

  ghost predicate HoldsBest(r: Rules, pool: set<Assertion>, first: Assertion, part: seq<Assertion>) {
    exists i :: 0 <= i < |part| && Best(r, pool, first, part[i])
  }

  /**
   With part p first, the first best assertion can be the one at place i of part q: the first best one
   of p if it holds any, and otherwise the first best one of any part.
   */
  ghost predicate Leads(r: Rules, parts: seq<seq<Assertion>>, p: seq<Assertion>, q: seq<Assertion>, i: nat) {
    && p in parts && p != [] && q in parts
    && FirstBestAt(r, Pool(parts), p[0], q, i)
    && (HoldsBest(r, Pool(parts), p[0], p) ==> q == p)
  }

  ghost predicate LeadsTo(r: Rules, parts: seq<seq<Assertion>>, p: seq<Assertion>, q: seq<Assertion>, i: nat,
                          o: Outcome) {
    Leads(r, parts, p, q, i) && o == Led(r, Pool(parts), p[0], q[i])
  }

  ghost predicate CanEnd(r: Rules, parts: seq<seq<Assertion>>, o: Outcome) {
    || (exists p, q, i :: LeadsTo(r, parts, p, q, i, o))
    || (o == Nothing && exists p :: p in parts && p != [] && Barren(r, Pool(parts), p[0]))
  }

  lemma CanEndRearranged(r: Rules, a: seq<seq<Assertion>>, b: seq<seq<Assertion>>, o: Outcome)
    requires multiset(a) == multiset(b) && CanEnd(r, a, o)
    ensures CanEnd(r, b, o)
  {
    hide Led;
    hide FirstBestAt;
    hide HoldsBest;
    hide Barren;
    FlatRearranged(a, b);
    SameMembers(a, b);
    if p, q, i :| LeadsTo(r, a, p, q, i, o) {
      assert LeadsTo(r, b, p, q, i, o);
    }
  }

  /** The first place of an arrangement belongs to its first non-empty part. */
  lemma FirstPart(parts: seq<seq<Assertion>>) returns (m: nat)
    requires Flat(parts) != []
    ensures m < |parts| && parts[m] != [] && Flat(parts)[0] == parts[m][0] && Flat(parts[..m]) == []
  {
    var j: nat;
    m, j := PartOf(parts, 0);
  }

  lemma BestInArrangement(r: Rules, parts: seq<seq<Assertion>>) returns (i: nat)
    requires Flat(parts) != [] && ValidOf(r.policy, Flat(parts), r.now) != []
    ensures i < |Flat(parts)| && Flat(parts)[i] == FirstBest(r.policy, ValidOf(r.policy, Flat(parts), r.now), r.now)
    ensures Best(r, Pool(parts), Flat(parts)[0], Flat(parts)[i])
    ensures forall j :: 0 <= j < i ==> !Best(r, Pool(parts), Flat(parts)[0], Flat(parts)[j])
  {
    hide Score;
    hide Ranked;
    var all := Flat(parts);
    i := FirstTop(r, all, all[0]);
    FlatMembers(parts);
    assert forall x :: x in all ==> x in Pool(parts) by {
      assert forall x :: x in all <==> x in Members(all);
    }
    forall y | y in Pool(parts) && Ranked(r, all[0], y)
      ensures Score(r.policy, y, r.now) <= Score(r.policy, all[i], r.now)
    {
      assert y in Members(all);
      var j :| 0 <= j < |all| && all[j] == y;
    }
  }

  /** An arrangement ends in an outcome that its parts can end in. */
  lemma ArrangementCanEnd(r: Rules, slot: string, parts: seq<seq<Assertion>>)
    requires Flat(parts) != []
    ensures CanEnd(r, parts, OutcomeOf(r.u, SlotVerdict(r.u, r.policy, slot, Flat(parts), r.now)))
  {
    hide SlotVerdict;
    hide Led;
    hide Leads;
    hide Best;
    hide Flat;
    hide Ranked;
    var all := Flat(parts);
    VerdictIsLed(r, slot, all);
    FlatMembers(parts);
    RankedOfMembers(r, all, all[0]);
    if ValidOf(r.policy, all, r.now) == [] {
      var k := FirstPart(parts);
      assert parts[k] in parts;
    } else {
      hide ValidOf;
      var i := BestInArrangement(r, parts);
      var p, q, j := LeadersOf(r, parts, i);
      assert LeadsTo(r, parts, p, q, j, Led(r, Pool(parts), all[0], all[i]));
    }
  }

  /** The parts that hold the first arrival and the first best assertion. */
  lemma LeadersOf(r: Rules, parts: seq<seq<Assertion>>, i: nat) returns (p: seq<Assertion>, q: seq<Assertion>, j: nat)
    requires i < |Flat(parts)| && Best(r, Pool(parts), Flat(parts)[0], Flat(parts)[i])
    requires forall n :: 0 <= n < i ==> !Best(r, Pool(parts), Flat(parts)[0], Flat(parts)[n])
    ensures Leads(r, parts, p, q, j) && p[0] == Flat(parts)[0] && q[j] == Flat(parts)[i]
  {
    hide Best;
    hide Flat;
    hide Pool;
    var all := Flat(parts);
    var k := FirstPart(parts);
    FlatAt(parts, k);
    p := parts[k];
    assert p in parts;
    assert forall n :: 0 <= n < |p| ==> all[n] == p[n];
    if i < |p| {
      q, j := p, i;
    } else {
      var m;
      m, j := PartOf(parts, i);
      FlatAt(parts, m);
      q := parts[m];
      assert q in parts;
      assert forall n :: 0 <= n <= j ==> q[n] == all[|Flat(parts[..m])| + n];
    }
  }

  /** Any two parts can be moved to the front. */
  lemma MovedToFront<T>(a: seq<T>, x: T) returns (b: seq<T>)
    requires x in a
    ensures multiset([x] + b) == multiset(a)
    ensures forall y :: y in a && y != x ==> y in b
  {
    var i :| 0 <= i < |a| && a[i] == x;
    b := a[..i] + a[i + 1..];
    assert a == a[..i] + [x] + a[i + 1..];
    forall y | y in a && y != x
      ensures y in b
    {
      assert y in multiset(a) && multiset(a) == multiset([x] + b);
      assert y in multiset([x] + b);
      assert y in [x] + b;
    }
  }

  /** Parts that can lead do lead in some arrangement. */
  lemma LeadingArrangement(r: Rules, slot: string, parts: seq<seq<Assertion>>, p: seq<Assertion>, q: seq<Assertion>,
                           i: nat) returns (b: seq<seq<Assertion>>)
    requires Leads(r, parts, p, q, i)
    ensures multiset(b) == multiset(parts) && Flat(b) != []
    ensures OutcomeOf(r.u, SlotVerdict(r.u, r.policy, slot, Flat(b), r.now)) == Led(r, Pool(parts), p[0], q[i])
  {
    hide SlotVerdict;
    hide Led;
    hide Best;
    hide ValidOf;
    var rest := MovedToFront(parts, p);
    var at := i;
    b := [p] + rest;
    FlatCons(p, rest);
    if q != p {
      at := |p| + i;
      var others := MovedToFront(rest, q);
      b := [p] + ([q] + others);
      assert multiset(b) == multiset([p]) + multiset([q] + others);
      assert multiset([p] + rest) == multiset([p]) + multiset(rest);
      FlatCons(p, [q] + others);
      FlatCons(q, others);
    }
    FlatRearranged(b, parts);
    FlatMembers(b);
    var all := Flat(b);
    assert all[at] == q[i] && all[0] == p[0];
    hide Flat;
    assert Best(r, Pool(b), all[0], all[at]);
    FirstBestIsLed(r, slot, b, at);
  }

  lemma FirstBestIsLed(r: Rules, slot: string, parts: seq<seq<Assertion>>, i: nat)
    requires i < |Flat(parts)| && Best(r, Pool(parts), Flat(parts)[0], Flat(parts)[i])
    requires forall j :: 0 <= j < i ==> !Best(r, Pool(parts), Flat(parts)[0], Flat(parts)[j])
    ensures OutcomeOf(r.u, SlotVerdict(r.u, r.policy, slot, Flat(parts), r.now))
            == Led(r, Pool(parts), Flat(parts)[0], Flat(parts)[i])
  {
    hide SlotVerdict;
    hide Led;
    hide Score;
    hide Flat;
    hide Ranked;
    VerdictIsLed(r, slot, Flat(parts));
    RankedOfMembers(r, Flat(parts), Flat(parts)[0]);
    FlatMembers(parts);
    hide ValidOf;
    var k := BestInArrangement(r, parts);
    assert k == i;
  }

  lemma BarrenArrangement(r: Rules, slot: string, parts: seq<seq<Assertion>>, p: seq<Assertion>)
    returns (b: seq<seq<Assertion>>)
    requires p in parts && p != [] && Barren(r, Pool(parts), p[0])
    ensures multiset(b) == multiset(parts) && Flat(b) != []
    ensures OutcomeOf(r.u, SlotVerdict(r.u, r.policy, slot, Flat(b), r.now)) == Nothing
  {
    hide SlotVerdict;
    var rest := MovedToFront(parts, p);
    b := [p] + rest;
    FlatCons(p, rest);
    FlatRearranged(b, parts);
    FlatMembers(b);
    VerdictIsLed(r, slot, Flat(b));
    RankedOfMembers(r, Flat(b), Flat(b)[0]);
  }

  /** Some arrangement of the parts ends in the outcome. */
  ghost predicate Ends(r: Rules, slot: string, parts: seq<seq<Assertion>>, o: Outcome) {
    exists b :: multiset(b) == multiset(parts) && ArrangedEnds(r, slot, b, o)
  }

  ghost predicate ArrangedEnds(r: Rules, slot: string, b: seq<seq<Assertion>>, o: Outcome) {
    Flat(b) != [] && OutcomeOf(r.u, SlotVerdict(r.u, r.policy, slot, Flat(b), r.now)) == o
  }

  /** Exactly the outcomes of leading parts are reached by arrangements. */
  lemma OutcomesExactly(r: Rules, slot: string, parts: seq<seq<Assertion>>, o: Outcome)
    ensures Ends(r, slot, parts, o) <==> CanEnd(r, parts, o)
  {
    hide Leads;
    hide Led;
    hide Barren;
    hide SlotVerdict;
    hide Flat;
    if b :| multiset(b) == multiset(parts) && ArrangedEnds(r, slot, b, o) {
      ArrangementCanEnd(r, slot, b);
      CanEndRearranged(r, b, parts, o);
    }
    if p, q, i :| LeadsTo(r, parts, p, q, i, o) {
      var b := LeadingArrangement(r, slot, parts, p, q, i);
      assert ArrangedEnds(r, slot, b, o);
    }
    if o == Nothing {
      if p :| p in parts && p != [] && Barren(r, Pool(parts), p[0]) {
        var b := BarrenArrangement(r, slot, parts, p);
        assert ArrangedEnds(r, slot, b, o);
      }
    }
  }

  // ---------- Assertions that arrive one by one ----------

  function Singles(a: seq<Assertion>): seq<seq<Assertion>> {
    seq(|a|, i requires 0 <= i < |a| => [a[i]])
  }

  lemma {:induction false} SinglesAreFlat(a: seq<Assertion>)
    ensures Flat(Singles(a)) == a && Pool(Singles(a)) == Members(a)
  {
    if a != [] {
      SinglesAreFlat(a[..|a| - 1]);
      assert Singles(a)[..|a| - 1] == Singles(a[..|a| - 1]);
    }
    FlatMembers(Singles(a));
  }

  lemma {:induction false} SinglesRearranged(a: seq<Assertion>, b: seq<Assertion>)
    requires multiset(a) == multiset(b)
    ensures multiset(Singles(a)) == multiset(Singles(b))
  {
    if a == [] {
      assert |multiset(b)| == 0;
    } else {
      var init, x := a[..|a| - 1], a[|a| - 1];
      var front, back := LastTakenOut(a, b, x);
      SinglesRearranged(init, front + back);
      assert Singles(a) == Singles(init) + [[x]];
      assert Singles(b) == Singles(front) + [[x]] + Singles(back);
      assert Singles(front + back) == Singles(front) + Singles(back);
    }
  }

  /** The top is a best one for the first arrival, and is the first arrival itself if that is a best one. */
  ghost predicate CanLead(r: Rules, a: seq<Assertion>, first: Assertion, top: Assertion) {
    && first in a && Best(r, Members(a), first, top)
    && (Best(r, Members(a), first, first) ==> top == first)
  }

  /** Whichever assertion arrives first, and whichever can then be the first best one, the outcome is this. */
  ghost predicate LeadersAgree(r: Rules, a: seq<Assertion>, o: Outcome) {
    && (forall first, top :: CanLead(r, a, first, top) ==> Led(r, Members(a), first, top) == o)
    && (forall first :: first in a && Barren(r, Members(a), first) ==> o == Nothing)
  }

  lemma LeadersOfSingles(r: Rules, a: seq<Assertion>, o: Outcome)
    ensures LeadersAgree(r, a, o) <==> forall other :: CanEnd(r, Singles(a), other) ==> other == o
  {
    hide Best;
    hide Led;
    hide Barren;
    SinglesAreFlat(a);
    hide Pool;
    var parts := Singles(a);
    forall x
      ensures x in a ==> [x] in parts
    {
      if x in a {
        var i :| 0 <= i < |a| && a[i] == x;
        assert parts[i] == [x];
      }
    }
    if LeadersAgree(r, a, o) {
      forall other | CanEnd(r, parts, other)
        ensures other == o
      {
        if p, q, i :| LeadsTo(r, parts, p, q, i, other) {
          assert p == [p[0]] && q == [q[i]] && i == 0;
          assert Best(r, Pool(parts), p[0], p[0]) ==> HoldsBest(r, Pool(parts), p[0], p);
          assert CanLead(r, a, p[0], q[0]);
        }
      }
    }
    if forall other :: CanEnd(r, parts, other) ==> other == o {
      forall first, top | CanLead(r, a, first, top)
        ensures Led(r, Members(a), first, top) == o
      {
        BestIsMember(r, a, first, top);
        var other := Led(r, Members(a), first, top);
        assert [first][0] == first && [top][0] == top;
        assert LeadsTo(r, parts, [first], [top], 0, other);
        assert CanEnd(r, parts, other);
      }
      forall first | first in a && Barren(r, Members(a), first)
        ensures o == Nothing
      {
        assert [first][0] == first;
        assert CanEnd(r, parts, Nothing);
      }
    }
  }

  lemma BestIsMember(r: Rules, a: seq<Assertion>, first: Assertion, x: Assertion)
    requires Best(r, Members(a), first, x)
    ensures x in a
  {
  }

  /** Every arrival order of a slot's assertions gives the same outcome as this one. */
  ghost predicate OrderIgnored(r: Rules, slot: string, a: seq<Assertion>)
    requires a != []
  {
    forall b :: multiset(b) == multiset(a) && b != [] ==>
      SameOutcome(r.u, SlotVerdict(r.u, r.policy, slot, a, r.now), SlotVerdict(r.u, r.policy, slot, b, r.now))
  }

  /** The arrival order of a slot's assertions does not matter exactly when all that can lead agree. */
  lemma ArrivalOrderExactly(r: Rules, slot: string, a: seq<Assertion>)
    requires a != []
    ensures OrderIgnored(r, slot, a) <==>
              LeadersAgree(r, a, OutcomeOf(r.u, SlotVerdict(r.u, r.policy, slot, a, r.now)))
  {
    hide CanEnd;
    hide LeadersAgree;
    hide Flat;
    SlotNamed(r.u, r.policy, slot, a, r.now);
    hide SlotVerdict;
    var o := OutcomeOf(r.u, SlotVerdict(r.u, r.policy, slot, a, r.now));
    LeadersOfSingles(r, a, o);
    SinglesAreFlat(a);
    if OrderIgnored(r, slot, a) {
      forall other | CanEnd(r, Singles(a), other)
        ensures other == o
      {
        OutcomesExactly(r, slot, Singles(a), other);
        var parts :| multiset(parts) == multiset(Singles(a)) && ArrangedEnds(r, slot, parts, other);
        FlatRearranged(parts, Singles(a));
        assert multiset(Flat(parts)) == multiset(a);
      }
    }
    if LeadersAgree(r, a, o) {
      forall b | multiset(b) == multiset(a) && b != []
        ensures SameOutcome(r.u, SlotVerdict(r.u, r.policy, slot, a, r.now), SlotVerdict(r.u, r.policy, slot, b, r.now))
      {
        SinglesRearranged(a, b);
        SinglesAreFlat(b);
        var other := OutcomeOf(r.u, SlotVerdict(r.u, r.policy, slot, b, r.now));
        assert ArrangedEnds(r, slot, Singles(b), other);
        OutcomesExactly(r, slot, Singles(a), other);
        SlotNamed(r.u, r.policy, slot, b, r.now);
      }
    }
  }

  // ---------- All slots ----------

  lemma {:induction false} InSlotCounts(all: seq<Assertion>, slot: string)
    ensures forall x :: multiset(InSlot(all, slot))[x] == if SlotOf(x) == slot then multiset(all)[x] else 0
  {
    hide SlotOf;
    if all != [] {
      InSlotCounts(all[..|all| - 1], slot);
      assert all == all[..|all| - 1] + [all[|all| - 1]];
    }
  }

  lemma InSlotRearranged(a: seq<Assertion>, b: seq<Assertion>, slot: string)
    requires multiset(a) == multiset(b)
    ensures multiset(InSlot(a, slot)) == multiset(InSlot(b, slot))
    ensures slot in Slots(a) <==> slot in Slots(b)
  {
    hide *;
    InSlotCounts(a, slot);
    InSlotCounts(b, slot);
    SlotsAreListed(a);
    SlotsAreListed(b);
    assert multiset(InSlot(a, slot)) == multiset(InSlot(b, slot));
    SameMembers(InSlot(a, slot), InSlot(b, slot));
  }

  lemma SlotsRearranged(a: seq<Assertion>, b: seq<Assertion>)
    requires multiset(a) == multiset(b)
    ensures SortStrings(Slots(a)) == SortStrings(Slots(b))
    ensures forall s :: s in SortStrings(Slots(a)) <==> InSlot(a, s) != []
    ensures forall s :: s in Slots(a) <==> InSlot(a, s) != []
  {
    hide InSlot;
    hide Slots;
    forall s
      ensures s in Slots(a) <==> s in Slots(b)
    {
      InSlotRearranged(a, b, s);
    }
    SlotsAreListed(a);
    SlotsAreListed(b);
    SortingIgnoresListingOrder(Slots(a), Slots(b));
    SortMembers(Slots(a), StringOrder());
  }

  /** The same slots in the same order, each with the same outcome. */
  ghost predicate SameVerdicts(u: Unicode, a: seq<Verdict>, b: seq<Verdict>) {
    |a| == |b| && forall i :: 0 <= i < |a| ==> SameOutcome(u, a[i], b[i])
  }

  ghost predicate ArbitrationIgnoresOrder(r: Rules, a: seq<Assertion>) {
    forall b :: multiset(b) == multiset(a) ==>
      SameVerdicts(r.u, Arbitrated(r.u, r.policy, a, r.now), Arbitrated(r.u, r.policy, b, r.now))
  }

  function OutSlot(all: seq<Assertion>, slot: string): seq<Assertion> {
    if all == [] then []
    else
      var init := OutSlot(all[..|all| - 1], slot);
      if SlotOf(all[|all| - 1]) == slot then init else init + [all[|all| - 1]]
  }

  lemma {:induction false} OutSlotCounts(all: seq<Assertion>, slot: string)
    ensures multiset(all) == multiset(InSlot(all, slot)) + multiset(OutSlot(all, slot))
    ensures forall x :: x in OutSlot(all, slot) ==> SlotOf(x) != slot
    ensures forall x :: x in InSlot(all, slot) ==> SlotOf(x) == slot
  {
    hide SlotOf;
    if all != [] {
      OutSlotCounts(all[..|all| - 1], slot);
      assert all == all[..|all| - 1] + [all[|all| - 1]];
    }
  }

  lemma {:induction false} InSlotOfJoined(front: seq<Assertion>, back: seq<Assertion>, slot: string)
    requires forall x :: x in front ==> SlotOf(x) == slot
    requires forall x :: x in back ==> SlotOf(x) != slot
    ensures InSlot(front + back, slot) == front
  {
    hide SlotOf;
    var all := front + back;
    if back != [] {
      assert all[..|all| - 1] == front + back[..|back| - 1] && all[|all| - 1] == back[|back| - 1];
      InSlotOfJoined(front, back[..|back| - 1], slot);
    } else if front != [] {
      assert all[..|all| - 1] == front[..|front| - 1] + [] && all[|all| - 1] == front[|front| - 1];
      InSlotOfJoined(front[..|front| - 1], [], slot);
    }
  }

  /** Any arrangement of one slot's assertions is part of an arrangement of all. */
  lemma SlotArrangement(a: seq<Assertion>, slot: string, b: seq<Assertion>) returns (all: seq<Assertion>)
    requires multiset(b) == multiset(InSlot(a, slot))
    ensures multiset(all) == multiset(a) && InSlot(all, slot) == b
  {
    hide SlotOf;
    all := b + OutSlot(a, slot);
    OutSlotCounts(a, slot);
    SameMembers(b, InSlot(a, slot));
    InSlotOfJoined(b, OutSlot(a, slot), slot);
  }

  /** In every slot, all that can lead agree with this arrangement's outcome. */
  ghost predicate SlotsAgree(r: Rules, a: seq<Assertion>) {
    forall s :: InSlot(a, s) != [] ==> SlotAgrees(r, s, InSlot(a, s))
  }

  ghost predicate SlotAgrees(r: Rules, slot: string, a: seq<Assertion>)
    requires a != []
  {
    LeadersAgree(r, a, OutcomeOf(r.u, SlotVerdict(r.u, r.policy, slot, a, r.now)))
  }

  /** The arrival order of all assertions does not matter exactly when it does not matter in any slot. */
  lemma ArbitrationOrderExactly(r: Rules, a: seq<Assertion>)
    ensures ArbitrationIgnoresOrder(r, a) <==> SlotsAgree(r, a)
  {
    hide LeadersAgree;
    hide SlotVerdict;
    hide InSlot;
    hide Slots;
    hide SameOutcome;
    if ArbitrationIgnoresOrder(r, a) {
      forall s | InSlot(a, s) != []
        ensures SlotAgrees(r, s, InSlot(a, s))
      {
        forall b | multiset(b) == multiset(InSlot(a, s)) && b != []
          ensures SameOutcome(r.u, SlotVerdict(r.u, r.policy, s, InSlot(a, s), r.now),
                              SlotVerdict(r.u, r.policy, s, b, r.now))
        {
          var all := SlotArrangement(a, s, b);
          SlotsRearranged(a, all);
          var i :| 0 <= i < |SortStrings(Slots(a))| && SortStrings(Slots(a))[i] == s;
          assert SameOutcome(r.u, Arbitrated(r.u, r.policy, a, r.now)[i], Arbitrated(r.u, r.policy, all, r.now)[i]);
        }
        ArrivalOrderExactly(r, s, InSlot(a, s));
      }
    }
    if SlotsAgree(r, a) {
      forall b | multiset(b) == multiset(a)
        ensures SameVerdicts(r.u, Arbitrated(r.u, r.policy, a, r.now), Arbitrated(r.u, r.policy, b, r.now))
      {
        AgreeingSlots(r, a, b);
      }
    }
  }

  lemma AgreeingSlots(r: Rules, a: seq<Assertion>, b: seq<Assertion>)
    requires multiset(a) == multiset(b)
    requires SlotsAgree(r, a)
    ensures SameVerdicts(r.u, Arbitrated(r.u, r.policy, a, r.now), Arbitrated(r.u, r.policy, b, r.now))
  {
    hide LeadersAgree;
    hide SlotVerdict;
    hide InSlot;
    hide Slots;
    hide SameOutcome;
    SlotsRearranged(a, b);
    SlotsRearranged(b, b);
    var slots := SortStrings(Slots(a));
    forall i | 0 <= i < |slots|
      ensures SameOutcome(r.u, SlotVerdict(r.u, r.policy, slots[i], InSlot(a, slots[i]), r.now),
                          SlotVerdict(r.u, r.policy, slots[i], InSlot(b, slots[i]), r.now))
    {
      InSlotRearranged(a, b, slots[i]);
      ArrivalOrderExactly(r, slots[i], InSlot(a, slots[i]));
    }
  }

  // ---------- A simple condition ----------

  /** Compatible scopes, one non-negative threshold, and no assertion declaring another superseded. */
  ghost predicate OrderFree(policy: Policy, cs: seq<Assertion>) {
    forall a, b :: a in cs && b in cs ==>
      && ScopeCompatible(a.scope, b.scope)
      && Threshold(policy, a.predicateId) == Threshold(policy, b.predicateId) >= 0.0
      && b.id !in a.supersedes
  }

  /** Under one scope and threshold, and without supersession, all that can lead give one outcome. */
  lemma LeadersOfOrderFree(r: Rules, a: seq<Assertion>, first: Assertion, top: Assertion, other: Assertion,
                           best: Assertion)
    requires OrderFree(r.policy, a) && first in a && other in a
    requires Best(r, Members(a), first, top) && Best(r, Members(a), other, best)
    ensures Led(r, Members(a), first, top) == Led(r, Members(a), other, best)
  {
    hide Score;
    hide Threshold;
    hide ValueKey;
    hide Usable;
    hide ScopeCompatible;
    var pool := Members(a);
    assert forall x :: x in pool ==> (Ranked(r, first, x) <==> Ranked(r, other, x));
    assert top in a && best in a;
    var rivals, others := RivalsIn(r, pool, first, top), RivalsIn(r, pool, other, best);
    if ValueKey(r.u, top.value) == ValueKey(r.u, best.value) {
      assert forall x :: x in pool ==> (Rival(r.u, top, x) <==> Rival(r.u, best, x));
      assert rivals == others;
    } else {
      assert best in rivals && top in others;
    }
  }

  lemma OrderFreeLeadersAgree(r: Rules, slot: string, a: seq<Assertion>)
    requires a != [] && OrderFree(r.policy, a)
    ensures LeadersAgree(r, a, OutcomeOf(r.u, SlotVerdict(r.u, r.policy, slot, a, r.now)))
  {
    hide SlotVerdict;
    hide OrderFree;
    hide Led;
    hide Best;
    var valid := ValidOf(r.policy, a, r.now);
    VerdictIsLed(r, slot, a);
    RankedOfMembers(r, a, a[0]);
    OneScope(r, a);
    hide ValidOf;
    hide Barren;
    SinglesAreFlat(a);
    if valid != [] {
      hide Flat;
      var i := BestInArrangement(r, Singles(a));
      forall first, top | CanLead(r, a, first, top)
        ensures Led(r, Members(a), first, top) == Led(r, Members(a), a[0], a[i])
      {
        LeadersOfOrderFree(r, a, first, top, a[0], a[i]);
      }
    } else {
      forall first, top | CanLead(r, a, first, top)
        ensures false
      {
        BestIsRanked(r, a, first, top);
      }
    }
  }

  lemma BestIsRanked(r: Rules, a: seq<Assertion>, first: Assertion, x: Assertion)
    requires Best(r, Members(a), first, x)
    ensures !Barren(r, Members(a), first)
  {
  }

  lemma OneScope(r: Rules, a: seq<Assertion>)
    requires a != [] && OrderFree(r.policy, a)
    ensures forall first :: first in a ==> (Barren(r, Members(a), first) <==> Barren(r, Members(a), a[0]))
  {
    hide Usable;
    hide Threshold;
    hide ScopeCompatible;
    assert a[0] in a;
    forall first | first in a
      ensures Barren(r, Members(a), first) <==> Barren(r, Members(a), a[0])
    {
      assert forall x :: x in Members(a) ==> (Ranked(r, first, x) <==> Ranked(r, a[0], x));
    }
  }

  /** Rearranged assertions of an order-free slot agree in status and value. */
  lemma SlotIgnoresArrivalOrder(r: Rules, slot: string, a: seq<Assertion>)
    requires a != [] && OrderFree(r.policy, a)
    ensures OrderIgnored(r, slot, a)
  {
    OrderFreeLeadersAgree(r, slot, a);
    ArrivalOrderExactly(r, slot, a);
  }

  /**
   Any rearrangement of the assertions gives the same slots in the same order, each with the same status
   and, when one is accepted, the same value.
   */
  lemma ArbitrationIgnoresArrivalOrder(r: Rules, a: seq<Assertion>)
    requires forall s :: s in Slots(a) ==> OrderFree(r.policy, InSlot(a, s))
    ensures ArbitrationIgnoresOrder(r, a)
  {
    hide LeadersAgree;
    hide OrderFree;
    hide SlotVerdict;
    hide InSlot;
    SlotsAreListed(a);
    forall s | InSlot(a, s) != []
      ensures SlotAgrees(r, s, InSlot(a, s))
    {
      OrderFreeLeadersAgree(r, s, InSlot(a, s));
    }
    ArbitrationOrderExactly(r, a);
  }

  // ---------- Why each condition is needed ----------

  /** Two assertions of equal score with different values, one per arrival order. */
  function Contender(id: string, text: string, scope: map<string, string>, supersedes: seq<string>): Assertion {
    Assertion(id, "slot", "", "", Value("string", text), scope, "", 0.5, 0.5, None, None, None, supersedes, [])
  }

  lemma PairVerdict(u: Unicode, policy: Policy, x: Assertion, y: Assertion, now: int)
    requires Usable(policy, x, now) && Usable(policy, y, now)
    requires ScopeCompatible(x.scope, x.scope)
    requires Score(policy, x, now) == Score(policy, y, now)
    ensures var r := SlotVerdict(u, policy, "slot", [x, y], now);
            if !ScopeCompatible(y.scope, x.scope) || !Rival(u, x, y) || Threshold(policy, x.predicateId) < 0.0
            then r.accepted == Some(x) else r.status == UnresolvedConflict
  {
    hide Score;
    hide Rival;
    hide Threshold;
    hide Usable;
    var cs := [x, y];
    assert cs[..1] == [x] && [x][..0] == [];
    assert InScope([x], x) == [x];
    if ScopeCompatible(y.scope, x.scope) {
      assert InScope(cs, x) == [x, y];
      assert Select(policy, [x], now, true) == [x];
      assert Select(policy, cs, now, true) == [x, y];
      assert FirstBest(policy, cs, now) == x;
      NotOwnRival(u, x);
    } else {
      assert InScope(cs, x) == [x];
      assert Select(policy, [x], now, true) == [x];
      NotOwnRival(u, x);
    }
    AcceptedExactlyWhenDecisive(u, policy, "slot", cs, now);
  }

  /** Texts "a" and "b" are different values. */
  ghost predicate DistinctLetters(u: Unicode) {
    !u.isSpace('a') && !u.isSpace('b') && u.lower('a') != u.lower('b')
  }

  lemma ContendersDiffer(u: Unicode, x: Assertion, y: Assertion)
    requires DistinctLetters(u) && {x.value.text, y.value.text} == {"a", "b"}
    ensures ValueKey(u, x.value) != ValueKey(u, y.value)
  {
    assert "a"[1..] == "" && "b"[1..] == "";
    assert WithoutSpaces(u, "a") == "a" && WithoutSpaces(u, "b") == "b";
    assert u.Lower("a")[0] == u.lower('a') && u.Lower("b")[0] == u.lower('b');
  }

  /** With incompatible scopes the first to arrive is accepted. */
  lemma ScopesMakeOrderMatter(u: Unicode, now: int)
    requires DistinctLetters(u)
    ensures var policy := Policy(map[], map[], 0.05);
            var x, y := Contender("x", "a", map["k" := "1"], []), Contender("y", "b", map["k" := "2"], []);
            && SlotVerdict(u, policy, "slot", [x, y], now).accepted == Some(x)
            && SlotVerdict(u, policy, "slot", [y, x], now).accepted == Some(y)
  {
    var policy := Policy(map[], map[], 0.05);
    var x, y := Contender("x", "a", map["k" := "1"], []), Contender("y", "b", map["k" := "2"], []);
    assert "k" in x.scope && "k" in y.scope && x.scope["k"] != y.scope["k"];
    PairVerdict(u, policy, x, y, now);
    PairVerdict(u, policy, y, x, now);
  }

  /** With supersession a tie is decided only when the superseding assertion arrives first. */
  lemma SupersessionMakesOrderMatter(u: Unicode, now: int)
    requires DistinctLetters(u)
    ensures var policy := Policy(map[], map[], 0.05);
            var x, y := Contender("x", "a", map[], ["y"]), Contender("y", "b", map[], []);
            && SlotVerdict(u, policy, "slot", [x, y], now).accepted == Some(x)
            && SlotVerdict(u, policy, "slot", [y, x], now).status == UnresolvedConflict
  {
    var policy := Policy(map[], map[], 0.05);
    var x, y := Contender("x", "a", map[], ["y"]), Contender("y", "b", map[], []);
    ContendersDiffer(u, x, y);
    PairVerdict(u, policy, x, y, now);
    PairVerdict(u, policy, y, x, now);
  }

  /** With a negative threshold a tie goes to the first to arrive. */
  lemma NegativeThresholdMakesOrderMatter(u: Unicode, now: int)
    requires DistinctLetters(u)
    ensures var policy := Policy(map[], map[], -1.0);
            var x, y := Contender("x", "a", map[], []), Contender("y", "b", map[], []);
            && SlotVerdict(u, policy, "slot", [x, y], now).accepted == Some(x)
            && SlotVerdict(u, policy, "slot", [y, x], now).accepted == Some(y)
            && ValueKey(u, x.value) != ValueKey(u, y.value)
  {
    var policy := Policy(map[], map[], -1.0);
    var x, y := Contender("x", "a", map[], []), Contender("y", "b", map[], []);
    ContendersDiffer(u, x, y);
    PairVerdict(u, policy, x, y, now);
    PairVerdict(u, policy, y, x, now);
  }
}
