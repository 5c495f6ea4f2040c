/**
 What arbitration decides: exactly when a slot has an accepted assertion, and when the decision does not
 depend on the order in which assertions arrive.
 */
module ArbiterTheorems {
  import opened Wrappers
  import opened Text
  import opened Sorting
  import opened GraphModel
  import opened Arbiter

  // ---------- The first best assertion ----------

  /** The first of the highest-scored assertions, in arrival order. */
  function FirstBest(policy: Policy, cs: seq<Assertion>, now: int): Assertion
    requires cs != []
  {
    if |cs| == 1 then cs[0]
    else
      var best := FirstBest(policy, cs[..|cs| - 1], now);
      var last := cs[|cs| - 1];
      if Score(policy, last, now) > Score(policy, best, now) then last else best
  }

  lemma {:induction false} FirstBestIsBest(policy: Policy, cs: seq<Assertion>, now: int) returns (i: nat)
    requires cs != []
    ensures i < |cs| && cs[i] == FirstBest(policy, cs, now)
    ensures forall j :: 0 <= j < |cs| ==> Score(policy, cs[j], now) <= Score(policy, cs[i], now)
    ensures forall j :: 0 <= j < i ==> Score(policy, cs[j], now) < Score(policy, cs[i], now)
  {
    hide Score;
    if |cs| == 1 {
      i := 0;
    } else {
      var last := |cs| - 1;
      i := FirstBestIsBest(policy, cs[..last], now);
      assert forall j :: 0 <= j < last ==> cs[..last][j] == cs[j];
      if Score(policy, cs[last], now) > Score(policy, cs[i], now) {
        i := last;
      }
    }
  }

  lemma ScoreOrderIsStrictWeak(policy: Policy, now: int)
    ensures StrictWeakOrder(ScoreOrder(policy, now))
  {
    hide Score;
  }

  lemma {:induction false} RankedHead(policy: Policy, cs: seq<Assertion>, now: int)
    requires cs != []
    ensures Sort(cs, ScoreOrder(policy, now)) != []
    ensures Sort(cs, ScoreOrder(policy, now))[0] == FirstBest(policy, cs, now)
  {
    hide Score;
    SortMultiset(cs, ScoreOrder(policy, now));
    if |cs| > 1 {
      RankedHead(policy, cs[..|cs| - 1], now);
    } else {
      assert cs[..0] == [];
    }
  }

  // ---------- When an assertion is accepted ----------

  /** The assertion leads every rival in the list by strictly more than its threshold. */
  ghost predicate Decisive(u: Unicode, policy: Policy, top: Assertion, cs: seq<Assertion>, now: int) {
    forall x :: x in cs && Rival(u, top, x) ==>
      Score(policy, top, now) - Score(policy, x, now) > Threshold(policy, top.predicateId)
  }

  lemma {:induction false} RivalMembers(u: Unicode, top: Assertion, cs: seq<Assertion>)
    ensures forall x :: x in Rivals(u, top, cs) <==> x in cs && Rival(u, top, x)
  {
    hide Rival;
    if cs != [] {
      RivalMembers(u, top, cs[..|cs| - 1]);
      assert cs == cs[..|cs| - 1] + [cs[|cs| - 1]];
    }
  }

  /** In a ranked list the first rival is the closest one. */
  lemma {:induction false} FirstRivalIsClosest(u: Unicode, policy: Policy, top: Assertion, cs: seq<Assertion>, now: int)
    requires Sorted(cs, ScoreOrder(policy, now))
    ensures var rs := Rivals(u, top, cs);
            forall x :: x in rs ==> Score(policy, x, now) <= Score(policy, rs[0], now)
  {
    hide Rival;
    hide Score;
    if cs != [] {
      var init, last := cs[..|cs| - 1], cs[|cs| - 1];
      FirstRivalIsClosest(u, policy, top, init, now);
      RivalMembers(u, top, init);
      var rs := Rivals(u, top, init);
      if rs != [] {
        assert rs[0] in init;
        var i :| 0 <= i < |init| && init[i] == rs[0];
        assert !ScoreOrder(policy, now)(cs[|cs| - 1], cs[i]);
      }
    }
  }

  lemma RankedRivals(u: Unicode, policy: Policy, cs: seq<Assertion>, now: int)
    requires cs != []
    ensures var ranked := Sort(cs, ScoreOrder(policy, now));
            && ranked != [] && ranked[0] == FirstBest(policy, cs, now)
            && var rs := Rivals(u, ranked[0], ranked[1..]);
            && (forall x :: x in rs <==> x in cs && Rival(u, ranked[0], x))
            && (forall x :: x in rs ==> Score(policy, x, now) <= Score(policy, rs[0], now))
  {
    hide Score;
    hide Rival;
    var ranked := Sort(cs, ScoreOrder(policy, now));
    RankedHead(policy, cs, now);
    ScoreOrderIsStrictWeak(policy, now);
    SortSorted(cs, ScoreOrder(policy, now));
    SortMembers(cs, ScoreOrder(policy, now));
    RivalMembers(u, ranked[0], ranked[1..]);
    FirstRivalIsClosest(u, policy, ranked[0], ranked[1..], now);
    NotOwnRival(u, ranked[0]);
    assert forall x :: x in ranked <==> x == ranked[0] || x in ranked[1..];
  }

  lemma NotOwnRival(u: Unicode, x: Assertion)
    ensures !Rival(u, x, x)
  {
  }

  /**
   A slot has an accepted assertion exactly when some in-scope assertion is valid and fresh and the first
   best of them leads every rival by more than the threshold; comparing with the first rival suffices.
   */
  lemma AcceptedExactlyWhenDecisive(u: Unicode, policy: Policy, slot: string, cs: seq<Assertion>, now: int)
    requires cs != []
    ensures var r := SlotVerdict(u, policy, slot, cs, now);
            var valid := ValidOf(policy, cs, now);
            && (r.accepted.Some? <==> valid != [] && Decisive(u, policy, FirstBest(policy, valid, now), valid, now))
            && (r.accepted.Some? ==> r.accepted.value == FirstBest(policy, valid, now))
            && (r.status == NoValidAssertion <==> valid == [])
            && (r.status == UnresolvedConflict <==> valid != [] && r.accepted.None?)
            && (r.status == Accepted <==>
                  valid != [] && forall x :: x in valid ==> !Rival(u, FirstBest(policy, valid, now), x))
  {
    hide Score;
    hide Rival;
    hide Threshold;
    var valid := ValidOf(policy, cs, now);
    if valid != [] {
      RankedRivals(u, policy, valid, now);
      var ranked := Sort(valid, ScoreOrder(policy, now));
      var rs := Rivals(u, ranked[0], ranked[1..]);
      assert rs != [] ==> rs[0] in rs;
    }
  }

  lemma {:induction false} SelectMembers(policy: Policy, cs: seq<Assertion>, now: int, usable: bool)
    ensures forall x :: x in Select(policy, cs, now, usable) <==> x in cs && Usable(policy, x, now) == usable
    ensures forall x :: multiset(Select(policy, cs, now, usable))[x]
                        == if Usable(policy, x, now) == usable then multiset(cs)[x] else 0
  {
    hide Usable;
    if cs != [] {
      SelectMembers(policy, cs[..|cs| - 1], now, usable);
      assert cs == cs[..|cs| - 1] + [cs[|cs| - 1]];
    }
  }

  lemma {:induction false} InScopeMembers(cs: seq<Assertion>, first: Assertion)
    ensures forall x :: x in InScope(cs, first) <==> x in cs && ScopeCompatible(x.scope, first.scope)
    ensures (forall x :: x in cs ==> ScopeCompatible(x.scope, first.scope)) ==> InScope(cs, first) == cs
  {
    hide ScopeCompatible;
    if cs != [] {
      var init, last := cs[..|cs| - 1], cs[|cs| - 1];
      InScopeMembers(init, first);
      assert cs == init + [last] && last in cs;
      assert forall x :: x in cs <==> x in init || x == last;
      assert InScope(cs, first)
          == if ScopeCompatible(last.scope, first.scope) then InScope(init, first) + [last] else InScope(init, first);
      hide InScope;
    }
  }

  /** The assertions ranked for a slot are exactly the in-scope, valid and fresh ones. */
  lemma RankedAreUsable(policy: Policy, cs: seq<Assertion>, now: int, x: Assertion)
    requires cs != []
    ensures x in ValidOf(policy, cs, now) <==>
            x in cs && ScopeCompatible(x.scope, cs[0].scope) && ValidAt(x, now) && !IsStale(policy, x, now)
  {
    InScopeMembers(cs, cs[0]);
    SelectMembers(policy, InScope(cs, cs[0]), now, true);
  }

  lemma SlotNamed(u: Unicode, policy: Policy, slot: string, cs: seq<Assertion>, now: int)
    requires cs != []
    ensures var r := SlotVerdict(u, policy, slot, cs, now);
            && r.slotId == slot
            && (r.status == NoValidAssertion || r.status == UnresolvedConflict || r.status == Accepted || r.status
                == AcceptedWithConflict)
            && (r.accepted.Some? <==> r.status == Accepted || r.status == AcceptedWithConflict)
  {
  }

  lemma SameMembers<T>(a: seq<T>, b: seq<T>)
    requires multiset(a) == multiset(b)
    ensures forall x :: x in a <==> x in b
    ensures |a| == |b|
  {
    forall x
      ensures x in a <==> x in b
    {
      assert x in a <==> x in multiset(a);
      assert x in b <==> x in multiset(b);
    }
    assert |multiset(a)| == |multiset(b)|;
  }
}
