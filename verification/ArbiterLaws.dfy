/**
 Arbitration in terms of the policy's own settings: when an assertion is current, what puts it ahead of
 another, and which assertion of a slot is therefore accepted.
 */
module ArbiterLaws {
  import opened Wrappers
  import opened Text
  import opened Sorting
  import opened GraphModel
  import opened Arbiter
  import opened ArbiterTheorems
  import opened ArbiterOrder

  // ---------- Currency ----------

  /** Observations of this predicate are good for so many seconds. */
  predicate Limited(policy: Policy, predicateId: string, seconds: int) {
    && predicateId in policy.predicates && policy.predicates[predicateId].maxAgeSeconds == seconds
    && seconds > 0
  }

  /** Not before its validity starts, not after it ends. */
  predicate InWindow(x: Assertion, now: int) {
    && (x.validFrom.None? || x.validFrom.value <= now)
    && (x.validTo.None? || now <= x.validTo.value)
  }

  /** In its validity window, and not past the last moment its observation is good for. Times are in nanoseconds. */
  ghost predicate Current(policy: Policy, x: Assertion, now: int) {
    && InWindow(x, now)
    && (forall seconds :: Limited(policy, x.predicateId, seconds) && x.observedAt.Some? ==>
          now <= x.observedAt.value + seconds * 1_000_000_000)
  }

  lemma UsableWhenCurrent(policy: Policy, x: Assertion, now: int)
    ensures Usable(policy, x, now) <==> Current(policy, x, now)
  {
    if x.predicateId in policy.predicates {
      var seconds := policy.predicates[x.predicateId].maxAgeSeconds;
      assert seconds > 0 ==> Limited(policy, x.predicateId, seconds);
    }
  }

  /** An assertion alone in its slot is accepted exactly while it is current; otherwise it is listed as stale. */
  lemma LoneAssertionExactly(u: Unicode, policy: Policy, slot: string, x: Assertion, now: int)
    ensures var r := SlotVerdict(u, policy, slot, [x], now);
            && (Current(policy, x, now) ==> r == Verdict(slot, Accepted, Some(x), [], []))
            && (!Current(policy, x, now) ==> r == Verdict(slot, NoValidAssertion, None, [], [x]))
  {
    UsableWhenCurrent(policy, x, now);
    hide Usable;
    hide Current;
    hide Score;
    var none: seq<Assertion> := [];
    assert [x][..0] == none && [x][1..] == none;
    assert InScope(none, x) == none && InScope([x], x) == none + [x] == [x];
    assert Select(policy, none, now, true) == none && Select(policy, none, now, false) == none;
    assert none + [x] == [x];
    assert Sort([x], ScoreOrder(policy, now)) == [x] by {
      assert Sort(none, ScoreOrder(policy, now)) == none;
    }
    assert Sort(none, ScoreOrder(policy, now)) == none;
  }

  /** The assertions listed as stale are those in the scope of the first to arrive that are not current. */
  lemma StaleExactly(u: Unicode, policy: Policy, slot: string, cs: seq<Assertion>, now: int, x: Assertion)
    requires cs != []
    ensures x in SlotVerdict(u, policy, slot, cs, now).stale <==>
              && x in cs && !Current(policy, x, now)
              && forall k :: k in x.scope && k in cs[0].scope ==> x.scope[k] == cs[0].scope[k]
  {
    UsableWhenCurrent(policy, x, now);
    hide Usable;
    hide Current;
    InScopeMembers(cs, cs[0]);
    SelectMembers(policy, InScope(cs, cs[0]), now, false);
    hide InScope;
    hide Select;
    hide Score;
  }

  /** In its window an assertion only ages: what was stale stays so, what is current was so before. */
  lemma AgeingIsFinal(u: Unicode, policy: Policy, slot: string, cs: seq<Assertion>, x: Assertion, now: int, later: int)
    requires cs != [] && x in cs && InWindow(x, now) && now <= later
    ensures x in SlotVerdict(u, policy, slot, cs, now).stale ==> x in SlotVerdict(u, policy, slot, cs, later).stale
    ensures SlotVerdict(u, policy, slot, [x], later).accepted.Some? ==>
              SlotVerdict(u, policy, slot, [x], now).accepted == Some(x)
  {
    hide SlotVerdict;
    StaleExactly(u, policy, slot, cs, now, x);
    StaleExactly(u, policy, slot, cs, later, x);
    LoneAssertionExactly(u, policy, slot, x, now);
    LoneAssertionExactly(u, policy, slot, x, later);
    assert Current(policy, x, later) ==> Current(policy, x, now);
  }

  // ---------- Precedence ----------

  /** The predicate's own priority for the source, or else the default one, or else the assertion's authority. */
  function Priority(policy: Policy, x: Assertion): real {
    var owned := x.predicateId in policy.predicates && x.source in policy.predicates[x.predicateId].sourcePriority;
    if !owned && x.source !in policy.defaultPriority then x.authority
    else if !owned then policy.defaultPriority[x.source]
    else policy.predicates[x.predicateId].sourcePriority[x.source]
  }

  /** Newer observations are preferred for the predicate, and this one was observed. */
  predicate Dated(policy: Policy, x: Assertion) {
    x.observedAt.Some? && x.predicateId in policy.predicates && policy.predicates[x.predicateId].preferNewer
  }

  const DAY := 86_400 * 1_000_000_000

  /** Starts at a twentieth and halves in a day. */
  function Newness(policy: Policy, x: Assertion, now: int): real {
    if !Dated(policy, x) then 0.0
    else if now <= x.observedAt.value then 0.05
    else DAY as real / (20 * (DAY + now - x.observedAt.value)) as real
  }

  /** How far one assertion is ahead of another. */
  function Lead(policy: Policy, x: Assertion, y: Assertion, now: int): real {
    0.65 * (Priority(policy, x) - Priority(policy, y)) + 0.35 * (x.confidence - y.confidence)
    + (Newness(policy, x, now) - Newness(policy, y, now))
  }

  lemma NewnessOfAge(elapsed: int)
    requires elapsed > 0
    ensures 0.05 / (1.0 + elapsed as real / HOUR as real / 24.0) == DAY as real / (20 * (DAY + elapsed)) as real
  {
    var d, e := DAY as real, elapsed as real;
    assert HOUR as real * 24.0 == d;
    assert e / HOUR as real / 24.0 == e / d;
    assert (20 * (DAY + elapsed)) as real == 20.0 * (d + e);
    Fractions(d, e);
  }

  lemma Fractions(d: real, e: real)
    requires d > 0.0 && e > 0.0
    ensures 0.05 / (1.0 + e / d) == d / (20.0 * (d + e))
  {
    var r := e / d;
    assert r * d == e;
    assert r > 0.0;
    var p, q := 0.05 / (1.0 + r), d / (20.0 * (d + e));
    assert p * (1.0 + r) == 0.05;
    assert p * (20.0 * (d + e)) == d by {
      assert p * (20.0 * (d + e)) == p * (1.0 + r) * (20.0 * d);
    }
    assert q * (20.0 * (d + e)) == d;
  }

  lemma ScoresDifferByLead(policy: Policy, x: Assertion, y: Assertion, now: int)
    ensures Score(policy, x, now) - Score(policy, y, now) == Lead(policy, x, y, now)
  {
    ScoreInParts(policy, x, now);
    ScoreInParts(policy, y, now);
    hide Score;
    hide Priority;
    hide Newness;
  }

  lemma ScoreInParts(policy: Policy, x: Assertion, now: int)
    ensures Score(policy, x, now) == 0.65 * Priority(policy, x) + 0.35 * x.confidence + Newness(policy, x, now)
  {
    if x.observedAt.Some? && now > x.observedAt.value {
      NewnessOfAge(now - x.observedAt.value);
    } else {
      assert 0.05 / (1.0 + 0.0 / 24.0) == 0.05;
    }
  }

  /** With newer observations preferred, an assertion observed no earlier is not behind for that. */
  lemma NewerIsNotBehind(policy: Policy, x: Assertion, y: Assertion, now: int)
    requires Dated(policy, x) && Dated(policy, y) && x.observedAt.value >= y.observedAt.value
    requires Priority(policy, x) >= Priority(policy, y) && x.confidence >= y.confidence
    ensures Lead(policy, x, y, now) >= 0.0
    ensures x.observedAt.value > y.observedAt.value && now > y.observedAt.value ==> Lead(policy, x, y, now) > 0.0
  {
    hide Priority;
    NewnessFalls(policy, x, y, now);
    hide Newness;
  }

  lemma NewnessFalls(policy: Policy, x: Assertion, y: Assertion, now: int)
    requires Dated(policy, x) && Dated(policy, y) && x.observedAt.value >= y.observedAt.value
    ensures Newness(policy, x, now) >= Newness(policy, y, now)
    ensures x.observedAt.value > y.observedAt.value && now > y.observedAt.value ==>
              Newness(policy, x, now) > Newness(policy, y, now)
  {
    var a, b := now - x.observedAt.value, now - y.observedAt.value;
    if b > 0 && a < b {
      var d, e := DAY as real, b as real;
      var f := if a < 0 then 0.0 else a as real;
      assert Newness(policy, y, now) == d / (20.0 * (d + e));
      FractionsFall(d, f, e);
      assert Newness(policy, x, now) == d / (20.0 * (d + f)) by {
        if a <= 0 {
          assert d / (20.0 * d) == 0.05;
        }
      }
    }
  }

  lemma FractionsFall(d: real, f: real, e: real)
    requires d > 0.0 && 0.0 <= f < e
    ensures d / (20.0 * (d + f)) > d / (20.0 * (d + e))
  {
    var m, n := 20.0 * (d + f), 20.0 * (d + e);
    SmallerQuotient(d, m, n);
  }

  lemma SmallerQuotient(d: real, m: real, n: real)
    requires d > 0.0 && 0.0 < m < n
    ensures d / m > d / n
  {
    var p, q := d / m, d / n;
    assert p * m == d;
    assert q * n == d;
    Positive(q, n);
    Ordered(p, q, m, n);
  }

  lemma Positive(q: real, n: real)
    requires q * n > 0.0 && n > 0.0
    ensures q > 0.0
  {
  }

  lemma Ordered(p: real, q: real, m: real, n: real)
    requires p * m == q * n && q > 0.0 && 0.0 < m < n
    ensures p > q
  {
    assert q * n == q * m + q * (n - m);
    assert q * (n - m) > 0.0;
    assert (p - q) * m == p * m - q * m;
  }

  // ---------- Decisions ----------

  /** The lead over a contradicting assertion that is not enough: the predicate's own, or the default for 0. */
  ghost predicate Needs(policy: Policy, predicateId: string, lead: real) {
    var own := predicateId in policy.predicates && policy.predicates[predicateId].unresolvedDelta != 0.0;
    && (own ==> lead == policy.predicates[predicateId].unresolvedDelta)
    && (!own ==> lead == policy.defaultDelta)
  }

  /** Current, and at odds with the first assertion to arrive in no dimension of its scope. */
  ghost predicate Stands(policy: Policy, cs: seq<Assertion>, i: nat, now: int)
    requires i < |cs|
  {
    && Current(policy, cs[i], now)
    && forall k :: k in cs[i].scope && k in cs[0].scope ==> cs[i].scope[k] == cs[0].scope[k]
  }

  /** Says something else, up to case and white space, and is not superseded. */
  predicate Contradicts(u: Unicode, x: Assertion, y: Assertion) {
    && u.Lower(WithoutSpaces(u, x.value.text)) != u.Lower(WithoutSpaces(u, y.value.text))
    && forall i :: 0 <= i < |x.supersedes| ==> x.supersedes[i] != y.id
  }

  /** Ahead of all that stand, strictly of those that came before, and far enough of those it contradicts. */
  ghost predicate Prevails(u: Unicode, policy: Policy, cs: seq<Assertion>, i: nat, now: int)
    requires i < |cs|
  {
    && Leads(policy, cs, i, now)
    && forall j: nat, lead ::
         j < |cs| && Stands(policy, cs, j, now) && Contradicts(u, cs[i], cs[j])
         && Needs(policy, cs[i].predicateId, lead)
         ==> Lead(policy, cs[i], cs[j], now) > lead
  }

  ghost predicate Leads(policy: Policy, cs: seq<Assertion>, i: nat, now: int)
    requires i < |cs|
  {
    && Stands(policy, cs, i, now)
    && forall j: nat :: j < |cs| && Stands(policy, cs, j, now) ==>
         Lead(policy, cs[i], cs[j], now) >= 0.0 && (j < i ==> Lead(policy, cs[i], cs[j], now) > 0.0)
  }

  lemma StandsWhenRanked(r: Rules, cs: seq<Assertion>, i: nat)
    requires i < |cs|
    ensures Ranked(r, cs[0], cs[i]) <==> Stands(r.policy, cs, i, r.now)
  {
    hide Usable;
    hide Current;
    UsableWhenCurrent(r.policy, cs[i], r.now);
  }

  lemma OneLeads(policy: Policy, cs: seq<Assertion>, i: nat, j: nat, now: int)
    requires i < |cs| && j < |cs| && Leads(policy, cs, i, now) && Leads(policy, cs, j, now)
    ensures i == j
  {
    hide Stands;
    hide Priority;
    hide Newness;
    assert Lead(policy, cs[i], cs[j], now) == -Lead(policy, cs[j], cs[i], now);
  }

  /** The first best of the ranked assertions is the one that leads, and something leads when anything stands. */
  lemma FirstBestLeads(policy: Policy, cs: seq<Assertion>, now: int) returns (i: nat)
    requires cs != [] && ValidOf(policy, cs, now) != []
    ensures i < |cs| && cs[i] == FirstBest(policy, ValidOf(policy, cs, now), now) && Leads(policy, cs, i, now)
  {
    var r := Rules(Unicode(c => false, c => false, c => false, c => c), policy, now);
    hide Score;
    hide FirstBest;
    hide Lead;
    hide Stands;
    assert RankedOf(r, cs, cs[0]) == ValidOf(policy, cs, now);
    hide RankedOf;
    hide ValidOf;
    i := FirstTop(r, cs, cs[0]);
    hide Ranked;
    StandsWhenRanked(r, cs, i);
    forall j: nat | j < |cs| && Stands(policy, cs, j, now)
      ensures Lead(policy, cs[i], cs[j], now) >= 0.0 && (j < i ==> Lead(policy, cs[i], cs[j], now) > 0.0)
    {
      StandsWhenRanked(r, cs, j);
      ScoresDifferByLead(policy, cs[i], cs[j], now);
    }
  }

  lemma StandingAreValid(u: Unicode, policy: Policy, cs: seq<Assertion>, now: int)
    requires cs != []
    ensures forall i: nat :: i < |cs| && Stands(policy, cs, i, now) ==> cs[i] in ValidOf(policy, cs, now)
    ensures forall x :: x in ValidOf(policy, cs, now) ==>
              exists i: nat :: i < |cs| && cs[i] == x && Stands(policy, cs, i, now)
  {
    hide Stands;
    hide ValidOf;
    var r := Rules(u, policy, now);
    forall i: nat | i < |cs| && Stands(policy, cs, i, now)
      ensures cs[i] in ValidOf(policy, cs, now)
    {
      StandsWhenRanked(r, cs, i);
      RankedAreUsable(policy, cs, now, cs[i]);
    }
    forall x | x in ValidOf(policy, cs, now)
      ensures exists i: nat :: i < |cs| && cs[i] == x && Stands(policy, cs, i, now)
    {
      RankedAreUsable(policy, cs, now, x);
      var i: nat :| i < |cs| && cs[i] == x;
      StandsWhenRanked(r, cs, i);
    }
  }

  lemma NeedsThreshold(policy: Policy, predicateId: string, lead: real)
    ensures Needs(policy, predicateId, lead) <==> lead == Threshold(policy, predicateId)
  {
  }

  lemma LeaderIsDecisive(u: Unicode, policy: Policy, cs: seq<Assertion>, i: nat, now: int)
    requires i < |cs| && Leads(policy, cs, i, now)
    ensures Decisive(u, policy, cs[i], ValidOf(policy, cs, now), now) <==> Prevails(u, policy, cs, i, now)
  {
    hide Score;
    hide Lead;
    hide Stands;
    hide Needs;
    hide Threshold;
    hide ValidOf;
    hide Contradicts;
    var valid, needed := ValidOf(policy, cs, now), Threshold(policy, cs[i].predicateId);
    StandingAreValid(u, policy, cs, now);
    forall lead
      ensures Needs(policy, cs[i].predicateId, lead) <==> lead == needed
    {
      NeedsThreshold(policy, cs[i].predicateId, lead);
    }
    forall j: nat | j < |cs|
      ensures Contradicts(u, cs[i], cs[j]) <==> Rival(u, cs[i], cs[j])
      ensures Score(policy, cs[i], now) - Score(policy, cs[j], now) == Lead(policy, cs[i], cs[j], now)
    {
      RivalContradicts(u, cs[i], cs[j]);
      ScoresDifferByLead(policy, cs[i], cs[j], now);
    }
    hide Rival;
    if Prevails(u, policy, cs, i, now) {
      forall x | x in valid && Rival(u, cs[i], x)
        ensures Score(policy, cs[i], now) - Score(policy, x, now) > needed
      {
        var j: nat :| j < |cs| && cs[j] == x && Stands(policy, cs, j, now);
        assert Needs(policy, cs[i].predicateId, needed);
      }
    }
  }

  lemma RivalContradicts(u: Unicode, x: Assertion, y: Assertion)
    ensures Rival(u, x, y) <==> Contradicts(u, x, y)
  {
  }

  /**
   An assertion is accepted exactly when one place of it prevails: current and in scope, ahead of every
   other such assertion, and of those it contradicts by more than the lead that the policy asks for.
   */
  lemma AcceptedInWords(u: Unicode, policy: Policy, slot: string, cs: seq<Assertion>, now: int, x: Assertion)
    requires cs != []
    ensures SlotVerdict(u, policy, slot, cs, now).accepted == Some(x) <==>
            exists i: nat :: i < |cs| && cs[i] == x && Prevails(u, policy, cs, i, now)
  {
    hide SlotVerdict;
    hide Decisive;
    hide Leads;
    hide Stands;
    hide ValidOf;
    hide Lead;
    AcceptedExactlyWhenDecisive(u, policy, slot, cs, now);
    var valid := ValidOf(policy, cs, now);
    StandingAreValid(u, policy, cs, now);
    if valid == [] {
      forall i: nat | i < |cs|
        ensures !Leads(policy, cs, i, now)
      {
        NothingLeads(policy, cs, i, now);
      }
    } else {
      var t := FirstBestLeads(policy, cs, now);
      LeaderIsDecisive(u, policy, cs, t, now);
      forall i: nat | i < |cs| && Prevails(u, policy, cs, i, now)
        ensures i == t
      {
        OneLeads(policy, cs, i, t, now);
      }
    }
  }

  lemma NothingLeads(policy: Policy, cs: seq<Assertion>, i: nat, now: int)
    requires i < |cs| && forall j: nat :: j < |cs| ==> !Stands(policy, cs, j, now)
    ensures !Leads(policy, cs, i, now)
  {
  }

  /** Listed as conflicts are what the leader contradicts, best first, after the leader itself if it is not accepted. */
  lemma ConflictsInWords(u: Unicode, policy: Policy, slot: string, cs: seq<Assertion>, i: nat, now: int)
    requires i < |cs| && Leads(policy, cs, i, now)
    ensures var r := SlotVerdict(u, policy, slot, cs, now);
            && (r.accepted.None? ==> r.status == UnresolvedConflict && r.conflicts != [] && r.conflicts[0] == cs[i])
            && (forall y :: y in r.conflicts <==>
                  || (y == cs[i] && r.accepted.None?)
                  || exists j: nat :: j < |cs| && cs[j] == y && Stands(policy, cs, j, now) && Contradicts(u, cs[i], y))
            && (forall a, b :: 0 <= a < b < |r.conflicts| ==>
                  Lead(policy, r.conflicts[a], r.conflicts[b], now) >= 0.0)
  {
    hide *;
    var valid := ValidOf(policy, cs, now);
    var r := SlotVerdict(u, policy, slot, cs, now);
    LeaderStands(policy, cs, i, now);
    StandingAreValid(u, policy, cs, now);
    var t := FirstBestLeads(policy, cs, now);
    OneLeads(policy, cs, i, t, now);
    RankedConflicts(u, policy, slot, cs, now);
    forall y
      ensures Rival(u, cs[i], y) <==> Contradicts(u, cs[i], y)
    {
      RivalContradicts(u, cs[i], y);
    }
    forall a, b | 0 <= a < b < |r.conflicts|
      ensures Lead(policy, r.conflicts[a], r.conflicts[b], now) >= 0.0
    {
      ScoresDifferByLead(policy, r.conflicts[a], r.conflicts[b], now);
    }
  }

  lemma RankedConflicts(u: Unicode, policy: Policy, slot: string, cs: seq<Assertion>, now: int)
    requires cs != [] && ValidOf(policy, cs, now) != []
    ensures var r, valid := SlotVerdict(u, policy, slot, cs, now), ValidOf(policy, cs, now);
            var top := FirstBest(policy, valid, now);
            && (r.accepted.None? ==> r.status == UnresolvedConflict && r.conflicts != [] && r.conflicts[0] == top)
            && (forall y :: y in r.conflicts <==> (y == top && r.accepted.None?) || (y in valid && Rival(u, top, y)))
            && (forall a, b :: 0 <= a < b < |r.conflicts| ==>
                  Score(policy, r.conflicts[a], now) >= Score(policy, r.conflicts[b], now))
  {
    hide ValidOf;
    hide Score;
    hide Rival;
    hide Sort;
    hide Rivals;
    hide FirstBest;
    var valid := ValidOf(policy, cs, now);
    var ranked := Sort(valid, ScoreOrder(policy, now));
    RankedRivals(u, policy, valid, now);
    ScoreOrderIsStrictWeak(policy, now);
    SortSorted(valid, ScoreOrder(policy, now));
    RivalsStaySorted(u, policy, ranked[0], ranked[1..], now);
    RivalMembers(u, ranked[0], ranked[1..]);
    var r := SlotVerdict(u, policy, slot, cs, now);
    var rivals := Rivals(u, ranked[0], ranked[1..]);
    assert r.conflicts == if r.accepted.None? then [ranked[0]] + rivals else rivals;
    TopIsFirst(policy, ranked, now);
    forall a, b | 0 <= a < b < |r.conflicts|
      ensures Score(policy, r.conflicts[a], now) >= Score(policy, r.conflicts[b], now)
    {
      var n := if r.accepted.None? then 1 else 0;
      assert r.conflicts[b] == rivals[b - n];
      assert rivals[b - n] in rivals;
      if a >= n {
        assert !ScoreOrder(policy, now)(rivals[b - n], rivals[a - n]);
      }
    }
  }

  lemma TopIsFirst(policy: Policy, ranked: seq<Assertion>, now: int)
    requires ranked != [] && Sorted(ranked, ScoreOrder(policy, now))
    ensures forall x :: x in ranked[1..] ==> Score(policy, ranked[0], now) >= Score(policy, x, now)
  {
    hide Score;
    forall x | x in ranked[1..]
      ensures Score(policy, ranked[0], now) >= Score(policy, x, now)
    {
      var k :| 0 <= k < |ranked[1..]| && ranked[1..][k] == x;
      assert !ScoreOrder(policy, now)(ranked[k + 1], ranked[0]);
    }
  }

  lemma LeaderStands(policy: Policy, cs: seq<Assertion>, i: nat, now: int)
    requires i < |cs| && Leads(policy, cs, i, now)
    ensures Stands(policy, cs, i, now)
  {
  }

  lemma {:induction false} RivalsStaySorted(u: Unicode, policy: Policy, top: Assertion, cs: seq<Assertion>, now: int)
    requires Sorted(cs, ScoreOrder(policy, now))
    ensures Sorted(Rivals(u, top, cs), ScoreOrder(policy, now))
  {
    hide Rival;
    hide Score;
    if cs != [] {
      var init, last := cs[..|cs| - 1], cs[|cs| - 1];
      RivalsStaySorted(u, policy, top, init, now);
      RivalMembers(u, top, init);
      forall x | x in init
        ensures !ScoreOrder(policy, now)(last, x)
      {
        var k :| 0 <= k < |init| && init[k] == x;
        assert cs[k] == x;
      }
    }
  }

  lemma LedIsNotAccepted(u: Unicode, policy: Policy, slot: string, cs: seq<Assertion>, i: nat, j: nat, now: int)
    requires i < |cs| && j < |cs| && Stands(policy, cs, i, now) && Lead(policy, cs[i], cs[j], now) > 0.0
    ensures SlotVerdict(u, policy, slot, cs, now).accepted != Some(cs[j])
  {
    hide SlotVerdict;
    hide Stands;
    hide Priority;
    hide Newness;
    AcceptedInWords(u, policy, slot, cs, now, cs[j]);
    forall k: nat | k < |cs| && cs[k] == cs[j]
      ensures !Leads(policy, cs, k, now)
    {
      assert Lead(policy, cs[k], cs[i], now) < 0.0;
    }
  }

  /** With equal confidence, and newness of no account, an assertion of lower priority is not accepted. */
  lemma HigherPriorityLeads(u: Unicode, policy: Policy, slot: string, cs: seq<Assertion>, i: nat, j: nat, now: int)
    requires i < |cs| && j < |cs| && Stands(policy, cs, i, now)
    requires cs[i].confidence == cs[j].confidence && !Dated(policy, cs[i]) && !Dated(policy, cs[j])
    requires Priority(policy, cs[i]) > Priority(policy, cs[j])
    ensures SlotVerdict(u, policy, slot, cs, now).accepted != Some(cs[j])
  {
    hide SlotVerdict;
    hide Stands;
    hide Priority;
    LedIsNotAccepted(u, policy, slot, cs, i, j, now);
  }

  /** With newer observations preferred, an older one of no higher priority and confidence is not accepted. */
  lemma NewerLeads(u: Unicode, policy: Policy, slot: string, cs: seq<Assertion>, i: nat, j: nat, now: int)
    requires i < |cs| && j < |cs| && Stands(policy, cs, i, now) && Dated(policy, cs[i]) && Dated(policy, cs[j])
    requires now > cs[j].observedAt.value && cs[i].observedAt.value > cs[j].observedAt.value
    requires Priority(policy, cs[i]) >= Priority(policy, cs[j]) && cs[i].confidence >= cs[j].confidence
    ensures SlotVerdict(u, policy, slot, cs, now).accepted != Some(cs[j])
  {
    hide SlotVerdict;
    hide Stands;
    hide Priority;
    hide Lead;
    NewerIsNotBehind(policy, cs[i], cs[j], now);
    LedIsNotAccepted(u, policy, slot, cs, i, j, now);
  }

  /** The lead asked for is the first of the predicate's own, the default and a twentieth that is not 0. */
  lemma LeadAskedFor(policy: Policy, predicateId: string)
    ensures var own := if predicateId in policy.predicates then policy.predicates[predicateId].unresolvedDelta else 0.0;
            var lead := if own != 0.0 then own else if policy.defaultDelta != 0.0 then policy.defaultDelta else 0.05;
            forall l :: Needs(Configured(policy), predicateId, l) <==> l == lead
  {
  }

  // ---------- Values ----------

  lemma {:induction false} WithoutSpacesConcat(u: Unicode, a: string, b: string)
    ensures WithoutSpaces(u, a + b) == WithoutSpaces(u, a) + WithoutSpaces(u, b)
  {
    if a == "" {
      assert a + b == b;
    } else {
      assert (a + b)[1..] == a[1..] + b;
      WithoutSpacesConcat(u, a[1..], b);
    }
  }

  /** White space anywhere makes no other value, and without any two values are one when their letters agree. */
  lemma ValuesReadAlike(u: Unicode, kind: string, a: string, b: string, c: char)
    ensures u.isSpace(c) ==> ValueKey(u, Value(kind, a + [c] + b)) == ValueKey(u, Value(kind, a + b))
    ensures (forall d :: d in a || d in b ==> !u.isSpace(d)) ==>
              (ValueKey(u, Value(kind, a)) == ValueKey(u, Value(kind, b)) <==>
               |a| == |b| && forall i :: 0 <= i < |a| ==> u.lower(a[i]) == u.lower(b[i]))
  {
    if u.isSpace(c) {
      WithoutSpacesConcat(u, a + [c], b);
      WithoutSpacesConcat(u, a, [c]);
      WithoutSpacesConcat(u, a, b);
      assert WithoutSpaces(u, [c]) == "";
      assert WithoutSpaces(u, a) + "" == WithoutSpaces(u, a);
    }
    if forall d :: d in a || d in b ==> !u.isSpace(d) {
      NoSpacesToDrop(u, a);
      NoSpacesToDrop(u, b);
      LowerAgrees(u, a, b);
    }
  }

  lemma {:induction false} NoSpacesToDrop(u: Unicode, a: string)
    requires forall d :: d in a ==> !u.isSpace(d)
    ensures WithoutSpaces(u, a) == a
  {
    if a != "" {
      NoSpacesToDrop(u, a[1..]);
    }
  }

  lemma LowerAgrees(u: Unicode, a: string, b: string)
    ensures u.Lower(a) == u.Lower(b) <==> |a| == |b| && forall i :: 0 <= i < |a| ==> u.lower(a[i]) == u.lower(b[i])
  {
    var s, t := u.Lower(a), u.Lower(b);
    if s == t {
      forall i | 0 <= i < |a|
        ensures u.lower(a[i]) == u.lower(b[i])
      {
        assert s[i] == t[i];
      }
    }
  }

  // ---------- Slots ----------

  /** The assertions on one slot, in arrival order; without a slot id that is one subject and predicate. */
  function Competing(all: seq<Assertion>, slot: string): seq<Assertion> {
    if all == [] then []
    else if (all[0].slotId == slot && slot != "")
            || (all[0].slotId == "" && all[0].subjectId + "\0" + all[0].predicateId == slot)
    then [all[0]] + Competing(all[1..], slot)
    else Competing(all[1..], slot)
  }

  lemma {:induction false} CompetingSplit(a: seq<Assertion>, b: seq<Assertion>, slot: string)
    ensures Competing(a + b, slot) == Competing(a, slot) + Competing(b, slot)
  {
    if a == [] {
      assert a + b == b;
    } else {
      assert (a + b)[1..] == a[1..] + b;
      CompetingSplit(a[1..], b, slot);
    }
  }

  lemma {:induction false} InSlotAreCompeting(all: seq<Assertion>, slot: string)
    ensures InSlot(all, slot) == Competing(all, slot)
  {
    if all != [] {
      var init, last := all[..|all| - 1], all[|all| - 1];
      assert all == init + [last];
      InSlotAreCompeting(init, slot);
      CompetingSplit(init, [last], slot);
      assert last.slotId == "" ==> |last.subjectId + "\0" + last.predicateId| > 0;
    }
  }

  /** There is one verdict for every slot some assertion is on, in the order of the slots, over all it has. */
  lemma VerdictsAreOfSlots(u: Unicode, policy: Policy, all: seq<Assertion>, now: int)
    ensures var out := Arbitrated(u, policy, all, now);
            && (forall i :: 0 <= i < |out| ==>
                  var cs := Competing(all, out[i].slotId);
                  cs != [] && out[i] == SlotVerdict(u, policy, out[i].slotId, cs, now))
            && (forall i, j :: 0 <= i < j < |out| ==> Before(out[i].slotId, out[j].slotId))
            && (forall slot :: Competing(all, slot) != [] ==> exists i :: 0 <= i < |out| && out[i].slotId == slot)
  {
    hide InSlot;
    hide Competing;
    var out, slots := Arbitrated(u, policy, all, now), SortStrings(Slots(all));
    SlotsAreListed(all);
    SortMembers(Slots(all), StringOrder());
    StringOrderIsStrictWeak();
    SortSorted(Slots(all), StringOrder());
    SortMultiset(Slots(all), StringOrder());
    NoRepeatsPermute(Slots(all), slots);
    forall slot
      ensures InSlot(all, slot) == Competing(all, slot)
    {
      InSlotAreCompeting(all, slot);
    }
    forall i | 0 <= i < |out|
      ensures out[i].slotId == slots[i] && InSlot(all, slots[i]) != []
      ensures out[i] == SlotVerdict(u, policy, slots[i], InSlot(all, slots[i]), now)
    {
      assert slots[i] in slots;
      SlotNamed(u, policy, slots[i], InSlot(all, slots[i]), now);
    }
    hide SlotVerdict;
    hide Slots;
    forall i, j | 0 <= i < j < |out|
      ensures Before(out[i].slotId, out[j].slotId)
    {
      BeforeTotal(slots[i], slots[j]);
      assert !StringOrder()(slots[j], slots[i]);
    }
    forall slot | Competing(all, slot) != []
      ensures exists i :: 0 <= i < |out| && out[i].slotId == slot
    {
      var i :| 0 <= i < |slots| && slots[i] == slot;
      assert out[i].slotId == slot;
    }
  }
}
