/**
 Arbitration of assertions: those competing for one fact slot are filtered by scope, validity and
 freshness, ranked by score, and the best is accepted unless a rival comes too close.
 */
module Arbiter {
  import opened Wrappers
  import opened Text
  import opened Sorting
  import opened GraphModel

  datatype Assertion = Assertion(
    id: string, slotId: string, subjectId: string, predicateId: string, value: Value, scope: map<string, string>,
    source: string, authority: real, confidence: real, observedAt: Option<int>, validFrom: Option<int>,
    validTo: Option<int>, supersedes: seq<string>, evidence: seq<Evidence>)

  datatype PredicatePolicy = PredicatePolicy(
    sourcePriority: map<string, real>, maxAgeSeconds: int, unresolvedDelta: real, preferNewer: bool)

  datatype Policy = Policy(
    defaultPriority: map<string, real>, predicates: map<string, PredicatePolicy>, defaultDelta: real)

  datatype Status = NoValidAssertion | UnresolvedConflict | AcceptedWithConflict | Accepted

  datatype Verdict = Verdict(
    slotId: string, status: Status, accepted: Option<Assertion>, conflicts: seq<Assertion>, stale: seq<Assertion>)

  const SECOND := 1_000_000_000
  const HOUR := 3600 * SECOND

  /** The policy an arbiter works with: without a default lead it asks for a twentieth. */
  function Configured(policy: Policy): Policy {
    if policy.defaultDelta == 0.0 then policy.(defaultDelta := 0.05) else policy
  }

  // ---------- Decisions on single assertions ----------

  function PolicyFor(policy: Policy, predicateId: string): PredicatePolicy {
    if predicateId in policy.predicates then policy.predicates[predicateId] else PredicatePolicy(map[], 0, 0.0, false)
  }

  function Score(policy: Policy, x: Assertion, now: int): real {
    var p := PolicyFor(policy, x.predicateId);
    var priority :=
      if x.source in p.sourcePriority then p.sourcePriority[x.source]
      else if x.source in policy.defaultPriority then policy.defaultPriority[x.source]
      else x.authority;
    var base := 0.65 * priority + 0.35 * x.confidence;
    if p.preferNewer && x.observedAt.Some? then
      var elapsed := now - x.observedAt.value;
      var age := if elapsed < 0 then 0.0 else elapsed as real / HOUR as real;
      base + 0.05 / (1.0 + age / 24.0)
    else base
  }

  predicate ValidAt(x: Assertion, now: int) {
    && (x.validFrom.Some? ==> x.validFrom.value <= now)
    && (x.validTo.Some? ==> now <= x.validTo.value)
  }

  predicate IsStale(policy: Policy, x: Assertion, now: int) {
    var p := PolicyFor(policy, x.predicateId);
    p.maxAgeSeconds > 0 && x.observedAt.Some? && now - x.observedAt.value > p.maxAgeSeconds * SECOND
  }

  predicate Usable(policy: Policy, x: Assertion, now: int) {
    ValidAt(x, now) && !IsStale(policy, x, now)
  }

  function ValueKey(u: Unicode, v: Value): string {
    u.Lower(WithoutSpaces(u, v.text))
  }

  predicate ScopeCompatible(a: map<string, string>, b: map<string, string>) {
    forall k :: k in a && k in b ==> a[k] == b[k]
  }

  /** A different value that the better-ranked assertion does not declare superseded. */
  predicate Rival(u: Unicode, top: Assertion, x: Assertion) {
    ValueKey(u, top.value) != ValueKey(u, x.value) && x.id !in top.supersedes
  }

  /** The lead a top assertion of the predicate needs over its rivals. */
  function Threshold(policy: Policy, predicateId: string): real {
    var own := PolicyFor(policy, predicateId).unresolvedDelta;
    if own == 0.0 then policy.defaultDelta else own
  }

  // ---------- One slot ----------

  function InScope(cs: seq<Assertion>, first: Assertion): seq<Assertion> {
    if cs == [] then []
    else
      var init := InScope(cs[..|cs| - 1], first);
      if ScopeCompatible(cs[|cs| - 1].scope, first.scope) then init + [cs[|cs| - 1]] else init
  }

  function Select(policy: Policy, cs: seq<Assertion>, now: int, usable: bool): seq<Assertion> {
    if cs == [] then []
    else
      var init := Select(policy, cs[..|cs| - 1], now, usable);
      if Usable(policy, cs[|cs| - 1], now) == usable then init + [cs[|cs| - 1]] else init
  }

  function Rivals(u: Unicode, top: Assertion, cs: seq<Assertion>): seq<Assertion> {
    if cs == [] then []
    else
      var init := Rivals(u, top, cs[..|cs| - 1]);
      if Rival(u, top, cs[|cs| - 1]) then init + [cs[|cs| - 1]] else init
  }

  function ScoreOrder(policy: Policy, now: int): (Assertion, Assertion) -> bool {
    (a: Assertion, b: Assertion) => Score(policy, a, now) > Score(policy, b, now)
  }

  function ValidOf(policy: Policy, cs: seq<Assertion>, now: int): seq<Assertion>
    requires cs != []
  {
    Select(policy, InScope(cs, cs[0]), now, true)
  }

  function Decided(u: Unicode, policy: Policy, slot: string, ranked: seq<Assertion>, stale: seq<Assertion>,
                   now: int): Verdict {
    if ranked == [] then Verdict(slot, NoValidAssertion, None, [], stale)
    else
      var top := ranked[0];
      var rivals := Rivals(u, top, ranked[1..]);
      if rivals != [] && Score(policy, top, now) - Score(policy, rivals[0], now) <= Threshold(policy, top.predicateId)
      then Verdict(slot, UnresolvedConflict, None, [top] + rivals, stale)
      else Verdict(slot, if rivals != [] then AcceptedWithConflict else Accepted, Some(top), rivals, stale)
  }

  function SlotVerdict(u: Unicode, policy: Policy, slot: string, cs: seq<Assertion>, now: int): Verdict
    requires cs != []
  {
    var stale := Select(policy, InScope(cs, cs[0]), now, false);
    Decided(u, policy, slot, Sort(ValidOf(policy, cs, now), ScoreOrder(policy, now)), stale, now)
  }

  method Classify(policy: Policy, candidates: seq<Assertion>, now: int)
    returns (valid: seq<Assertion>, stale: seq<Assertion>)
    requires candidates != []
    ensures valid == ValidOf(policy, candidates, now)
    ensures stale == Select(policy, InScope(candidates, candidates[0]), now, false)
  {
    hide Usable;
    hide ScopeCompatible;
    valid, stale := [], [];
    for n := 0 to |candidates|
      invariant valid == Select(policy, InScope(candidates[..n], candidates[0]), now, true)
      invariant stale == Select(policy, InScope(candidates[..n], candidates[0]), now, false)
    {
      assert candidates[..n + 1][..n] == candidates[..n];
      var x := candidates[n];
      var before := InScope(candidates[..n], candidates[0]);
      assert (before + [x])[..|before|] == before;
      if ScopeCompatible(x.scope, candidates[0].scope) {
        if Usable(policy, x, now) {
          valid := valid + [x];
        } else {
          stale := stale + [x];
        }
      }
    }
    assert candidates[..|candidates|] == candidates;
  }

  method Decide(u: Unicode, policy: Policy, slot: string, ranked: seq<Assertion>, stale: seq<Assertion>, now: int)
    returns (r: Verdict)
    ensures r == Decided(u, policy, slot, ranked, stale, now)
  {
    hide Score;
    if |ranked| == 0 {
      return Verdict(slot, NoValidAssertion, None, [], stale);
    }
    var top := ranked[0];
    var conflicts: seq<Assertion> := [];
    for n := 1 to |ranked|
      invariant conflicts == Rivals(u, top, ranked[1..n])
    {
      assert ranked[1..n + 1][..n - 1] == ranked[1..n];
      var x := ranked[n];
      if ValueKey(u, top.value) != ValueKey(u, x.value) && x.id !in top.supersedes {
        conflicts := conflicts + [x];
      }
    }
    assert ranked[1..|ranked|] == ranked[1..];
    if |conflicts| > 0 {
      var runner := conflicts[0];
      var delta := Score(policy, top, now) - Score(policy, runner, now);
      var threshold := PolicyFor(policy, top.predicateId).unresolvedDelta;
      if threshold == 0.0 {
        threshold := policy.defaultDelta;
      }
      if delta <= threshold {
        return Verdict(slot, UnresolvedConflict, None, [top] + conflicts, stale);
      }
    }
    r := Verdict(slot, if |conflicts| > 0 then AcceptedWithConflict else Accepted, Some(top), conflicts, stale);
  }

  method ArbitrateSlot(u: Unicode, policy: Policy, slot: string, candidates: seq<Assertion>, now: int)
    returns (r: Verdict)
    requires candidates != []
    ensures r == SlotVerdict(u, policy, slot, candidates, now)
  {
    var valid, stale := Classify(policy, candidates, now);
    valid := Sort(valid, ScoreOrder(policy, now));
    r := Decide(u, policy, slot, valid, stale, now);
  }

  // ---------- All slots ----------

  function SlotOf(x: Assertion): string {
    if x.slotId == "" then x.subjectId + "\0" + x.predicateId else x.slotId
  }

  function InSlot(all: seq<Assertion>, slot: string): seq<Assertion> {
    if all == [] then []
    else
      var init := InSlot(all[..|all| - 1], slot);
      if SlotOf(all[|all| - 1]) == slot then init + [all[|all| - 1]] else init
  }

  /** The slots in order of first arrival. */
  function Slots(all: seq<Assertion>): seq<string> {
    if all == [] then []
    else
      var init := Slots(all[..|all| - 1]);
      var slot := SlotOf(all[|all| - 1]);
      if slot in init then init else init + [slot]
  }

  lemma {:induction false} SlotsAreListed(all: seq<Assertion>)
    ensures NoRepeats(Slots(all))
    ensures forall s :: s in Slots(all) <==> InSlot(all, s) != []
    ensures forall x :: x in all ==> SlotOf(x) in Slots(all)
  {
    if all != [] {
      var init, last := all[..|all| - 1], all[|all| - 1];
      assert all == init + [last];
      SlotsAreListed(init);
    }
  }

  function Verdicts(u: Unicode, policy: Policy, all: seq<Assertion>, slots: seq<string>, now: int): seq<Verdict>
    requires forall s :: s in slots ==> InSlot(all, s) != []
  {
    seq(|slots|, i requires 0 <= i < |slots| => SlotVerdict(u, policy, slots[i], InSlot(all, slots[i]), now))
  }

  function Arbitrated(u: Unicode, policy: Policy, all: seq<Assertion>, now: int): seq<Verdict> {
    SlotsAreListed(all);
    SortMembers(Slots(all), StringOrder());
    Verdicts(u, policy, all, SortStrings(Slots(all)), now)
  }

  method GroupBySlot(all: seq<Assertion>) returns (bySlot: map<string, seq<Assertion>>)
    ensures forall s :: s in bySlot <==> InSlot(all, s) != []
    ensures forall s :: s in bySlot ==> bySlot[s] == InSlot(all, s)
  {
    bySlot := map[];
    for n := 0 to |all|
      invariant forall s :: s in bySlot <==> InSlot(all[..n], s) != []
      invariant forall s :: s in bySlot ==> bySlot[s] == InSlot(all[..n], s)
    {
      assert all[..n + 1][..n] == all[..n];
      var slot := SlotOf(all[n]);
      bySlot := bySlot[slot := (if slot in bySlot then bySlot[slot] else []) + [all[n]]];
    }
    assert all[..|all|] == all;
  }

  lemma SlotListing(all: seq<Assertion>, slots: set<string>)
    requires forall s :: s in slots <==> InSlot(all, s) != []
    ensures Listing(slots) == SortStrings(Slots(all))
  {
    hide InSlot;
    SlotsAreListed(all);
    SortingIgnoresListingOrder(Listing(slots), Slots(all));
    SortOfSorted(Listing(slots), StringOrder());
  }

  /** Slots are collected from a map in an arbitrary order; sorting them makes the result independent of it. */
  method Arbitrate(u: Unicode, policy: Policy, all: seq<Assertion>, now: int) returns (out: seq<Verdict>)
    ensures out == Arbitrated(u, policy, all, now)
  {
    hide SlotVerdict;
    hide InSlot;
    hide Sort;
    hide Sorted;
    hide NoRepeats;
    hide Listing;
    var bySlot := GroupBySlot(all);
    var slots := SortedKeys(bySlot.Keys);
    SlotListing(all, bySlot.Keys);
    out := [];
    for n := 0 to |slots|
      invariant |out| == n
      invariant forall i :: 0 <= i < n ==> out[i] == SlotVerdict(u, policy, slots[i], InSlot(all, slots[i]), now)
    {
      assert slots[n] in bySlot;
      var verdict := ArbitrateSlot(u, policy, slots[n], bySlot[slots[n]], now);
      out := out + [verdict];
    }
  }
}
