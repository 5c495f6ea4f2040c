/**
 Assembly of a context pack from the results of the plan steps and the arbitration: facts, knowledge and
 paths with their evidence, the gaps, and whether the pack is complete.
 */
module Assembler {
  import opened Wrappers
  import opened Text
  import opened Sorting
  import opened GraphModel
  import opened Arbiter
  import opened RetrievalModel

  // ---------- Lists without repeats ----------

  function WithUnique(dst: seq<string>, value: string): seq<string> {
    if value == "" || value in dst then dst else dst + [value]
  }

  function WithAllUnique(dst: seq<string>, values: seq<string>): seq<string> {
    if values == [] then dst
    else WithUnique(WithAllUnique(dst, values[..|values| - 1]), values[|values| - 1])
  }

  function EvidenceKey(e: Evidence): string {
    if e.id == "" then e.source + "\0" + e.sourceId + "\0" + e.chunkId else e.id
  }

  function EvidenceKeys(es: seq<Evidence>): set<string> {
    set e | e in es :: EvidenceKey(e)
  }

  function WithEvidence(dst: seq<Evidence>, items: seq<Evidence>): seq<Evidence> {
    if items == [] then dst
    else
      var before := WithEvidence(dst, items[..|items| - 1]);
      var e := items[|items| - 1];
      if EvidenceKey(e) in EvidenceKeys(before) then before else before + [e]
  }

  lemma EvidenceKeysExtend(es: seq<Evidence>, e: Evidence)
    ensures EvidenceKeys(es + [e]) == EvidenceKeys(es) + {EvidenceKey(e)}
  {
    var more := es + [e];
    assert more[|es|] == e;
    forall x | x in es
      ensures x in more
    {
    }
  }

  method AppendUnique(dst: seq<string>, value: string) returns (out: seq<string>)
    ensures out == WithUnique(dst, value)
  {
    if value == "" {
      return dst;
    }
    for n := 0 to |dst|
      invariant value !in dst[..n]
    {
      if dst[n] == value {
        return dst;
      }
    }
    out := dst + [value];
  }

  method AppendAllUnique(dst: seq<string>, values: seq<string>) returns (out: seq<string>)
    ensures out == WithAllUnique(dst, values)
  {
    out := dst;
    for n := 0 to |values|
      invariant out == WithAllUnique(dst, values[..n])
    {
      assert values[..n + 1][..n] == values[..n];
      out := AppendUnique(out, values[n]);
    }
    assert values[..|values|] == values;
  }

  method AppendEvidence(dst: seq<Evidence>, seen: set<string>, items: seq<Evidence>)
    returns (out: seq<Evidence>, nowSeen: set<string>)
    requires seen == EvidenceKeys(dst)
    ensures out == WithEvidence(dst, items) && nowSeen == EvidenceKeys(out)
  {
    out, nowSeen := dst, seen;
    for n := 0 to |items|
      invariant out == WithEvidence(dst, items[..n]) && nowSeen == EvidenceKeys(out)
    {
      assert items[..n + 1][..n] == items[..n];
      var key := EvidenceKey(items[n]);
      if key in nowSeen {
        continue;
      }
      EvidenceKeysExtend(out, items[n]);
      nowSeen := nowSeen + {key};
      out := out + [items[n]];
    }
    assert items[..|items|] == items;
  }

  // ---------- Statuses and gaps of the steps ----------

  function RequiredGap(source: string): string {
    "required source " + source + " was not satisfied"
  }

  function ConflictGap(slot: string): string {
    "unresolved fact conflict: " + slot
  }

  function StatusOf(r: StepResult): SourceStatus {
    SourceStatus(r.stepId, r.source, r.required, r.satisfied, r.gaps)
  }

  function Statuses(results: seq<StepResult>): seq<SourceStatus> {
    seq(|results|, i requires 0 <= i < |results| => StatusOf(results[i]))
  }

  function GapsOf(results: seq<StepResult>): seq<string> {
    if results == [] then [] else WithAllUnique(GapsOf(results[..|results| - 1]), results[|results| - 1].gaps)
  }

  function BlockedBySteps(blocking: seq<string>, results: seq<StepResult>): seq<string> {
    if results == [] then blocking
    else
      var before := BlockedBySteps(blocking, results[..|results| - 1]);
      var r := results[|results| - 1];
      if r.required && !r.satisfied then WithUnique(before, RequiredGap(r.source)) else before
  }

  method SummarizeSteps(blocking: seq<string>, results: seq<StepResult>)
    returns (status: seq<SourceStatus>, gaps: seq<string>, blocked: seq<string>)
    ensures status == Statuses(results) && gaps == GapsOf(results) && blocked == BlockedBySteps(blocking, results)
  {
    hide WithAllUnique;
    hide WithUnique;
    status, gaps, blocked := [], [], blocking;
    for n := 0 to |results|
      invariant status == Statuses(results[..n]) && gaps == GapsOf(results[..n])
      invariant blocked == BlockedBySteps(blocking, results[..n])
    {
      assert results[..n + 1][..n] == results[..n];
      var r := results[n];
      status := status + [SourceStatus(r.stepId, r.source, r.required, r.satisfied, r.gaps)];
      gaps := AppendAllUnique(gaps, r.gaps);
      if r.required && !r.satisfied {
        blocked := AppendUnique(blocked, RequiredGap(r.source));
      }
    }
    assert results[..|results|] == results;
  }

  // ---------- Facts ----------

  function FactsOf(arbitration: seq<Verdict>): seq<Assertion> {
    if arbitration == [] then []
    else
      var v := arbitration[|arbitration| - 1];
      FactsOf(arbitration[..|arbitration| - 1]) + if v.accepted.Some? then [v.accepted.value] else []
  }

  function EvidenceOfFacts(facts: seq<Assertion>): seq<Evidence> {
    if facts == [] then [] else WithEvidence(EvidenceOfFacts(facts[..|facts| - 1]), facts[|facts| - 1].evidence)
  }

  function Unresolved(arbitration: seq<Verdict>): seq<Verdict> {
    if arbitration == [] then []
    else
      var v := arbitration[|arbitration| - 1];
      Unresolved(arbitration[..|arbitration| - 1]) + if v.status == UnresolvedConflict then [v] else []
  }

  function BlockedBySlots(blocking: seq<string>, arbitration: seq<Verdict>): seq<string> {
    if arbitration == [] then blocking
    else
      var before := BlockedBySlots(blocking, arbitration[..|arbitration| - 1]);
      var v := arbitration[|arbitration| - 1];
      if v.status == UnresolvedConflict then WithUnique(before, ConflictGap(v.slotId)) else before
  }

  method CollectFacts(blocking: seq<string>, arbitration: seq<Verdict>)
    returns (facts: seq<Assertion>, evidence: seq<Evidence>, seen: set<string>, conflicts: seq<Verdict>,
             blocked: seq<string>)
    ensures facts == FactsOf(arbitration) && evidence == EvidenceOfFacts(facts) && seen == EvidenceKeys(evidence)
    ensures conflicts == Unresolved(arbitration) && blocked == BlockedBySlots(blocking, arbitration)
  {
    assert EvidenceKeys([]) == {};
    hide WithEvidence;
    hide WithUnique;
    hide EvidenceKey;
    hide EvidenceKeys;
    facts, evidence, seen, conflicts, blocked := [], [], {}, [], blocking;
    for n := 0 to |arbitration|
      invariant facts == FactsOf(arbitration[..n]) && evidence == EvidenceOfFacts(facts)
      invariant seen == EvidenceKeys(evidence)
      invariant conflicts == Unresolved(arbitration[..n]) && blocked == BlockedBySlots(blocking, arbitration[..n])
    {
      assert arbitration[..n + 1][..n] == arbitration[..n];
      var v := arbitration[n];
      if v.accepted.Some? {
        assert (facts + [v.accepted.value])[..|facts|] == facts;
        facts := facts + [v.accepted.value];
        evidence, seen := AppendEvidence(evidence, seen, v.accepted.value.evidence);
      }
      if v.status == UnresolvedConflict {
        conflicts := conflicts + [v];
        blocked := AppendUnique(blocked, ConflictGap(v.slotId));
      }
    }
    assert arbitration[..|arbitration|] == arbitration;
  }

  // ---------- Knowledge and paths ----------

  datatype Gathered = Gathered(knowledge: seq<Knowledge>, paths: seq<Path>, evidence: seq<Evidence>)

  function KnowledgeKey(k: Knowledge): string {
    if k.id == "" then k.content else k.id
  }

  function KnowledgeKeys(ks: seq<Knowledge>): set<string> {
    set k | k in ks :: KnowledgeKey(k)
  }

  function WithKnowledge(g: Gathered, items: seq<Knowledge>): Gathered {
    if items == [] then g
    else
      var before := WithKnowledge(g, items[..|items| - 1]);
      var k := items[|items| - 1];
      if KnowledgeKey(k) in KnowledgeKeys(before.knowledge) then before
      else before.(knowledge := before.knowledge + [k], evidence := WithEvidence(before.evidence, k.evidence))
  }

  function WithPaths(g: Gathered, items: seq<Path>): Gathered {
    if items == [] then g
    else
      var before := WithPaths(g, items[..|items| - 1]);
      var p := items[|items| - 1];
      before.(paths := before.paths + [p], evidence := WithEvidence(before.evidence, p.evidence))
  }

  function GatheredFrom(start: Gathered, results: seq<StepResult>): Gathered {
    if results == [] then start
    else
      var r := results[|results| - 1];
      WithPaths(WithKnowledge(GatheredFrom(start, results[..|results| - 1]), r.knowledge), r.paths)
  }

  lemma KnowledgeKeysExtend(ks: seq<Knowledge>, k: Knowledge)
    ensures KnowledgeKeys(ks + [k]) == KnowledgeKeys(ks) + {KnowledgeKey(k)}
  {
    var more := ks + [k];
    assert more[|ks|] == k;
    forall x | x in ks
      ensures x in more
    {
    }
  }

  method GatherKnowledge(start: Gathered, seen: set<string>, knowledgeSeen: set<string>, items: seq<Knowledge>)
    returns (g: Gathered, nowSeen: set<string>, nowKnown: set<string>)
    requires seen == EvidenceKeys(start.evidence) && knowledgeSeen == KnowledgeKeys(start.knowledge)
    ensures g == WithKnowledge(start, items)
    ensures nowSeen == EvidenceKeys(g.evidence) && nowKnown == KnowledgeKeys(g.knowledge)
  {
    hide WithEvidence;
    hide KnowledgeKeys;
    hide EvidenceKeys;
    g, nowSeen, nowKnown := start, seen, knowledgeSeen;
    for n := 0 to |items|
      invariant g == WithKnowledge(start, items[..n])
      invariant nowSeen == EvidenceKeys(g.evidence) && nowKnown == KnowledgeKeys(g.knowledge)
    {
      assert items[..n + 1][..n] == items[..n];
      var k := items[n];
      var key := if k.id == "" then k.content else k.id;
      if key in nowKnown {
        continue;
      }
      KnowledgeKeysExtend(g.knowledge, k);
      nowKnown := nowKnown + {key};
      var evidence;
      evidence, nowSeen := AppendEvidence(g.evidence, nowSeen, k.evidence);
      g := g.(knowledge := g.knowledge + [k], evidence := evidence);
    }
    assert items[..|items|] == items;
  }

  method GatherPaths(start: Gathered, seen: set<string>, items: seq<Path>) returns (g: Gathered, nowSeen: set<string>)
    requires seen == EvidenceKeys(start.evidence)
    ensures g == WithPaths(start, items) && nowSeen == EvidenceKeys(g.evidence) && g.knowledge == start.knowledge
  {
    hide WithEvidence;
    hide EvidenceKeys;
    g, nowSeen := start, seen;
    for n := 0 to |items|
      invariant g == WithPaths(start, items[..n]) && g.knowledge == start.knowledge
      invariant nowSeen == EvidenceKeys(g.evidence)
    {
      assert items[..n + 1][..n] == items[..n];
      var evidence;
      evidence, nowSeen := AppendEvidence(g.evidence, nowSeen, items[n].evidence);
      g := g.(paths := g.paths + [items[n]], evidence := evidence);
    }
    assert items[..|items|] == items;
  }

  method Gather(start: Gathered, seen: set<string>, results: seq<StepResult>) returns (g: Gathered)
    requires start.knowledge == [] && seen == EvidenceKeys(start.evidence)
    ensures g == GatheredFrom(start, results)
  {
    hide WithKnowledge;
    hide WithPaths;
    hide EvidenceKeys;
    hide KnowledgeKey;
    g := start;
    var nowSeen, nowKnown := seen, {};
    for n := 0 to |results|
      invariant g == GatheredFrom(start, results[..n])
      invariant nowSeen == EvidenceKeys(g.evidence) && nowKnown == KnowledgeKeys(g.knowledge)
    {
      assert results[..n + 1][..n] == results[..n];
      g, nowSeen, nowKnown := GatherKnowledge(g, nowSeen, nowKnown, results[n].knowledge);
      g, nowSeen := GatherPaths(g, nowSeen, results[n].paths);
    }
    assert results[..|results|] == results;
  }

  // ---------- The pack ----------

  function KnowledgeOrder(): (Knowledge, Knowledge) -> bool {
    (a: Knowledge, b: Knowledge) => a.score > b.score
  }

  function StatusOrder(): (SourceStatus, SourceStatus) -> bool {
    (a: SourceStatus, b: SourceStatus) => Before(a.stepId, b.stepId)
  }

  function Truncated(limit: int, ks: seq<Knowledge>): seq<Knowledge> {
    if 0 < limit < |ks| then ks[..limit] else ks
  }

  function Blocking(plan: Plan, results: seq<StepResult>, arbitration: seq<Verdict>): seq<string> {
    BlockedBySlots(BlockedBySteps(WithAllUnique([], plan.blockingIssues), results), arbitration)
  }

  function Assembled(limit: int, plan: Plan, results: seq<StepResult>, arbitration: seq<Verdict>): Pack {
    var facts := FactsOf(arbitration);
    var blocking := Blocking(plan, results, arbitration);
    var g := GatheredFrom(Gathered([], [], EvidenceOfFacts(facts)), results);
    var knowledge := Truncated(limit, Sort(g.knowledge, KnowledgeOrder()));
    Pack(plan, facts, knowledge, g.paths, arbitration, g.evidence, Unresolved(arbitration),
         Sort(Statuses(results), StatusOrder()), GapsOf(results), blocking,
         blocking == [] && !(facts == [] && knowledge == [] && g.paths == []))
  }

  method Assemble(limit: int, plan: Plan, results: seq<StepResult>, arbitration: seq<Verdict>) returns (pack: Pack)
    ensures pack == Assembled(limit, plan, results, arbitration)
  {
    hide GatheredFrom;
    hide BlockedBySlots;
    hide BlockedBySteps;
    var blocking := AppendAllUnique([], plan.blockingIssues);
    var status, gaps, blocked := SummarizeSteps(blocking, results);
    var facts, evidence, seen, conflicts, blockedBySlots := CollectFacts(blocked, arbitration);
    var g := Gather(Gathered([], [], evidence), seen, results);
    var knowledge := Sort(g.knowledge, KnowledgeOrder());
    if limit > 0 && |knowledge| > limit {
      knowledge := knowledge[..limit];
    }
    status := Sort(status, StatusOrder());
    var complete := true;
    if |blockedBySlots| > 0 {
      complete := false;
    }
    if |facts| == 0 && |knowledge| == 0 && |g.paths| == 0 {
      complete := false;
    }
    pack := Pack(plan, facts, knowledge, g.paths, arbitration, g.evidence, conflicts, status, gaps, blockedBySlots,
                 complete);
  }
}
