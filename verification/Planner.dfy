/**
 Planning of a query: which sources to ask, which of them are required, and which federation conflicts
 the query runs into. Reasons, intents and the texts for display are not part of this model.
 */
module Planner {
  import opened Text
  import opened Sorting
  import opened Federation
  import opened RetrievalModel

  const DEFINITION_WORDS := ["什么是", "定义", "含义", "概念", "区别", "解释"]
  const REASON_WORDS := ["为什么", "原因", "依据", "说明", "如何判断", "怎么判断", "诊断", "分析原因"]
  const CURRENT_WORDS := ["当前", "现在", "实时", "最新", "现状", "目前"]
  const SCHEMA_WORDS := ["本体", "类层级", "domain", "range", "合法关系", "允许关系", "类型关系", "schema"]
  const METRIC_TASK_WORDS := ["问数", "指标", "数据查询", "metric", "data_query"]

  const ORDER := [BUSINESS_DATA, ENTITY_GRAPH, WIKI_RAG, ONTOLOGY_GRAPH]

  // ---------- Matching ----------

  predicate StartsAt(s: string, t: string, i: nat) {
    i + |t| <= |s| && s[i..i + |t|] == t
  }

  predicate Contains(s: string, t: string) {
    exists i :: 0 <= i <= |s| && StartsAt(s, t, i)
  }

  predicate Mentions(u: Unicode, query: string, word: string) {
    Contains(u.Lower(query), u.Lower(word))
  }

  predicate MentionsAny(u: Unicode, query: string, words: seq<string>) {
    exists i :: 0 <= i < |words| && Mentions(u, query, words[i])
  }

  predicate Matches(u: Unicode, query: string, t: Term) {
    || (t.name != "" && Mentions(u, query, t.name))
    || (exists i :: 0 <= i < |t.aliases| && t.aliases[i] != "" && Mentions(u, query, t.aliases[i]))
  }

  function MatchedTerms(u: Unicode, query: string, terms: seq<Term>): seq<Term> {
    if terms == [] then []
    else
      var init, t := MatchedTerms(u, query, terms[..|terms| - 1]), terms[|terms| - 1];
      if Matches(u, query, t) then init + [t] else init
  }

  function AllPreferred(terms: seq<Term>): seq<string> {
    if terms == [] then [] else AllPreferred(terms[..|terms| - 1]) + terms[|terms| - 1].preferredSources
  }

  /** The sources the matched properties prefer, in order and without repeats. */
  function PreferredSources(u: Unicode, query: string, properties: seq<Term>): seq<string> {
    MergedSources(AllPreferred(MatchedTerms(u, query, properties)))
  }

  // ---------- Choices ----------

  /** A chosen source is required once any choice of it was. */
  function Add(choices: map<string, bool>, source: string, required: bool): map<string, bool> {
    if source == "" then choices else choices[source := required || (source in choices && choices[source])]
  }

  function AddPreferred(sources: seq<string>): map<string, bool> {
    if sources == [] then map[]
    else Add(AddPreferred(sources[..|sources| - 1]), sources[|sources| - 1], |sources| == 1)
  }

  /** The features of a query that the planner branches on. */
  datatype Features = Features(
    schema: bool, definition: bool, diagnosis: bool, current: bool, metric: bool, business: bool, structured: bool,
    matched: bool, preferred: seq<string>)

  function FeaturesOf(u: Unicode, c: Catalog, query: string, task: string): Features {
    var classes, relations := MatchedTerms(u, query, c.classes), MatchedTerms(u, query, c.relations);
    var preferred := PreferredSources(u, query, c.properties);
    Features(MentionsAny(u, query, SCHEMA_WORDS), MentionsAny(u, query, DEFINITION_WORDS),
             MentionsAny(u, query, REASON_WORDS),
             MentionsAny(u, query, CURRENT_WORDS), MentionsAny(u, u.Lower(task), METRIC_TASK_WORDS),
             BUSINESS_DATA in preferred, classes != [] || relations != [],
             classes != [] || relations != [] || MatchedTerms(u, query, c.properties) != [], preferred)
  }

  function Chosen(x: Features): map<string, bool> {
    if x.schema then Add(map[], ONTOLOGY_GRAPH, true)
    else if x.definition then
      var choices := Add(map[], WIKI_RAG, true);
      if x.matched then Add(choices, ONTOLOGY_GRAPH, false) else choices
    else if x.diagnosis then
      var choices :=
        if x.current && x.business then Add(Add(map[], BUSINESS_DATA, true), ENTITY_GRAPH, false)
        else Add(map[], ENTITY_GRAPH, true);
      Add(choices, WIKI_RAG, false)
    else if (x.metric || x.current) && x.business then Add(map[], BUSINESS_DATA, true)
    else if x.preferred != [] then AddPreferred(x.preferred)
    else if x.structured then Add(map[], ENTITY_GRAPH, true)
    else Add(map[], WIKI_RAG, true)
  }

  // ---------- Plans ----------

  function StepName(n: nat): string {
    "s" + ["1", "2", "3", "4"][n % 4]
  }

  /** The chosen sources among the known ones, in their fixed order. */
  function StepsFor(choices: map<string, bool>, order: seq<string>): seq<Step> {
    if order == [] then []
    else
      var init, source := StepsFor(choices, order[..|order| - 1]), order[|order| - 1];
      if source in choices then init + [Step(StepName(|init|), source, choices[source])] else init
  }

  function KindName(kind: Kind): string {
    match kind
    case ClassKind => "class"
    case PropertyKind => "property"
    case RelationKind => "relation"
  }

  function Issue(c: Conflict): string {
    "ontology federation conflict for " + KindName(c.kind) + " " + c.term + " between " + c.namespaceA + " and "
    + c.namespaceB + ": " + c.detail
  }

  predicate Relevant(u: Unicode, query: string, c: Conflict) {
    c.term != "" && Mentions(u, query, c.term)
  }

  function RelevantIssues(u: Unicode, query: string, conflicts: seq<Conflict>): seq<string> {
    if conflicts == [] then []
    else
      var init, c := RelevantIssues(u, query, conflicts[..|conflicts| - 1]), conflicts[|conflicts| - 1];
      if Relevant(u, query, c) then init + [Issue(c)] else init
  }

  function Planned(u: Unicode, c: Catalog, rawQuery: string, task: string): Plan {
    var query := u.Trim(rawQuery);
    Plan(query, StepsFor(Chosen(FeaturesOf(u, c, query, task)), ORDER), true, RelevantIssues(u, query, c.conflicts))
  }

  // ---------- Planning as the source runs it ----------

  method MatchTerms(u: Unicode, query: string, terms: seq<Term>) returns (matched: seq<Term>)
    ensures matched == MatchedTerms(u, query, terms)
  {
    hide Matches;
    matched := [];
    for n := 0 to |terms|
      invariant matched == MatchedTerms(u, query, terms[..n])
    {
      assert terms[..n + 1][..n] == terms[..n];
      if Matches(u, query, terms[n]) {
        matched := matched + [terms[n]];
      }
    }
    assert terms[..|terms|] == terms;
  }

  lemma MergedOneMore(all: seq<string>, source: string)
    ensures MergedSources(all + [source])
         == if source == "" || source in MergedSources(all) then MergedSources(all) else MergedSources(all) + [source]
  {
    assert (all + [source])[..|all|] == all;
  }

  method PreferredSourcesForMatched(matched: seq<Term>) returns (out: seq<string>)
    ensures out == MergedSources(AllPreferred(matched))
  {
    out := [];
    assert MergedSources([]) == [];
    hide MergedSources;
    for n := 0 to |matched|
      invariant out == MergedSources(AllPreferred(matched[..n]))
    {
      assert matched[..n + 1][..n] == matched[..n];
      ghost var before := AllPreferred(matched[..n]);
      var listed := matched[n].preferredSources;
      assert before + listed[..0] == before;
      for i := 0 to |listed|
        invariant out == MergedSources(before + listed[..i])
      {
        assert before + listed[..i + 1] == before + listed[..i] + [listed[i]];
        MergedOneMore(before + listed[..i], listed[i]);
        if listed[i] != "" && listed[i] !in out {
          out := out + [listed[i]];
        }
      }
      assert listed[..|listed|] == listed;
    }
    assert matched[..|matched|] == matched;
  }

  method RelevantFederationConflicts(u: Unicode, query: string, conflicts: seq<Conflict>) returns (out: seq<string>)
    ensures out == RelevantIssues(u, query, conflicts)
  {
    hide Issue;
    hide Relevant;
    out := [];
    for n := 0 to |conflicts|
      invariant out == RelevantIssues(u, query, conflicts[..n])
    {
      assert conflicts[..n + 1][..n] == conflicts[..n];
      if Relevant(u, query, conflicts[n]) {
        out := out + [Issue(conflicts[n])];
      }
    }
    assert conflicts[..|conflicts|] == conflicts;
  }

  method ChooseSources(x: Features) returns (choices: map<string, bool>)
    ensures choices == Chosen(x)
  {
    choices := map[];
    if x.schema {
      choices := Add(choices, ONTOLOGY_GRAPH, true);
    } else if x.definition {
      choices := Add(choices, WIKI_RAG, true);
      if x.matched {
        choices := Add(choices, ONTOLOGY_GRAPH, false);
      }
    } else if x.diagnosis {
      if x.current && x.business {
        choices := Add(choices, BUSINESS_DATA, true);
        choices := Add(choices, ENTITY_GRAPH, false);
      } else {
        choices := Add(choices, ENTITY_GRAPH, true);
      }
      choices := Add(choices, WIKI_RAG, false);
    } else if x.metric && x.business {
      choices := Add(choices, BUSINESS_DATA, true);
    } else if x.current && x.business {
      choices := Add(choices, BUSINESS_DATA, true);
    } else if |x.preferred| > 0 {
      for i := 0 to |x.preferred|
        invariant choices == AddPreferred(x.preferred[..i])
      {
        assert x.preferred[..i + 1][..i] == x.preferred[..i];
        choices := Add(choices, x.preferred[i], i == 0);
      }
      assert x.preferred[..|x.preferred|] == x.preferred;
    } else if x.structured {
      choices := Add(choices, ENTITY_GRAPH, true);
    } else {
      choices := Add(choices, WIKI_RAG, true);
    }
  }

  method MakePlan(u: Unicode, c: Catalog, rawQuery: string, task: string) returns (plan: Plan)
    ensures plan == Planned(u, c, rawQuery, task)
  {
    hide MatchedTerms;
    hide MentionsAny;
    hide Chosen;
    hide RelevantIssues;
    hide MergedSources;
    var query := u.Trim(rawQuery);
    var classes := MatchTerms(u, query, c.classes);
    var properties := MatchTerms(u, query, c.properties);
    var relations := MatchTerms(u, query, c.relations);
    var preferred := PreferredSourcesForMatched(properties);
    var x := Features(MentionsAny(u, query, SCHEMA_WORDS), MentionsAny(u, query, DEFINITION_WORDS),
                      MentionsAny(u, query, REASON_WORDS), MentionsAny(u, query, CURRENT_WORDS),
                      MentionsAny(u, u.Lower(task), METRIC_TASK_WORDS), BUSINESS_DATA in preferred,
                      |classes| + |relations| > 0, |classes| + |properties| + |relations| > 0, preferred);
    var choices := ChooseSources(x);
    var steps: seq<Step> := [];
    for n := 0 to |ORDER|
      invariant steps == StepsFor(choices, ORDER[..n])
    {
      hide StepName;
      assert ORDER[..n + 1][..n] == ORDER[..n];
      if ORDER[n] !in choices {
        continue;
      }
      steps := steps + [Step(StepName(|steps|), ORDER[n], choices[ORDER[n]])];
    }
    assert ORDER[..|ORDER|] == ORDER;
    var issues := RelevantFederationConflicts(u, query, c.conflicts);
    plan := Plan(query, steps, true, issues);
  }

  // ---------- Which plans ask a required source ----------

  lemma {:induction false} StepMembers(choices: map<string, bool>, order: seq<string>, source: string)
    ensures (exists s :: s in StepsFor(choices, order) && s.source == source) <==> source in order && source in choices
    ensures forall s :: s in StepsFor(choices, order) ==> s.source in choices && s.required == choices[s.source]
  {
    hide StepName;
    if order != [] {
      var init, last := order[..|order| - 1], order[|order| - 1];
      StepMembers(choices, init, source);
      assert order == init + [last];
      if last in choices {
        var steps := StepsFor(choices, order);
        assert steps[|steps| - 1] in steps;
        assert forall s :: s in StepsFor(choices, init) ==> s in steps;
      }
    }
  }

  lemma {:induction false} PreferredAreMade(all: seq<string>)
    ensures NoRepeats(MergedSources(all)) && "" !in MergedSources(all)
  {
    if all != [] {
      PreferredAreMade(all[..|all| - 1]);
    }
  }

  lemma {:induction false} PreferredChoices(sources: seq<string>)
    requires NoRepeats(sources) && "" !in sources
    ensures forall s :: s in AddPreferred(sources) <==> s in sources
    ensures forall s :: s in AddPreferred(sources) ==> (AddPreferred(sources)[s] <==> s == sources[0])
  {
    if sources != [] {
      var init, last := sources[..|sources| - 1], sources[|sources| - 1];
      assert sources == init + [last];
      assert last !in init;
      PreferredChoices(init);
    }
  }

  /** The properties matched decide alone, and the first source they prefer is none the planner knows. */
  predicate LeadsNowhere(x: Features) {
    && !x.schema && !x.definition && !x.diagnosis && !((x.metric || x.current) && x.business)
    && x.preferred != [] && x.preferred[0] !in ORDER
  }

  predicate Known(source: string) {
    source == BUSINESS_DATA || source == ENTITY_GRAPH || source == WIKI_RAG || source == ONTOLOGY_GRAPH
  }

  lemma KnownInOrder(source: string)
    ensures source in ORDER <==> Known(source)
  {
    assert ORDER[0] == BUSINESS_DATA && ORDER[1] == ENTITY_GRAPH && ORDER[2] == WIKI_RAG && ORDER[3] == ONTOLOGY_GRAPH;
  }

  lemma FixedChoices(x: Features) returns (source: string)
    requires x.schema || x.definition || x.diagnosis || ((x.metric || x.current) && x.business) || x.preferred == []
    ensures Known(source) && source in Chosen(x) && Chosen(x)[source]
  {
    hide AddPreferred;
    assert BUSINESS_DATA[0] == 'b' && ENTITY_GRAPH[0] == 'e' && WIKI_RAG[0] == 'w' && ONTOLOGY_GRAPH[0] == 'o';
    source := if x.schema then ONTOLOGY_GRAPH
              else if x.definition then WIKI_RAG
              else if x.diagnosis then if x.current && x.business then BUSINESS_DATA else ENTITY_GRAPH
              else if (x.metric || x.current) && x.business then BUSINESS_DATA
              else if x.structured then ENTITY_GRAPH else WIKI_RAG;
  }

  /** A plan has a required step unless a preferred source outside the known four leads nowhere. */
  lemma RequiredStepExactly(u: Unicode, c: Catalog, rawQuery: string, task: string)
    ensures (exists s :: s in Planned(u, c, rawQuery, task).steps && s.required)
       <==> !LeadsNowhere(FeaturesOf(u, c, u.Trim(rawQuery), task))
  {
    hide MentionsAny;
    hide MatchedTerms;
    hide RelevantIssues;
    hide StepsFor;
    hide MergedSources;
    var query := u.Trim(rawQuery);
    var x := FeaturesOf(u, c, query, task);
    var steps := Planned(u, c, rawQuery, task).steps;
    assert steps == StepsFor(Chosen(x), ORDER);
    if x.schema || x.definition || x.diagnosis || ((x.metric || x.current) && x.business) || x.preferred == [] {
      var source := FixedChoices(x);
      hide Chosen;
      KnownInOrder(source);
      StepMembers(Chosen(x), ORDER, source);
    } else {
      PreferredAreMade(AllPreferred(MatchedTerms(u, query, c.properties)));
      PreferredChoices(x.preferred);
      assert Chosen(x) == AddPreferred(x.preferred);
      hide Chosen;
      StepMembers(Chosen(x), ORDER, x.preferred[0]);
    }
  }

  /** At most one of the chosen sources is required. */
  lemma OneRequiredChoice(x: Features)
    requires NoRepeats(x.preferred) && "" !in x.preferred
    ensures forall a, b :: a in Chosen(x) && b in Chosen(x) && Chosen(x)[a] && Chosen(x)[b] ==> a == b
  {
    assert BUSINESS_DATA[0] == 'b' && ENTITY_GRAPH[0] == 'e' && WIKI_RAG[0] == 'w' && ONTOLOGY_GRAPH[0] == 'o';
    PreferredChoices(x.preferred);
    hide AddPreferred;
  }

  lemma {:induction false} StepsAreDistinct(choices: map<string, bool>, order: seq<string>)
    requires NoRepeats(order)
    ensures var steps := StepsFor(choices, order);
            && (forall i, j :: 0 <= i < j < |steps| ==> steps[i].source != steps[j].source)
            && (forall i :: 0 <= i < |steps| ==> steps[i].id == StepName(i))
  {
    hide StepName;
    if order != [] {
      var init, last := order[..|order| - 1], order[|order| - 1];
      assert NoRepeats(init) by {
        assert forall i :: 0 <= i < |init| ==> init[i] == order[i];
      }
      StepsAreDistinct(choices, init);
      var steps := StepsFor(choices, init);
      forall i | 0 <= i < |steps|
        ensures steps[i].source != last
      {
        StepMembers(choices, init, steps[i].source);
        assert steps[i] in steps;
        var k :| 0 <= k < |init| && init[k] == steps[i].source;
        assert order[k] != order[|order| - 1];
      }
      if last in choices {
        assert StepsFor(choices, order) == steps + [Step(StepName(|steps|), last, choices[last])];
      } else {
        assert StepsFor(choices, order) == steps;
      }
    }
  }

  /** A plan asks no source twice, numbers its steps, and requires at most one of them. */
  lemma AtMostOneRequired(u: Unicode, c: Catalog, rawQuery: string, task: string)
    ensures var steps := Planned(u, c, rawQuery, task).steps;
            && |steps| <= 4
            && (forall i, j :: 0 <= i < j < |steps| ==>
                  steps[i].source != steps[j].source && steps[i].id != steps[j].id
                  && !(steps[i].required && steps[j].required))
  {
    hide MentionsAny;
    hide MatchedTerms;
    hide RelevantIssues;
    hide MergedSources;
    var query := u.Trim(rawQuery);
    var x := FeaturesOf(u, c, query, task);
    var steps := Planned(u, c, rawQuery, task).steps;
    PreferredAreMade(AllPreferred(MatchedTerms(u, query, c.properties)));
    OneRequiredChoice(x);
    KnownInOrder("");
    assert BUSINESS_DATA[0] == 'b' && ENTITY_GRAPH[0] == 'e' && WIKI_RAG[0] == 'w' && ONTOLOGY_GRAPH[0] == 'o';
    StepsAreDistinct(Chosen(x), ORDER);
    StepsAreFew(Chosen(x), ORDER);
    hide Chosen;
    hide StepsFor;
    assert forall i :: 0 <= i < |steps| ==> StepName(i)[1] == ['1', '2', '3', '4'][i];
    forall i, j | 0 <= i < j < |steps|
      ensures !(steps[i].required && steps[j].required)
    {
      StepMembers(Chosen(x), ORDER, steps[i].source);
      assert steps[i] in steps && steps[j] in steps;
    }
  }

  lemma {:induction false} StepsAreFew(choices: map<string, bool>, order: seq<string>)
    ensures |StepsFor(choices, order)| <= |order|
  {
    hide StepName;
    if order != [] {
      StepsAreFew(choices, order[..|order| - 1]);
    }
  }
}
