/**
 What a query asks for decides which sources a plan asks: exact conditions, for each of the four sources,
 in terms of the words of the query and the task and of the terms of the catalog.
 */
module PlannerSources {
  import opened Text
  import opened Sorting
  import opened Federation
  import opened RetrievalModel
  import opened Planner
  import FederationTheorems

  // ---------- What a query says ----------

  /** The word occurs in the text, up to case. */
  ghost predicate Says(u: Unicode, text: string, word: string) {
    exists a, b :: u.Lower(text) == a + u.Lower(word) + b
  }

  ghost predicate SaysAny(u: Unicode, text: string, words: seq<string>) {
    exists word :: word in words && Says(u, text, word)
  }

  /** The query says the term's name or one of its aliases. */
  ghost predicate Names(u: Unicode, query: string, t: Term) {
    exists name :: name in [t.name] + t.aliases && name != "" && Says(u, query, name)
  }

  ghost predicate NamesAny(u: Unicode, query: string, terms: seq<Term>) {
    exists t :: t in terms && Names(u, query, t)
  }

  /** A property that the query names prefers the source. */
  ghost predicate Prefers(u: Unicode, query: string, properties: seq<Term>, source: string) {
    source != "" && exists t :: t in properties && Names(u, query, t) && source in t.preferredSources
  }

  ghost predicate PrefersNone(u: Unicode, query: string, properties: seq<Term>) {
    forall source :: !Prefers(u, query, properties, source)
  }

  /** It is the first source that the properties which the query names prefer. */
  ghost predicate PrefersFirst(u: Unicode, query: string, properties: seq<Term>, source: string) {
    exists i, k ::
      && 0 <= i < |properties| && Names(u, query, properties[i])
      && 0 <= k < |properties[i].preferredSources| && properties[i].preferredSources[k] == source != ""
      && (forall j :: 0 <= j < k ==> properties[i].preferredSources[j] == "")
      && PrefersNone(u, query, properties[..i])
  }

  // ---------- The planner's tests say the same ----------

  lemma ContainsSplits(s: string, t: string)
    ensures Contains(s, t) <==> exists a, b :: s == a + t + b
  {
    if Contains(s, t) {
      var i :| 0 <= i <= |s| && StartsAt(s, t, i);
      assert s == s[..i] + t + s[i + |t|..];
    }
    if a, b :| s == a + t + b {
      assert StartsAt(s, t, |a|);
    }
  }

  lemma MentionsWhenSays(u: Unicode, text: string, word: string)
    ensures Mentions(u, text, word) <==> Says(u, text, word)
  {
    ContainsSplits(u.Lower(text), u.Lower(word));
  }

  lemma MentionsAnyWhenSaysAny(u: Unicode, text: string, words: seq<string>)
    ensures MentionsAny(u, text, words) <==> SaysAny(u, text, words)
  {
    hide Mentions;
    hide Says;
    forall word
      ensures Mentions(u, text, word) <==> Says(u, text, word)
    {
      MentionsWhenSays(u, text, word);
    }
    if SaysAny(u, text, words) {
      var word :| word in words && Says(u, text, word);
      var i :| 0 <= i < |words| && words[i] == word;
      assert Mentions(u, text, words[i]);
    }
  }

  lemma MatchesWhenNames(u: Unicode, query: string, t: Term)
    ensures Matches(u, query, t) <==> Names(u, query, t)
  {
    hide Mentions;
    hide Says;
    forall word
      ensures Mentions(u, query, word) <==> Says(u, query, word)
    {
      MentionsWhenSays(u, query, word);
    }
    if Names(u, query, t) {
      var name :| name in [t.name] + t.aliases && name != "" && Says(u, query, name);
      if name != t.name {
        var i :| 0 <= i < |t.aliases| && t.aliases[i] == name;
      }
    }
  }

  lemma {:induction false} MatchedAreNamed(u: Unicode, query: string, terms: seq<Term>)
    ensures forall t :: t in MatchedTerms(u, query, terms) <==> t in terms && Names(u, query, t)
    ensures MatchedTerms(u, query, terms) != [] <==> NamesAny(u, query, terms)
  {
    hide Names;
    hide Matches;
    if terms != [] {
      var init, last := terms[..|terms| - 1], terms[|terms| - 1];
      assert terms == init + [last];
      MatchedAreNamed(u, query, init);
      MatchesWhenNames(u, query, last);
    }
    var matched := MatchedTerms(u, query, terms);
    if matched != [] {
      assert matched[0] in matched;
    }
  }

  lemma {:induction false} PreferredByAll(terms: seq<Term>, source: string)
    ensures source in AllPreferred(terms) <==> exists t :: t in terms && source in t.preferredSources
  {
    if terms != [] {
      var init, last := terms[..|terms| - 1], terms[|terms| - 1];
      assert terms == init + [last];
      PreferredByAll(init, source);
    }
  }

  lemma {:induction false} MergedSourcesMembers(all: seq<string>, source: string)
    ensures source in MergedSources(all) <==> source in all && source != ""
  {
    if all != [] {
      assert all == all[..|all| - 1] + [all[|all| - 1]];
      MergedSourcesMembers(all[..|all| - 1], source);
    }
  }

  lemma PreferredWhenPrefers(u: Unicode, query: string, properties: seq<Term>, source: string)
    ensures source in PreferredSources(u, query, properties) <==> Prefers(u, query, properties, source)
  {
    hide Names;
    hide MatchedTerms;
    MatchedAreNamed(u, query, properties);
    PreferredByAll(MatchedTerms(u, query, properties), source);
    MergedSourcesMembers(AllPreferred(MatchedTerms(u, query, properties)), source);
  }

  lemma NonePreferred(u: Unicode, query: string, properties: seq<Term>)
    ensures PreferredSources(u, query, properties) == [] <==> PrefersNone(u, query, properties)
  {
    hide Prefers;
    hide PreferredSources;
    var sources := PreferredSources(u, query, properties);
    forall source
      ensures source in sources <==> Prefers(u, query, properties, source)
    {
      PreferredWhenPrefers(u, query, properties, source);
    }
    if sources != [] {
      assert sources[0] in sources;
    }
  }

  /** Listing more sources keeps the first, and adds one to none exactly with the first that is not blank. */
  lemma {:induction false} FirstOfMerged(before: seq<string>, more: seq<string>)
    ensures MergedSources(before) != [] ==>
              MergedSources(before + more) != [] && MergedSources(before + more)[0] == MergedSources(before)[0]
    ensures MergedSources(before) == [] && MergedSources(before + more) != [] ==>
              exists k :: 0 <= k < |more| && more[k] == MergedSources(before + more)[0] != ""
                          && forall j :: 0 <= j < k ==> more[j] == ""
  {
    if more == [] {
      assert before + more == before;
    } else {
      var init, last := more[..|more| - 1], more[|more| - 1];
      assert before + more == before + init + [last];
      MergedOneMore(before + init, last);
      FirstOfMerged(before, init);
      hide MergedSources;
      if MergedSources(before) == [] {
        if MergedSources(before + init) == [] {
          forall j | 0 <= j < |init|
            ensures init[j] == ""
          {
            MergedSourcesMembers(before + init, init[j]);
            assert init[j] in before + init;
          }
        } else {
          var k :| 0 <= k < |init| && init[k] == MergedSources(before + init)[0] != ""
                   && forall j :: 0 <= j < k ==> init[j] == "";
          assert more[k] == init[k] && forall j :: 0 <= j < k ==> more[j] == init[j];
        }
      }
    }
  }

  lemma {:induction false} FirstPreferred(u: Unicode, query: string, properties: seq<Term>)
    requires PreferredSources(u, query, properties) != []
    ensures PrefersFirst(u, query, properties, PreferredSources(u, query, properties)[0])
  {
    assert properties != [];
    hide Names;
    hide MergedSources;
    var init, last := properties[..|properties| - 1], properties[|properties| - 1];
    var before := AllPreferred(MatchedTerms(u, query, init));
    MatchesWhenNames(u, query, last);
    hide Matches;
    NonePreferred(u, query, init);
    FirstOfMerged(before, last.preferredSources);
    if Matches(u, query, last) {
      var matched := MatchedTerms(u, query, init);
      assert (matched + [last])[..|matched|] == matched;
    }
    if PreferredSources(u, query, init) != [] {
      FirstPreferred(u, query, init);
      FirstStays(u, query, init, last, PreferredSources(u, query, init)[0]);
      assert properties == init + [last];
    } else {
      assert Matches(u, query, last);
      var sources := MergedSources(before + last.preferredSources);
      var k :| 0 <= k < |last.preferredSources| && last.preferredSources[k] == sources[0] != ""
               && forall j :: 0 <= j < k ==> last.preferredSources[j] == "";
      assert properties[|properties| - 1] == last;
    }
  }

  lemma FirstStays(u: Unicode, query: string, init: seq<Term>, last: Term, source: string)
    requires PrefersFirst(u, query, init, source)
    ensures PrefersFirst(u, query, init + [last], source)
  {
    hide Names;
    hide PrefersNone;
    var i, k :|
      && 0 <= i < |init| && Names(u, query, init[i])
      && 0 <= k < |init[i].preferredSources| && init[i].preferredSources[k] == source != ""
      && (forall j :: 0 <= j < k ==> init[i].preferredSources[j] == "")
      && PrefersNone(u, query, init[..i]);
    assert (init + [last])[..i] == init[..i] && (init + [last])[i] == init[i];
  }

  lemma PreferredBefore(u: Unicode, query: string, properties: seq<Term>, i: nat, m: nat, source: string)
    requires i < m <= |properties| && Names(u, query, properties[i])
    requires source != "" && source in properties[i].preferredSources
    ensures Prefers(u, query, properties[..m], source)
  {
    hide Names;
    assert properties[..m][i] == properties[i];
  }

  lemma FirstIsUnique(u: Unicode, query: string, properties: seq<Term>, a: string, b: string)
    requires PrefersFirst(u, query, properties, a) && PrefersFirst(u, query, properties, b)
    ensures a == b
  {
    hide Names;
    var i, k :|
      && 0 <= i < |properties| && Names(u, query, properties[i])
      && 0 <= k < |properties[i].preferredSources| && properties[i].preferredSources[k] == a != ""
      && (forall j :: 0 <= j < k ==> properties[i].preferredSources[j] == "")
      && PrefersNone(u, query, properties[..i]);
    var m, n :|
      && 0 <= m < |properties| && Names(u, query, properties[m])
      && 0 <= n < |properties[m].preferredSources| && properties[m].preferredSources[n] == b != ""
      && (forall j :: 0 <= j < n ==> properties[m].preferredSources[j] == "")
      && PrefersNone(u, query, properties[..m]);
    if i < m {
      PreferredBefore(u, query, properties, i, m, a);
    } else if m < i {
      PreferredBefore(u, query, properties, m, i, b);
    }
  }

  // ---------- Sources of a plan ----------

  /** What the planner looks for in the trimmed query, in the task and in the catalog. */
  datatype Request = Request(u: Unicode, c: Catalog, rawQuery: string, task: string)
  {
    function Query(): string {
      u.Trim(rawQuery)
    }

    ghost predicate Schema() {
      SaysAny(u, Query(), SCHEMA_WORDS)
    }

    ghost predicate Definition() {
      SaysAny(u, Query(), DEFINITION_WORDS)
    }

    ghost predicate Diagnosis() {
      SaysAny(u, Query(), REASON_WORDS)
    }

    /** It asks for the state of things now, which a named property has from business data. */
    ghost predicate CurrentBusiness() {
      SaysAny(u, Query(), CURRENT_WORDS) && Prefers(u, Query(), c.properties, BUSINESS_DATA)
    }

    /** The task asks for figures, which a named property has from business data. */
    ghost predicate BusinessTask() {
      SaysAny(u, u.Lower(task), METRIC_TASK_WORDS) && Prefers(u, Query(), c.properties, BUSINESS_DATA)
    }

    ghost predicate Structured() {
      NamesAny(u, Query(), c.classes) || NamesAny(u, Query(), c.relations)
    }

    /** Nothing about the query itself decides, so the properties and terms it names do. */
    ghost predicate Open() {
      !Schema() && !Definition() && !Diagnosis() && !CurrentBusiness() && !BusinessTask()
    }

    ghost predicate Wants(source: string) {
      Prefers(u, Query(), c.properties, source)
    }

    ghost predicate WantsFirst(source: string) {
      PrefersFirst(u, Query(), c.properties, source)
    }

    ghost predicate WantsNone() {
      PrefersNone(u, Query(), c.properties)
    }

    function Steps(): seq<Step> {
      Planned(u, c, rawQuery, task).steps
    }

    ghost predicate Asks(source: string) {
      exists s :: s in Steps() && s.source == source
    }

    ghost predicate Requires(source: string) {
      exists s :: s in Steps() && s.source == source && s.required
    }
  }

  /** The features the planner branches on are these conditions. */
  lemma FeaturesInWords(r: Request)
    ensures var x := FeaturesOf(r.u, r.c, r.Query(), r.task);
            && (x.schema <==> r.Schema()) && (x.definition <==> r.Definition()) && (x.diagnosis <==> r.Diagnosis())
            && (x.current && x.business <==> r.CurrentBusiness())
            && (x.metric && x.business <==> r.BusinessTask())
            && (x.structured <==> r.Structured())
            && (x.matched <==> r.Structured() || NamesAny(r.u, r.Query(), r.c.properties))
            && x.preferred == PreferredSources(r.u, r.Query(), r.c.properties)
  {
    hide MentionsAny;
    hide SaysAny;
    hide NamesAny;
    hide MatchedTerms;
    hide Prefers;
    hide MergedSources;
    var query := r.Query();
    MentionsAnyWhenSaysAny(r.u, query, SCHEMA_WORDS);
    MentionsAnyWhenSaysAny(r.u, query, DEFINITION_WORDS);
    MentionsAnyWhenSaysAny(r.u, query, REASON_WORDS);
    MentionsAnyWhenSaysAny(r.u, query, CURRENT_WORDS);
    MentionsAnyWhenSaysAny(r.u, r.u.Lower(r.task), METRIC_TASK_WORDS);
    PreferredWhenPrefers(r.u, query, r.c.properties, BUSINESS_DATA);
    MatchedAreNamed(r.u, query, r.c.classes);
    MatchedAreNamed(r.u, query, r.c.properties);
    MatchedAreNamed(r.u, query, r.c.relations);
  }

  lemma ChosenAreAsked(r: Request, source: string)
    requires Known(source)
    ensures var choices := Chosen(FeaturesOf(r.u, r.c, r.Query(), r.task));
            && (r.Asks(source) <==> source in choices)
            && (r.Requires(source) <==> source in choices && choices[source])
  {
    hide FeaturesOf;
    hide Chosen;
    hide StepsFor;
    hide RelevantIssues;
    KnownInOrder(source);
    var choices := Chosen(FeaturesOf(r.u, r.c, r.Query(), r.task));
    assert r.Steps() == StepsFor(choices, ORDER);
    StepMembers(choices, ORDER, source);
  }

  /** Whether a preferred source is chosen, and required, when the preferred sources decide. */
  lemma PreferredInWords(r: Request, source: string)
    ensures var preferred := PreferredSources(r.u, r.Query(), r.c.properties);
            && (preferred == [] <==> r.WantsNone())
            && (source in AddPreferred(preferred) <==> r.Wants(source))
            && (source in AddPreferred(preferred) && AddPreferred(preferred)[source] <==> r.WantsFirst(source))
  {
    hide Prefers;
    hide MatchedTerms;
    hide MergedSources;
    hide AddPreferred;
    var properties := r.c.properties;
    var preferred := PreferredSources(r.u, r.Query(), properties);
    PreferredAreMade(AllPreferred(MatchedTerms(r.u, r.Query(), properties)));
    PreferredChoices(preferred);
    PreferredWhenPrefers(r.u, r.Query(), properties, source);
    NonePreferred(r.u, r.Query(), properties);
    hide PreferredSources;
    if preferred != [] {
      FirstPreferred(r.u, r.Query(), properties);
      if r.WantsFirst(source) {
        FirstIsUnique(r.u, r.Query(), properties, source, preferred[0]);
      }
    } else if r.WantsFirst(source) {
      FirstIsWanted(r, source);
    }
  }

  lemma FirstIsWanted(r: Request, source: string)
    requires r.WantsFirst(source)
    ensures r.Wants(source)
  {
    hide Names;
    var properties := r.c.properties;
    var i, k :| 0 <= i < |properties| && Names(r.u, r.Query(), properties[i])
                && 0 <= k < |properties[i].preferredSources| && properties[i].preferredSources[k] == source != "";
    assert properties[i] in properties;
  }

  lemma SourcesDiffer()
    ensures NoRepeats([BUSINESS_DATA, ENTITY_GRAPH, WIKI_RAG, ONTOLOGY_GRAPH])
    ensures "" !in [BUSINESS_DATA, ENTITY_GRAPH, WIKI_RAG, ONTOLOGY_GRAPH]
  {
    assert BUSINESS_DATA[0] == 'b' && ENTITY_GRAPH[0] == 'e' && WIKI_RAG[0] == 'w' && ONTOLOGY_GRAPH[0] == 'o';
  }

  /**
   Business data are asked when a named property prefers them, unless the query is about the schema, a
   definition or the reasons of something not current; and required when they are the reason for asking.
   */
  lemma BusinessDataExactly(r: Request)
    ensures r.Asks(BUSINESS_DATA) <==>
            !r.Schema() && !r.Definition() && r.Wants(BUSINESS_DATA) && (r.Diagnosis() ==> r.CurrentBusiness())
    ensures r.Requires(BUSINESS_DATA) <==>
            || (!r.Schema() && !r.Definition() && r.CurrentBusiness())
            || (!r.Schema() && !r.Definition() && !r.Diagnosis() && r.BusinessTask())
            || (r.Open() && r.WantsFirst(BUSINESS_DATA))
  {
    ChoiceInWords(r, BUSINESS_DATA);
  }

  /**
   The entity graph is asked for reasons, and required for them unless current business data are; otherwise
   it is asked when a named property prefers it, or none prefers any and a class or relation is named.
   */
  lemma EntityGraphExactly(r: Request)
    ensures r.Asks(ENTITY_GRAPH) <==>
            || (!r.Schema() && !r.Definition() && r.Diagnosis())
            || (r.Open() && (r.Wants(ENTITY_GRAPH) || (r.WantsNone() && r.Structured())))
    ensures r.Requires(ENTITY_GRAPH) <==>
            || (!r.Schema() && !r.Definition() && r.Diagnosis() && !r.CurrentBusiness())
            || (r.Open() && (r.WantsFirst(ENTITY_GRAPH) || (r.WantsNone() && r.Structured())))
  {
    ChoiceInWords(r, ENTITY_GRAPH);
  }

  /**
   Documents are required for definitions and asked for reasons; otherwise they are asked when a named
   property prefers them, and required when the query names nothing that leads to another source.
   */
  lemma WikiRagExactly(r: Request)
    ensures r.Asks(WIKI_RAG) <==>
            || (!r.Schema() && (r.Definition() || r.Diagnosis()))
            || (r.Open() && (r.Wants(WIKI_RAG) || (r.WantsNone() && !r.Structured())))
    ensures r.Requires(WIKI_RAG) <==>
            || (!r.Schema() && r.Definition())
            || (r.Open() && (r.WantsFirst(WIKI_RAG) || (r.WantsNone() && !r.Structured())))
  {
    ChoiceInWords(r, WIKI_RAG);
  }

  /** The ontology is required for schema questions and asked for definitions of terms of the catalog. */
  lemma OntologyGraphExactly(r: Request)
    ensures r.Asks(ONTOLOGY_GRAPH) <==>
            || r.Schema()
            || (r.Definition() && (r.Structured() || NamesAny(r.u, r.Query(), r.c.properties)))
            || (r.Open() && r.Wants(ONTOLOGY_GRAPH))
    ensures r.Requires(ONTOLOGY_GRAPH) <==> r.Schema() || (r.Open() && r.WantsFirst(ONTOLOGY_GRAPH))
  {
    ChoiceInWords(r, ONTOLOGY_GRAPH);
  }

  /** The planner's branches for one of the four sources, in these words. */
  lemma ChoiceInWords(r: Request, source: string)
    requires Known(source)
    ensures r.Asks(source) <==>
            if r.Schema() then source == ONTOLOGY_GRAPH
            else if r.Definition() then
              || source == WIKI_RAG
              || (source == ONTOLOGY_GRAPH && (r.Structured() || NamesAny(r.u, r.Query(), r.c.properties)))
            else if r.Diagnosis() then
              source == ENTITY_GRAPH || source == WIKI_RAG || (source == BUSINESS_DATA && r.CurrentBusiness())
            else if r.CurrentBusiness() || r.BusinessTask() then source == BUSINESS_DATA
            else if !r.WantsNone() then r.Wants(source)
            else source == if r.Structured() then ENTITY_GRAPH else WIKI_RAG
    ensures r.Requires(source) <==>
            if r.Schema() then source == ONTOLOGY_GRAPH
            else if r.Definition() then source == WIKI_RAG
            else if r.Diagnosis() then source == if r.CurrentBusiness() then BUSINESS_DATA else ENTITY_GRAPH
            else if r.CurrentBusiness() || r.BusinessTask() then source == BUSINESS_DATA
            else if !r.WantsNone() then r.WantsFirst(source)
            else source == if r.Structured() then ENTITY_GRAPH else WIKI_RAG
  {
    hide *;
    FeaturesInWords(r);
    ChosenAreAsked(r, source);
    PreferredInWords(r, source);
    BranchesOf(FeaturesOf(r.u, r.c, r.Query(), r.task), source);
  }

  lemma BranchesOf(x: Features, source: string)
    requires Known(source)
    ensures source in Chosen(x) <==>
            if x.schema then source == ONTOLOGY_GRAPH
            else if x.definition then source == WIKI_RAG || (source == ONTOLOGY_GRAPH && x.matched)
            else if x.diagnosis then
              source == ENTITY_GRAPH || source == WIKI_RAG || (source == BUSINESS_DATA && x.current && x.business)
            else if (x.current || x.metric) && x.business then source == BUSINESS_DATA
            else if x.preferred != [] then source in AddPreferred(x.preferred)
            else source == if x.structured then ENTITY_GRAPH else WIKI_RAG
    ensures source in Chosen(x) && Chosen(x)[source] <==>
            if x.schema then source == ONTOLOGY_GRAPH
            else if x.definition then source == WIKI_RAG
            else if x.diagnosis then source == if x.current && x.business then BUSINESS_DATA else ENTITY_GRAPH
            else if (x.current || x.metric) && x.business then source == BUSINESS_DATA
            else if x.preferred != [] then source in AddPreferred(x.preferred) && AddPreferred(x.preferred)[source]
            else source == if x.structured then ENTITY_GRAPH else WIKI_RAG
  {
    hide AddPreferred;
    SourcesDiffer();
  }

  /** A question about the schema is put to the ontology alone, which must answer it. */
  lemma SchemaAsksOntology(r: Request)
    requires r.Schema()
    ensures r.Steps() == [Step("s1", ONTOLOGY_GRAPH, true)]
  {
    FeaturesInWords(r);
    hide FeaturesOf;
    hide Request.Schema;
    SourcesDiffer();
    var choices := Chosen(FeaturesOf(r.u, r.c, r.Query(), r.task));
    assert choices == map[ONTOLOGY_GRAPH := true];
    var front := ORDER[..3];
    assert front[2] == WIKI_RAG && front[1] == ENTITY_GRAPH && front[0] == BUSINESS_DATA;
    assert StepsFor(choices, front[..1]) == StepsFor(choices, front[..1][..0]) == [];
    assert StepsFor(choices, front[..2]) == StepsFor(choices, front[..2][..1]) && front[..2][..1] == front[..1];
    assert StepsFor(choices, front) == StepsFor(choices, front[..2]);
    assert ORDER[3] == ONTOLOGY_GRAPH && |ORDER| == 4;
    assert StepsFor(choices, ORDER) == StepsFor(choices, front) + [Step(StepName(0), ONTOLOGY_GRAPH, true)];
    assert StepName(0) == "s" + "1" == "s1";
  }

  /** The place of a source in every plan; the others come last. */
  function Rank(source: string): nat {
    if source == BUSINESS_DATA then 0
    else if source == ENTITY_GRAPH then 1
    else if source == WIKI_RAG then 2
    else if source == ONTOLOGY_GRAPH then 3
    else 4
  }

  lemma {:induction false} StepsFollowOrder(choices: map<string, bool>, order: seq<string>)
    requires forall i, j :: 0 <= i < j < |order| ==> Rank(order[i]) < Rank(order[j])
    ensures var steps := StepsFor(choices, order);
            && (forall s :: s in steps ==> s.source in order)
            && (forall i, j :: 0 <= i < j < |steps| ==> Rank(steps[i].source) < Rank(steps[j].source))
  {
    hide StepName;
    hide Rank;
    if order != [] {
      var init, last := order[..|order| - 1], order[|order| - 1];
      assert order == init + [last];
      StepsFollowOrder(choices, init);
      var steps := StepsFor(choices, init);
      forall i | 0 <= i < |steps|
        ensures Rank(steps[i].source) < Rank(last)
      {
        assert steps[i] in steps;
        var k :| 0 <= k < |init| && init[k] == steps[i].source;
        assert order[k] == init[k];
      }
      if last in choices {
        assert StepsFor(choices, order) == steps + [Step(StepName(|steps|), last, choices[last])];
      }
    }
  }

  /** Plans ask only these sources, in this order. */
  lemma StepsInOrder(r: Request)
    ensures forall i :: 0 <= i < |r.Steps()| ==> Known(r.Steps()[i].source)
    ensures forall i, j :: 0 <= i < j < |r.Steps()| ==> Rank(r.Steps()[i].source) < Rank(r.Steps()[j].source)
  {
    hide FeaturesOf;
    hide Chosen;
    hide StepsFor;
    hide RelevantIssues;
    SourcesDiffer();
    assert ORDER[0] == BUSINESS_DATA && ORDER[1] == ENTITY_GRAPH && ORDER[2] == WIKI_RAG && ORDER[3] == ONTOLOGY_GRAPH;
    var choices := Chosen(FeaturesOf(r.u, r.c, r.Query(), r.task));
    StepsFollowOrder(choices, ORDER);
    assert r.Steps() == StepsFor(choices, ORDER);
    forall i | 0 <= i < |r.Steps()|
      ensures Known(r.Steps()[i].source)
    {
      assert r.Steps()[i] in r.Steps();
      KnownInOrder(r.Steps()[i].source);
    }
  }

  /** A conflict of the catalog in words. */
  function Described(c: Conflict): string {
    var kind := if c.kind == ClassKind then "class" else if c.kind == PropertyKind then "property" else "relation";
    "ontology federation conflict for " + kind + " " + c.term + " between " + c.namespaceA + " and " + c.namespaceB
    + ": " + c.detail
  }

  /** The blocking issues of a plan are the catalog's conflicts whose term the query says; it allows the fallback. */
  lemma IssuesExactly(r: Request, issue: string)
    ensures issue in Planned(r.u, r.c, r.rawQuery, r.task).blockingIssues <==>
              exists c :: c in r.c.conflicts && c.term != "" && Says(r.u, r.Query(), c.term) && issue == Described(c)
    ensures Planned(r.u, r.c, r.rawQuery, r.task).query == r.Query()
    ensures Planned(r.u, r.c, r.rawQuery, r.task).allowFallback
  {
    FederationTheorems.IssueOfConflict(r.u, r.Query(), r.c.conflicts, issue);
    forall c: Conflict
      ensures Relevant(r.u, r.Query(), c) <==> c.term != "" && Says(r.u, r.Query(), c.term)
      ensures Issue(c) == Described(c)
    {
      MentionsWhenSays(r.u, r.Query(), c.term);
    }
    hide Relevant;
    hide Says;
    hide Issue;
    hide Described;
    hide RelevantIssues;
    hide StepsFor;
    hide Chosen;
    hide FeaturesOf;
  }
}
