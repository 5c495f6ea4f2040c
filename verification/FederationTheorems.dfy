/**
 From ambiguous terms to incomplete packs: a label that stands for different concepts in the federated
 catalogs blocks every query that mentions it, all the way to the final context pack.
 */
module FederationTheorems {
  import opened Wrappers
  import opened Text
  import opened Sorting
  import opened RetrievalModel
  import opened Federation
  import opened Planner
  import opened Assembler
  import opened ContextTheorems

  // ---------- Terms ----------

  function EligibleIds(u: Unicode, entries: seq<Entry>): set<string> {
    set e | e in entries && Eligible(u, e.term) :: Id(u, e.term)
  }

  function TermIds(u: Unicode, terms: seq<Term>): set<string> {
    set t | t in terms :: Id(u, t)
  }

  /** The federated terms of a kind list each id of the inputs, and no other, exactly once. */
  lemma EachIdOnce(f: Folding, inputs: seq<NamedCatalog>, c: Catalog, kind: Kind)
    requires IsFederation(f, inputs, c) && |inputs| != 1
    ensures var terms := Terms(kind, c);
            && TermIds(f.u, terms) == EligibleIds(f.u, Entries(f.u, kind, inputs))
            && forall i, j :: 0 <= i < j < |terms| ==> Id(f.u, terms[i]) != Id(f.u, terms[j])
  {
    hide TermIds;
    var entries := Entries(f.u, kind, inputs);
    var s := Federated(f, kind, [], entries);
    var terms := Terms(kind, c);
    assert OncePerId(f.u, terms, s.byId);
    FederatedGrounded(f, kind, [], entries);
    FederatedCovers(f, kind, [], entries);
    ListedIds(f, kind, s, entries, terms);
  }

  lemma ListedIds(f: Folding, kind: Kind, s: State, entries: seq<Entry>, terms: seq<Term>)
    requires OncePerId(f.u, terms, s.byId) && Grounded(f, kind, [], s, entries)
    requires forall e :: e in entries ==> Covered(f.u, kind, s, e)
    ensures TermIds(f.u, terms) == EligibleIds(f.u, entries)
    ensures forall i, j :: 0 <= i < j < |terms| ==> Id(f.u, terms[i]) != Id(f.u, terms[j])
  {
    hide Id;
    hide Eligible;
    hide LabelKey;
    hide Clash;
    hide Recorded;
    hide SomeEntry;
    forall id | id in TermIds(f.u, terms)
      ensures id in EligibleIds(f.u, entries)
    {
      var t :| t in terms && Id(f.u, t) == id;
      assert IdNamed(f.u, entries, id, s.byId[id].name);
    }
    forall id | id in EligibleIds(f.u, entries)
      ensures id in TermIds(f.u, terms)
    {
      var e :| e in entries && Eligible(f.u, e.term) && Id(f.u, e.term) == id;
      assert Covered(f.u, kind, s, e);
      assert Id(f.u, s.byId[id]) == id && s.byId[id] in terms;
    }
  }

  // ---------- Conflicts ----------

  /** The two entries give one label to two ids. */
  ghost predicate Ambiguous(u: Unicode, a: Term, b: Term) {
    && Eligible(u, a) && Eligible(u, b)
    && LabelKey(u, a) == LabelKey(u, b) && Id(u, a) != Id(u, b)
  }

  lemma AmbiguityIsRecorded(f: Folding, kind: Kind, start: seq<Conflict>, entries: seq<Entry>, a: Entry, b: Entry)
    requires a in entries && b in entries && Ambiguous(f.u, a.term, b.term)
    ensures var conflicts := Federated(f, kind, start, entries).conflicts;
            Recorded(kind, conflicts, a.term.name) || Recorded(kind, conflicts, b.term.name)
  {
    hide Eligible;
    hide Federated;
    hide Id;
    hide LabelKey;
    hide Recorded;
    FederatedCovers(f, kind, start, entries);
    assert Covered(f.u, kind, Federated(f, kind, start, entries), a);
    assert Covered(f.u, kind, Federated(f, kind, start, entries), b);
  }

  lemma ConflictsKept(f: Folding, kind: Kind, start: seq<Conflict>, entries: seq<Entry>, other: Kind, term: string)
    requires Recorded(other, start, term)
    ensures Recorded(other, Federated(f, kind, start, entries).conflicts, term)
  {
    hide Federated;
    hide Clash;
    hide SomeEntry;
    hide IdNamed;
    FederatedGrounded(f, kind, start, entries);
    var c :| c in start && c.kind == other && c.term == term;
    var i :| 0 <= i < |start| && start[i] == c;
    assert Federated(f, kind, start, entries).conflicts[i] == c;
  }

  lemma AmbiguityReachesCatalog(f: Folding, inputs: seq<NamedCatalog>, kind: Kind, a: Entry, b: Entry)
    requires var entries := Entries(f.u, kind, inputs);
             a in entries && b in entries && Ambiguous(f.u, a.term, b.term)
    ensures Recorded(kind, ConflictsOf(f, inputs), a.term.name) || Recorded(kind, ConflictsOf(f, inputs), b.term.name)
  {
    hide Ambiguous;
    hide Entries;
    hide Federated;
    hide Recorded;
    var classEntries, propertyEntries := Entries(f.u, ClassKind, inputs), Entries(f.u, PropertyKind, inputs);
    var relationEntries := Entries(f.u, RelationKind, inputs);
    var classes := Federated(f, ClassKind, [], classEntries).conflicts;
    var properties := Federated(f, PropertyKind, classes, propertyEntries).conflicts;
    var start := if kind == ClassKind then [] else if kind == PropertyKind then classes else properties;
    AmbiguityIsRecorded(f, kind, start, Entries(f.u, kind, inputs), a, b);
    var name := if Recorded(kind, Federated(f, kind, start, Entries(f.u, kind, inputs)).conflicts, a.term.name)
                then a.term.name else b.term.name;
    if kind == ClassKind {
      ConflictsKept(f, PropertyKind, classes, propertyEntries, kind, name);
    }
    if kind != RelationKind {
      ConflictsKept(f, RelationKind, properties, relationEntries, kind, name);
    }
  }

  /** No conflict is invented: each stems from two terms that share a label or an id but not both. */
  lemma {:induction false} ConflictsAreReal(f: Folding, inputs: seq<NamedCatalog>, c: Conflict)
    requires c in ConflictsOf(f, inputs)
    ensures Clash(f, Entries(f.u, c.kind, inputs), c.term)
  {
    hide Clash;
    hide Entries;
    hide Federated;
    var classEntries, propertyEntries := Entries(f.u, ClassKind, inputs), Entries(f.u, PropertyKind, inputs);
    var relationEntries := Entries(f.u, RelationKind, inputs);
    var classes := Federated(f, ClassKind, [], classEntries).conflicts;
    var properties := Federated(f, PropertyKind, classes, propertyEntries).conflicts;
    NewConflictsAreReal(f, ClassKind, [], classEntries, c);
    NewConflictsAreReal(f, PropertyKind, classes, propertyEntries, c);
    NewConflictsAreReal(f, RelationKind, properties, relationEntries, c);
  }

  lemma NewConflictsAreReal(f: Folding, kind: Kind, start: seq<Conflict>, entries: seq<Entry>, c: Conflict)
    ensures c in Federated(f, kind, start, entries).conflicts ==>
              c in start || (c.kind == kind && Clash(f, entries, c.term))
  {
    hide Federated;
    hide Clash;
    hide SomeEntry;
    hide IdNamed;
    FederatedGrounded(f, kind, start, entries);
    var all := Federated(f, kind, start, entries).conflicts;
    if c in all {
      var i :| 0 <= i < |all| && all[i] == c;
      if i < |start| {
        assert start[i] == c;
      }
    }
  }

  // ---------- Blocked queries ----------

  lemma {:induction false} IssueOfConflict(u: Unicode, query: string, conflicts: seq<Conflict>, issue: string)
    ensures issue in RelevantIssues(u, query, conflicts) <==>
              exists c :: c in conflicts && Relevant(u, query, c) && issue == Issue(c)
  {
    hide Issue;
    hide Relevant;
    if conflicts != [] {
      var init, last := conflicts[..|conflicts| - 1], conflicts[|conflicts| - 1];
      IssueOfConflict(u, query, init, issue);
      assert conflicts == init + [last] && last in conflicts;
    }
  }

  lemma IssueIsText(c: Conflict)
    ensures Issue(c) != ""
  {
    assert |Issue(c)| >= |" and "|;
  }

  /**
   The query mentions both spellings of an ambiguous label. Then the plan carries a blocking issue, and
   whatever the retrievers find the pack is not complete, before and after the fallback.
   */
  lemma AmbiguousLabelBlocks(f: Folding, inputs: seq<NamedCatalog>, c: Catalog, kind: Kind, a: Entry, b: Entry,
                             query: string, task: string)
    requires |inputs| != 1 && IsFederation(f, inputs, c)
    requires var entries := Entries(f.u, kind, inputs);
             a in entries && b in entries && Ambiguous(f.u, a.term, b.term)
    requires Mentions(f.u, f.u.Trim(query), a.term.name) && Mentions(f.u, f.u.Trim(query), b.term.name)
    ensures var plan := Planned(f.u, c, query, task);
            && (exists issue :: issue in plan.blockingIssues && issue != "")
            && (forall limit, results, arbitration, found ::
                  !WithFallback(Assembled(limit, plan, results, arbitration), found).complete)
  {
    hide WithFallback;
    var q := f.u.Trim(query);
    var plan := Planned(f.u, c, query, task);
    AmbiguityReachesCatalog(f, inputs, kind, a, b);
    var conflict :| conflict in c.conflicts && (conflict.term == a.term.name || conflict.term == b.term.name);
    NamedTerms(f.u, a.term, b.term);
    assert Relevant(f.u, q, conflict);
    IssueOfConflict(f.u, q, c.conflicts, Issue(conflict));
    IssueIsText(conflict);
    assert Issue(conflict) in plan.blockingIssues;
    forall limit, results, arbitration, found
      ensures !WithFallback(Assembled(limit, plan, results, arbitration), found).complete
    {
      CompleteExactly(limit, plan, results, arbitration);
      FallbackNeverCompletes(limit, plan, results, arbitration, found);
    }
  }

  lemma NamedTerms(u: Unicode, a: Term, b: Term)
    requires Ambiguous(u, a, b)
    ensures a.name != "" && b.name != ""
  {
  }

  /** With trimmed labels it is enough that the query mentions the label once. */
  lemma AmbiguousTrimmedLabelBlocks(f: Folding, inputs: seq<NamedCatalog>, c: Catalog, kind: Kind, a: Entry, b: Entry,
                                    query: string, task: string)
    requires |inputs| != 1 && IsFederation(f, inputs, c)
    requires var entries := Entries(f.u, kind, inputs);
             a in entries && b in entries && Ambiguous(f.u, a.term, b.term)
    requires Trimmed(f.u, a.term.name) && Trimmed(f.u, b.term.name)
    requires Mentions(f.u, f.u.Trim(query), a.term.name) || Mentions(f.u, f.u.Trim(query), b.term.name)
    ensures forall limit, results, arbitration, found ::
              !WithFallback(Assembled(limit, Planned(f.u, c, query, task), results, arbitration), found).complete
  {
    hide WithFallback;
    TrimmedIsFixed(f.u, a.term.name);
    TrimmedIsFixed(f.u, b.term.name);
    AmbiguousLabelBlocks(f, inputs, c, kind, a, b, query, task);
  }

  // ---------- Exactly which terms conflict ----------

  /** The first entry with the label. */
  function FirstNamed(u: Unicode, entries: seq<Entry>, key: string): Option<Entry> {
    if entries == [] then None
    else
      var init, e := FirstNamed(u, entries[..|entries| - 1], key), entries[|entries| - 1];
      if init.None? && Eligible(u, e.term) && LabelKey(u, e.term) == key then Some(e) else init
  }

  /** The first entry with the id. */
  function FirstWithId(u: Unicode, entries: seq<Entry>, id: string): Option<Entry> {
    if entries == [] then None
    else
      var init, e := FirstWithId(u, entries[..|entries| - 1], id), entries[|entries| - 1];
      if init.None? && Eligible(u, e.term) && Id(u, e.term) == id then Some(e) else init
  }

  /** The first entry with the label has another id, or the first one with the id has another label. */
  predicate Contradicts(f: Folding, before: seq<Entry>, e: Entry) {
    var named, known := FirstNamed(f.u, before, LabelKey(f.u, e.term)), FirstWithId(f.u, before, Id(f.u, e.term));
    && Eligible(f.u, e.term)
    && (|| (named.Some? && Id(f.u, named.value.term) != Id(f.u, e.term))
        || (known.Some? && !f.equalFold(f.u.Trim(known.value.term.name), f.u.Trim(e.term.name))))
  }

  /** Some entry with the label as written contradicts those before it. */
  ghost predicate Conflicting(f: Folding, entries: seq<Entry>, term: string) {
    exists i :: 0 <= i < |entries| && Contradicts(f, entries[..i], entries[i]) && entries[i].term.name == term
  }

  ghost predicate LabelsKeepFirst(u: Unicode, s: State, entries: seq<Entry>) {
    forall key ::
      && (key in s.labelToId <==> FirstNamed(u, entries, key).Some?)
      && (key in s.labelToId ==> s.labelToId[key] == Id(u, FirstNamed(u, entries, key).value.term))
  }

  ghost predicate IdsKeepFirst(u: Unicode, s: State, entries: seq<Entry>) {
    forall id ::
      && (id in s.byId <==> FirstWithId(u, entries, id).Some?)
      && (id in s.byId ==> s.byId[id].name == FirstWithId(u, entries, id).value.term.name)
  }

  lemma EntryEffect(f: Folding, kind: Kind, s: State, e: Entry)
    ensures var t, id, key := WithEntry(f, kind, s, e), Id(f.u, e.term), LabelKey(f.u, e.term);
            if !Eligible(f.u, e.term) then t == s
            else
              && t.labelToId == (if key in s.labelToId then s.labelToId else s.labelToId[key := id])
              && t.byId.Keys == s.byId.Keys + {id}
              && (forall other :: other in s.byId ==> t.byId[other].name == s.byId[other].name)
              && (id !in s.byId ==> t.byId[id] == e.term)
  {
    hide Eligible;
    hide LabelConflict;
    hide IdConflict;
    hide IdTaken;
    hide LabelKey;
    hide Id;
    hide MergedTerm;
    var id, key := Id(f.u, e.term), LabelKey(f.u, e.term);
    if id in s.byId {
      MergedTermKeepsName(f.u, s.byId[id], e.term);
    }
    assert key in s.labelToId && s.labelToId[key] == id ==> s.labelToId[key := id] == s.labelToId;
  }

  lemma LabelsStayFirst(u: Unicode, s: State, t: State, entries: seq<Entry>)
    requires entries != [] && LabelsKeepFirst(u, s, entries[..|entries| - 1])
    requires var e := entries[|entries| - 1].term;
             t.labelToId == if !Eligible(u, e) || LabelKey(u, e) in s.labelToId then s.labelToId
                            else s.labelToId[LabelKey(u, e) := Id(u, e)]
    ensures LabelsKeepFirst(u, t, entries)
  {
    hide Eligible;
    hide LabelKey;
    hide Id;
    var init := entries[..|entries| - 1];
    forall key
      ensures key in t.labelToId <==> FirstNamed(u, entries, key).Some?
      ensures key in t.labelToId ==> t.labelToId[key] == Id(u, FirstNamed(u, entries, key).value.term)
    {
      assert key in s.labelToId <==> FirstNamed(u, init, key).Some?;
    }
  }

  lemma IdsStayFirst(u: Unicode, s: State, t: State, entries: seq<Entry>)
    requires entries != [] && IdsKeepFirst(u, s, entries[..|entries| - 1])
    requires var e := entries[|entries| - 1].term;
             && t.byId.Keys == (if Eligible(u, e) then s.byId.Keys + {Id(u, e)} else s.byId.Keys)
             && (forall id :: id in s.byId ==> t.byId[id].name == s.byId[id].name)
             && (Eligible(u, e) && Id(u, e) !in s.byId ==> t.byId[Id(u, e)] == e)
    ensures IdsKeepFirst(u, t, entries)
  {
    hide Eligible;
    hide Id;
    var init := entries[..|entries| - 1];
    forall id
      ensures id in t.byId <==> FirstWithId(u, entries, id).Some?
      ensures id in t.byId ==> t.byId[id].name == FirstWithId(u, entries, id).value.term.name
    {
      assert id in s.byId <==> FirstWithId(u, init, id).Some?;
      assert id in t.byId <==> id in t.byId.Keys;
      assert id in s.byId <==> id in s.byId.Keys;
    }
  }

  lemma {:induction false} FederatedKeepsFirst(f: Folding, kind: Kind, start: seq<Conflict>, entries: seq<Entry>)
    ensures LabelsKeepFirst(f.u, Federated(f, kind, start, entries), entries)
    ensures IdsKeepFirst(f.u, Federated(f, kind, start, entries), entries)
  {
    if entries != [] {
      hide Eligible;
      hide LabelKey;
      hide Id;
      hide WithEntry;
      hide LabelsKeepFirst;
      hide IdsKeepFirst;
      var init, e := entries[..|entries| - 1], entries[|entries| - 1];
      var s := Federated(f, kind, start, init);
      FederatedKeepsFirst(f, kind, start, init);
      EntryEffect(f, kind, s, e);
      LabelsStayFirst(f.u, s, WithEntry(f, kind, s, e), entries);
      IdsStayFirst(f.u, s, WithEntry(f, kind, s, e), entries);
    }
  }

  lemma ContradictionIsTaken(f: Folding, kind: Kind, start: seq<Conflict>, entries: seq<Entry>, e: Entry)
    ensures var s := Federated(f, kind, start, entries);
            Contradicts(f, entries, e) <==>
              Eligible(f.u, e.term) && (LabelTaken(f.u, s, e.term) || IdTaken(f, s, e.term))
  {
    hide Eligible;
    hide LabelKey;
    hide Id;
    hide Federated;
    hide FirstNamed;
    hide FirstWithId;
    FederatedKeepsFirst(f, kind, start, entries);
  }

  /** An entry adds a conflict under its label exactly if it contradicts those before it. */
  lemma ConflictAdded(f: Folding, kind: Kind, s: State, e: Entry, other: Kind, term: string)
    ensures Recorded(other, WithEntry(f, kind, s, e).conflicts, term) <==>
              || Recorded(other, s.conflicts, term)
              || (other == kind && term == e.term.name && Eligible(f.u, e.term)
                  && (LabelTaken(f.u, s, e.term) || IdTaken(f, s, e.term)))
  {
    hide Eligible;
    hide LabelKey;
    hide Id;
    hide IdTaken;
    hide LabelTaken;
    hide IdConflict;
    hide LabelConflict;
    hide MergedTerm;
    var after := WithEntry(f, kind, s, e).conflicts;
    var labels := if LabelTaken(f.u, s, e.term) then [LabelConflict(f.u, kind, s, e)] else [];
    var ids := if IdTaken(f, s, e.term) then [IdConflict(f, kind, s, e)] else [];
    ConflictTerms(f, kind, s, e);
    if Eligible(f.u, e.term) {
      assert after == s.conflicts + labels + ids;
      assert forall c :: c in after <==> c in s.conflicts || c in labels || c in ids;
      assert LabelTaken(f.u, s, e.term) ==> labels[0] in labels;
      assert IdTaken(f, s, e.term) ==> ids[0] in ids;
    }
  }

  lemma {:induction false} RecordedExactly(f: Folding, kind: Kind, start: seq<Conflict>, entries: seq<Entry>,
                                           other: Kind, term: string)
    ensures Recorded(other, Federated(f, kind, start, entries).conflicts, term) <==>
              Recorded(other, start, term) || (other == kind && Conflicting(f, entries, term))
  {
    hide Recorded;
    hide Contradicts;
    if entries != [] {
      hide WithEntry;
      var last := |entries| - 1;
      var init, e := entries[..last], entries[last];
      RecordedExactly(f, kind, start, init, other, term);
      ContradictionIsTaken(f, kind, start, init, e);
      ConflictAdded(f, kind, Federated(f, kind, start, init), e, other, term);
      assert forall i :: 0 <= i < last ==> entries[..i] == init[..i] && entries[i] == init[i];
    }
  }

  /** A label is recorded as a conflict exactly when some term under it contradicts an earlier one. */
  lemma ConflictsExactly(f: Folding, inputs: seq<NamedCatalog>, kind: Kind, term: string)
    ensures Recorded(kind, ConflictsOf(f, inputs), term) <==> Conflicting(f, Entries(f.u, kind, inputs), term)
  {
    hide Recorded;
    hide Conflicting;
    hide Federated;
    hide Entries;
    var classEntries, propertyEntries := Entries(f.u, ClassKind, inputs), Entries(f.u, PropertyKind, inputs);
    var relationEntries := Entries(f.u, RelationKind, inputs);
    var classes := Federated(f, ClassKind, [], classEntries).conflicts;
    var properties := Federated(f, PropertyKind, classes, propertyEntries).conflicts;
    RecordedExactly(f, ClassKind, [], classEntries, kind, term);
    RecordedExactly(f, PropertyKind, classes, propertyEntries, kind, term);
    RecordedExactly(f, RelationKind, properties, relationEntries, kind, term);
    NothingRecorded(kind, term);
  }

  lemma NothingRecorded(kind: Kind, term: string)
    ensures !Recorded(kind, [], term)
  {
  }

  lemma RelevantIssuesExist(u: Unicode, query: string, conflicts: seq<Conflict>)
    ensures RelevantIssues(u, query, conflicts) != [] <==> exists c :: c in conflicts && Relevant(u, query, c)
  {
    hide Issue;
    hide Relevant;
    var issues := RelevantIssues(u, query, conflicts);
    if issues != [] {
      IssueOfConflict(u, query, conflicts, issues[0]);
    }
    if c :| c in conflicts && Relevant(u, query, c) {
      IssueOfConflict(u, query, conflicts, Issue(c));
    }
  }

  /** The query mentions a label that conflicts among the terms of some kind. */
  ghost predicate MentionsConflict(f: Folding, inputs: seq<NamedCatalog>, query: string) {
    exists kind: Kind, term :: Conflicting(f, Entries(f.u, kind, inputs), term) && Mentions(f.u, query, term)
  }

  /** Several catalogs block a query exactly if it mentions a conflicting label, a single one by its own conflicts. */
  lemma BlocksExactly(f: Folding, inputs: seq<NamedCatalog>, c: Catalog, query: string, task: string)
    requires IsFederation(f, inputs, c)
    ensures Planned(f.u, c, query, task).blockingIssues != [] <==>
              if |inputs| == 1
              then exists x :: x in inputs[0].catalog.conflicts && Relevant(f.u, f.u.Trim(query), x)
              else MentionsConflict(f, inputs, f.u.Trim(query))
  {
    hide Entries;
    hide Conflicting;
    hide Mentions;
    hide ConflictsOf;
    hide OncePerId;
    hide Federated;
    hide UniqueSorted;
    var q := f.u.Trim(query);
    RelevantIssuesExist(f.u, q, c.conflicts);
    if |inputs| != 1 {
      if x :| x in c.conflicts && Relevant(f.u, q, x) {
        ConflictsExactly(f, inputs, x.kind, x.term);
        assert Recorded(x.kind, c.conflicts, x.term);
      }
      if kind: Kind, term :| Conflicting(f, Entries(f.u, kind, inputs), term) && Mentions(f.u, q, term) {
        ConflictsExactly(f, inputs, kind, term);
        ConflictingIsNamed(f, Entries(f.u, kind, inputs), term);
        var x :| x in c.conflicts && x.kind == kind && x.term == term;
        assert Relevant(f.u, q, x);
      }
    }
  }

  lemma ConflictingIsNamed(f: Folding, entries: seq<Entry>, term: string)
    requires Conflicting(f, entries, term)
    ensures term != ""
  {
    hide FirstNamed;
    hide FirstWithId;
  }
}
