/**
 Federation of the semantic catalogs of several knowledge bases: terms with one id become one term, and a
 label that stands for several ids, or an id with several labels, is recorded as a conflict.
 */
module Federation {
  import opened Text
  import opened Sorting

  datatype Kind = ClassKind | PropertyKind | RelationKind

  /** A class, property or relation as the planner sees it. */
  datatype Term = Term(id: string, name: string, aliases: seq<string>, kind: string, preferredSources: seq<string>)

  datatype Conflict = Conflict(kind: Kind, term: string, namespaceA: string, namespaceB: string, detail: string)

  datatype Catalog = Catalog(
    domain: string, namespaces: seq<string>, classes: seq<Term>, properties: seq<Term>, relations: seq<Term>,
    conflicts: seq<Conflict>)

  datatype NamedCatalog = NamedCatalog(namespace: string, catalog: Catalog)

  /** The text tables together with comparison under case folding. */
  datatype Folding = Folding(u: Unicode, equalFold: (string, string) -> bool)

  function Terms(kind: Kind, c: Catalog): seq<Term> {
    match kind
    case ClassKind => c.classes
    case PropertyKind => c.properties
    case RelationKind => c.relations
  }

  // ---------- One term after another ----------

  datatype Entry = Entry(namespace: string, term: Term)

  datatype State = State(
    byId: map<string, Term>, idNamespace: map<string, string>, labelToId: map<string, string>,
    labelNamespace: map<string, string>, conflicts: seq<Conflict>)

  function Id(u: Unicode, t: Term): string {
    u.Trim(t.id)
  }

  function LabelKey(u: Unicode, t: Term): string {
    u.Lower(u.Trim(t.name))
  }

  predicate Eligible(u: Unicode, t: Term) {
    Id(u, t) != "" && LabelKey(u, t) != ""
  }

  function MergedSources(all: seq<string>): seq<string> {
    if all == [] then []
    else
      var kept, s := MergedSources(all[..|all| - 1]), all[|all| - 1];
      if s == "" || s in kept then kept else kept + [s]
  }

  function At(m: map<string, string>, key: string): string {
    if key in m then m[key] else ""
  }

  /** The label already stands for another id. */
  predicate LabelTaken(u: Unicode, s: State, t: Term) {
    LabelKey(u, t) in s.labelToId && s.labelToId[LabelKey(u, t)] != Id(u, t)
  }

  /** The id is already known under a label that differs by more than case. */
  predicate IdTaken(f: Folding, s: State, t: Term) {
    Id(f.u, t) in s.byId && !f.equalFold(f.u.Trim(s.byId[Id(f.u, t)].name), f.u.Trim(t.name))
  }

  function LabelConflict(u: Unicode, kind: Kind, s: State, e: Entry): Conflict
    requires LabelTaken(u, s, e.term)
  {
    var key := LabelKey(u, e.term);
    Conflict(kind, e.term.name, At(s.labelNamespace, key), e.namespace,
             "same label maps to different concept ids: " + s.labelToId[key] + " vs " + Id(u, e.term))
  }

  function IdConflict(f: Folding, kind: Kind, s: State, e: Entry): Conflict
    requires IdTaken(f, s, e.term)
  {
    var id := Id(f.u, e.term);
    Conflict(kind, e.term.name, At(s.idNamespace, id), e.namespace,
             "same concept id has different labels: " + s.byId[id].name + " vs " + e.term.name)
  }

  function MergedTerm(u: Unicode, prior: Term, t: Term): Term {
    prior.(aliases := UniqueSorted(u, prior.aliases + t.aliases),
           preferredSources := MergedSources(prior.preferredSources + t.preferredSources))
  }

  function WithEntry(f: Folding, kind: Kind, s: State, e: Entry): State {
    var id, key := Id(f.u, e.term), LabelKey(f.u, e.term);
    var labelTaken, idTaken, known := LabelTaken(f.u, s, e.term), IdTaken(f, s, e.term), id in s.byId;
    if !Eligible(f.u, e.term) then s
    else State(
      if !known then s.byId[id := e.term] else if idTaken then s.byId else s.byId[id := MergedTerm(f.u, s.byId[id],
            e.term)],
      if known then s.idNamespace else s.idNamespace[id := e.namespace],
      if labelTaken then s.labelToId else s.labelToId[key := id],
      if labelTaken then s.labelNamespace else s.labelNamespace[key := e.namespace],
      s.conflicts + (if labelTaken then [LabelConflict(f.u, kind, s, e)] else [])
                  + (if idTaken then [IdConflict(f, kind, s, e)] else []))
  }

  function Federated(f: Folding, kind: Kind, conflicts: seq<Conflict>, entries: seq<Entry>): State {
    if entries == [] then State(map[], map[], map[], map[], conflicts)
    else WithEntry(f, kind, Federated(f, kind, conflicts, entries[..|entries| - 1]), entries[|entries| - 1])
  }

  function EntriesOf(namespace: string, terms: seq<Term>): seq<Entry> {
    seq(|terms|, i requires 0 <= i < |terms| => Entry(namespace, terms[i]))
  }

  /** The terms of all catalogs in order. */
  function Entries(u: Unicode, kind: Kind, inputs: seq<NamedCatalog>): seq<Entry> {
    if inputs == [] then []
    else
      var last := inputs[|inputs| - 1];
      Entries(u, kind, inputs[..|inputs| - 1]) + EntriesOf(u.Trim(last.namespace), Terms(kind, last.catalog))
  }

  // ---------- What the pass keeps ----------

  ghost predicate SomeEntry(u: Unicode, entries: seq<Entry>, id: string, key: string) {
    exists e :: e in entries && Eligible(u, e.term) && Id(u, e.term) == id && LabelKey(u, e.term) == key
  }

  /** Two of the entries share a label under different ids, or an id under labels that differ. */
  ghost predicate Clash(f: Folding, entries: seq<Entry>, term: string) {
    exists d, e :: d in entries && e in entries && Eligible(f.u, d.term) && Eligible(f.u, e.term) && e.term.name == term
      && ((LabelKey(f.u, d.term) == LabelKey(f.u, e.term) && Id(f.u, d.term) != Id(f.u, e.term))
          || (Id(f.u, d.term) == Id(f.u, e.term) && !f.equalFold(f.u.Trim(d.term.name), f.u.Trim(e.term.name))))
  }

  ghost predicate IdNamed(u: Unicode, entries: seq<Entry>, id: string, name: string) {
    exists e :: e in entries && Eligible(u, e.term) && Id(u, e.term) == id && e.term.name == name
  }

  ghost predicate Recorded(kind: Kind, conflicts: seq<Conflict>, term: string) {
    exists c :: c in conflicts && c.kind == kind && c.term == term
  }

  /** Every eligible entry is under its id, and its label stands for its id or is recorded as a conflict. */
  ghost predicate Covered(u: Unicode, kind: Kind, s: State, e: Entry) {
    Eligible(u, e.term) ==>
      && Id(u, e.term) in s.byId && LabelKey(u, e.term) in s.labelToId
      && (s.labelToId[LabelKey(u, e.term)] == Id(u, e.term) || Recorded(kind, s.conflicts, e.term.name))
  }

  ghost predicate Grounded(f: Folding, kind: Kind, start: seq<Conflict>, s: State, entries: seq<Entry>) {
    && (forall key :: key in s.labelToId ==> SomeEntry(f.u, entries, s.labelToId[key], key))
    && (forall id :: id in s.byId ==> Id(f.u, s.byId[id]) == id && IdNamed(f.u, entries, id, s.byId[id].name))
    && start <= s.conflicts
    && (forall i :: |start| <= i < |s.conflicts| ==>
          s.conflicts[i].kind == kind && Clash(f, entries, s.conflicts[i].term))
  }

  lemma {:induction false} FederatedCovers(f: Folding, kind: Kind, start: seq<Conflict>, entries: seq<Entry>)
    ensures forall e :: e in entries ==> Covered(f.u, kind, Federated(f, kind, start, entries), e)
  {
    if entries != [] {
      hide Covered;
      hide WithEntry;
      var init, e := entries[..|entries| - 1], entries[|entries| - 1];
      var s := Federated(f, kind, start, init);
      FederatedCovers(f, kind, start, init);
      assert entries == init + [e];
      EntryCovers(f, kind, s, e);
      forall d | d in init
        ensures Covered(f.u, kind, WithEntry(f, kind, s, e), d)
      {
        EntryKeepsCover(f, kind, s, e, d);
      }
    }
  }

  lemma ConflictTerms(f: Folding, kind: Kind, s: State, e: Entry)
    ensures LabelTaken(f.u, s, e.term) ==>
              LabelConflict(f.u, kind, s, e).kind == kind && LabelConflict(f.u, kind, s, e).term == e.term.name
    ensures IdTaken(f, s, e.term) ==>
              IdConflict(f, kind, s, e).kind == kind && IdConflict(f, kind, s, e).term == e.term.name
  {
  }

  lemma EntryCovers(f: Folding, kind: Kind, s: State, e: Entry)
    ensures Covered(f.u, kind, WithEntry(f, kind, s, e), e)
  {
    hide Eligible;
    hide Id;
    hide IdConflict;
    hide IdTaken;
    hide LabelConflict;
    hide LabelKey;
    hide MergedTerm;
    ConflictTerms(f, kind, s, e);
    var r := WithEntry(f, kind, s, e);
    if Eligible(f.u, e.term) && LabelTaken(f.u, s, e.term) {
      assert r.conflicts[|s.conflicts|] == LabelConflict(f.u, kind, s, e);
      assert r.conflicts[|s.conflicts|] in r.conflicts;
    }
  }

  lemma EntryKeepsCover(f: Folding, kind: Kind, s: State, e: Entry, d: Entry)
    requires Covered(f.u, kind, s, d)
    ensures Covered(f.u, kind, WithEntry(f, kind, s, e), d)
  {
    hide Eligible;
    hide Id;
    hide IdConflict;
    hide IdTaken;
    hide LabelConflict;
    hide LabelKey;
    hide MergedTerm;
    var r := WithEntry(f, kind, s, e);
    forall c | c in s.conflicts
      ensures c in r.conflicts
    {
      var i :| 0 <= i < |s.conflicts| && s.conflicts[i] == c;
      assert r.conflicts[i] == c;
    }
  }

  lemma {:induction false} FederatedGrounded(f: Folding, kind: Kind, start: seq<Conflict>, entries: seq<Entry>)
    ensures Grounded(f, kind, start, Federated(f, kind, start, entries), entries)
  {
    if entries == [] {
    } else {
      hide Grounded;
      hide WithEntry;
      var init, e := entries[..|entries| - 1], entries[|entries| - 1];
      var s := Federated(f, kind, start, init);
      FederatedGrounded(f, kind, start, init);
      assert entries == init + [e];
      MoreEntriesGround(f, kind, start, s, init, e);
      EntryGrounded(f, kind, start, s, init + [e], e);
    }
  }

  lemma MoreEntriesGround(f: Folding, kind: Kind, start: seq<Conflict>, s: State, entries: seq<Entry>, e: Entry)
    requires Grounded(f, kind, start, s, entries)
    ensures Grounded(f, kind, start, s, entries + [e])
  {
    hide Eligible;
    hide LabelKey;
    hide Id;
    var more := entries + [e];
    assert forall d :: d in entries ==> d in more;
    forall key | key in s.labelToId
      ensures SomeEntry(f.u, more, s.labelToId[key], key)
    {
      assert SomeEntry(f.u, entries, s.labelToId[key], key);
    }
    forall id | id in s.byId
      ensures IdNamed(f.u, more, id, s.byId[id].name)
    {
      assert IdNamed(f.u, entries, id, s.byId[id].name);
    }
    forall i | |start| <= i < |s.conflicts|
      ensures Clash(f, more, s.conflicts[i].term)
    {
      assert Clash(f, entries, s.conflicts[i].term);
    }
  }

  lemma TakenIsClash(f: Folding, kind: Kind, start: seq<Conflict>, s: State, entries: seq<Entry>, e: Entry)
    requires Grounded(f, kind, start, s, entries) && e in entries && Eligible(f.u, e.term)
    requires LabelTaken(f.u, s, e.term) || IdTaken(f, s, e.term)
    ensures Clash(f, entries, e.term.name)
  {
    hide LabelKey;
    hide Id;
    hide Eligible;
    if LabelTaken(f.u, s, e.term) {
      assert SomeEntry(f.u, entries, s.labelToId[LabelKey(f.u, e.term)], LabelKey(f.u, e.term));
    } else {
      assert IdNamed(f.u, entries, Id(f.u, e.term), s.byId[Id(f.u, e.term)].name);
    }
  }

  lemma MergedTermKeepsName(u: Unicode, prior: Term, t: Term)
    ensures Id(u, MergedTerm(u, prior, t)) == Id(u, prior) && MergedTerm(u, prior, t).name == prior.name
  {
  }

  lemma EntryNames(u: Unicode, entries: seq<Entry>, e: Entry)
    requires e in entries && Eligible(u, e.term)
    ensures IdNamed(u, entries, Id(u, e.term), e.term.name)
    ensures SomeEntry(u, entries, Id(u, e.term), LabelKey(u, e.term))
  {
  }

  lemma EntryGrounded(f: Folding, kind: Kind, start: seq<Conflict>, s: State, entries: seq<Entry>, e: Entry)
    requires Grounded(f, kind, start, s, entries) && e in entries
    ensures Grounded(f, kind, start, WithEntry(f, kind, s, e), entries)
  {
    hide Clash;
    hide Id;
    hide IdConflict;
    hide IdNamed;
    hide IdTaken;
    hide LabelConflict;
    hide LabelKey;
    hide LabelTaken;
    if Eligible(f.u, e.term) {
      var r := WithEntry(f, kind, s, e);
      var id, key := Id(f.u, e.term), LabelKey(f.u, e.term);
      if id in s.byId {
        MergedTermKeepsName(f.u, s.byId[id], e.term);
      }
      EntryNames(f.u, entries, e);
      ConflictTerms(f, kind, s, e);
      if LabelTaken(f.u, s, e.term) || IdTaken(f, s, e.term) {
        TakenIsClash(f, kind, start, s, entries, e);
      }
    }
  }

  // ---------- The pass as the source runs it ----------

  function TermOrder(): (Term, Term) -> bool {
    (a: Term, b: Term) => Before(a.name, b.name)
  }

  /** The list holds the term of each id exactly once. */
  ghost predicate OncePerId(u: Unicode, terms: seq<Term>, byId: map<string, Term>) {
    && (forall i :: 0 <= i < |terms| ==> Id(u, terms[i]) in byId && byId[Id(u, terms[i])] == terms[i])
    && (forall i, j :: 0 <= i < j < |terms| ==> Id(u, terms[i]) != Id(u, terms[j]))
    && (forall id :: id in byId ==> byId[id] in terms)
  }

  method MergeSources(a: seq<string>, b: seq<string>) returns (out: seq<string>)
    ensures out == MergedSources(a + b)
  {
    out := [];
    var all := a + b;
    for n := 0 to |all|
      invariant out == MergedSources(all[..n])
    {
      assert all[..n + 1][..n] == all[..n];
      if all[n] == "" || all[n] in out {
        continue;
      }
      out := out + [all[n]];
    }
    assert all[..|all|] == all;
  }

  method AddTerm(f: Folding, kind: Kind, s: State, namespace: string, term: Term) returns (t: State)
    ensures t == WithEntry(f, kind, s, Entry(namespace, term))
  {
    hide UniqueSorted;
    hide MergedSources;
    hide LabelConflict;
    hide IdConflict;
    hide Unicode.Trim;
    hide Unicode.Lower;
    var e := Entry(namespace, term);
    var id, key := Id(f.u, term), LabelKey(f.u, term);
    if id == "" || key == "" {
      return s;
    }
    var conflicts, labelToId, labelNamespace := s.conflicts, s.labelToId, s.labelNamespace;
    if key in labelToId && labelToId[key] != id {
      conflicts := conflicts + [LabelConflict(f.u, kind, s, e)];
    } else {
      labelToId := labelToId[key := id];
      labelNamespace := labelNamespace[key := namespace];
    }
    if id in s.byId {
      var prior := s.byId[id];
      if !f.equalFold(f.u.Trim(prior.name), f.u.Trim(term.name)) {
        conflicts := conflicts + [IdConflict(f, kind, s, e)];
        return State(s.byId, s.idNamespace, labelToId, labelNamespace, conflicts);
      }
      var sources := MergeSources(prior.preferredSources, term.preferredSources);
      prior := prior.(aliases := UniqueSorted(f.u, prior.aliases + term.aliases), preferredSources := sources);
      return State(s.byId[id := prior], s.idNamespace, labelToId, labelNamespace, conflicts);
    }
    t := State(s.byId[id := term], s.idNamespace[id := namespace], labelToId, labelNamespace, conflicts);
  }

  /** The values come out of the map in an arbitrary order. */
  method ListTerms(u: Unicode, byId: map<string, Term>) returns (terms: seq<Term>)
    requires forall id :: id in byId ==> Id(u, byId[id]) == id
    ensures OncePerId(u, terms, byId)
  {
    hide Id;
    terms := [];
    var todo := byId.Keys;
    while todo != {}
      invariant todo <= byId.Keys
      invariant forall i :: 0 <= i < |terms| ==>
                  Id(u, terms[i]) in byId && Id(u, terms[i]) !in todo && byId[Id(u, terms[i])] == terms[i]
      invariant forall i, j :: 0 <= i < j < |terms| ==> Id(u, terms[i]) != Id(u, terms[j])
      invariant forall id :: id in byId && id !in todo ==> byId[id] in terms
      decreases |todo|
    {
      var id :| id in todo;
      todo := todo - {id};
      terms := terms + [byId[id]];
    }
  }

  lemma RearrangedOncePerId(u: Unicode, a: seq<Term>, b: seq<Term>, byId: map<string, Term>)
    requires OncePerId(u, a, byId) && multiset(a) == multiset(b)
    ensures OncePerId(u, b, byId)
  {
    hide Id;
    forall i, j | 0 <= i < j < |b|
      ensures Id(u, b[i]) != Id(u, b[j])
    {
      var x, y := PermutedPlaces(a, b, i, j);
      assert x < y || y < x;
    }
    forall i | 0 <= i < |b|
      ensures Id(u, b[i]) in byId && byId[Id(u, b[i])] == b[i]
    {
      assert b[i] in multiset(b);
      assert b[i] in multiset(a);
      var k :| 0 <= k < |a| && a[k] == b[i];
    }
    forall id | id in byId
      ensures byId[id] in b
    {
      assert byId[id] in multiset(a);
      assert byId[id] in multiset(b);
    }
  }

  method FoldTerms(f: Folding, kind: Kind, s: State, namespace: string, listed: seq<Term>, ghost start: seq<Conflict>,
                   ghost before: seq<Entry>)
    returns (t: State)
    requires s == Federated(f, kind, start, before)
    ensures t == Federated(f, kind, start, before + EntriesOf(namespace, listed))
  {
    hide WithEntry;
    t := s;
    assert before + EntriesOf(namespace, listed[..0]) == before;
    for i := 0 to |listed|
      invariant t == Federated(f, kind, start, before + EntriesOf(namespace, listed[..i]))
    {
      ghost var more := before + EntriesOf(namespace, listed[..i + 1]);
      assert more[..|more| - 1] == before + EntriesOf(namespace, listed[..i]);
      assert more[|more| - 1] == Entry(namespace, listed[i]);
      t := AddTerm(f, kind, t, namespace, listed[i]);
    }
    assert listed[..|listed|] == listed;
  }

  lemma NothingFederated(f: Folding, kind: Kind, start: seq<Conflict>)
    ensures Federated(f, kind, start, []) == State(map[], map[], map[], map[], start)
  {
  }

  lemma GroundedIds(f: Folding, kind: Kind, start: seq<Conflict>, s: State, entries: seq<Entry>)
    requires Grounded(f, kind, start, s, entries)
    ensures forall id :: id in s.byId ==> Id(f.u, s.byId[id]) == id
  {
  }

  method FederateTerms(f: Folding, kind: Kind, inputs: seq<NamedCatalog>, start: seq<Conflict>)
    returns (terms: seq<Term>, conflicts: seq<Conflict>)
    ensures var s := Federated(f, kind, start, Entries(f.u, kind, inputs));
            conflicts == s.conflicts && OncePerId(f.u, terms, s.byId) && Sorted(terms, TermOrder())
  {
    hide Unicode.Trim;
    var s := State(map[], map[], map[], map[], start);
    NothingFederated(f, kind, start);
    for n := 0 to |inputs|
      invariant s == Federated(f, kind, start, Entries(f.u, kind, inputs[..n]))
    {
      assert inputs[..n + 1][..n] == inputs[..n];
      s := FoldTerms(f, kind, s, f.u.Trim(inputs[n].namespace), Terms(kind, inputs[n].catalog), start,
                     Entries(f.u, kind, inputs[..n]));
    }
    assert inputs[..|inputs|] == inputs;
    FederatedGrounded(f, kind, start, Entries(f.u, kind, inputs));
    conflicts := s.conflicts;
    GroundedIds(f, kind, start, s, Entries(f.u, kind, inputs));
    var values := ListTerms(f.u, s.byId);
    terms := Sort(values, TermOrder());
    SortMultiset(values, TermOrder());
    RearrangedOncePerId(f.u, values, terms, s.byId);
    KeyOrderIsStrictWeak((t: Term) => t.name, TermOrder());
    SortSorted(values, TermOrder());
  }

  /** The conflicts of a federation of several catalogs. */
  function ConflictsOf(f: Folding, inputs: seq<NamedCatalog>): seq<Conflict> {
    var classes := Federated(f, ClassKind, [], Entries(f.u, ClassKind, inputs)).conflicts;
    var properties := Federated(f, PropertyKind, classes, Entries(f.u, PropertyKind, inputs)).conflicts;
    Federated(f, RelationKind, properties, Entries(f.u, RelationKind, inputs)).conflicts
  }

  function Namespaces(u: Unicode, inputs: seq<NamedCatalog>): seq<string> {
    UniqueSorted(u, seq(|inputs|, i requires 0 <= i < |inputs| => inputs[i].namespace))
  }

  /** What the federation of the catalogs may be: a single catalog is taken over as it is. */
  ghost predicate IsFederation(f: Folding, inputs: seq<NamedCatalog>, c: Catalog) {
    if |inputs| == 1 then c == inputs[0].catalog.(namespaces := Namespaces(f.u, inputs))
    else
      && c.domain == "federated" && c.namespaces == Namespaces(f.u, inputs) && c.conflicts == ConflictsOf(f, inputs)
      && OncePerId(f.u, c.classes, Federated(f, ClassKind, [], Entries(f.u, ClassKind, inputs)).byId)
      && OncePerId(f.u, c.properties, Federated(f, PropertyKind, [], Entries(f.u, PropertyKind, inputs)).byId)
      && OncePerId(f.u, c.relations, Federated(f, RelationKind, [], Entries(f.u, RelationKind, inputs)).byId)
      && Sorted(c.classes, TermOrder()) && Sorted(c.properties, TermOrder()) && Sorted(c.relations, TermOrder())
  }

  predicate SameTerms(s: State, t: State) {
    s.byId == t.byId && s.idNamespace == t.idNamespace && s.labelToId == t.labelToId && s.labelNamespace
        == t.labelNamespace
  }

  lemma {:induction false} TermsIgnoreStart(f: Folding, kind: Kind, a: seq<Conflict>, b: seq<Conflict>,
                                            entries: seq<Entry>)
    ensures SameTerms(Federated(f, kind, a, entries), Federated(f, kind, b, entries))
  {
    if entries != [] {
      hide Eligible;
      hide Id;
      hide IdConflict;
      hide LabelConflict;
      hide LabelKey;
      hide MergedTerm;
      hide Unicode.Trim;
      TermsIgnoreStart(f, kind, a, b, entries[..|entries| - 1]);
    }
  }

  method FederateCatalogs(f: Folding, inputs: seq<NamedCatalog>) returns (out: Catalog)
    ensures IsFederation(f, inputs, out)
  {
    hide Federated;
    hide OncePerId;
    hide UniqueSorted;
    var namespaces: seq<string> := [];
    for n := 0 to |inputs|
      invariant namespaces == seq(n, i requires 0 <= i < n => inputs[i].namespace)
    {
      namespaces := namespaces + [inputs[n].namespace];
    }
    if |inputs| == 1 {
      assert namespaces == seq(|inputs|, i requires 0 <= i < |inputs| => inputs[i].namespace);
      return inputs[0].catalog.(namespaces := UniqueSorted(f.u, namespaces));
    }
    var classes, afterClasses := FederateTerms(f, ClassKind, inputs, []);
    var properties, afterProperties := FederateTerms(f, PropertyKind, inputs, afterClasses);
    var relations, conflicts := FederateTerms(f, RelationKind, inputs, afterProperties);
    TermsIgnoreStart(f, PropertyKind, [], afterClasses, Entries(f.u, PropertyKind, inputs));
    TermsIgnoreStart(f, RelationKind, [], afterProperties, Entries(f.u, RelationKind, inputs));
    out := Catalog("federated", UniqueSorted(f.u, namespaces), classes, properties, relations, conflicts);
  }
}
