/**
 What a federation of catalogs holds, in terms of the entries of the catalogs in order: what each federated
 term is made of, and exactly which conflicts are recorded, between which catalogs and with which words.
 */
module FederationTerms {
  import opened Wrappers
  import opened Text
  import opened Sorting
  import opened Federation
  import opened FederationTheorems

  // ---------- Lists of sources ----------

  /** The place of the first of these in the list, or its length. */
  function FirstPlace(all: seq<string>, s: string): nat {
    if all == [] || all[0] == s then 0 else 1 + FirstPlace(all[1..], s)
  }

  lemma {:induction false} FirstPlaceConcat(a: seq<string>, b: seq<string>, s: string)
    ensures FirstPlace(a + b, s) == if s in a then FirstPlace(a, s) else |a| + FirstPlace(b, s)
    ensures s in a <==> FirstPlace(a, s) < |a|
  {
    if a == [] {
      assert a + b == b;
    } else {
      assert (a + b)[1..] == a[1..] + b;
      FirstPlaceConcat(a[1..], b, s);
      assert s in a <==> s == a[0] || s in a[1..];
    }
  }

  /** The values that are not blank, once each, in the order in which they first come. */
  ghost predicate InOrderOnce(all: seq<string>, out: seq<string>) {
    && (forall s :: s in out <==> s in all && s != "")
    && (forall i, j :: 0 <= i < j < |out| ==> FirstPlace(all, out[i]) < FirstPlace(all, out[j]))
  }

  lemma {:induction false} MergedSourcesInOrder(all: seq<string>)
    ensures InOrderOnce(all, MergedSources(all))
  {
    if all != [] {
      var init, last := all[..|all| - 1], all[|all| - 1];
      assert all == init + [last];
      MergedSourcesInOrder(init);
      var kept, out := MergedSources(init), MergedSources(all);
      forall i | 0 <= i < |kept|
        ensures FirstPlace(all, kept[i]) == FirstPlace(init, kept[i]) < |init|
      {
        assert kept[i] in kept;
        FirstPlaceConcat(init, [last], kept[i]);
      }
      if out != kept {
        assert last !in init;
        FirstPlaceConcat(init, [last], last);
        assert out == kept + [last];
      }
    }
  }

  lemma {:induction false} MergedSourcesConcat(a: seq<string>, b: seq<string>)
    ensures MergedSources(MergedSources(a) + b) == MergedSources(a + b)
  {
    if b == [] {
      assert MergedSources(a) + b == MergedSources(a) && a + b == a;
      MergedSourcesTwice(a);
    } else {
      var init := b[..|b| - 1];
      MergedSourcesConcat(a, init);
      assert (MergedSources(a) + b)[..|MergedSources(a) + b| - 1] == MergedSources(a) + init;
      assert (a + b)[..|a + b| - 1] == a + init;
    }
  }

  lemma {:induction false} MergedSourcesTwice(a: seq<string>)
    ensures MergedSources(MergedSources(a)) == MergedSources(a)
  {
    if a != [] {
      var kept, s := MergedSources(a[..|a| - 1]), a[|a| - 1];
      MergedSourcesTwice(a[..|a| - 1]);
      assert (kept + [s])[..|kept|] == kept;
    }
  }

  // ---------- Terms ----------

  /** The entries with the id whose label is that of the first of them, up to case. */
  function Agreeing(f: Folding, entries: seq<Entry>, id: string): seq<Entry> {
    if entries == [] then []
    else
      var init, e := Agreeing(f, entries[..|entries| - 1], id), entries[|entries| - 1];
      if f.u.Trim(e.term.id) != id || id == "" || f.u.Lower(f.u.Trim(e.term.name)) == "" then init
      else if init == [] || f.equalFold(f.u.Trim(init[0].term.name), f.u.Trim(e.term.name)) then init + [e]
      else init
  }

  /** The sources that these entries prefer, in order. */
  function SourcesOf(es: seq<Entry>): seq<string> {
    if es == [] then [] else SourcesOf(es[..|es| - 1]) + es[|es| - 1].term.preferredSources
  }

  /** Some of these entries gives the alias. */
  ghost predicate GivenAlias(u: Unicode, es: seq<Entry>, a: string) {
    a != "" && exists i, x :: 0 <= i < |es| && x in es[i].term.aliases && u.Trim(x) == a
  }

  /**
   The term is the first of the entries, unchanged if it is alone, and otherwise with the aliases of all of
   them, trimmed, sorted and once each, and with all the sources they prefer.
   */
  ghost predicate MadeOf(u: Unicode, es: seq<Entry>, t: Term) {
    && es != [] && t.id == es[0].term.id && t.name == es[0].term.name && t.kind == es[0].term.kind
    && if |es| == 1 then t == es[0].term
       else
         && Sorted(t.aliases, StringOrder()) && NoRepeats(t.aliases)
         && (forall a :: a in t.aliases <==> GivenAlias(u, es, a))
         && InOrderOnce(SourcesOf(es), t.preferredSources)
  }

  /** Made of the entries, with the sources as the merge of all they prefer. */
  ghost predicate BuiltFrom(u: Unicode, es: seq<Entry>, t: Term) {
    && MadeOf(u, es, t)
    && (|es| > 1 ==> t.preferredSources == MergedSources(SourcesOf(es)))
  }

  lemma AliasBefore(u: Unicode, es: seq<Entry>, t: Term, a: string)
    requires MadeOf(u, es, t)
    ensures GivenAlias(u, es, a) <==> a != "" && exists x :: x in t.aliases && u.Trim(x) == a
  {
    hide Unicode.Trim;
    if |es| > 1 {
      if GivenAlias(u, es, a) {
        GivenIsTrimmed(u, es, a);
      }
      if a != "" && exists x :: x in t.aliases && u.Trim(x) == a {
        var x :| x in t.aliases && u.Trim(x) == a;
        GivenIsTrimmed(u, es, x);
      }
    } else {
      assert t.aliases == es[0].term.aliases;
    }
  }

  lemma GivenIsTrimmed(u: Unicode, es: seq<Entry>, a: string)
    requires GivenAlias(u, es, a)
    ensures u.Trim(a) == a
  {
    hide Unicode.Trim;
    var i, x :| 0 <= i < |es| && x in es[i].term.aliases && u.Trim(x) == a;
    TrimIdempotent(u, x);
  }

  lemma GivenByMore(u: Unicode, es: seq<Entry>, e: Entry, a: string)
    ensures GivenAlias(u, es + [e], a) <==>
              GivenAlias(u, es, a) || (a != "" && exists x :: x in e.term.aliases && u.Trim(x) == a)
  {
    hide Unicode.Trim;
    var more := es + [e];
    assert more[|es|] == e && forall i :: 0 <= i < |es| ==> more[i] == es[i];
    if GivenAlias(u, more, a) {
      var i, x :| 0 <= i < |more| && x in more[i].term.aliases && u.Trim(x) == a;
    }
  }

  lemma MergedIsMadeOf(u: Unicode, es: seq<Entry>, prior: Term, e: Entry)
    requires BuiltFrom(u, es, prior)
    ensures BuiltFrom(u, es + [e], MergedTerm(u, prior, e.term))
  {
    var more, t := es + [e], MergedTerm(u, prior, e.term);
    UniqueSortedListing(u, prior.aliases + e.term.aliases);
    forall a
      ensures a in t.aliases <==> GivenAlias(u, more, a)
    {
      AliasBefore(u, es, prior, a);
      GivenByMore(u, es, e, a);
      assert forall x :: x in prior.aliases + e.term.aliases <==> x in prior.aliases || x in e.term.aliases;
    }
    SourcesExtend(es, e);
    if |es| > 1 {
      MergedSourcesConcat(SourcesOf(es), e.term.preferredSources);
    } else {
      var none: seq<string> := [];
      assert SourcesOf(es) == none + prior.preferredSources == prior.preferredSources;
    }
    MergedSourcesInOrder(SourcesOf(more));
  }

  lemma SourcesExtend(es: seq<Entry>, e: Entry)
    ensures SourcesOf(es + [e]) == SourcesOf(es) + e.term.preferredSources
  {
    assert (es + [e])[..|es|] == es;
  }

  lemma OneIsMadeOf(u: Unicode, e: Entry)
    ensures BuiltFrom(u, [e], e.term)
  {
  }

  /** Every id of the federation is that of a term built from the entries that agree with the first to have it. */
  ghost predicate AllBuilt(f: Folding, s: State, entries: seq<Entry>) {
    forall id ::
      && (id in s.byId <==> Agreeing(f, entries, id) != [])
      && (id in s.byId ==> BuiltFrom(f.u, Agreeing(f, entries, id), s.byId[id]))
  }

  lemma {:induction false} FederatedIsBuilt(f: Folding, kind: Kind, start: seq<Conflict>, entries: seq<Entry>)
    ensures AllBuilt(f, Federated(f, kind, start, entries), entries)
  {
    if entries != [] {
      var init, e := entries[..|entries| - 1], entries[|entries| - 1];
      var s, t := Federated(f, kind, start, init), Federated(f, kind, start, entries);
      FederatedIsBuilt(f, kind, start, init);
      forall id
        ensures id in t.byId <==> Agreeing(f, entries, id) != []
        ensures id in t.byId ==> BuiltFrom(f.u, Agreeing(f, entries, id), t.byId[id])
      {
        EntryBuilds(f, kind, s, init, e, id);
      }
    }
  }

  /** What an entry does to the terms. */
  lemma TermsAfter(f: Folding, kind: Kind, s: State, e: Entry)
    ensures var t, id := WithEntry(f, kind, s, e), f.u.Trim(e.term.id);
            t.byId == if id == "" || f.u.Lower(f.u.Trim(e.term.name)) == "" then s.byId
                      else if id !in s.byId then s.byId[id := e.term]
                      else if f.equalFold(f.u.Trim(s.byId[id].name), f.u.Trim(e.term.name))
                      then s.byId[id := MergedTerm(f.u, s.byId[id], e.term)] else s.byId
  {
    hide LabelConflict;
    hide IdConflict;
    hide LabelTaken;
    hide MergedTerm;
    hide Unicode.Trim;
    hide Unicode.Lower;
  }

  lemma AgreeingAfter(f: Folding, init: seq<Entry>, e: Entry, id: string)
    ensures var before, after := Agreeing(f, init, id), Agreeing(f, init + [e], id);
            after == if f.u.Trim(e.term.id) != id || id == "" || f.u.Lower(f.u.Trim(e.term.name)) == "" then before
                     else if before == [] then [e]
                     else if f.equalFold(f.u.Trim(before[0].term.name), f.u.Trim(e.term.name)) then before + [e]
                     else before
  {
    hide Unicode.Trim;
    hide Unicode.Lower;
    assert (init + [e])[..|init|] == init;
  }

  lemma BuiltIsNamed(u: Unicode, es: seq<Entry>, t: Term)
    requires BuiltFrom(u, es, t)
    ensures es != [] && t.name == es[0].term.name
  {
  }

  lemma EntryBuilds(f: Folding, kind: Kind, s: State, init: seq<Entry>, e: Entry, id: string)
    requires id in s.byId <==> Agreeing(f, init, id) != []
    requires id in s.byId ==> BuiltFrom(f.u, Agreeing(f, init, id), s.byId[id])
    ensures var t, entries := WithEntry(f, kind, s, e), init + [e];
            && (id in t.byId <==> Agreeing(f, entries, id) != [])
            && (id in t.byId ==> BuiltFrom(f.u, Agreeing(f, entries, id), t.byId[id]))
  {
    hide *;
    var es := Agreeing(f, init, id);
    TermsAfter(f, kind, s, e);
    AgreeingAfter(f, init, e, id);
    if id in s.byId {
      MergedIsMadeOf(f.u, es, s.byId[id], e);
      BuiltIsNamed(f.u, es, s.byId[id]);
    } else {
      OneIsMadeOf(f.u, e);
    }
  }

  // ---------- Conflicts ----------

  /** The last entry to use the label for the id that it first stood for. */
  function LastNamed(u: Unicode, entries: seq<Entry>, key: string): Option<Entry> {
    if entries == [] then None
    else
      var init, e := LastNamed(u, entries[..|entries| - 1], key), entries[|entries| - 1];
      if Eligible(u, e.term) && LabelKey(u, e.term) == key && (init.Some? ==> Id(u, init.value.term) == Id(u, e.term))
      then Some(e) else init
  }

  /** The catalog noted for a label is that of its last use for the id it stands for. */
  ghost predicate LabelNoted(u: Unicode, s: State, entries: seq<Entry>, key: string) {
    && (key in s.labelToId <==> LastNamed(u, entries, key).Some?)
    && (key in s.labelToId ==>
          && s.labelToId[key] == Id(u, LastNamed(u, entries, key).value.term)
          && key in s.labelNamespace && s.labelNamespace[key] == LastNamed(u, entries, key).value.namespace)
  }

  /** The catalog noted for an id is that of the first entry to have it. */
  ghost predicate IdNoted(u: Unicode, s: State, entries: seq<Entry>, id: string) {
    && (id in s.byId <==> FirstWithId(u, entries, id).Some?)
    && (id in s.byId ==>
          && s.byId[id].name == FirstWithId(u, entries, id).value.term.name
          && id in s.idNamespace && s.idNamespace[id] == FirstWithId(u, entries, id).value.namespace)
  }

  ghost predicate Noted(u: Unicode, s: State, entries: seq<Entry>, key: string, id: string) {
    LabelNoted(u, s, entries, key) && IdNoted(u, s, entries, id)
  }

  lemma EntryNotesLabel(f: Folding, kind: Kind, s: State, init: seq<Entry>, e: Entry, key: string)
    requires LabelNoted(f.u, s, init, key)
    ensures LabelNoted(f.u, WithEntry(f, kind, s, e), init + [e], key)
  {
    assert (init + [e])[..|init|] == init;
    hide Eligible;
    hide Id;
    hide LabelKey;
    hide LabelConflict;
    hide IdConflict;
    hide IdTaken;
    hide MergedTerm;
  }

  lemma FirstWithIdAfter(u: Unicode, init: seq<Entry>, e: Entry, id: string)
    ensures FirstWithId(u, init + [e], id) ==
            if FirstWithId(u, init, id).None? && Eligible(u, e.term) && Id(u, e.term) == id then Some(e)
            else FirstWithId(u, init, id)
  {
    assert (init + [e])[..|init|] == init;
    hide Eligible;
    hide Id;
  }

  lemma IdAfter(f: Folding, kind: Kind, s: State, e: Entry, id: string)
    ensures var t, its := WithEntry(f, kind, s, e), Eligible(f.u, e.term) && Id(f.u, e.term) == id;
            && (id in t.byId <==> id in s.byId || its)
            && (id in s.byId ==> t.byId[id].name == s.byId[id].name)
            && (id !in s.byId && its ==> t.byId[id] == e.term)
            && (id !in s.byId && its ==> id in t.idNamespace && t.idNamespace[id] == e.namespace)
            && (id in s.byId && id in s.idNamespace ==>
                  id in t.idNamespace && t.idNamespace[id] == s.idNamespace[id])
  {
    if Id(f.u, e.term) in s.byId {
      MergedTermKeepsName(f.u, s.byId[Id(f.u, e.term)], e.term);
    }
    hide Eligible;
    hide Id;
    hide LabelKey;
    hide LabelConflict;
    hide LabelTaken;
    hide IdConflict;
    hide IdTaken;
    hide MergedTerm;
  }

  lemma EntryNotesId(f: Folding, kind: Kind, s: State, init: seq<Entry>, e: Entry, id: string)
    requires IdNoted(f.u, s, init, id)
    ensures IdNoted(f.u, WithEntry(f, kind, s, e), init + [e], id)
  {
    FirstWithIdAfter(f.u, init, e, id);
    IdAfter(f, kind, s, e, id);
    hide Eligible;
    hide Id;
    hide WithEntry;
    hide FirstWithId;
  }

  lemma EntryNotes(f: Folding, kind: Kind, s: State, init: seq<Entry>, e: Entry, key: string, id: string)
    requires Noted(f.u, s, init, key, id)
    ensures Noted(f.u, WithEntry(f, kind, s, e), init + [e], key, id)
  {
    EntryNotesLabel(f, kind, s, init, e, key);
    EntryNotesId(f, kind, s, init, e, id);
    hide WithEntry;
    hide LabelNoted;
    hide IdNoted;
  }

  lemma NothingNoted(f: Folding, kind: Kind, start: seq<Conflict>, key: string, id: string)
    ensures Noted(f.u, Federated(f, kind, start, []), [], key, id)
  {
  }

  lemma {:induction false} FederatedNotes(f: Folding, kind: Kind, start: seq<Conflict>, entries: seq<Entry>,
                                          key: string, id: string)
    ensures Noted(f.u, Federated(f, kind, start, entries), entries, key, id)
  {
    hide WithEntry;
    hide Noted;
    if entries == [] {
      NothingNoted(f, kind, start, key, id);
    } else {
      var init, e := entries[..|entries| - 1], entries[|entries| - 1];
      FederatedNotes(f, kind, start, init, key, id);
      EntryNotes(f, kind, Federated(f, kind, start, init), init, e, key, id);
      assert entries == init + [e];
    }
  }

  /** The entry uses a label that stands for another id, and the conflict names both ids and their catalogs. */
  ghost predicate TellsOfLabel(f: Folding, before: seq<Entry>, e: Entry, c: Conflict) {
    var named := LastNamed(f.u, before, LabelKey(f.u, e.term));
    && named.Some? && Id(f.u, named.value.term) != Id(f.u, e.term)
    && c.namespaceA == named.value.namespace && c.namespaceB == e.namespace
    && c.detail == "same label maps to different concept ids: " + Id(f.u, named.value.term) + " vs " + Id(f.u, e.term)
  }

  /** The entry gives an id another label, and the conflict names both labels and their catalogs. */
  ghost predicate TellsOfId(f: Folding, before: seq<Entry>, e: Entry, c: Conflict) {
    var known := FirstWithId(f.u, before, Id(f.u, e.term));
    && known.Some? && !f.equalFold(f.u.Trim(known.value.term.name), f.u.Trim(e.term.name))
    && c.namespaceA == known.value.namespace && c.namespaceB == e.namespace
    && c.detail == "same concept id has different labels: " + known.value.term.name + " vs " + e.term.name
  }

  /** The entry contradicts those before it, and the conflict tells of it. */
  ghost predicate Tells(f: Folding, kind: Kind, before: seq<Entry>, e: Entry, c: Conflict) {
    && Eligible(f.u, e.term) && c.kind == kind && c.term == e.term.name
    && (TellsOfLabel(f, before, e, c) || TellsOfId(f, before, e, c))
  }

  ghost predicate Told(f: Folding, kind: Kind, entries: seq<Entry>, c: Conflict) {
    exists i :: 0 <= i < |entries| && Tells(f, kind, entries[..i], entries[i], c)
  }

  lemma EntryTells(f: Folding, kind: Kind, start: seq<Conflict>, init: seq<Entry>, e: Entry, c: Conflict)
    ensures var s := Federated(f, kind, start, init);
            c in WithEntry(f, kind, s, e).conflicts <==>
              c in s.conflicts || Tells(f, kind, init, e, c)
  {
    var s := Federated(f, kind, start, init);
    FederatedNotes(f, kind, start, init, LabelKey(f.u, e.term), Id(f.u, e.term));
    hide Eligible;
    hide Id;
    hide LabelKey;
    hide Federated;
    hide LastNamed;
    hide FirstWithId;
    hide MergedTerm;
    hide Unicode.Trim;
    hide Unicode.Lower;
    var t := WithEntry(f, kind, s, e);
    if Eligible(f.u, e.term) {
      var a := if LabelTaken(f.u, s, e.term) then [LabelConflict(f.u, kind, s, e)] else [];
      var b := if IdTaken(f, s, e.term) then [IdConflict(f, kind, s, e)] else [];
      assert t.conflicts == s.conflicts + a + b;
      assert c in t.conflicts <==> c in s.conflicts || c in a || c in b;
      LabelConflictTells(f, kind, s, init, e, c);
      IdConflictTells(f, kind, s, init, e, c);
    }
  }

  lemma LabelConflictTells(f: Folding, kind: Kind, s: State, init: seq<Entry>, e: Entry, c: Conflict)
    requires Noted(f.u, s, init, LabelKey(f.u, e.term), Id(f.u, e.term))
    ensures LabelTaken(f.u, s, e.term) && c == LabelConflict(f.u, kind, s, e) <==>
              c.kind == kind && c.term == e.term.name && TellsOfLabel(f, init, e, c)
  {
    hide Id;
    hide LabelKey;
    hide LastNamed;
    hide FirstWithId;
  }

  lemma IdConflictTells(f: Folding, kind: Kind, s: State, init: seq<Entry>, e: Entry, c: Conflict)
    requires Noted(f.u, s, init, LabelKey(f.u, e.term), Id(f.u, e.term))
    ensures IdTaken(f, s, e.term) && c == IdConflict(f, kind, s, e) <==>
              c.kind == kind && c.term == e.term.name && TellsOfId(f, init, e, c)
  {
    hide Id;
    hide LabelKey;
    hide LastNamed;
    hide FirstWithId;
    hide Unicode.Trim;
  }

  lemma {:induction false} FederatedTells(f: Folding, kind: Kind, start: seq<Conflict>, entries: seq<Entry>,
                                          c: Conflict)
    ensures c in Federated(f, kind, start, entries).conflicts <==> c in start || Told(f, kind, entries, c)
  {
    hide Tells;
    hide WithEntry;
    if entries != [] {
      var last := |entries| - 1;
      var init, e := entries[..last], entries[last];
      FederatedTells(f, kind, start, init, c);
      EntryTells(f, kind, start, init, e, c);
      ToldOneMore(f, kind, entries, c);
      hide Told;
    }
  }

  lemma ToldOneMore(f: Folding, kind: Kind, entries: seq<Entry>, c: Conflict)
    requires entries != []
    ensures var last := |entries| - 1;
            Told(f, kind, entries, c) <==>
              Told(f, kind, entries[..last], c) || Tells(f, kind, entries[..last], entries[last], c)
  {
    hide Tells;
    var init := entries[..|entries| - 1];
    assert forall i :: 0 <= i < |init| ==> entries[..i] == init[..i] && entries[i] == init[i];
    if Told(f, kind, init, c) {
      var i :| 0 <= i < |init| && Tells(f, kind, init[..i], init[i], c);
      assert Tells(f, kind, entries[..i], entries[i], c);
    }
  }

  /**
   A federation of several catalogs lists, by label, a term for each id, made of the entries that agree with
   the first to have it, and records exactly the conflicts that an entry has with those before it.
   */
  lemma FederationInWords(f: Folding, inputs: seq<NamedCatalog>, c: Catalog, kind: Kind, t: Term, x: Conflict)
    requires IsFederation(f, inputs, c) && |inputs| != 1
    ensures var terms, entries := Terms(kind, c), Entries(f.u, kind, inputs);
            && (t in terms ==> MadeOf(f.u, Agreeing(f, entries, f.u.Trim(t.id)), t))
            && (forall id :: Agreeing(f, entries, id) != [] ==> exists s :: s in terms && f.u.Trim(s.id) == id)
            && (forall i, j :: 0 <= i < j < |terms| ==> !Before(terms[j].name, terms[i].name))
    ensures c.domain == "federated"
    ensures x in c.conflicts <==> Told(f, x.kind, Entries(f.u, x.kind, inputs), x)
  {
    var entries, terms := Entries(f.u, kind, inputs), Terms(kind, c);
    var s := Federated(f, kind, [], entries);
    FederatedIsBuilt(f, kind, [], entries);
    hide Federated;
    hide Entries;
    hide Agreeing;
    hide BuiltFrom;
    hide Told;
    assert OncePerId(f.u, terms, s.byId) && Sorted(terms, TermOrder());
    if t in terms {
      var i :| 0 <= i < |terms| && terms[i] == t;
      BuiltIsMade(f.u, Agreeing(f, entries, Id(f.u, t)), t);
    }
    forall id | Agreeing(f, entries, id) != []
      ensures exists other :: other in terms && f.u.Trim(other.id) == id
    {
      var other := s.byId[id];
      var i :| 0 <= i < |terms| && terms[i] == other;
      BuiltHasId(f, entries, id, other);
    }
    forall i, j | 0 <= i < j < |terms|
      ensures !Before(terms[j].name, terms[i].name)
    {
      assert !TermOrder()(terms[j], terms[i]);
    }
    ConflictsTold(f, inputs, x);
  }

  lemma BuiltIsMade(u: Unicode, es: seq<Entry>, t: Term)
    requires BuiltFrom(u, es, t)
    ensures MadeOf(u, es, t)
  {
  }

  lemma {:induction false} AgreeingHaveId(f: Folding, entries: seq<Entry>, id: string)
    ensures forall i :: 0 <= i < |Agreeing(f, entries, id)| ==> f.u.Trim(Agreeing(f, entries, id)[i].term.id) == id
  {
    if entries != [] {
      AgreeingHaveId(f, entries[..|entries| - 1], id);
    }
  }

  lemma BuiltHasId(f: Folding, entries: seq<Entry>, id: string, t: Term)
    requires BuiltFrom(f.u, Agreeing(f, entries, id), t)
    ensures f.u.Trim(t.id) == id
  {
    AgreeingHaveId(f, entries, id);
    hide Agreeing;
  }

  lemma ConflictsTold(f: Folding, inputs: seq<NamedCatalog>, x: Conflict)
    ensures x in ConflictsOf(f, inputs) <==> Told(f, x.kind, Entries(f.u, x.kind, inputs), x)
  {
    hide Federated;
    hide Entries;
    var classEntries, propertyEntries := Entries(f.u, ClassKind, inputs), Entries(f.u, PropertyKind, inputs);
    var classes := Federated(f, ClassKind, [], classEntries).conflicts;
    var properties := Federated(f, PropertyKind, classes, propertyEntries).conflicts;
    FederatedTells(f, ClassKind, [], classEntries, x);
    FederatedTells(f, PropertyKind, classes, propertyEntries, x);
    FederatedTells(f, RelationKind, properties, Entries(f.u, RelationKind, inputs), x);
    hide TellsOfLabel;
    hide TellsOfId;
    hide Eligible;
  }
}
