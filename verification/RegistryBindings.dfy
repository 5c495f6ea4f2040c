/**
 What requests to the registry do, in terms of the requests: when they succeed, which version an ontology
 offers after any run, and to what a knowledge base resolves from its binding until its next one.
 */
module RegistryBindings {
  import opened Wrappers
  import opened Text
  import opened Sorting
  import opened OntologyModel
  import opened OntologyRegistry
  import opened RegistryInvariants

  // ---------- Entries ----------

  /** The first entry of the version in the list. */
  ghost predicate FirstEntry(versions: seq<Meta>, version: string, meta: Meta) {
    exists i :: 0 <= i < |versions| && versions[i] == meta && meta.version == version
                && forall j :: 0 <= j < i ==> versions[j].version != version
  }

  lemma {:induction false} FoundIsFirst(versions: seq<Meta>, version: string, meta: Meta)
    ensures FindVersion(versions, version) == Some(meta) <==> FirstEntry(versions, version, meta)
  {
    if versions != [] {
      if versions[0].version == version {
        assert FirstEntry(versions, version, versions[0]);
      } else {
        FoundIsFirst(versions[1..], version, meta);
        if FirstEntry(versions[1..], version, meta) {
          var i :| 0 <= i < |versions[1..]| && versions[1..][i] == meta && meta.version == version
                   && forall j :: 0 <= j < i ==> versions[1..][j].version != version;
          forall j | 0 <= j < i + 1
            ensures versions[j].version != version
          {
            assert j > 0 ==> versions[j] == versions[1..][j - 1];
          }
          assert versions[i + 1] == meta;
        }
        if FirstEntry(versions, version, meta) {
          var i :| 0 <= i < |versions| && versions[i] == meta && meta.version == version
                   && forall j :: 0 <= j < i ==> versions[j].version != version;
          assert i > 0 && versions[1..][i - 1] == meta;
          assert forall j :: 0 <= j < i - 1 ==> versions[1..][j] == versions[j + 1];
        }
      }
    }
  }

  /** The ontology has a manifest, in which the version's first entry is this one. */
  ghost predicate Listed(env: Env, r: Registry, ontologyId: string, version: string, meta: Meta) {
    var key := Sanitize(env.u, ontologyId);
    key in r.manifests && FirstEntry(r.manifests[key].versions, version, meta)
  }

  /** The content stored for the version of the ontology. */
  ghost predicate Stored(env: Env, r: Registry, ontologyId: string, version: string, o: Ontology) {
    var path := (Sanitize(env.u, ontologyId), Sanitize(env.u, version));
    path in r.payloads && r.payloads[path] == o
  }

  // ---------- Binding requests ----------

  /** The request asks for whatever version is active, of an ontology that has one. */
  predicate FollowsActive(env: Env, r: Registry, raw: Binding) {
    && env.u.Lower(env.u.Trim(raw.mode)) == "active"
    && Sanitize(env.u, raw.ontologyId) in r.manifests
    && r.manifests[Sanitize(env.u, raw.ontologyId)].activeVersion != ""
  }

  /** The request asks for one version, which is published. */
  ghost predicate PinsPublished(env: Env, r: Registry, raw: Binding) {
    && env.u.Lower(env.u.Trim(raw.mode)) == "pinned"
    && exists meta :: Listed(env, r, raw.ontologyId, env.u.Trim(raw.version), meta) && meta.published
  }

  lemma SanitizeTrims(u: Unicode, s: string)
    ensures Sanitize(u, u.Trim(s)) == Sanitize(u, s)
  {
    TrimIdempotent(u, s);
  }

  lemma ModesDiffer()
    ensures "active" != "pinned"
  {
    assert "active"[0] == 'a' && "pinned"[0] == 'p';
  }

  /** A binding succeeds exactly for a named knowledge base and ontology, on an active or a published version. */
  lemma BindSucceedsExactly(env: Env, r: Registry, raw: Binding, now: int)
    ensures Bound(env, r, raw, now).1.None? <==>
            && !env.u.Blank(raw.knowledgeBaseId) && !env.u.Blank(raw.ontologyId)
            && (FollowsActive(env, r, raw) || PinsPublished(env, r, raw))
    ensures Bound(env, r, raw, now).1.Some? ==> Bound(env, r, raw, now).0 == r
  {
    hide Sanitize;
    hide FirstEntry;
    hide Unicode.Trim;
    hide Unicode.Lower;
    SanitizeTrims(env.u, raw.ontologyId);
    SanitizeTrims(env.u, raw.knowledgeBaseId);
    ModesDiffer();
    var key, version := Sanitize(env.u, raw.ontologyId), env.u.Trim(raw.version);
    if key in r.manifests {
      forall meta
        ensures FindVersion(r.manifests[key].versions, version) == Some(meta) <==>
                FirstEntry(r.manifests[key].versions, version, meta)
      {
        FoundIsFirst(r.manifests[key].versions, version, meta);
      }
      hide FindVersion;
      var found := FindVersion(r.manifests[key].versions, version);
      assert found.Some? ==> Listed(env, r, raw.ontologyId, version, found.value);
    }
  }

  /** What a successful request leaves for its knowledge base, and for no other. */
  lemma BindStores(env: Env, r: Registry, raw: Binding, now: int)
    requires Bound(env, r, raw, now).1.None?
    ensures var t, key := Bound(env, r, raw, now).0, Sanitize(env.u, raw.knowledgeBaseId);
            && key in t.bindings && t == r.(bindings := r.bindings[key := t.bindings[key]])
            && var b := t.bindings[key];
            && Sanitize(env.u, b.ontologyId) == Sanitize(env.u, raw.ontologyId)
            && (b.mode == "active" <==> FollowsActive(env, r, raw))
            && (b.mode != "active" ==> PinsPublished(env, r, raw) && b.version == env.u.Trim(raw.version))
  {
    BindSucceedsExactly(env, r, raw, now);
    hide Sanitize;
    hide FirstEntry;
    hide FindVersion;
    hide Unicode.Trim;
    hide Unicode.Lower;
    SanitizeTrims(env.u, raw.ontologyId);
    SanitizeTrims(env.u, raw.knowledgeBaseId);
    ModesDiffer();
  }

  // ---------- Bindings over runs ----------

  /** No operation of the run succeeds in binding the knowledge base again. */
  ghost predicate NotRebound(env: Env, r: Registry, ops: seq<Operation>, key: string) {
    forall i :: 0 <= i < |ops| && ops[i].BindKnowledgeBase? ==>
      Sanitize(env.u, ops[i].binding.knowledgeBaseId) == key ==>
        Bound(env, Run(env, r, ops[..i]), ops[i].binding, ops[i].now).1.Some?
  }

  lemma OtherBindingsStay(env: Env, r: Registry, op: Operation, key: string)
    requires key in r.bindings
    requires op.BindKnowledgeBase? && Sanitize(env.u, op.binding.knowledgeBaseId) == key ==>
               Bound(env, r, op.binding, op.now).1.Some?
    ensures key in After(env, r, op).bindings && After(env, r, op).bindings[key] == r.bindings[key]
  {
    hide Sanitize;
    hide GetVersion;
    hide Conformant;
    hide FirstEntry;
    if op.BindKnowledgeBase? {
      BindSucceedsExactly(env, r, op.binding, op.now);
      if Bound(env, r, op.binding, op.now).1.None? {
        BindStores(env, r, op.binding, op.now);
      }
      hide Bound;
    }
  }

  lemma {:induction false} BindingStands(env: Env, r: Registry, ops: seq<Operation>, key: string)
    requires key in r.bindings && NotRebound(env, r, ops, key)
    ensures key in Run(env, r, ops).bindings && Run(env, r, ops).bindings[key] == r.bindings[key]
  {
    hide After;
    hide Bound;
    hide Sanitize;
    if ops != [] {
      var init := ops[..|ops| - 1];
      assert forall i :: 0 <= i < |init| ==> init[..i] == ops[..i] && init[i] == ops[i];
      BindingStands(env, r, init, key);
      OtherBindingsStay(env, Run(env, r, init), ops[|ops| - 1], key);
    }
  }

  /** The knowledge base resolves to this content, under an entry that is published. */
  ghost predicate ResolvesTo(env: Env, r: Registry, knowledgeBaseId: string, o: Ontology, meta: Meta) {
    var got := Resolved(env, r, knowledgeBaseId);
    got.Success? && got.value.ontology == o && got.value.version == meta && meta.published
  }

  lemma BoundResolves(env: Env, r: Registry, knowledgeBaseId: string, ontologyId: string, version: string)
    requires RegistryInv(env, r) && Sanitize(env.u, knowledgeBaseId) in r.bindings
    requires var b := r.bindings[Sanitize(env.u, knowledgeBaseId)];
             && Sanitize(env.u, b.ontologyId) == Sanitize(env.u, ontologyId)
             && Sanitize(env.u, ontologyId) in r.manifests
             && version == BoundVersion(env, r, b)
    ensures exists o, meta :: Stored(env, r, ontologyId, version, o) && Listed(env, r, ontologyId, version, meta)
                              && ResolvesTo(env, r, knowledgeBaseId, o, meta)
  {
    hide Resolved;
    hide Sanitize;
    hide RegistryInv;
    hide FirstEntry;
    hide FindVersion;
    hide Publishable;
    BindingResolves(env, r, knowledgeBaseId);
    var got := Resolved(env, r, knowledgeBaseId).value;
    FoundIsFirst(r.manifests[Sanitize(env.u, ontologyId)].versions, version, got.version);
    assert Stored(env, r, ontologyId, version, got.ontology) && Listed(env, r, ontologyId, version, got.version);
    assert ResolvesTo(env, r, knowledgeBaseId, got.ontology, got.version);
  }

  /**
   A knowledge base bound to a pinned version resolves, until it is bound again, to the content that the
   requested version of the requested ontology had at the request, and to its registration.
   */
  lemma PinnedStaysPut(env: Env, before: seq<Operation>, raw: Binding, now: int, later: seq<Operation>)
    requires Bound(env, Run(env, Empty, before), raw, now).1.None?
    requires env.u.Lower(env.u.Trim(raw.mode)) == "pinned"
    requires NotRebound(env, Bound(env, Run(env, Empty, before), raw, now).0, later,
                        Sanitize(env.u, raw.knowledgeBaseId))
    ensures var r := Run(env, Empty, before);
            var t := Run(env, Bound(env, r, raw, now).0, later);
            var version := env.u.Trim(raw.version);
            exists o, first, meta ::
              && Stored(env, r, raw.ontologyId, version, o) && Listed(env, r, raw.ontologyId, version, first)
              && ResolvesTo(env, t, raw.knowledgeBaseId, o, meta) && Registration(meta) == Registration(first)
  {
    hide *;
    ModesDiffer();
    var r := Run(env, Empty, before);
    var s := Bound(env, r, raw, now).0;
    var t := Run(env, s, later);
    var key, at := Sanitize(env.u, raw.knowledgeBaseId), Sanitize(env.u, raw.ontologyId);
    var version := env.u.Trim(raw.version);
    EmptyMeetsInv(env);
    RunKeeps(env, Empty, before);
    BindKeeps(env, r, raw, now);
    RunKeeps(env, s, later);
    BindStores(env, r, raw, now);
    NotActive(env, r, raw);
    BindingStands(env, s, later, key);
    var first := PinnedEntry(env, r, raw);
    FoundIsFirst(s.manifests[at].versions, version, first);
    SameVersionSamePayload(env, s, t, at, version);
    PinnedVersion(env, t, t.bindings[key]);
    BoundResolves(env, t, raw.knowledgeBaseId, raw.ontologyId, version);
    var o, meta :| Stored(env, t, raw.ontologyId, version, o) && Listed(env, t, raw.ontologyId, version, meta)
                   && ResolvesTo(env, t, raw.knowledgeBaseId, o, meta);
    ListedIsFound(env, t, raw.ontologyId, version, meta);
    SameStored(env, r, t, raw.ontologyId, version, o);
  }

  lemma NotActive(env: Env, r: Registry, raw: Binding)
    requires env.u.Lower(env.u.Trim(raw.mode)) == "pinned"
    ensures !FollowsActive(env, r, raw)
  {
    ModesDiffer();
  }

  lemma PinnedEntry(env: Env, r: Registry, raw: Binding) returns (first: Meta)
    requires PinsPublished(env, r, raw)
    ensures Listed(env, r, raw.ontologyId, env.u.Trim(raw.version), first)
    ensures var at := Sanitize(env.u, raw.ontologyId);
            at in r.manifests && FirstEntry(r.manifests[at].versions, env.u.Trim(raw.version), first)
  {
    hide FirstEntry;
    first :| Listed(env, r, raw.ontologyId, env.u.Trim(raw.version), first);
  }

  lemma PinnedVersion(env: Env, r: Registry, b: Binding)
    requires b.mode != "active" && Sanitize(env.u, b.ontologyId) in r.manifests
    ensures BoundVersion(env, r, b) == b.version
  {
  }

  lemma ListedIsFound(env: Env, r: Registry, ontologyId: string, version: string, meta: Meta)
    requires Listed(env, r, ontologyId, version, meta)
    ensures FindVersion(r.manifests[Sanitize(env.u, ontologyId)].versions, version) == Some(meta)
  {
    hide FirstEntry;
    FoundIsFirst(r.manifests[Sanitize(env.u, ontologyId)].versions, version, meta);
  }

  lemma SameStored(env: Env, r: Registry, t: Registry, ontologyId: string, version: string, o: Ontology)
    requires var path := (Sanitize(env.u, ontologyId), Sanitize(env.u, version));
             path in r.payloads && path in t.payloads && r.payloads[path] == t.payloads[path]
    requires Stored(env, t, ontologyId, version, o)
    ensures Stored(env, r, ontologyId, version, o)
  {
  }

  /**
   A knowledge base bound to the active version resolves, until it is bound again, to the version that is
   active for the requested ontology at the time, with the content and entry this version has then.
   */
  lemma ActiveIsFollowed(env: Env, before: seq<Operation>, raw: Binding, now: int, later: seq<Operation>)
    requires Bound(env, Run(env, Empty, before), raw, now).1.None?
    requires env.u.Lower(env.u.Trim(raw.mode)) == "active"
    requires NotRebound(env, Bound(env, Run(env, Empty, before), raw, now).0, later,
                        Sanitize(env.u, raw.knowledgeBaseId))
    ensures var t := Run(env, Bound(env, Run(env, Empty, before), raw, now).0, later);
            var at := Sanitize(env.u, raw.ontologyId);
            && at in t.manifests
            && var version := t.manifests[at].activeVersion;
            && version != ""
            && exists o, meta :: Stored(env, t, raw.ontologyId, version, o)
                                 && Listed(env, t, raw.ontologyId, version, meta)
                                 && ResolvesTo(env, t, raw.knowledgeBaseId, o, meta)
  {
    hide *;
    var r := Run(env, Empty, before);
    var s := Bound(env, r, raw, now).0;
    var t := Run(env, s, later);
    var key, at := Sanitize(env.u, raw.knowledgeBaseId), Sanitize(env.u, raw.ontologyId);
    EmptyMeetsInv(env);
    RunKeeps(env, Empty, before);
    BindKeeps(env, r, raw, now);
    RunKeeps(env, s, later);
    BindStores(env, r, raw, now);
    OnlyFollows(env, r, raw, now);
    BindingStands(env, s, later, key);
    ActiveVersionNamed(env, t, key);
    ActiveVersionMeant(env, t, t.bindings[key]);
    BoundResolves(env, t, raw.knowledgeBaseId, raw.ontologyId, t.manifests[at].activeVersion);
  }

  lemma OnlyFollows(env: Env, r: Registry, raw: Binding, now: int)
    requires Bound(env, r, raw, now).1.None? && env.u.Lower(env.u.Trim(raw.mode)) == "active"
    ensures FollowsActive(env, r, raw)
  {
    ModesDiffer();
    BindSucceedsExactly(env, r, raw, now);
    hide Bound;
    hide Listed;
  }

  lemma ActiveVersionNamed(env: Env, r: Registry, key: string)
    requires RegistryInv(env, r) && key in r.bindings && r.bindings[key].mode == "active"
    ensures var at := Sanitize(env.u, r.bindings[key].ontologyId);
            at in r.manifests && r.manifests[at].activeVersion != ""
  {
    hide Sanitize;
    hide ManifestInv;
    assert BindingInv(env, r, r.bindings[key]);
  }

  lemma ActiveVersionMeant(env: Env, r: Registry, b: Binding)
    requires b.mode == "active" && Sanitize(env.u, b.ontologyId) in r.manifests
    ensures BoundVersion(env, r, b) == r.manifests[Sanitize(env.u, b.ontologyId)].activeVersion
  {
  }

  // ---------- Which version is active ----------

  /** Every high-risk item of the review queue is approved, and so is the ontology, which has no faults. */
  predicate Cleared(o: Ontology) {
    && o.status == Approved && Conformant(o)
    && forall item :: item in o.reviewQueue && item.risk == "high" ==> item.status == "approved"
  }

  lemma PublishableWhenCleared(o: Ontology)
    ensures Publishable(o) <==> Cleared(o)
  {
    hide Conformant;
    if Publishable(o) {
      forall item | item in o.reviewQueue && item.risk == "high"
        ensures item.status == "approved"
      {
        var i :| 0 <= i < |o.reviewQueue| && o.reviewQueue[i] == item;
      }
    } else if Cleared(o) {
      forall i | 0 <= i < |o.reviewQueue| && o.reviewQueue[i].risk == "high"
        ensures o.reviewQueue[i].status == "approved"
      {
        assert o.reviewQueue[i] in o.reviewQueue;
      }
    }
  }

  /**
   Publishing succeeds exactly for a listed version whose content is cleared. It answers with the version's
   entry, stamped with the time and the actor, and makes the version active.
   */
  lemma PublishSucceedsExactly(env: Env, r: Registry, id: string, version: string, actor: string, now: int)
    requires RegistryInv(env, r)
    ensures var (t, answer) := Published(env, r, id, version, actor, now);
            var key := Sanitize(env.u, id);
            && (answer.Success? <==>
                  exists meta, o :: Listed(env, r, id, version, meta) && Stored(env, r, id, version, o) && Cleared(o))
            && (answer.Failure? ==> t == r)
            && (answer.Success? ==>
                  && key in t.manifests && t.manifests[key].activeVersion == version
                  && t == r.(manifests := r.manifests[key := t.manifests[key]])
                  && exists meta :: Listed(env, r, id, version, meta)
                       && answer.value == meta.(published := true, publishedAt := Some(now),
                                                publishedBy := env.u.Trim(actor))
                       && Listed(env, t, id, version, answer.value))
  {
    hide Sanitize;
    hide Conformant;
    hide Cleared;
    hide FirstEntry;
    hide Publishable;
    hide FindVersion;
    hide Released;
    var key, path := Sanitize(env.u, id), (Sanitize(env.u, id), Sanitize(env.u, version));
    var (t, answer) := Published(env, r, id, version, actor, now);
    if key in r.manifests {
      var versions := r.manifests[key].versions;
      assert ManifestInv(env, r.payloads, key, r.manifests[key]);
      forall meta
        ensures FindVersion(versions, version) == Some(meta) <==> FirstEntry(versions, version, meta)
      {
        FoundIsFirst(versions, version, meta);
      }
      if FindVersion(versions, version).Some? {
        var meta := FindVersion(versions, version).value;
        var i := FindVersionIn(versions, version);
        assert VersionInv(env, r.payloads, key, versions[i]);
        var o := r.payloads[path];
        PublishableWhenCleared(o);
        ReleasedIsFirst(versions, version, env.u.Trim(actor), now);
        assert Listed(env, r, id, version, meta) && Stored(env, r, id, version, o);
        if answer.Success? {
          FoundIsFirst(t.manifests[key].versions, version, answer.value);
          assert answer.value == meta.(published := true, publishedAt := Some(now), publishedBy := env.u.Trim(actor));
          assert t == r.(manifests := r.manifests[key := t.manifests[key]]);
          assert Listed(env, t, id, version, answer.value);
        }
      }
    }
  }

  lemma ReleasedIsFirst(versions: seq<Meta>, version: string, actor: string, now: int)
    requires FindVersion(versions, version).Some?
    ensures var meta := FindVersion(versions, version).value;
            FindVersion(Released(versions, version, actor, now), version)
            == Some(meta.(published := true, publishedAt := Some(now), publishedBy := actor))
  {
    var n := FirstPlace(versions, version);
    FoundAt(versions, version, actor, now, n);
  }

  lemma {:induction false} FirstPlace(versions: seq<Meta>, version: string) returns (n: nat)
    requires FindVersion(versions, version).Some?
    ensures n < |versions| && versions[n].version == version
    ensures forall i :: 0 <= i < n ==> versions[i].version != version
  {
    if versions[0].version == version {
      n := 0;
    } else {
      n := FirstPlace(versions[1..], version);
      forall i | 0 <= i < n + 1
        ensures versions[i].version != version
      {
        assert i > 0 ==> versions[i] == versions[1..][i - 1];
      }
      n := n + 1;
    }
  }

  /** Activating succeeds exactly for a published version, and changes nothing but which version is active. */
  lemma ActivateSucceedsExactly(env: Env, r: Registry, id: string, version: string, now: int)
    requires RegistryInv(env, r)
    ensures var (t, error) := Activated(env, r, id, version, now);
            var key := Sanitize(env.u, id);
            && (error.None? <==> exists meta :: Listed(env, r, id, version, meta) && meta.published)
            && (error.Some? ==> t == r)
            && (error.None? ==>
                  && key in r.manifests
                  && var m := r.manifests[key].(activeVersion := version, updatedAt := now);
                     t == r.(manifests := r.manifests[key := m]))
  {
    hide Sanitize;
    hide FirstEntry;
    hide FindVersion;
    var key := Sanitize(env.u, id);
    if key in r.manifests {
      var versions := r.manifests[key].versions;
      assert ManifestInv(env, r.payloads, key, r.manifests[key]);
      forall meta
        ensures FindVersion(versions, version) == Some(meta) <==> FirstEntry(versions, version, meta)
      {
        FoundIsFirst(versions, version, meta);
      }
      var found := FindVersion(versions, version);
      assert found.Some? ==> Listed(env, r, id, version, found.value);
    }
  }

  /** The operation makes the version active for the ontology kept under the key. */
  predicate Releases(env: Env, r: Registry, op: Operation, key: string) {
    match op
    case Publish(id, version, actor, now) =>
      Sanitize(env.u, id) == key && Published(env, r, id, version, actor, now).1.Success?
    case Activate(id, version, now) => Sanitize(env.u, id) == key && Activated(env, r, id, version, now).1.None?
    case _ => false
  }

  /** The version of the last publication or activation that succeeded, or "" if there was none. */
  function LastReleased(env: Env, ops: seq<Operation>, key: string): string {
    if ops == [] then ""
    else
      var init, op := ops[..|ops| - 1], ops[|ops| - 1];
      if Releases(env, Run(env, Empty, init), op, key) then op.version else LastReleased(env, init, key)
  }

  lemma ActiveAfter(env: Env, r: Registry, op: Operation, key: string)
    requires RegistryInv(env, r)
    ensures var t := After(env, r, op);
            var active := if key in r.manifests then r.manifests[key].activeVersion else "";
            (if key in t.manifests then t.manifests[key].activeVersion else "")
            == if Releases(env, r, op, key) then op.version else active
  {
    hide Sanitize;
    hide RegistryInv;
    hide Conformant;
    hide Cleared;
    hide Listed;
    match op
    case Publish(id, version, actor, now) =>
      PublishSucceedsExactly(env, r, id, version, actor, now);
      hide Published;
    case Activate(id, version, now) =>
      ActivateSucceedsExactly(env, r, id, version, now);
      hide Activated;
    case BindKnowledgeBase(binding, now) =>
      BindSucceedsExactly(env, r, binding, now);
      if Bound(env, r, binding, now).1.None? {
        BindStores(env, r, binding, now);
      }
      hide Bound;
    case RegisterVersion(o, actor, notes, now) =>
      RegistrationKeepsActive(env, r, o, actor, notes, now, key);
  }

  lemma RegistrationKeepsActive(env: Env, r: Registry, o: Ontology, actor: string, notes: string, now: int, key: string)
    requires RegistryInv(env, r)
    ensures var t := Registered(env, r, o, actor, notes, now).0;
            (if key in t.manifests then t.manifests[key].activeVersion else "")
            == if key in r.manifests then r.manifests[key].activeVersion else ""
  {
    hide Sanitize;
    hide Conformant;
    hide Sort;
    var at := Sanitize(env.u, o.id);
    assert at in r.manifests ==> ManifestInv(env, r.payloads, at, r.manifests[at]);
  }

  /** Over every run, the active version of an ontology is the one last published or activated. */
  lemma {:induction false} ActiveIsLastReleased(env: Env, ops: seq<Operation>, key: string)
    ensures var r := Run(env, Empty, ops);
            (if key in r.manifests then r.manifests[key].activeVersion else "") == LastReleased(env, ops, key)
  {
    hide After;
    hide Releases;
    hide RegistryInv;
    if ops != [] {
      var init := ops[..|ops| - 1];
      ActiveIsLastReleased(env, init, key);
      EmptyMeetsInv(env);
      RunKeeps(env, Empty, init);
      ActiveAfter(env, Run(env, Empty, init), ops[|ops| - 1], key);
    }
  }

  // ---------- Registrations ----------

  /**
   A version is registered exactly when it is named, belongs to a named ontology and domain, has no faults,
   is not there yet, and agrees with the domain of the ontology; it then reads back as it was given.
   */
  lemma RegisterSucceedsExactly(env: Env, r: Registry, o: Ontology, actor: string, notes: string, now: int)
    requires RegistryInv(env, r)
    ensures var (t, answer) := Registered(env, r, o, actor, notes, now);
            var key := Sanitize(env.u, o.id);
            && (answer.Success? <==>
                  && !env.u.Blank(o.id) && !env.u.Blank(o.domain) && !env.u.Blank(o.version) && Conformant(o)
                  && (forall any :: !Stored(env, r, o.id, o.version, any))
                  && (key in r.manifests ==> r.manifests[key].domain == o.domain))
            && (answer.Success? ==>
                  && Stored(env, t, o.id, o.version, o) && Listed(env, t, o.id, o.version, answer.value)
                  && answer.value == Meta(o.id, o.domain, o.version, false, env.digest(o), now, env.u.Trim(actor), None,
                                          "", env.u.Trim(o.parentVersion), env.u.Trim(notes)))
  {
    hide Sanitize;
    hide Conformant;
    hide FirstEntry;
    hide VersionInv;
    hide ManifestKept;
    hide Sort;
    var (t, answer) := Registered(env, r, o, actor, notes, now);
    var key, path := Sanitize(env.u, o.id), (Sanitize(env.u, o.id), Sanitize(env.u, o.version));
    assert path in r.payloads ==> Stored(env, r, o.id, o.version, r.payloads[path]);
    if answer.Success? {
      assert key in r.manifests ==> ManifestInv(env, r.payloads, key, r.manifests[key]);
      ManifestAfterRegistration(env, r, o, actor, notes, now);
      NewEntryIsListed(env, r, t, o, answer.value, key);
    }
  }

  lemma NewEntryIsListed(env: Env, r: Registry, t: Registry, o: Ontology, meta: Meta, key: string)
    requires key in t.manifests && ManifestInv(env, t.payloads, key, t.manifests[key]) && meta.version == o.version
    requires t.manifests[key].versions
          == Sort((if key in r.manifests then r.manifests[key].versions else []) + [meta], CreatedOrder())
    ensures FirstEntry(t.manifests[key].versions, o.version, meta)
  {
    hide Sanitize;
    hide Sort;
    hide VersionInv;
    var versions := (if key in r.manifests then r.manifests[key].versions else []) + [meta];
    SortMembers(versions, CreatedOrder());
    assert versions[|versions| - 1] == meta && meta in versions;
    assert meta in t.manifests[key].versions;
    var i :| 0 <= i < |t.manifests[key].versions| && t.manifests[key].versions[i] == meta;
    FindOwnVersion(env, t.manifests[key].versions, i);
    FoundIsFirst(t.manifests[key].versions, o.version, meta);
  }

  /** Entries of a manifest are listed by age. */
  lemma RegisteredByAge(env: Env, r: Registry, o: Ontology, actor: string, notes: string, now: int)
    requires RegistryInv(env, r) && Registered(env, r, o, actor, notes, now).1.Success?
    ensures var t, key := Registered(env, r, o, actor, notes, now).0, Sanitize(env.u, o.id);
            key in t.manifests
            && forall i, j :: 0 <= i < j < |t.manifests[key].versions| ==>
                 t.manifests[key].versions[i].createdAt <= t.manifests[key].versions[j].createdAt
  {
    hide Sanitize;
    hide Conformant;
    hide VersionInv;
    hide Sort;
    var t, key := Registered(env, r, o, actor, notes, now).0, Sanitize(env.u, o.id);
    assert key in r.manifests ==> ManifestInv(env, r.payloads, key, r.manifests[key]);
    var prior := if key in r.manifests then r.manifests[key].versions else [];
    var more := prior + [NewMeta(env, o, actor, notes, now)];
    SortSorted(more, CreatedOrder());
    var versions := t.manifests[key].versions;
    assert versions == Sort(more, CreatedOrder());
    forall i, j | 0 <= i < j < |versions|
      ensures versions[i].createdAt <= versions[j].createdAt
    {
      assert !CreatedOrder()(versions[j], versions[i]);
    }
  }

  /** A stored name is the trimmed one with slashes and blanks replaced, and "default" for none. */
  lemma StoredNames(u: Unicode, s: string)
    ensures u.Blank(s) ==> Sanitize(u, s) == "default"
    ensures !u.Blank(s) ==>
              && |Sanitize(u, s)| == |u.Trim(s)|
              && forall i :: 0 <= i < |u.Trim(s)| ==>
                   var c := u.Trim(s)[i];
                   Sanitize(u, s)[i] == if c in ['/', '\\', ' '] then '_' else c
  {
    hide Unicode.Trim;
  }
}
