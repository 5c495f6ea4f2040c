/**
 What holds of the registry over every run: bound knowledge bases keep resolving, payloads and
 registrations never change, and activating an earlier version brings its resolution back.
 */
module RegistryInvariants {
  import opened Wrappers
  import opened Text
  import opened Sorting
  import opened OntologyModel
  import opened OntologyRegistry

  // ---------- The invariant ----------

  /** Every entry of a manifest has its payload with the recorded hash, under a key of its own. */
  ghost predicate VersionInv(env: Env, payloads: map<(string, string), Ontology>, key: string, meta: Meta) {
    var path := (key, Sanitize(env.u, meta.version));
    && !env.u.Blank(meta.version)
    && path in payloads && env.digest(payloads[path]) == meta.digest
    && (meta.published ==> Publishable(payloads[path]))
  }

  ghost predicate OwnKeys(env: Env, versions: seq<Meta>) {
    forall i, j :: 0 <= i < j < |versions| ==> Sanitize(env.u, versions[i].version) != Sanitize(env.u,
          versions[j].version)
  }

  ghost predicate PublishedVersion(versions: seq<Meta>, version: string) {
    FindVersion(versions, version).Some? && FindVersion(versions, version).value.published
  }

  ghost predicate ManifestInv(env: Env, payloads: map<(string, string), Ontology>, key: string, m: Manifest) {
    && Sanitize(env.u, m.id) == key
    && OwnKeys(env, m.versions)
    && (forall i :: 0 <= i < |m.versions| ==> VersionInv(env, payloads, key, m.versions[i]))
    && (m.activeVersion != "" ==> PublishedVersion(m.versions, m.activeVersion))
  }

  ghost predicate BindingInv(env: Env, r: Registry, b: Binding) {
    var key := Sanitize(env.u, b.ontologyId);
    && key in r.manifests
    && (b.mode == "active" ==> r.manifests[key].activeVersion != "")
    && (b.mode != "active" ==> b.version != "" && PublishedVersion(r.manifests[key].versions, b.version))
  }

  ghost predicate RegistryInv(env: Env, r: Registry) {
    && (forall key :: key in r.manifests ==> ManifestInv(env, r.payloads, key, r.manifests[key]))
    && (forall key :: key in r.bindings ==> BindingInv(env, r, r.bindings[key]))
  }

  // ---------- What no operation takes back ----------

  /** A registration up to the release fields, which publishing may rewrite. */
  function Registration(m: Meta): Meta {
    m.(published := false, publishedAt := None, publishedBy := "")
  }

  /** The version is still found, as the same registration, and still published if it was. */
  ghost predicate VersionKept(before: seq<Meta>, after: seq<Meta>, version: string) {
    FindVersion(before, version).Some? ==>
      && FindVersion(after, version).Some?
      && Registration(FindVersion(after, version).value) == Registration(FindVersion(before, version).value)
      && (FindVersion(before, version).value.published ==> FindVersion(after, version).value.published)
  }

  ghost predicate ManifestKept(before: Manifest, after: Manifest) {
    && after.id == before.id && after.domain == before.domain
    && (before.activeVersion != "" ==> after.activeVersion != "")
    && (forall version :: VersionKept(before.versions, after.versions, version))
  }

  ghost predicate Kept(r: Registry, t: Registry) {
    && (forall path :: path in r.payloads ==> path in t.payloads && t.payloads[path] == r.payloads[path])
    && (forall key :: key in r.manifests ==> key in t.manifests && ManifestKept(r.manifests[key], t.manifests[key]))
    && (forall key :: key in r.bindings ==> key in t.bindings)
  }

  lemma KeptReflexive(r: Registry)
    ensures Kept(r, r)
  {
  }

  lemma ManifestKeptTransitive(a: Manifest, b: Manifest, c: Manifest)
    requires ManifestKept(a, b) && ManifestKept(b, c)
    ensures ManifestKept(a, c)
  {
    forall version
      ensures VersionKept(a.versions, c.versions, version)
    {
      assert VersionKept(a.versions, b.versions, version) && VersionKept(b.versions, c.versions, version);
    }
  }

  lemma KeptTransitive(r: Registry, s: Registry, t: Registry)
    requires Kept(r, s) && Kept(s, t)
    ensures Kept(r, t)
  {
    hide ManifestKept;
    forall key | key in r.manifests
      ensures key in t.manifests && ManifestKept(r.manifests[key], t.manifests[key])
    {
      ManifestKeptTransitive(r.manifests[key], s.manifests[key], t.manifests[key]);
    }
  }

  // ---------- Version lists ----------

  lemma {:induction false} FindVersionIn(versions: seq<Meta>, version: string) returns (i: nat)
    requires FindVersion(versions, version).Some?
    ensures i < |versions| && versions[i] == FindVersion(versions, version).value && versions[i].version == version
  {
    if versions[0].version == version {
      i := 0;
    } else {
      var j := FindVersionIn(versions[1..], version);
      i := j + 1;
    }
  }

  lemma {:induction false} FindOwnVersion(env: Env, versions: seq<Meta>, i: nat)
    requires OwnKeys(env, versions) && i < |versions|
    ensures FindVersion(versions, versions[i].version) == Some(versions[i])
  {
    if i > 0 {
      assert Sanitize(env.u, versions[0].version) != Sanitize(env.u, versions[i].version);
      FindOwnVersion(env, versions[1..], i - 1);
    }
  }

  /** Rearranging entries with distinct keys and adding more of them loses no version. */
  lemma LargerListKeeps(env: Env, before: seq<Meta>, after: seq<Meta>, version: string)
    requires OwnKeys(env, after) && forall m :: m in before ==> m in after
    ensures VersionKept(before, after, version)
  {
    if FindVersion(before, version).Some? {
      var i := FindVersionIn(before, version);
      assert before[i] in after;
      var j :| 0 <= j < |after| && after[j] == before[i];
      FindOwnVersion(env, after, j);
    }
  }

  lemma {:induction false} ReleasedEntries(versions: seq<Meta>, version: string, actor: string, now: int)
    ensures var after := Released(versions, version, actor, now);
            && |after| == |versions|
            && forall i :: 0 <= i < |after| ==>
                 && Registration(after[i]) == Registration(versions[i])
                 && (versions[i].published ==> after[i].published)
                 && (after[i] != versions[i] ==> versions[i].version == version)
  {
    if versions != [] && versions[0].version != version {
      ReleasedEntries(versions[1..], version, actor, now);
    }
  }

  lemma {:induction false} ReleasedFind(versions: seq<Meta>, version: string, actor: string, now: int, other: string)
    ensures var after := Released(versions, version, actor, now);
            && VersionKept(versions, after, other)
            && (FindVersion(versions, version).Some? ==> PublishedVersion(after, version))
            && (other != version ==> FindVersion(after, other) == FindVersion(versions, other))
  {
    if versions == [] {
    } else if versions[0].version == version {
      assert Released(versions, version, actor, now)[1..] == versions[1..];
    } else {
      ReleasedFind(versions[1..], version, actor, now, other);
      assert Released(versions, version, actor, now)[1..] == Released(versions[1..], version, actor, now);
    }
  }

  // ---------- Each operation keeps the invariant ----------

  /** Replacing one manifest by one that keeps it, with payloads only added, keeps the registry. */
  lemma ReplacingManifest(env: Env, r: Registry, t: Registry, key: string, m: Manifest)
    requires RegistryInv(env, r) && ManifestInv(env, t.payloads, key, m)
    requires t.manifests == r.manifests[key := m] && t.bindings == r.bindings
    requires key in r.manifests ==> ManifestKept(r.manifests[key], m)
    requires forall path :: path in r.payloads ==> path in t.payloads && t.payloads[path] == r.payloads[path]
    ensures RegistryInv(env, t) && Kept(r, t)
  {
    hide Sanitize;
    hide Publishable;
    hide FindVersion;
    forall other | other in t.manifests
      ensures ManifestInv(env, t.payloads, other, t.manifests[other])
    {
      if other != key {
        PayloadsGrow(env, r.payloads, t.payloads, other, r.manifests[other]);
      }
    }
    forall other | other in r.manifests
      ensures ManifestKept(r.manifests[other], t.manifests[other])
    {
    }
    forall b | b in t.bindings
      ensures BindingInv(env, t, t.bindings[b])
    {
      assert BindingInv(env, r, r.bindings[b]);
      var at := Sanitize(env.u, r.bindings[b].ontologyId);
      assert ManifestKept(r.manifests[at], t.manifests[at]);
      assert VersionKept(r.manifests[at].versions, t.manifests[at].versions, r.bindings[b].version);
    }
  }

  lemma PayloadsGrow(env: Env, before: map<(string, string), Ontology>, after: map<(string, string), Ontology>,
                     key: string, m: Manifest)
    requires ManifestInv(env, before, key, m)
    requires forall path :: path in before ==> path in after && after[path] == before[path]
    ensures ManifestInv(env, after, key, m)
  {
    hide Sanitize;
    hide Publishable;
    hide FindVersion;
    forall i | 0 <= i < |m.versions|
      ensures VersionInv(env, after, key, m.versions[i])
    {
      assert VersionInv(env, before, key, m.versions[i]);
    }
  }

  /** A new entry under a fresh key keeps the keys distinct, in whatever order the entries end up. */
  lemma AddedVersionOwnsKey(env: Env, prior: seq<Meta>, meta: Meta)
    requires OwnKeys(env, prior)
    requires forall i :: 0 <= i < |prior| ==> Sanitize(env.u, prior[i].version) != Sanitize(env.u, meta.version)
    ensures OwnKeys(env, Sort(prior + [meta], CreatedOrder()))
  {
    hide Sanitize;
    hide Sort;
    var more := prior + [meta];
    var sorted := Sort(more, CreatedOrder());
    SortMultiset(more, CreatedOrder());
    assert OwnKeys(env, more);
    forall i, j | 0 <= i < j < |sorted|
      ensures Sanitize(env.u, sorted[i].version) != Sanitize(env.u, sorted[j].version)
    {
      var a, b := PermutedPlaces(more, sorted, i, j);
      assert a < b || b < a;
    }
  }

  lemma VersionInvGrows(env: Env, payloads: map<(string, string), Ontology>, grown: map<(string, string), Ontology>,
                        key: string, meta: Meta)
    requires VersionInv(env, payloads, key, meta)
    requires forall path :: path in payloads ==> path in grown && grown[path] == payloads[path]
    ensures VersionInv(env, grown, key, meta) && (key, Sanitize(env.u, meta.version)) in payloads
  {
    hide Sanitize;
    hide Publishable;
  }

  lemma AddedVersions(env: Env, payloads: map<(string, string), Ontology>, key: string, prior: seq<Meta>, meta: Meta,
                      grown: map<(string, string), Ontology>)
    requires OwnKeys(env, prior)
    requires forall i :: 0 <= i < |prior| ==> VersionInv(env, payloads, key, prior[i])
    requires (key, Sanitize(env.u, meta.version)) !in payloads
    requires VersionInv(env, grown, key, meta)
    requires forall path :: path in payloads ==> path in grown && grown[path] == payloads[path]
    ensures var sorted := Sort(prior + [meta], CreatedOrder());
            && OwnKeys(env, sorted)
            && (forall i :: 0 <= i < |sorted| ==> VersionInv(env, grown, key, sorted[i]))
            && (forall m :: m in prior ==> m in sorted)
  {
    hide *;
    forall i | 0 <= i < |prior|
      ensures VersionInv(env, grown, key, prior[i])
      ensures Sanitize(env.u, prior[i].version) != Sanitize(env.u, meta.version)
    {
      VersionInvGrows(env, payloads, grown, key, prior[i]);
    }
    AddedVersionOwnsKey(env, prior, meta);
    SortMembers(prior + [meta], CreatedOrder());
    var sorted := Sort(prior + [meta], CreatedOrder());
    forall i | 0 <= i < |sorted|
      ensures VersionInv(env, grown, key, sorted[i])
    {
      assert sorted[i] in prior + [meta];
    }
  }

  lemma RegisterKeeps(env: Env, r: Registry, o: Ontology, actor: string, notes: string, now: int)
    requires RegistryInv(env, r)
    ensures var t := Registered(env, r, o, actor, notes, now).0;
            RegistryInv(env, t) && Kept(r, t)
  {
    hide Sanitize;
    hide Conformant;
    hide Publishable;
    hide FindVersion;
    hide ManifestInv;
    hide ManifestKept;
    var (t, answer) := Registered(env, r, o, actor, notes, now);
    var key := Sanitize(env.u, o.id);
    if answer.Success? {
      var m := t.manifests[key];
      ManifestAfterRegistration(env, r, o, actor, notes, now);
      ReplacingManifest(env, r, t, key, m);
    } else {
      OnlyPayloadsGrow(env, r, t);
    }
  }

  lemma OnlyPayloadsGrow(env: Env, r: Registry, t: Registry)
    requires RegistryInv(env, r) && t.manifests == r.manifests && t.bindings == r.bindings
    requires forall path :: path in r.payloads ==> path in t.payloads && t.payloads[path] == r.payloads[path]
    ensures RegistryInv(env, t) && Kept(r, t)
  {
    hide ManifestInv;
    hide Sanitize;
    hide FindVersion;
    forall key | key in t.manifests
      ensures ManifestInv(env, t.payloads, key, t.manifests[key])
    {
      PayloadsGrow(env, r.payloads, t.payloads, key, r.manifests[key]);
    }
    forall b | b in t.bindings
      ensures BindingInv(env, t, t.bindings[b])
    {
      assert BindingInv(env, r, r.bindings[b]);
    }
  }

  lemma ManifestAfterRegistration(env: Env, r: Registry, o: Ontology, actor: string, notes: string, now: int)
    requires RegistryInv(env, r) && Registered(env, r, o, actor, notes, now).1.Success?
    ensures var t := Registered(env, r, o, actor, notes, now).0;
            var key := Sanitize(env.u, o.id);
            && key in t.manifests
            && t == Registry(r.manifests[key := t.manifests[key]],
                             r.payloads[(key, Sanitize(env.u, o.version)) := o], r.bindings)
            && (key, Sanitize(env.u, o.version)) !in r.payloads
            && ManifestInv(env, t.payloads, key, t.manifests[key])
            && (key in r.manifests ==> ManifestKept(r.manifests[key], t.manifests[key]))
  {
    hide Sanitize;
    hide Conformant;
    hide Publishable;
    hide FindVersion;
    var t := Registered(env, r, o, actor, notes, now).0;
    var key := Sanitize(env.u, o.id);
    var prior := if key in r.manifests then r.manifests[key] else Manifest(o.id, o.domain, "", [], 0);
    var meta := NewMeta(env, o, actor, notes, now);
    if key in r.manifests {
      assert ManifestInv(env, r.payloads, key, prior);
    }
    AddedVersions(env, r.payloads, key, prior.versions, meta, t.payloads);
    var m := t.manifests[key];
    forall version
      ensures VersionKept(prior.versions, m.versions, version)
    {
      LargerListKeeps(env, prior.versions, m.versions, version);
    }
    assert VersionKept(prior.versions, m.versions, prior.activeVersion);
  }

  lemma PublishKeeps(env: Env, r: Registry, id: string, version: string, actor: string, now: int)
    requires RegistryInv(env, r)
    ensures var t := Published(env, r, id, version, actor, now).0;
            RegistryInv(env, t) && Kept(r, t)
  {
    hide Sanitize;
    hide Publishable;
    hide ManifestInv;
    hide ManifestKept;
    hide Released;
    hide FindVersion;
    var (t, answer) := Published(env, r, id, version, actor, now);
    var got := GetVersion(env, r, id, version);
    if got.Success? && Publishable(got.value.0) {
      var key := Sanitize(env.u, id);
      ManifestAfterRelease(env, r, id, version, actor, now);
      ReplacingManifest(env, r, t, key, t.manifests[key]);
    } else {
      KeptReflexive(r);
    }
  }

  lemma ManifestAfterRelease(env: Env, r: Registry, id: string, version: string, actor: string, now: int)
    requires RegistryInv(env, r)
    requires GetVersion(env, r, id, version).Success? && Publishable(GetVersion(env, r, id, version).value.0)
    ensures var t := Published(env, r, id, version, actor, now).0;
            var key := Sanitize(env.u, id);
            && key in r.manifests && key in t.manifests
            && t == r.(manifests := r.manifests[key := t.manifests[key]])
            && ManifestInv(env, t.payloads, key, t.manifests[key])
            && ManifestKept(r.manifests[key], t.manifests[key])
            && t.manifests[key].activeVersion == version
  {
    hide Sanitize;
    hide Publishable;
    hide Released;
    hide FindVersion;
    var key := Sanitize(env.u, id);
    var prior := r.manifests[key];
    assert ManifestInv(env, r.payloads, key, prior);
    var t := Published(env, r, id, version, actor, now).0;
    var m := t.manifests[key];
    var name := env.u.Trim(actor);
    ReleasedEntries(prior.versions, version, name, now);
    ReleasedFind(prior.versions, version, name, now, version);
    var i := FindVersionIn(prior.versions, version);
    forall j | 0 <= j < |m.versions|
      ensures VersionInv(env, t.payloads, key, m.versions[j])
    {
      assert VersionInv(env, r.payloads, key, prior.versions[j]);
    }
    forall a, b | 0 <= a < b < |m.versions|
      ensures Sanitize(env.u, m.versions[a].version) != Sanitize(env.u, m.versions[b].version)
    {
      assert Registration(m.versions[a]) == Registration(prior.versions[a]);
      assert Registration(m.versions[b]) == Registration(prior.versions[b]);
    }
    forall other
      ensures VersionKept(prior.versions, m.versions, other)
    {
      ReleasedFind(prior.versions, version, name, now, other);
    }
    assert VersionInv(env, r.payloads, key, prior.versions[i]);
    BlankIsEmpty(env.u, version);
  }

  lemma BlankIsEmpty(u: Unicode, s: string)
    ensures s == "" ==> u.Blank(s)
  {
  }

  lemma ActivateKeeps(env: Env, r: Registry, id: string, version: string, now: int)
    requires RegistryInv(env, r)
    ensures var t := Activated(env, r, id, version, now).0;
            RegistryInv(env, t) && Kept(r, t)
  {
    hide Sanitize;
    hide Publishable;
    hide FindVersion;
    var (t, error) := Activated(env, r, id, version, now);
    if error.None? {
      var key := Sanitize(env.u, id);
      var prior := r.manifests[key];
      assert ManifestInv(env, r.payloads, key, prior);
      var i := FindVersionIn(prior.versions, version);
      assert VersionInv(env, r.payloads, key, prior.versions[i]);
      BlankIsEmpty(env.u, version);
      forall other
        ensures VersionKept(prior.versions, prior.versions, other)
      {
      }
      ReplacingManifest(env, r, t, key, t.manifests[key]);
    } else {
      KeptReflexive(r);
    }
  }

  /** A binding that was accepted meets the invariant. */
  lemma NewBindingHolds(env: Env, r: Registry, raw: Binding, now: int)
    requires RegistryInv(env, r) && Bound(env, r, raw, now).1.None?
    ensures var b := Normalized(env, raw, now);
            && Bound(env, r, raw, now).0 == r.(bindings := r.bindings[Sanitize(env.u, b.knowledgeBaseId) := b])
            && BindingInv(env, r, b)
  {
    hide Sanitize;
    hide Publishable;
    hide FindVersion;
    var b := Normalized(env, raw, now);
    var at := Sanitize(env.u, b.ontologyId);
    var prior := r.manifests[at];
    assert ManifestInv(env, r.payloads, at, prior);
    if b.mode != "active" {
      var i := FindVersionIn(prior.versions, b.version);
      assert VersionInv(env, r.payloads, at, prior.versions[i]);
      BlankIsEmpty(env.u, prior.versions[i].version);
    }
  }

  lemma BindKeeps(env: Env, r: Registry, b: Binding, now: int)
    requires RegistryInv(env, r)
    ensures var t := Bound(env, r, b, now).0;
            RegistryInv(env, t) && Kept(r, t)
  {
    hide Sanitize;
    hide ManifestInv;
    hide ManifestKept;
    hide FindVersion;
    var (t, error) := Bound(env, r, b, now);
    forall key | key in r.manifests
      ensures ManifestKept(r.manifests[key], r.manifests[key])
    {
      SameManifestKept(r.manifests[key]);
    }
    if error.None? {
      NewBindingHolds(env, r, b, now);
    }
    forall key | key in t.bindings
      ensures BindingInv(env, t, t.bindings[key])
    {
      assert key in r.bindings ==> BindingInv(env, r, r.bindings[key]);
    }
  }

  lemma SameManifestKept(m: Manifest)
    ensures ManifestKept(m, m)
  {
  }

  // ---------- Runs ----------

  datatype Operation =
    | RegisterVersion(o: Ontology, actor: string, notes: string, now: int)
    | Publish(id: string, version: string, actor: string, now: int)
    | Activate(id: string, version: string, now: int)
    | BindKnowledgeBase(binding: Binding, now: int)

  function After(env: Env, r: Registry, op: Operation): Registry {
    match op
    case RegisterVersion(o, actor, notes, now) => Registered(env, r, o, actor, notes, now).0
    case Publish(id, version, actor, now) => Published(env, r, id, version, actor, now).0
    case Activate(id, version, now) => Activated(env, r, id, version, now).0
    case BindKnowledgeBase(binding, now) => Bound(env, r, binding, now).0
  }

  function Run(env: Env, r: Registry, ops: seq<Operation>): Registry {
    if ops == [] then r else After(env, Run(env, r, ops[..|ops| - 1]), ops[|ops| - 1])
  }

  lemma AfterKeeps(env: Env, r: Registry, op: Operation)
    requires RegistryInv(env, r)
    ensures RegistryInv(env, After(env, r, op)) && Kept(r, After(env, r, op))
  {
    hide RegistryInv;
    hide Kept;
    hide Registered;
    hide Published;
    hide Activated;
    hide Bound;
    match op
    case RegisterVersion(o, actor, notes, now) => RegisterKeeps(env, r, o, actor, notes, now);
    case Publish(id, version, actor, now) => PublishKeeps(env, r, id, version, actor, now);
    case Activate(id, version, now) => ActivateKeeps(env, r, id, version, now);
    case BindKnowledgeBase(binding, now) => BindKeeps(env, r, binding, now);
  }

  /** The invariant holds after every run, and a run takes back no payload, registration or binding. */
  lemma {:induction false} RunKeeps(env: Env, r: Registry, ops: seq<Operation>)
    requires RegistryInv(env, r)
    ensures RegistryInv(env, Run(env, r, ops)) && Kept(r, Run(env, r, ops))
  {
    hide RegistryInv;
    hide Kept;
    hide After;
    if ops == [] {
      KeptReflexive(r);
    } else {
      var s := Run(env, r, ops[..|ops| - 1]);
      RunKeeps(env, r, ops[..|ops| - 1]);
      AfterKeeps(env, s, ops[|ops| - 1]);
      KeptTransitive(r, s, Run(env, r, ops));
    }
  }

  lemma EmptyMeetsInv(env: Env)
    ensures RegistryInv(env, Empty)
  {
  }

  // ---------- Resolution ----------

  lemma FoundVersionResolves(env: Env, r: Registry, id: string, version: string)
    requires RegistryInv(env, r) && Sanitize(env.u, id) in r.manifests
    requires PublishedVersion(r.manifests[Sanitize(env.u, id)].versions, version)
    ensures var got := GetVersion(env, r, id, version);
            && got.Success? && got.value.1 == FindVersion(r.manifests[Sanitize(env.u, id)].versions, version).value
            && (Sanitize(env.u, id), Sanitize(env.u, version)) in r.payloads
            && got.value.0 == r.payloads[(Sanitize(env.u, id), Sanitize(env.u, version))]
            && Publishable(got.value.0)
  {
    hide Sanitize;
    hide Publishable;
    hide FindVersion;
    var key := Sanitize(env.u, id);
    assert ManifestInv(env, r.payloads, key, r.manifests[key]);
    var i := FindVersionIn(r.manifests[key].versions, version);
    assert VersionInv(env, r.payloads, key, r.manifests[key].versions[i]);
  }

  /** The version a binding stands for in the given state. */
  function BoundVersion(env: Env, r: Registry, b: Binding): string
    requires Sanitize(env.u, b.ontologyId) in r.manifests
  {
    if b.mode == "active" then r.manifests[Sanitize(env.u, b.ontologyId)].activeVersion else b.version
  }

  lemma BindingResolves(env: Env, r: Registry, knowledgeBaseId: string)
    requires RegistryInv(env, r) && Sanitize(env.u, knowledgeBaseId) in r.bindings
    ensures var b := r.bindings[Sanitize(env.u, knowledgeBaseId)];
            var key := Sanitize(env.u, b.ontologyId);
            var got := Resolved(env, r, knowledgeBaseId);
            && got.Success? && got.value.binding == b
            && key in r.manifests
            && var version := BoundVersion(env, r, b);
            && FindVersion(r.manifests[key].versions, version) == Some(got.value.version)
            && (key, Sanitize(env.u, version)) in r.payloads
            && got.value.ontology == r.payloads[(key, Sanitize(env.u, version))]
            && got.value.version.published && Publishable(got.value.ontology)
  {
    hide Sanitize;
    hide Publishable;
    hide FindVersion;
    hide GetVersion;
    var b := r.bindings[Sanitize(env.u, knowledgeBaseId)];
    assert BindingInv(env, r, b);
    var key := Sanitize(env.u, b.ontologyId);
    assert ManifestInv(env, r.payloads, key, r.manifests[key]);
    FoundVersionResolves(env, r, b.ontologyId, BoundVersion(env, r, b));
  }

  /**
   Once a binding has succeeded, the knowledge base resolves in every later state, to a published,
   approved, well-formed ontology without an unapproved high-risk review item.
   */
  lemma BoundKnowledgeBaseAlwaysResolves(env: Env, before: seq<Operation>, binding: Binding, now: int,
                                         later: seq<Operation>)
    requires Bound(env, Run(env, Empty, before), binding, now).1.None?
    ensures var r := Run(env, Bound(env, Run(env, Empty, before), binding, now).0, later);
            var got := Resolved(env, r, binding.knowledgeBaseId);
            && got.Success? && got.value.version.published
            && got.value.ontology.status == Approved && Conformant(got.value.ontology)
            && forall i :: 0 <= i < |got.value.ontology.reviewQueue| ==>
                 got.value.ontology.reviewQueue[i].risk == "high" ==>
                   got.value.ontology.reviewQueue[i].status == "approved"
  {
    hide Sanitize;
    hide RegistryInv;
    hide Resolved;
    hide Conformant;
    hide Bound;
    var s := Run(env, Empty, before);
    var r := Bound(env, s, binding, now).0;
    EmptyMeetsInv(env);
    RunKeeps(env, Empty, before);
    BindKeeps(env, s, binding, now);
    BindStoresBinding(env, s, binding, now);
    RunKeeps(env, r, later);
    BindingResolves(env, Run(env, r, later), binding.knowledgeBaseId);
  }

  lemma BindStoresBinding(env: Env, r: Registry, binding: Binding, now: int)
    requires Bound(env, r, binding, now).1.None?
    ensures Sanitize(env.u, binding.knowledgeBaseId) in Bound(env, r, binding, now).0.bindings
  {
    TrimIdempotent(env.u, binding.knowledgeBaseId);
  }

  // ---------- Replay ----------

  /** Two states in which a version of one ontology names the same payload and registration. */
  lemma SameVersionSamePayload(env: Env, r: Registry, t: Registry, key: string, version: string)
    requires RegistryInv(env, r) && Kept(r, t) && key in r.manifests
    requires FindVersion(r.manifests[key].versions, version).Some?
    ensures var path := (key, Sanitize(env.u, version));
            && key in t.manifests && path in r.payloads && path in t.payloads
            && t.payloads[path] == r.payloads[path]
            && FindVersion(t.manifests[key].versions, version).Some?
            && Registration(FindVersion(t.manifests[key].versions, version).value)
               == Registration(FindVersion(r.manifests[key].versions, version).value)
  {
    hide Sanitize;
    hide Publishable;
    hide FindVersion;
    assert ManifestInv(env, r.payloads, key, r.manifests[key]);
    var i := FindVersionIn(r.manifests[key].versions, version);
    assert VersionInv(env, r.payloads, key, r.manifests[key].versions[i]);
    assert VersionKept(r.manifests[key].versions, t.manifests[key].versions, version);
  }

  /**
   A binding that stands for one version in two states of a run resolves to the same payload and the same
   registration in both. A pinned binding is the special case of a binding that was not replaced.
   */
  lemma SameVersionSameResolution(env: Env, r: Registry, ops: seq<Operation>, knowledgeBaseId: string)
    requires RegistryInv(env, r) && Sanitize(env.u, knowledgeBaseId) in r.bindings
    requires var t := Run(env, r, ops);
             var key := Sanitize(env.u, knowledgeBaseId);
             && key in t.bindings && t.bindings[key] == r.bindings[key]
             && (r.bindings[key].mode == "active" ==>
                   var at := Sanitize(env.u, r.bindings[key].ontologyId);
                   at in r.manifests && at in t.manifests && t.manifests[at].activeVersion
                       == r.manifests[at].activeVersion)
    ensures var first, second := Resolved(env, r, knowledgeBaseId), Resolved(env, Run(env, r, ops), knowledgeBaseId);
            && first.Success? && second.Success?
            && second.value.ontology == first.value.ontology
            && Registration(second.value.version) == Registration(first.value.version)
            && second.value.binding == first.value.binding
  {
    hide Sanitize;
    hide RegistryInv;
    hide Resolved;
    hide FindVersion;
    hide Publishable;
    hide Run;
    hide Kept;
    var t := Run(env, r, ops);
    RunKeeps(env, r, ops);
    BindingResolves(env, r, knowledgeBaseId);
    BindingResolves(env, t, knowledgeBaseId);
    var b := r.bindings[Sanitize(env.u, knowledgeBaseId)];
    SameVersionSamePayload(env, r, t, Sanitize(env.u, b.ontologyId), BoundVersion(env, r, b));
  }

  /** Activating the version that was active before restores what every unreplaced binding resolved to. */
  lemma ReactivationRestoresResolution(env: Env, r: Registry, ops: seq<Operation>, id: string, now: int,
                                       knowledgeBaseId: string)
    requires RegistryInv(env, r)
    requires Sanitize(env.u, id) in r.manifests && r.manifests[Sanitize(env.u, id)].activeVersion != ""
    requires var key := Sanitize(env.u, knowledgeBaseId);
             && key in r.bindings && Sanitize(env.u, r.bindings[key].ontologyId) == Sanitize(env.u, id)
             && key in Run(env, r, ops).bindings && Run(env, r, ops).bindings[key] == r.bindings[key]
    ensures var version := r.manifests[Sanitize(env.u, id)].activeVersion;
            var (t, error) := Activated(env, Run(env, r, ops), id, version, now);
            && error.None?
            && var first, again := Resolved(env, r, knowledgeBaseId), Resolved(env, t, knowledgeBaseId);
            && first.Success? && again.Success?
            && again.value.ontology == first.value.ontology
            && Registration(again.value.version) == Registration(first.value.version)
            && again.value.binding == first.value.binding
  {
    hide Sanitize;
    hide Resolved;
    hide Publishable;
    hide Kept;
    var key := Sanitize(env.u, id);
    var version := r.manifests[key].activeVersion;
    var activate := Activate(id, version, now);
    var more := ops + [activate];
    assert more[..|ops|] == ops;
    ActiveVersionStaysPublished(env, r, ops, key);
    SameVersionSameResolution(env, r, more, knowledgeBaseId);
  }

  lemma ActiveVersionStaysPublished(env: Env, r: Registry, ops: seq<Operation>, key: string)
    requires RegistryInv(env, r) && key in r.manifests && r.manifests[key].activeVersion != ""
    ensures var t := Run(env, r, ops);
            && key in t.manifests && PublishedVersion(t.manifests[key].versions, r.manifests[key].activeVersion)
            && Sanitize(env.u, t.manifests[key].id) == key
  {
    hide Sanitize;
    hide FindVersion;
    hide VersionInv;
    hide Run;
    var t := Run(env, r, ops);
    RunKeeps(env, r, ops);
    assert ManifestInv(env, r.payloads, key, r.manifests[key]);
    assert ManifestInv(env, t.payloads, key, t.manifests[key]);
    assert VersionKept(r.manifests[key].versions, t.manifests[key].versions, r.manifests[key].activeVersion);
  }

  // ---------- Refused registrations ----------

  /** The ontology is complete and well formed, its version is free, and its id is registered under another domain. */
  predicate ForeignDomain(env: Env, r: Registry, o: Ontology) {
    var key := Sanitize(env.u, o.id);
    && !env.u.Blank(o.id) && !env.u.Blank(o.domain) && !env.u.Blank(o.version) && Conformant(o)
    && (key, Sanitize(env.u, o.version)) !in r.payloads
    && key in r.manifests && r.manifests[key].domain != o.domain
  }

  /** A failed registration is without effect except exactly under a foreign domain, where it leaves its payload. */
  lemma FailedRegistrationExactly(env: Env, r: Registry, o: Ontology, actor: string, notes: string, now: int)
    ensures var (t, answer) := Registered(env, r, o, actor, notes, now);
            && (answer.Failure? && t != r <==> ForeignDomain(env, r, o))
            && (answer.Failure? ==> t.manifests == r.manifests && t.bindings == r.bindings)
            && (ForeignDomain(env, r, o) ==>
                  t.payloads == r.payloads[(Sanitize(env.u, o.id), Sanitize(env.u, o.version)) := o])
  {
    hide Sanitize;
    hide Conformant;
    var t := Registered(env, r, o, actor, notes, now).0;
    var path := (Sanitize(env.u, o.id), Sanitize(env.u, o.version));
    assert t != r ==> path in t.payloads && path !in r.payloads;
  }

  /** The payload left behind blocks the version for good: nothing can ever be registered under its name. */
  lemma RefusedRegistrationOccupiesVersion(env: Env, r: Registry, o: Ontology, actor: string, notes: string,
                                           now: int, later: seq<Operation>, p: Ontology, other: string, comment: string,
                                           at: int)
    requires RegistryInv(env, r) && ForeignDomain(env, r, o)
    requires Sanitize(env.u, p.id) == Sanitize(env.u, o.id) && Sanitize(env.u, p.version) == Sanitize(env.u, o.version)
    ensures var t := Run(env, Registered(env, r, o, actor, notes, now).0, later);
            var (after, answer) := Registered(env, t, p, other, comment, at);
            after == t && answer.Failure? && (answer.error == AlreadyExists || answer.error == Invalid)
  {
    hide Sanitize;
    hide Conformant;
    hide RegistryInv;
    hide Run;
    hide ManifestKept;
    var t := Registered(env, r, o, actor, notes, now).0;
    FailedRegistrationExactly(env, r, o, actor, notes, now);
    RegisterKeeps(env, r, o, actor, notes, now);
    RunKeeps(env, t, later);
    var path := (Sanitize(env.u, o.id), Sanitize(env.u, o.version));
    assert path in t.payloads;
  }

  function Bare(id: string, domain: string, version: string): Ontology {
    Ontology(id, domain, version, Approved, "", [], [], [], [])
  }

  lemma BareIsConformant(id: string, domain: string, version: string)
    ensures Conformant(Bare(id, domain, version))
  {
  }

  /**
   Ontology "a" has version "1" in domain "d". An attempt to register its version "2" under domain "e" is
   refused, and from then on its owner can no longer register version "2" under domain "d".
   */
  lemma ForeignDomainBlocksVersion(env: Env, now: int)
    requires env.u.Lawful()
    ensures var (r, first) := Registered(env, Empty, Bare("a", "d", "1"), "", "", now);
            var (t, second) := Registered(env, r, Bare("a", "e", "2"), "", "", now);
            var (_, third) := Registered(env, t, Bare("a", "d", "2"), "", "", now);
            && first.Success? && second == Failure(DomainMismatch) && third == Failure(AlreadyExists)
            && Registered(env, r, Bare("a", "d", "2"), "", "", now).1.Success?
  {
    var u := env.u;
    TrimmedIsFixed(u, "a");
    BareIsConformant("a", "d", "1");
    BareIsConformant("a", "e", "2");
    BareIsConformant("a", "d", "2");
    LettersStay(u);
    hide Sanitize;
    hide Conformant;
    hide Sort;
  }

  lemma LettersStay(u: Unicode)
    requires u.Lawful()
    ensures Sanitize(u, "a") == "a" && Sanitize(u, "1") == "1" && Sanitize(u, "2") == "2"
    ensures "1" != "2" && !u.Blank("a") && !u.Blank("d") && !u.Blank("e") && !u.Blank("1") && !u.Blank("2")
  {
    TrimmedIsFixed(u, "a");
    assert u.Trim("1") == "1" && u.Trim("2") == "2" && u.Trim("d") == "d" && u.Trim("e") == "e";
    assert "1"[0] != "2"[0];
  }
}
