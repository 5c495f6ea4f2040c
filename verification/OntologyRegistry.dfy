/**
 The ontology registry: immutable version payloads, one mutable manifest per ontology with an active
 version, and bindings of knowledge bases that follow the active version or are pinned to one.

 Every operation runs under one lock, so a run is a sequence of operations. Manifests, payloads and
 bindings are kept by the sanitized forms of their names, exactly as the files are.
 */
module OntologyRegistry {
  import opened Wrappers
  import opened Text
  import opened Sorting
  import opened OntologyModel

  datatype Meta = Meta(
    ontologyId: string, domain: string, version: string, published: bool, digest: string, createdAt: int,
    createdBy: string, publishedAt: Option<int>, publishedBy: string, parentVersion: string, notes: string)

  datatype Manifest = Manifest(id: string, domain: string, activeVersion: string, versions: seq<Meta>, updatedAt: int)

  datatype Binding = Binding(
    knowledgeBaseId: string, ontologyId: string, mode: string, version: string, updatedAt: int, updatedBy: string)

  datatype Registry = Registry(
    manifests: map<string, Manifest>, payloads: map<(string, string), Ontology>, bindings: map<string, Binding>)

  datatype Error =
    | OntologyNotFound | VersionNotFound | BindingNotFound | PayloadMissing | ChecksumMismatch | AlreadyExists
    | DomainMismatch | NotPublished | NotPublishable | Invalid

  datatype Resolution = Resolution(ontology: Ontology, binding: Binding, version: Meta)

  /** The text tables and the content hash the registry is run with. */
  datatype Env = Env(u: Unicode, digest: Ontology -> string)

  const Empty := Registry(map[], map[], map[])

  // ---------- Names and lookups ----------

  function Sanitize(u: Unicode, s: string): string {
    var t := u.Trim(s);
    if t == "" then "default"
    else seq(|t|, i requires 0 <= i < |t| => if t[i] == '/' || t[i] == '\\' || t[i] == ' ' then '_' else t[i])
  }

  function FindVersion(versions: seq<Meta>, version: string): Option<Meta> {
    if versions == [] then None
    else if versions[0].version == version then Some(versions[0]) else FindVersion(versions[1..], version)
  }

  function LoadManifest(env: Env, r: Registry, id: string): Result<Manifest, Error> {
    var key := Sanitize(env.u, id);
    if key in r.manifests then Success(r.manifests[key]) else Failure(OntologyNotFound)
  }

  function GetVersion(env: Env, r: Registry, id: string, version: string): Result<(Ontology, Meta), Error> {
    var manifest := LoadManifest(env, r, id);
    if manifest.Failure? then Failure(manifest.error)
    else
      var meta := FindVersion(manifest.value.versions, version);
      var path := (Sanitize(env.u, id), Sanitize(env.u, version));
      if meta.None? then Failure(VersionNotFound)
      else if path !in r.payloads then Failure(PayloadMissing)
      else if meta.value.digest != "" && env.digest(r.payloads[path]) != meta.value.digest then
        Failure(ChecksumMismatch)
      else Success((r.payloads[path], meta.value))
  }

  /** Approved, well formed, and with every high-risk review item approved. */
  predicate Publishable(o: Ontology) {
    && o.status == Approved
    && Conformant(o)
    && forall i :: 0 <= i < |o.reviewQueue| ==>
         o.reviewQueue[i].risk == "high" ==> o.reviewQueue[i].status == "approved"
  }

  // ---------- Operations ----------

  function CreatedOrder(): (Meta, Meta) -> bool {
    (a: Meta, b: Meta) => a.createdAt < b.createdAt
  }

  function NewMeta(env: Env, o: Ontology, actor: string, notes: string, now: int): Meta {
    Meta(o.id, o.domain, o.version, false, env.digest(o), now, env.u.Trim(actor), None, "",
         env.u.Trim(o.parentVersion), env.u.Trim(notes))
  }

  /** A payload is stored before the manifest is looked at, and stays when the domain does not match. */
  function Registered(env: Env, r: Registry, o: Ontology, actor: string, notes: string, now: int): (Registry,
        Result<Meta, Error>) {
    var path := (Sanitize(env.u, o.id), Sanitize(env.u, o.version));
    if env.u.Blank(o.id) || env.u.Blank(o.domain) || env.u.Blank(o.version) || !Conformant(o) then (r, Failure(Invalid))
    else if path in r.payloads then (r, Failure(AlreadyExists))
    else
      var stored := r.(payloads := r.payloads[path := o]);
      var found := LoadManifest(env, r, o.id);
      var manifest := if found.Success? then found.value else Manifest(o.id, o.domain, "", [], 0);
      if manifest.domain != o.domain then (stored, Failure(DomainMismatch))
      else
        var meta := NewMeta(env, o, actor, notes, now);
        var updated := manifest.(versions := Sort(manifest.versions + [meta], CreatedOrder()), updatedAt := now);
        (stored.(manifests := r.manifests[Sanitize(env.u, manifest.id) := updated]), Success(meta))
  }

  /** Marks the first entry of the version as published. */
  function Released(versions: seq<Meta>, version: string, actor: string, now: int): seq<Meta> {
    if versions == [] then []
    else if versions[0].version == version then
      [versions[0].(published := true, publishedAt := Some(now), publishedBy := actor)] + versions[1..]
    else [versions[0]] + Released(versions[1..], version, actor, now)
  }

  function Published(env: Env, r: Registry, id: string, version: string, actor: string, now: int): (Registry,
        Result<Meta, Error>) {
    var got := GetVersion(env, r, id, version);
    if got.Failure? then (r, Failure(got.error))
    else if !Publishable(got.value.0) then (r, Failure(NotPublishable))
    else
      var manifest := LoadManifest(env, r, id).value;
      var updated := manifest.(versions := Released(manifest.versions, version, env.u.Trim(actor), now),
                               activeVersion := version, updatedAt := now);
      var meta := FindVersion(updated.versions, version);
      (r.(manifests := r.manifests[Sanitize(env.u, manifest.id) := updated]),
       if meta.Some? then Success(meta.value) else Failure(VersionNotFound))
  }

  function Activated(env: Env, r: Registry, id: string, version: string, now: int): (Registry, Option<Error>) {
    var manifest := LoadManifest(env, r, id);
    if manifest.Failure? then (r, Some(manifest.error))
    else
      var meta := FindVersion(manifest.value.versions, version);
      if meta.None? then (r, Some(VersionNotFound))
      else if !meta.value.published then (r, Some(NotPublished))
      else
        var updated := manifest.value.(activeVersion := version, updatedAt := now);
        (r.(manifests := r.manifests[Sanitize(env.u, manifest.value.id) := updated]), None)
  }

  /** A binding request as it is stored: trimmed, with a lower-case mode, and without a version when it is active. */
  function Normalized(env: Env, raw: Binding, now: int): Binding {
    var u := env.u;
    var mode := u.Lower(u.Trim(raw.mode));
    raw.(knowledgeBaseId := u.Trim(raw.knowledgeBaseId), ontologyId := u.Trim(raw.ontologyId), mode := mode,
         version := if mode == "active" then "" else u.Trim(raw.version), updatedAt := now)
  }

  function Bound(env: Env, r: Registry, raw: Binding, now: int): (Registry, Option<Error>) {
    var b := Normalized(env, raw, now);
    if b.knowledgeBaseId == "" || b.ontologyId == "" then (r, Some(Invalid))
    else
      var manifest := LoadManifest(env, r, b.ontologyId);
      var stored := r.(bindings := r.bindings[Sanitize(env.u, b.knowledgeBaseId) := b]);
      if manifest.Failure? then (r, Some(manifest.error))
      else if b.mode == "active" then
        if manifest.value.activeVersion == "" then (r, Some(NotPublished)) else (stored, None)
      else if b.mode == "pinned" then
        var meta := FindVersion(manifest.value.versions, b.version);
        if meta.None? then (r, Some(VersionNotFound))
        else if !meta.value.published then (r, Some(NotPublished))
        else (stored, None)
      else (r, Some(Invalid))
  }

  function Resolved(env: Env, r: Registry, knowledgeBaseId: string): Result<Resolution, Error> {
    var key := Sanitize(env.u, knowledgeBaseId);
    if key !in r.bindings then Failure(BindingNotFound)
    else
      var binding := r.bindings[key];
      var manifest := LoadManifest(env, r, binding.ontologyId);
      if manifest.Failure? then Failure(manifest.error)
      else
        var version := if binding.mode == "active" then manifest.value.activeVersion else binding.version;
        if version == "" then Failure(NotPublished)
        else
          var got := GetVersion(env, r, binding.ontologyId, version);
          if got.Failure? then Failure(got.error)
          else if !got.value.1.published then Failure(NotPublished)
          else Success(Resolution(got.value.0, binding, got.value.1))
  }

  // ---------- The registry as the source runs it ----------

  class FSRegistry {
    const env: Env
    var manifests: map<string, Manifest>
    var payloads: map<(string, string), Ontology>
    var bindings: map<string, Binding>

    function Contents(): Registry
      reads this
    {
      Registry(manifests, payloads, bindings)
    }

    constructor (env: Env)
      ensures this.env == env && Contents() == Empty
    {
      this.env := env;
      manifests, payloads, bindings := map[], map[], map[];
    }

    method Find(versions: seq<Meta>, version: string) returns (found: Option<Meta>)
      ensures found == FindVersion(versions, version)
    {
      for n := 0 to |versions|
        invariant FindVersion(versions, version) == FindVersion(versions[n..], version)
      {
        if versions[n].version == version {
          return Some(versions[n]);
        }
        assert versions[n..][1..] == versions[n + 1..];
      }
      found := None;
    }

    method Get(id: string, version: string) returns (r: Result<(Ontology, Meta), Error>)
      ensures r == GetVersion(env, Contents(), id, version)
    {
      var key := Sanitize(env.u, id);
      if key !in manifests {
        return Failure(OntologyNotFound);
      }
      var meta := Find(manifests[key].versions, version);
      if meta.None? {
        return Failure(VersionNotFound);
      }
      var path := (key, Sanitize(env.u, version));
      if path !in payloads {
        return Failure(PayloadMissing);
      }
      if meta.value.digest != "" && env.digest(payloads[path]) != meta.value.digest {
        return Failure(ChecksumMismatch);
      }
      r := Success((payloads[path], meta.value));
    }

    method RegisterVersion(o: Ontology, actor: string, notes: string, now: int) returns (r: Result<Meta, Error>)
      modifies this
      ensures (Contents(), r) == Registered(env, old(Contents()), o, actor, notes, now)
    {
      hide Conformant;
      if env.u.Blank(o.id) || env.u.Blank(o.domain) || env.u.Blank(o.version) || !Conformant(o) {
        return Failure(Invalid);
      }
      var key := Sanitize(env.u, o.id);
      var path := (key, Sanitize(env.u, o.version));
      if path in payloads {
        return Failure(AlreadyExists);
      }
      payloads := payloads[path := o];
      var manifest := if key in manifests then manifests[key] else Manifest(o.id, o.domain, "", [], 0);
      if manifest.domain != o.domain {
        return Failure(DomainMismatch);
      }
      var meta := NewMeta(env, o, actor, notes, now);
      manifest := manifest.(versions := Sort(manifest.versions + [meta], CreatedOrder()), updatedAt := now);
      manifests := manifests[Sanitize(env.u, manifest.id) := manifest];
      r := Success(meta);
    }

    method Publish(id: string, version: string, actor: string, now: int) returns (r: Result<Meta, Error>)
      modifies this
      ensures (Contents(), r) == Published(env, old(Contents()), id, version, actor, now)
    {
      hide Conformant;
      var got := Get(id, version);
      if got.Failure? {
        return Failure(got.error);
      }
      if !Publishable(got.value.0) {
        return Failure(NotPublishable);
      }
      var manifest := manifests[Sanitize(env.u, id)];
      var versions := manifest.versions;
      var n := 0;
      while n < |versions| && versions[n].version != version
        invariant n <= |versions|
        invariant forall i :: 0 <= i < n ==> versions[i].version != version
      {
        n := n + 1;
      }
      FoundAt(versions, version, env.u.Trim(actor), now, n);
      var meta := versions[n].(published := true, publishedAt := Some(now), publishedBy := env.u.Trim(actor));
      manifest := manifest.(versions := versions[n := meta], activeVersion := version, updatedAt := now);
      manifests := manifests[Sanitize(env.u, manifest.id) := manifest];
      r := Success(meta);
    }

    method Activate(id: string, version: string, now: int) returns (error: Option<Error>)
      modifies this
      ensures (Contents(), error) == Activated(env, old(Contents()), id, version, now)
    {
      var key := Sanitize(env.u, id);
      if key !in manifests {
        return Some(OntologyNotFound);
      }
      var manifest := manifests[key];
      var meta := Find(manifest.versions, version);
      if meta.None? {
        return Some(VersionNotFound);
      }
      if !meta.value.published {
        return Some(NotPublished);
      }
      manifest := manifest.(activeVersion := version, updatedAt := now);
      manifests := manifests[Sanitize(env.u, manifest.id) := manifest];
      error := None;
    }

    method BindKnowledgeBase(raw: Binding, now: int) returns (error: Option<Error>)
      modifies this
      ensures (Contents(), error) == Bound(env, old(Contents()), raw, now)
    {
      var u := env.u;
      var b := raw.(knowledgeBaseId := u.Trim(raw.knowledgeBaseId), ontologyId := u.Trim(raw.ontologyId),
                    mode := u.Lower(u.Trim(raw.mode)), version := u.Trim(raw.version), updatedAt := now);
      if b.knowledgeBaseId == "" || b.ontologyId == "" {
        return Some(Invalid);
      }
      var key := Sanitize(u, b.ontologyId);
      if key !in manifests {
        return Some(OntologyNotFound);
      }
      if b.mode == "active" {
        if manifests[key].activeVersion == "" {
          return Some(NotPublished);
        }
        b := b.(version := "");
      } else if b.mode == "pinned" {
        var meta := Find(manifests[key].versions, b.version);
        if meta.None? {
          return Some(VersionNotFound);
        }
        if !meta.value.published {
          return Some(NotPublished);
        }
      } else {
        return Some(Invalid);
      }
      bindings := bindings[Sanitize(u, b.knowledgeBaseId) := b];
      error := None;
    }

    method ResolveForKnowledgeBase(knowledgeBaseId: string) returns (r: Result<Resolution, Error>)
      ensures r == Resolved(env, Contents(), knowledgeBaseId)
    {
      var key := Sanitize(env.u, knowledgeBaseId);
      if key !in bindings {
        return Failure(BindingNotFound);
      }
      var binding := bindings[key];
      if Sanitize(env.u, binding.ontologyId) !in manifests {
        return Failure(OntologyNotFound);
      }
      var version := binding.version;
      if binding.mode == "active" {
        version := manifests[Sanitize(env.u, binding.ontologyId)].activeVersion;
      }
      if version == "" {
        return Failure(NotPublished);
      }
      var got := Get(binding.ontologyId, version);
      if got.Failure? {
        return Failure(got.error);
      }
      if !got.value.1.published {
        return Failure(NotPublished);
      }
      r := Success(Resolution(got.value.0, binding, got.value.1));
    }
  }

  /** Where a linear search finds the version is the entry that is found and released. */
  lemma {:induction false} FoundAt(versions: seq<Meta>, version: string, actor: string, now: int, n: nat)
    requires FindVersion(versions, version).Some?
    requires n <= |versions| && forall i :: 0 <= i < n ==> versions[i].version != version
    requires n < |versions| ==> versions[n].version == version
    ensures n < |versions| && FindVersion(versions, version) == Some(versions[n])
    ensures var meta := versions[n].(published := true, publishedAt := Some(now), publishedBy := actor);
            && Released(versions, version, actor, now) == versions[n := meta]
            && FindVersion(Released(versions, version, actor, now), version) == Some(meta)
  {
    if n > 0 {
      FoundAt(versions[1..], version, actor, now, n - 1);
    }
  }
}
