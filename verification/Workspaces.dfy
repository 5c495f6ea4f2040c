/**
 Workspaces and session bindings: who may act in a workspace, which workspace a session is pinned to, and
 how owners change the members. The registry file holds raw entries that are normalized on every read.
 */
module Workspaces {
  import opened Wrappers
  import opened Text
  import opened Identity

  datatype Role = Viewer | Editor | Admin | Owner

  datatype RawMember = RawMember(profileId: string, role: string, displayName: string)

  datatype RawWorkspace = RawWorkspace(id: string, members: seq<RawMember>, tenantId: string, apiKeyEnv: string)

  datatype Member = Member(profileId: string, role: Role)

  datatype Workspace = Workspace(id: string, members: seq<Member>)

  datatype Binding = Binding(profileId: string, workspaceId: string)

  /** The registry file and the state file. */
  datatype State = State(workspaces: seq<RawWorkspace>, profiles: map<string, string>, sessions: map<string, Binding>)

  datatype Access = Access(id: string, role: Role, profileId: string)

  datatype Error =
    | InvalidRegistry | NoMembership | NotAccessible | RoleRequired | WorkspaceNotFound | MemberNotFound
    | InvalidArgument | LastOwner | CannotRemoveSelf

  // ---------- Normalization ----------

  function ParseRole(u: Unicode, text: string): Option<Role> {
    var role := u.Lower(u.Trim(text));
    if role == "viewer" then Some(Viewer)
    else if role == "editor" then Some(Editor)
    else if role == "admin" then Some(Admin)
    else if role == "owner" then Some(Owner)
    else None
  }

  function Rank(role: Role): nat {
    match role
    case Viewer => 1
    case Editor => 2
    case Admin => 3
    case Owner => 4
  }

  predicate ValidMember(u: Unicode, m: RawMember) {
    !u.Blank(m.profileId) && ParseRole(u, m.role).Some?
  }

  predicate ValidWorkspace(u: Unicode, w: RawWorkspace) {
    && !u.Blank(w.id) && !u.Blank(w.tenantId) && !u.Blank(w.apiKeyEnv)
    && forall i :: 0 <= i < |w.members| ==> ValidMember(u, w.members[i])
  }

  /** One invalid entry makes every read of the registry fail. */
  predicate ValidRegistry(u: Unicode, ws: seq<RawWorkspace>) {
    ws != [] && forall i :: 0 <= i < |ws| ==> ValidWorkspace(u, ws[i])
  }

  function NormalMember(u: Unicode, m: RawMember): Member
    requires ValidMember(u, m)
  {
    Member(u.Trim(m.profileId), ParseRole(u, m.role).value)
  }

  function NormalWorkspace(u: Unicode, w: RawWorkspace): Workspace
    requires ValidWorkspace(u, w)
  {
    Workspace(u.Trim(w.id), seq(|w.members|, i requires 0 <= i < |w.members| => NormalMember(u, w.members[i])))
  }

  function All(u: Unicode, ws: seq<RawWorkspace>): seq<Workspace>
    requires ValidRegistry(u, ws)
  {
    seq(|ws|, i requires 0 <= i < |ws| => NormalWorkspace(u, ws[i]))
  }

  // ---------- Access ----------

  function MemberFor(members: seq<Member>, profileId: string): Option<Member> {
    if members == [] then None
    else if members[0].profileId == profileId then Some(members[0]) else MemberFor(members[1..], profileId)
  }

  function Accessible(ws: seq<Workspace>, profileId: string): seq<Workspace> {
    if ws == [] then []
    else
      var init, w := Accessible(ws[..|ws| - 1], profileId), ws[|ws| - 1];
      if MemberFor(w.members, profileId).Some? then init + [w] else init
  }

  function WithId(ws: seq<Workspace>, id: string): Option<Workspace> {
    if ws == [] then None else if ws[0].id == id then Some(ws[0]) else WithId(ws[1..], id)
  }

  lemma {:induction false} AccessibleMembers(ws: seq<Workspace>, profileId: string)
    ensures forall w :: w in Accessible(ws, profileId) <==> w in ws && MemberFor(w.members, profileId).Some?
  {
    if ws != [] {
      AccessibleMembers(ws[..|ws| - 1], profileId);
      assert ws == ws[..|ws| - 1] + [ws[|ws| - 1]];
    }
  }

  lemma {:induction false} WithIdFound(ws: seq<Workspace>, id: string)
    ensures var r := WithId(ws, id);
            && (r.Some? ==> r.value in ws && r.value.id == id)
            && (r.None? ==> forall w :: w in ws ==> w.id != id)
  {
    if ws != [] && ws[0].id != id {
      WithIdFound(ws[1..], id);
    }
  }

  /** The workspace asked for, or else selected before, or else the first; never one the profile cannot access. */
  function Resolved(u: Unicode, s: State, profileId: string, requestedId: Option<string>): Result<Access, Error> {
    if !ValidRegistry(u, s.workspaces) then Failure(InvalidRegistry)
    else
      var accessible := Accessible(All(u, s.workspaces), profileId);
      if accessible == [] then Failure(NoMembership)
      else
        var requested := u.Trim(if requestedId.Some? then requestedId.value
                                else if profileId in s.profiles then s.profiles[profileId] else "");
        var chosen := if requested != "" && WithId(accessible, requested).Some? then WithId(accessible, requested).value
                      else accessible[0];
        AccessibleMembers(All(u, s.workspaces), profileId);
        WithIdFound(accessible, requested);
        if requested != "" && chosen.id != requested then Failure(NotAccessible)
        else Success(Access(chosen.id, MemberFor(chosen.members, profileId).value.role, profileId))
  }

  /** The key a session is bound under: its stable id, or else its session key. */
  function BindingKey(n: Naming, sessionId: string, sessionKey: string): Option<string> {
    var stable, fallback := n.u.Trim(sessionId), n.u.Trim(sessionKey);
    if stable == "" && fallback == "" then None
    else Some(n.hash(if stable != "" then "session-id\0" + stable else "session-key\0" + fallback))
  }

  /** The profile of the human who created the session, if there is one. */
  function SessionProfile(u: Unicode, creator: Option<string>, sessionKey: string): Option<string> {
    if u.Blank(sessionKey) || creator.None? || u.Blank(creator.value) then None else Some(u.Trim(creator.value))
  }

  function Succeeded(r: Result<Access, Error>): Option<Access> {
    if r.Success? then Some(r.value) else None
  }

  /** A bound session resolves to its workspace or to nothing; an unbound one is bound to what it resolves to. */
  function SessionResolved(n: Naming, s: State, creator: Option<string>, sessionId: string,
                           sessionKey: string): (State, Option<Access>) {
    var profile, key := SessionProfile(n.u, creator, sessionKey), BindingKey(n, sessionId, sessionKey);
    if profile.None? || key.None? then (s, None)
    else if key.value in s.sessions then
      var binding := s.sessions[key.value];
      if n.u.Trim(binding.profileId) != profile.value || n.u.Blank(binding.workspaceId) then (s, None)
      else (s, Succeeded(Resolved(n.u, s, profile.value, Some(n.u.Trim(binding.workspaceId)))))
    else
      var access := Resolved(n.u, s, profile.value, None);
      if access.Failure? then (s, None)
      else (s.(sessions := s.sessions[key.value := Binding(profile.value, access.value.id)]), Some(access.value))
  }

  function Switched(u: Unicode, s: State, profileId: string, workspaceId: string): (State, Result<Access, Error>) {
    var access := Resolved(u, s, profileId, Some(workspaceId));
    if access.Failure? then (s, access) else (s.(profiles := s.profiles[profileId := access.value.id]), access)
  }

  // ---------- Members ----------

  predicate IsOwner(u: Unicode, m: RawMember) {
    ParseRole(u, m.role) == Some(Owner)
  }

  function OwnerCount(u: Unicode, ms: seq<RawMember>): nat {
    if ms == [] then 0 else OwnerCount(u, ms[..|ms| - 1]) + if IsOwner(u, ms[|ms| - 1]) then 1 else 0
  }

  /** The place of the first entry with the id, or the length of the list. */
  function PlaceOf(ms: seq<RawMember>, profileId: string): nat {
    if ms == [] || ms[0].profileId == profileId then 0 else 1 + PlaceOf(ms[1..], profileId)
  }

  function PlaceOfWorkspace(ws: seq<RawWorkspace>, id: string): nat {
    if ws == [] || ws[0].id == id then 0 else 1 + PlaceOfWorkspace(ws[1..], id)
  }

  lemma {:induction false} PlaceFound(ms: seq<RawMember>, profileId: string)
    ensures var k := PlaceOf(ms, profileId);
            && k <= |ms| && (k < |ms| ==> ms[k].profileId == profileId)
            && forall i :: 0 <= i < k ==> ms[i].profileId != profileId
  {
    if ms != [] && ms[0].profileId != profileId {
      PlaceFound(ms[1..], profileId);
      forall i | 0 <= i < PlaceOf(ms, profileId)
        ensures ms[i].profileId != profileId
      {
        assert i > 0 ==> ms[i] == ms[1..][i - 1];
      }
    }
  }

  lemma {:induction false} WorkspacePlaceFound(ws: seq<RawWorkspace>, id: string)
    ensures var k := PlaceOfWorkspace(ws, id);
            && k <= |ws| && (k < |ws| ==> ws[k].id == id)
            && forall i :: 0 <= i < k ==> ws[i].id != id
  {
    if ws != [] && ws[0].id != id {
      WorkspacePlaceFound(ws[1..], id);
      forall i | 0 <= i < PlaceOfWorkspace(ws, id)
        ensures ws[i].id != id
      {
        assert i > 0 ==> ws[i] == ws[1..][i - 1];
      }
    }
  }

  function Without(ms: seq<RawMember>, profileId: string): seq<RawMember> {
    if ms == [] then []
    else
      var init, m := Without(ms[..|ms| - 1], profileId), ms[|ms| - 1];
      if m.profileId != profileId then init + [m] else init
  }

  /** Adds a member or replaces the first entry of one, unless that would demote the last owner. */
  function Upserted(u: Unicode, ms: seq<RawMember>, member: RawMember, role: Role): Option<seq<RawMember>> {
    PlaceFound(ms, member.profileId);
    var k := PlaceOf(ms, member.profileId);
    if k == |ms| then Some(ms + [member])
    else if IsOwner(u, ms[k]) && role != Owner && OwnerCount(u, ms) <= 1 then None
    else Some(ms[k := member])
  }

  function RoleGranted(u: Unicode, s: State, callerId: string, workspaceId: string, minimum: Role): Option<Error> {
    var access := Resolved(u, s, callerId, Some(workspaceId));
    if access.Failure? then Some(access.error)
    else if Rank(access.value.role) < Rank(minimum) then Some(RoleRequired) else None
  }

  function MemberUpserted(u: Unicode, s: State, callerId: string, workspaceId: string, targetId: string,
                          role: string, displayName: string)
    : (State, Option<Error>)
  {
    WorkspacePlaceFound(s.workspaces, workspaceId);
    var refused := RoleGranted(u, s, callerId, workspaceId, Owner);
    var k := PlaceOfWorkspace(s.workspaces, workspaceId);
    if refused.Some? then (s, refused)
    else if k == |s.workspaces| then (s, Some(WorkspaceNotFound))
    else if u.Blank(targetId) || ParseRole(u, role).None? then (s, Some(InvalidArgument))
    else
      var member := RawMember(u.Trim(targetId), u.Lower(u.Trim(role)), u.Trim(displayName));
      var members := Upserted(u, s.workspaces[k].members, member, ParseRole(u, role).value);
      if members.None? then (s, Some(LastOwner))
      else (s.(workspaces := s.workspaces[k := s.workspaces[k].(members := members.value)]), None)
  }

  function MemberRemoved(u: Unicode, s: State, callerId: string, workspaceId: string, targetId: string): (State,
        Option<Error>) {
    WorkspacePlaceFound(s.workspaces, workspaceId);
    var refused := RoleGranted(u, s, callerId, workspaceId, Owner);
    var k := PlaceOfWorkspace(s.workspaces, workspaceId);
    if refused.Some? then (s, refused)
    else if callerId == targetId then (s, Some(CannotRemoveSelf))
    else if k == |s.workspaces| then (s, Some(WorkspaceNotFound))
    else if u.Blank(targetId) then (s, Some(InvalidArgument))
    else
      var before, target := s.workspaces[k].members, u.Trim(targetId);
      PlaceFound(before, target);
      var at := PlaceOf(before, target);
      if at == |before| then (s, Some(MemberNotFound))
      else if IsOwner(u, before[at]) && OwnerCount(u, before) <= 1 then (s, Some(LastOwner))
      else (s.(workspaces := s.workspaces[k := s.workspaces[k].(members := Without(before, target))]), None)
  }

  // ---------- The registry as the source runs it ----------

  class WorkspaceRegistry {
    const n: Naming
    var workspaces: seq<RawWorkspace>
    var profiles: map<string, string>
    var sessions: map<string, Binding>

    function Contents(): State
      reads this
    {
      State(workspaces, profiles, sessions)
    }

    constructor (n: Naming, workspaces: seq<RawWorkspace>)
      ensures this.n == n && Contents() == State(workspaces, map[], map[])
    {
      this.n := n;
      this.workspaces, profiles, sessions := workspaces, map[], map[];
    }

    method Resolve(profileId: string, requestedId: Option<string>) returns (r: Result<Access, Error>)
      ensures r == Resolved(n.u, Contents(), profileId, requestedId)
    {
      if !ValidRegistry(n.u, workspaces) {
        return Failure(InvalidRegistry);
      }
      var all := All(n.u, workspaces);
      hide NormalWorkspace;
      var accessible: seq<Workspace> := [];
      for i := 0 to |all|
        invariant accessible == Accessible(all[..i], profileId)
      {
        assert all[..i + 1][..i] == all[..i];
        if MemberFor(all[i].members, profileId).Some? {
          accessible := accessible + [all[i]];
        }
      }
      assert all[..|all|] == all;
      if |accessible| == 0 {
        return Failure(NoMembership);
      }
      var requested := n.u.Trim(if requestedId.Some? then requestedId.value
                                else if profileId in profiles then profiles[profileId] else "");
      var chosen := accessible[0];
      if requested != "" && WithId(accessible, requested).Some? {
        chosen := WithId(accessible, requested).value;
      }
      if requested != "" && chosen.id != requested {
        return Failure(NotAccessible);
      }
      AccessibleMembers(all, profileId);
      WithIdFound(accessible, requested);
      r := Success(Access(chosen.id, MemberFor(chosen.members, profileId).value.role, profileId));
    }

    method ResolveSession(creator: Option<string>, sessionId: string, sessionKey: string)
      returns (access: Option<Access>)
      modifies this
      ensures (Contents(), access) == SessionResolved(n, old(Contents()), creator, sessionId, sessionKey)
    {
      hide Resolved;
      var profile, key := SessionProfile(n.u, creator, sessionKey), BindingKey(n, sessionId, sessionKey);
      if profile.None? || key.None? {
        return None;
      }
      if key.value in sessions {
        var binding := sessions[key.value];
        if n.u.Trim(binding.profileId) != profile.value {
          return None;
        }
        var workspaceId := n.u.Trim(binding.workspaceId);
        if workspaceId == "" {
          return None;
        }
        var pinned := Resolve(profile.value, Some(workspaceId));
        return Succeeded(pinned);
      }
      var resolved := Resolve(profile.value, None);
      if resolved.Failure? {
        return None;
      }
      sessions := sessions[key.value := Binding(profile.value, resolved.value.id)];
      access := Some(resolved.value);
    }

    method Switch(profileId: string, workspaceId: string) returns (r: Result<Access, Error>)
      modifies this
      ensures (Contents(), r) == Switched(n.u, old(Contents()), profileId, workspaceId)
    {
      hide Resolved;
      r := Resolve(profileId, Some(workspaceId));
      if r.Success? {
        profiles := profiles[profileId := r.value.id];
      }
    }

    method RequireRole(profileId: string, workspaceId: string, minimum: Role) returns (refused: Option<Error>)
      ensures refused == RoleGranted(n.u, Contents(), profileId, workspaceId, minimum)
    {
      hide Resolved;
      var access := Resolve(profileId, Some(workspaceId));
      if access.Failure? {
        return Some(access.error);
      }
      if Rank(access.value.role) < Rank(minimum) {
        return Some(RoleRequired);
      }
      refused := None;
    }

    method CountOwners(ms: seq<RawMember>) returns (count: nat)
      ensures count == OwnerCount(n.u, ms)
    {
      hide IsOwner;
      count := 0;
      for i := 0 to |ms|
        invariant count == OwnerCount(n.u, ms[..i])
      {
        assert ms[..i + 1][..i] == ms[..i];
        if IsOwner(n.u, ms[i]) {
          count := count + 1;
        }
      }
      assert ms[..|ms|] == ms;
    }

    method FindMember(ms: seq<RawMember>, profileId: string) returns (k: nat)
      ensures k == PlaceOf(ms, profileId)
    {
      k := 0;
      while k < |ms| && ms[k].profileId != profileId
        invariant k <= |ms| && PlaceOf(ms, profileId) == k + PlaceOf(ms[k..], profileId)
      {
        assert ms[k..][1..] == ms[k + 1..];
        k := k + 1;
      }
    }

    method FindWorkspace(id: string) returns (k: nat)
      ensures k == PlaceOfWorkspace(workspaces, id)
    {
      k := 0;
      while k < |workspaces| && workspaces[k].id != id
        invariant k <= |workspaces| && PlaceOfWorkspace(workspaces, id) == k + PlaceOfWorkspace(workspaces[k..], id)
      {
        assert workspaces[k..][1..] == workspaces[k + 1..];
        k := k + 1;
      }
    }

    method UpsertMember(callerId: string, workspaceId: string, targetId: string, role: string, displayName: string)
      returns (error: Option<Error>)
      modifies this
      ensures (Contents(), error) == MemberUpserted(n.u, old(Contents()), callerId, workspaceId, targetId, role,
                                                    displayName)
    {
      hide Resolved;
      hide ParseRole;
      var refused := RequireRole(callerId, workspaceId, Owner);
      if refused.Some? {
        return refused;
      }
      var k := FindWorkspace(workspaceId);
      WorkspacePlaceFound(workspaces, workspaceId);
      if k == |workspaces| {
        return Some(WorkspaceNotFound);
      }
      var members := workspaces[k].members;
      if n.u.Blank(targetId) || ParseRole(n.u, role).None? {
        return Some(InvalidArgument);
      }
      var member := RawMember(n.u.Trim(targetId), n.u.Lower(n.u.Trim(role)), n.u.Trim(displayName));
      var at := FindMember(members, member.profileId);
      PlaceFound(members, member.profileId);
      if at < |members| && IsOwner(n.u, members[at]) && ParseRole(n.u, role).value != Owner {
        var owners := CountOwners(members);
        if owners <= 1 {
          return Some(LastOwner);
        }
      }
      if at < |members| {
        members := members[at := member];
      } else {
        members := members + [member];
      }
      workspaces := workspaces[k := workspaces[k].(members := members)];
      error := None;
    }

    method RemoveMember(callerId: string, workspaceId: string, targetId: string) returns (error: Option<Error>)
      modifies this
      ensures (Contents(), error) == MemberRemoved(n.u, old(Contents()), callerId, workspaceId, targetId)
    {
      hide Resolved;
      hide ParseRole;
      var refused := RequireRole(callerId, workspaceId, Owner);
      if refused.Some? {
        return refused;
      }
      if callerId == targetId {
        return Some(CannotRemoveSelf);
      }
      var k := FindWorkspace(workspaceId);
      WorkspacePlaceFound(workspaces, workspaceId);
      if k == |workspaces| {
        return Some(WorkspaceNotFound);
      }
      var before := workspaces[k].members;
      if n.u.Blank(targetId) {
        return Some(InvalidArgument);
      }
      var target := n.u.Trim(targetId);
      var at := FindMember(before, target);
      PlaceFound(before, target);
      if at == |before| {
        return Some(MemberNotFound);
      }
      if IsOwner(n.u, before[at]) {
        var owners := CountOwners(before);
        if owners <= 1 {
          return Some(LastOwner);
        }
      }
      var kept: seq<RawMember> := [];
      for i := 0 to |before|
        invariant kept == Without(before[..i], target)
      {
        assert before[..i + 1][..i] == before[..i];
        if before[i].profileId != target {
          kept := kept + [before[i]];
        }
      }
      assert before[..|before|] == before;
      workspaces := workspaces[k := workspaces[k].(members := kept)];
      error := None;
    }
  }
}
